/**
 * The validator wired into order submission: every check runs and appends its
 * errors to one list, and the total price is accumulated along the way from
 * the size pricing row and the ingredient rows found.
 */
module DirectValidation {
  import opened Tally
  import opened Catalog
  import opened IngredientDao

  /** A DishPricing row: base price in cents and the ingredient limit of one dish and size. */
  datatype Pricing = Pricing(basePrice: nat, maxIngredients: nat)

  type PricingTable = map<(nat, string), Pricing>

  /** `{valid, errors, totalPrice}`, the price in cents. */
  datatype DirectResult = DirectResult(valid: bool, errors: seq<OrderError>, totalPrice: nat)

  /** An entry of `ingredientsWithQuantity`. */
  datatype Quantity = Quantity(id: nat, quantity: nat)

  // ---------------------------------------------------------------------------
  // The quantity list built by the order-submission handler

  function QuantitySum(q: seq<Quantity>): nat
  {
    if q == [] then 0 else QuantitySum(q[..|q| - 1]) + q[|q| - 1].quantity
  }

  /**
   * The counts dictionary turned into `{id, quantity}` entries: one per
   * distinct id, in ascending id order, with the number of occurrences as
   * quantity; the quantities add up to the length of the list.
   */
  method IngredientsWithQuantity(ids: seq<nat>) returns (q: seq<Quantity>)
    ensures |q| == |SortedDistinct(ids)|
    ensures forall i :: 0 <= i < |q| ==>
              q[i].id == SortedDistinct(ids)[i] && q[i].quantity == Count(ids, q[i].id) && q[i].quantity >= 1
    ensures QuantitySum(q) == |ids|
  {
    var counts := CountIngredients(ids);
    var keys := SortedDistinct(ids);
    q := [];
    for i := 0 to |keys|
      invariant |q| == i
      invariant forall j :: 0 <= j < i ==> q[j] == Quantity(keys[j], Count(ids, keys[j]))
    {
      var id := keys[i];
      assert id in ids;
      assert id in counts && counts[id] == Count(ids, id);
      q := q + [Quantity(id, counts[id])];
    }
    QuantitiesOfKeys(q, ids);
  }

  lemma QuantitiesOfKeys(q: seq<Quantity>, ids: seq<nat>)
    requires |q| == |SortedDistinct(ids)|
    requires forall j :: 0 <= j < |q| ==> q[j] == Quantity(SortedDistinct(ids)[j], Count(ids, SortedDistinct(ids)[j]))
    ensures forall i :: 0 <= i < |q| ==> q[i].quantity >= 1
    ensures QuantitySum(q) == |ids|
  {
    var keys := SortedDistinct(ids);
    QuantitySumByKeys(q, keys, ids);
    CountsSumToLength(ids);
    forall i | 0 <= i < |q|
      ensures q[i].quantity >= 1
    {
      assert keys[i] in ids;
    }
  }

  lemma {:induction false} QuantitySumByKeys(q: seq<Quantity>, keys: seq<nat>, ids: seq<nat>)
    requires |q| == |keys|
    requires forall j :: 0 <= j < |q| ==> q[j] == Quantity(keys[j], Count(ids, keys[j]))
    ensures QuantitySum(q) == Weighted(keys, ids, One)
  {
    if q != [] {
      var n := |q| - 1;
      QuantitySumByKeys(q[..n], keys[..n], ids);
      assert Term(One, keys[n], ids) == Count(ids, keys[n]);
    }
  }

  // ---------------------------------------------------------------------------
  // The checks, as functions of the rows they read

  function DishErrors(dishes: set<nat>, dishId: nat): seq<OrderError>
  {
    if dishId in dishes then [] else [InvalidDishId(dishId)]
  }

  function SizeErrors(pricing: PricingTable, dishId: nat, size: string, n: nat): seq<OrderError>
  {
    if (dishId, size) !in pricing then [InvalidSize(size)]
    else if n > pricing[(dishId, size)].maxIngredients then
      [TooManyMaximumAllowed(size, pricing[(dishId, size)].maxIngredients)]
    else []
  }

  function UnknownErrors(missing: seq<nat>): seq<OrderError>
  {
    if |missing| > 0 then [InvalidIngredientIds(missing)] else []
  }

  /** One "Not enough" error per found ingredient whose finite stock is below its count. */
  function StockErrors(ids: seq<nat>, infos: seq<IngredientInfo>): (errs: seq<OrderError>)
    ensures forall e :: e in errs ==> e.NotEnough?
  {
    if infos == [] then []
    else
      var i := infos[|infos| - 1].ingredient;
      StockErrors(ids, infos[..|infos| - 1])
        + (if i.portions.Some? && Count(ids, i.id) > i.portions.value
           then [NotEnough(i.name, Count(ids, i.id), i.portions.value)] else [])
  }

  /** Price times count, summed over the found ingredients. */
  function PriceTotal(ids: seq<nat>, infos: seq<IngredientInfo>): nat
  {
    if infos == [] then 0
    else
      var i := infos[|infos| - 1].ingredient;
      PriceTotal(ids, infos[..|infos| - 1]) + i.price * Count(ids, i.id)
  }

  /** The "requires ... to be selected" errors of one ingredient's `requires` list. */
  function MissingOf(name: string, refs: seq<Ref>, sel: seq<nat>): (errs: seq<OrderError>)
    ensures forall e :: e in errs ==> e.RequiresToBeSelected?
  {
    if refs == [] then []
    else
      var r := refs[|refs| - 1];
      MissingOf(name, refs[..|refs| - 1], sel) + (if r.id !in sel then [RequiresToBeSelected(name, r.name)] else [])
  }

  function RequirementErrors(infos: seq<IngredientInfo>, sel: seq<nat>): (errs: seq<OrderError>)
    ensures forall e :: e in errs ==> e.RequiresToBeSelected?
  {
    if infos == [] then []
    else
      var info := infos[|infos| - 1];
      RequirementErrors(infos[..|infos| - 1], sel) + MissingOf(info.ingredient.name, info.required, sel)
  }

  /** The "is incompatible with" errors of one ingredient's `incompatible_with` list. */
  function ClashesOf(name: string, refs: seq<Ref>, sel: seq<nat>): (errs: seq<OrderError>)
    ensures forall e :: e in errs ==> e.IncompatibleWith?
  {
    if refs == [] then []
    else
      var r := refs[|refs| - 1];
      ClashesOf(name, refs[..|refs| - 1], sel) + (if r.id in sel then [IncompatibleWith(name, r.name)] else [])
  }

  function ConflictErrors(infos: seq<IngredientInfo>, sel: seq<nat>): (errs: seq<OrderError>)
    ensures forall e :: e in errs ==> e.IncompatibleWith?
  {
    if infos == [] then []
    else
      var info := infos[|infos| - 1];
      ConflictErrors(infos[..|infos| - 1], sel) + ClashesOf(info.ingredient.name, info.incompatible, sel)
  }

  /** Everything the validator reports, in the order it reports it. */
  function DirectErrors(dishes: set<nat>, pricing: PricingTable, t: Table, reqs: seq<Edge>, incs: seq<Edge>,
                        dishId: nat, size: string, ids: seq<nat>): seq<OrderError>
  {
    var infos := Infos(t, reqs, incs, ids);
    DishErrors(dishes, dishId)
      + SizeErrors(pricing, dishId, size, |ids|)
      + UnknownErrors(Without(ids, FoundIds(t, ids)))
      + StockErrors(ids, infos)
      + RequirementErrors(infos, SortedDistinct(ids))
      + ConflictErrors(infos, SortedDistinct(ids))
  }

  /** The legal selection the validator accepts, stated without reference to how it checks. */
  predicate DirectlyAcceptable(dishes: set<nat>, pricing: PricingTable, t: Table, reqs: seq<Edge>,
                               incs: seq<Edge>, dishId: nat, size: string, ids: seq<nat>)
  {
    dishId in dishes && (dishId, size) in pricing && |ids| <= pricing[(dishId, size)].maxIngredients
    && Acceptable(t, reqs, incs, ids)
  }

  // ---------------------------------------------------------------------------
  // validateOrderDirectly

  /**
   * `validateOrderDirectly`: runs every check without stopping at the first
   * failure; the order is valid exactly when no error was reported, which is
   * exactly when the selection is legal, and the total is the base price of
   * the dish and size (when it has a pricing row) plus one ingredient price
   * per occurrence.
   */
  method ValidateOrderDirectly(dishes: set<nat>, pricing: PricingTable, t: Table, reqs: seq<Edge>,
                               incs: seq<Edge>, dishId: nat, size: string, ids: seq<nat>)
    returns (res: DirectResult)
    ensures res.errors == DirectErrors(dishes, pricing, t, reqs, incs, dishId, size, ids)
    ensures res.valid <==> res.errors == []
    ensures res.valid <==> DirectlyAcceptable(dishes, pricing, t, reqs, incs, dishId, size, ids)
    ensures res.totalPrice ==
              (if (dishId, size) in pricing then pricing[(dishId, size)].basePrice else 0) + SumBy(ids, PriceIn(t))
  {
    var errors, totalPrice := CheckDishAndSize(dishes, pricing, dishId, size, |ids|);

    var ingredients := GetIngredientsByIds(t, reqs, incs, ids);
    var invalidErrors := CheckKnownIds(t, reqs, incs, ids, ingredients);
    errors := errors + invalidErrors;

    var counts := CountIngredients(ids);
    var stockErrors, subtotal := CheckAvailability(ids, counts, ingredients);
    errors := errors + stockErrors;
    totalPrice := totalPrice + subtotal;

    var unique := SortedDistinct(ids);
    var requirementErrors := CheckRequiredSelected(ingredients, unique);
    var incompatibilityErrors := CheckIncompatibleSelected(ingredients, unique);
    errors := errors + requirementErrors + incompatibilityErrors;

    PriceTotalOfInfos(t, reqs, incs, ids);
    DirectValidIff(dishes, pricing, t, reqs, incs, dishId, size, ids);
    res := DirectResult(|errors| == 0, errors, totalPrice);
  }

  /** The dish check and the pricing lookup: their errors, and the base price when the size is priced. */
  method CheckDishAndSize(dishes: set<nat>, pricing: PricingTable, dishId: nat, size: string, n: nat)
    returns (errors: seq<OrderError>, base: nat)
    ensures errors == DishErrors(dishes, dishId) + SizeErrors(pricing, dishId, size, n)
    ensures base == if (dishId, size) in pricing then pricing[(dishId, size)].basePrice else 0
  {
    errors, base := [], 0;
    if dishId !in dishes {
      errors := errors + [InvalidDishId(dishId)];
    }
    if (dishId, size) !in pricing {
      errors := errors + [InvalidSize(size)];
    } else {
      var info := pricing[(dishId, size)];
      base := base + info.basePrice;
      if n > info.maxIngredients {
        errors := errors + [TooManyMaximumAllowed(size, info.maxIngredients)];
      }
    }
  }

  /** The ids the lookup did not return, reported together in one error. */
  method CheckKnownIds(t: Table, reqs: seq<Edge>, incs: seq<Edge>, ids: seq<nat>, ingredients: seq<IngredientInfo>)
    returns (errors: seq<OrderError>)
    requires ingredients == Infos(t, reqs, incs, ids)
    ensures errors == UnknownErrors(Without(ids, FoundIds(t, ids)))
  {
    var available := seq(|ingredients|, i requires 0 <= i < |ingredients| => ingredients[i].ingredient.id);
    assert available == FoundIds(t, ids);
    var invalid := Without(ids, available);
    errors := [];
    if |invalid| > 0 {
      errors := errors + [InvalidIngredientIds(invalid)];
    }
  }

  /** The availability loop: "Not enough" errors and the ingredient part of the total. */
  method CheckAvailability(ids: seq<nat>, counts: map<nat, nat>, ingredients: seq<IngredientInfo>)
    returns (errors: seq<OrderError>, subtotal: nat)
    requires forall x :: x in counts <==> x in ids
    requires forall x :: x in counts ==> counts[x] == Count(ids, x)
    requires forall info :: info in ingredients ==> info.ingredient.id in ids
    ensures errors == StockErrors(ids, ingredients)
    ensures subtotal == PriceTotal(ids, ingredients)
  {
    errors, subtotal := [], 0;
    for i := 0 to |ingredients|
      invariant errors == StockErrors(ids, ingredients[..i])
      invariant subtotal == PriceTotal(ids, ingredients[..i])
    {
      var ingredient := ingredients[i].ingredient;
      assert ingredients[i] in ingredients;
      assert ingredients[..i + 1][..i] == ingredients[..i];
      var requested := counts[ingredient.id];
      if ingredient.portions.Some? && requested > ingredient.portions.value {
        errors := errors + [NotEnough(ingredient.name, requested, ingredient.portions.value)];
      }
      subtotal := subtotal + ingredient.price * requested;
    }
    assert ingredients[..|ingredients|] == ingredients;
  }

  /** The requirement loops: one error per `requires` entry that is not selected. */
  method CheckRequiredSelected(ingredients: seq<IngredientInfo>, unique: seq<nat>) returns (errors: seq<OrderError>)
    ensures errors == RequirementErrors(ingredients, unique)
  {
    errors := [];
    for i := 0 to |ingredients|
      invariant errors == RequirementErrors(ingredients[..i], unique)
    {
      var ingredient := ingredients[i];
      var refs := ingredient.required;
      ghost var before := errors;
      for j := 0 to |refs|
        invariant errors == before + MissingOf(ingredient.ingredient.name, refs[..j], unique)
      {
        assert refs[..j + 1][..j] == refs[..j];
        if refs[j].id !in unique {
          errors := errors + [RequiresToBeSelected(ingredient.ingredient.name, refs[j].name)];
        }
      }
      assert refs[..|refs|] == refs;
      assert ingredients[..i + 1][..i] == ingredients[..i];
    }
    assert ingredients[..|ingredients|] == ingredients;
  }

  /** The incompatibility loops: one error per `incompatible_with` entry that is selected. */
  method CheckIncompatibleSelected(ingredients: seq<IngredientInfo>, unique: seq<nat>) returns (errors: seq<OrderError>)
    ensures errors == ConflictErrors(ingredients, unique)
  {
    errors := [];
    for i := 0 to |ingredients|
      invariant errors == ConflictErrors(ingredients[..i], unique)
    {
      var ingredient := ingredients[i];
      var refs := ingredient.incompatible;
      ghost var before := errors;
      for j := 0 to |refs|
        invariant errors == before + ClashesOf(ingredient.ingredient.name, refs[..j], unique)
      {
        assert refs[..j + 1][..j] == refs[..j];
        if refs[j].id in unique {
          errors := errors + [IncompatibleWith(ingredient.ingredient.name, refs[j].name)];
        }
      }
      assert refs[..|refs|] == refs;
      assert ingredients[..i + 1][..i] == ingredients[..i];
    }
    assert ingredients[..|ingredients|] == ingredients;
  }

  // ---------------------------------------------------------------------------
  // What the reported errors mean

  lemma {:induction false} PriceTotalByKeys(ids: seq<nat>, infos: seq<IngredientInfo>, t: Table, keys: seq<nat>)
    requires |infos| == |keys|
    requires forall i :: 0 <= i < |keys| ==> infos[i].ingredient.id == keys[i] && infos[i].ingredient.price == PriceIn(t)(keys[i])
    ensures PriceTotal(ids, infos) == Weighted(keys, ids, PriceIn(t))
  {
    if infos != [] {
      PriceTotalByKeys(ids, infos[..|infos| - 1], t, keys[..|keys| - 1]);
    }
  }

  /** Price times count over the found rows is the per-occurrence sum of prices, unknown ids adding nothing. */
  lemma PriceTotalOfInfos(t: Table, reqs: seq<Edge>, incs: seq<Edge>, ids: seq<nat>)
    ensures PriceTotal(ids, Infos(t, reqs, incs, ids)) == SumBy(ids, PriceIn(t))
  {
    var keys := FoundIds(t, ids);
    PriceTotalByKeys(ids, Infos(t, reqs, incs, ids), t, keys);
    Regroup(keys, ids, PriceIn(t));
  }

  lemma {:induction false} StockErrorsIff(ids: seq<nat>, infos: seq<IngredientInfo>, e: OrderError)
    ensures e in StockErrors(ids, infos) <==>
              exists info :: info in infos && info.ingredient.portions.Some?
                && Count(ids, info.ingredient.id) > info.ingredient.portions.value
                && e == NotEnough(info.ingredient.name, Count(ids, info.ingredient.id), info.ingredient.portions.value)
  {
    if infos != [] {
      var init := infos[..|infos| - 1];
      assert infos == init + [infos[|infos| - 1]];
      StockErrorsIff(ids, init, e);
    }
  }

  lemma {:induction false} MissingOfIff(name: string, refs: seq<Ref>, sel: seq<nat>, e: OrderError)
    ensures e in MissingOf(name, refs, sel) <==>
              exists r :: r in refs && r.id !in sel && e == RequiresToBeSelected(name, r.name)
  {
    if refs != [] {
      var init := refs[..|refs| - 1];
      assert refs == init + [refs[|refs| - 1]];
      MissingOfIff(name, init, sel, e);
    }
  }

  lemma {:induction false} RequirementErrorsIff(infos: seq<IngredientInfo>, sel: seq<nat>, e: OrderError)
    ensures e in RequirementErrors(infos, sel) <==>
              exists info, r :: info in infos && r in info.required && r.id !in sel
                && e == RequiresToBeSelected(info.ingredient.name, r.name)
  {
    if infos != [] {
      var init, last := infos[..|infos| - 1], infos[|infos| - 1];
      assert infos == init + [last];
      RequirementErrorsIff(init, sel, e);
      MissingOfIff(last.ingredient.name, last.required, sel, e);
    }
  }

  lemma {:induction false} ClashesOfIff(name: string, refs: seq<Ref>, sel: seq<nat>, e: OrderError)
    ensures e in ClashesOf(name, refs, sel) <==>
              exists r :: r in refs && r.id in sel && e == IncompatibleWith(name, r.name)
  {
    if refs != [] {
      var init := refs[..|refs| - 1];
      assert refs == init + [refs[|refs| - 1]];
      ClashesOfIff(name, init, sel, e);
    }
  }

  lemma {:induction false} ConflictErrorsIff(infos: seq<IngredientInfo>, sel: seq<nat>, e: OrderError)
    ensures e in ConflictErrors(infos, sel) <==>
              exists info, r :: info in infos && r in info.incompatible && r.id in sel
                && e == IncompatibleWith(info.ingredient.name, r.name)
  {
    if infos != [] {
      var init, last := infos[..|infos| - 1], infos[|infos| - 1];
      assert infos == init + [last];
      ConflictErrorsIff(init, sel, e);
      ClashesOfIff(last.ingredient.name, last.incompatible, sel, e);
    }
  }

  /** The entry an incompatibility error was reported for. */
  lemma ClashSource(infos: seq<IngredientInfo>, sel: seq<nat>, e: OrderError) returns (info: IngredientInfo, r: Ref)
    requires e in ConflictErrors(infos, sel)
    ensures info in infos && r in info.incompatible && r.id in sel && e == IncompatibleWith(info.ingredient.name, r.name)
  {
    ConflictErrorsIff(infos, sel, e);
    info, r :| info in infos && r in info.incompatible && r.id in sel && e == IncompatibleWith(info.ingredient.name, r.name);
  }

  /** The found rows are exactly the rows of the requested ids the table holds. */
  lemma InfoFound(t: Table, reqs: seq<Edge>, incs: seq<Edge>, ids: seq<nat>, info: IngredientInfo)
    ensures info in Infos(t, reqs, incs, ids) <==>
              exists k :: k in ids && k in t && info == InfoOf(t, reqs, incs, k)
  {
    var keys, infos := FoundIds(t, ids), Infos(t, reqs, incs, ids);
    if info in infos {
      var i :| 0 <= i < |infos| && infos[i] == info;
      assert keys[i] in keys;
    }
    if exists k :: k in ids && k in t && info == InfoOf(t, reqs, incs, k) {
      var k :| k in ids && k in t && info == InfoOf(t, reqs, incs, k);
      assert k in keys;
      var i :| 0 <= i < |keys| && keys[i] == k;
      assert infos[i] == info;
    }
  }

  /** A finite stock below the count of a known requested id is reported with the count and the stock. */
  lemma StockReported(t: Table, reqs: seq<Edge>, incs: seq<Edge>, ids: seq<nat>, x: nat)
    requires x in ids && x in t && t[x].portions.Some? && Count(ids, x) > t[x].portions.value
    ensures NotEnough(t[x].name, Count(ids, x), t[x].portions.value) in StockErrors(ids, Infos(t, reqs, incs, ids))
  {
    var infos := Infos(t, reqs, incs, ids);
    var info := InfoOf(t, reqs, incs, x);
    InfoFound(t, reqs, incs, ids, info);
    StockErrorsIff(ids, infos, NotEnough(t[x].name, Count(ids, x), t[x].portions.value));
  }

  /** Every "Not enough" error names a known requested id whose finite stock is below its count; unlimited stock never is. */
  lemma StockExplained(t: Table, reqs: seq<Edge>, incs: seq<Edge>, ids: seq<nat>, err: OrderError)
    requires err in StockErrors(ids, Infos(t, reqs, incs, ids))
    ensures exists x :: x in ids && x in t && t[x].portions.Some? && Count(ids, x) > t[x].portions.value
                        && err == NotEnough(t[x].name, Count(ids, x), t[x].portions.value)
  {
    var infos := Infos(t, reqs, incs, ids);
    StockErrorsIff(ids, infos, err);
    var info :| info in infos && info.ingredient.portions.Some?
      && Count(ids, info.ingredient.id) > info.ingredient.portions.value
      && err == NotEnough(info.ingredient.name, Count(ids, info.ingredient.id), info.ingredient.portions.value);
    InfoFound(t, reqs, incs, ids, info);
    var k :| k in ids && k in t && info == InfoOf(t, reqs, incs, k);
    assert info.ingredient == RecordOf(t, k);
  }

  /** A requirement edge out of a selected ingredient towards an existing unselected one is reported, by name. */
  lemma RequirementReported(t: Table, reqs: seq<Edge>, incs: seq<Edge>, ids: seq<nat>, e: Edge)
    requires e in reqs && e.from in ids && e.from in t && e.to in t && e.to !in ids
    ensures RequiresToBeSelected(t[e.from].name, t[e.to].name)
              in RequirementErrors(Infos(t, reqs, incs, ids), SortedDistinct(ids))
  {
    var infos, sel := Infos(t, reqs, incs, ids), SortedDistinct(ids);
    var info := InfoOf(t, reqs, incs, e.from);
    InfoFound(t, reqs, incs, ids, info);
    var r := Ref(e.to, t[e.to].name);
    assert r in RequiredRefs(t, reqs, e.from);
    RequirementErrorsIff(infos, sel, RequiresToBeSelected(t[e.from].name, r.name));
  }

  /** A `requires` entry of a found row is a requirement edge out of a requested known id. */
  lemma RequiredEntry(t: Table, reqs: seq<Edge>, incs: seq<Edge>, ids: seq<nat>, info: IngredientInfo, r: Ref)
    requires info in Infos(t, reqs, incs, ids) && r in info.required
    ensures info.ingredient.id in ids && info.ingredient.id in t && info.ingredient.name == t[info.ingredient.id].name
    ensures Edge(info.ingredient.id, r.id) in reqs && r.id in t && r.name == t[r.id].name
  {
    InfoFound(t, reqs, incs, ids, info);
  }

  /** Every requirement error comes from such an edge. */
  lemma RequirementExplained(t: Table, reqs: seq<Edge>, incs: seq<Edge>, ids: seq<nat>, err: OrderError)
    requires err in RequirementErrors(Infos(t, reqs, incs, ids), SortedDistinct(ids))
    ensures exists e :: e in reqs && e.from in ids && e.from in t && e.to in t && e.to !in ids
                        && err == RequiresToBeSelected(t[e.from].name, t[e.to].name)
  {
    var infos, sel := Infos(t, reqs, incs, ids), SortedDistinct(ids);
    RequirementErrorsIff(infos, sel, err);
    var info, r :| info in infos && r in info.required && r.id !in sel
      && err == RequiresToBeSelected(info.ingredient.name, r.name);
    RequiredEntry(t, reqs, incs, ids, info, r);
    var e := Edge(info.ingredient.id, r.id);
    assert e.from in ids && e.to !in ids;
  }

  /** An incompatibility edge with both endpoints selected is reported from both ends. */
  lemma ConflictReported(t: Table, reqs: seq<Edge>, incs: seq<Edge>, ids: seq<nat>, e: Edge)
    requires e in incs && e.from in ids && e.to in ids && e.from in t && e.to in t
    ensures IncompatibleWith(t[e.from].name, t[e.to].name) in ConflictErrors(Infos(t, reqs, incs, ids), SortedDistinct(ids))
    ensures IncompatibleWith(t[e.to].name, t[e.from].name) in ConflictErrors(Infos(t, reqs, incs, ids), SortedDistinct(ids))
  {
    var infos, sel := Infos(t, reqs, incs, ids), SortedDistinct(ids);
    var a, b := InfoOf(t, reqs, incs, e.from), InfoOf(t, reqs, incs, e.to);
    InfoFound(t, reqs, incs, ids, a);
    InfoFound(t, reqs, incs, ids, b);
    assert Ref(e.to, t[e.to].name) in IncompatibleRefs(t, incs, e.from);
    assert Ref(e.from, t[e.from].name) in IncompatibleRefs(t, incs, e.to);
    ConflictErrorsIff(infos, sel, IncompatibleWith(t[e.from].name, t[e.to].name));
    ConflictErrorsIff(infos, sel, IncompatibleWith(t[e.to].name, t[e.from].name));
  }

  /** An `incompatible_with` entry of a found row is an edge, in either direction, at a requested known id. */
  lemma IncompatibleListEntry(t: Table, reqs: seq<Edge>, incs: seq<Edge>, ids: seq<nat>, info: IngredientInfo, r: Ref)
    requires info in Infos(t, reqs, incs, ids) && r in info.incompatible
    ensures info.ingredient.id in ids && info.ingredient.id in t && info.ingredient.name == t[info.ingredient.id].name
    ensures (Edge(info.ingredient.id, r.id) in incs || Edge(r.id, info.ingredient.id) in incs)
            && r.id in t && r.name == t[r.id].name
  {
    InfoFound(t, reqs, incs, ids, info);
  }

  /** A selected `incompatible_with` entry of a found row joins two selected known ingredients by an edge. */
  lemma ClashBetweenSelected(t: Table, reqs: seq<Edge>, incs: seq<Edge>, ids: seq<nat>, info: IngredientInfo, r: Ref)
    returns (a: nat, b: nat)
    requires info in Infos(t, reqs, incs, ids) && r in info.incompatible && r.id in SortedDistinct(ids)
    ensures a in ids && b in ids && a in t && b in t && (Edge(a, b) in incs || Edge(b, a) in incs)
    ensures IncompatibleWith(info.ingredient.name, r.name) == IncompatibleWith(t[a].name, t[b].name)
  {
    IncompatibleListEntry(t, reqs, incs, ids, info, r);
    a, b := info.ingredient.id, r.id;
  }

  /** `err` is the incompatibility error for the selected ingredients `a` and `b`, joined by an edge either way. */
  predicate ClashOf(t: Table, incs: seq<Edge>, ids: seq<nat>, err: OrderError, a: nat, b: nat)
  {
    a in ids && b in ids && a in t && b in t && (Edge(a, b) in incs || Edge(b, a) in incs)
    && err == IncompatibleWith(t[a].name, t[b].name)
  }

  /** Every incompatibility error names two selected ingredients joined by an edge in one direction or the other. */
  lemma ConflictExplained(t: Table, reqs: seq<Edge>, incs: seq<Edge>, ids: seq<nat>, err: OrderError)
    requires err in ConflictErrors(Infos(t, reqs, incs, ids), SortedDistinct(ids))
    ensures exists a, b :: ClashOf(t, incs, ids, err, a, b)
  {
    var info, r := ClashSource(Infos(t, reqs, incs, ids), SortedDistinct(ids), err);
    var a, b := ClashBetweenSelected(t, reqs, incs, ids, info, r);
    assert ClashOf(t, incs, ids, err, a, b);
  }

  /** No "Not enough" error exactly when no finite stock is exceeded. */
  lemma StockErrorsDecide(t: Table, reqs: seq<Edge>, incs: seq<Edge>, ids: seq<nat>)
    ensures StockErrors(ids, Infos(t, reqs, incs, ids)) == [] <==> StockSuffices(t, ids)
  {
    var errs := StockErrors(ids, Infos(t, reqs, incs, ids));
    if !StockSuffices(t, ids) {
      var x :| x in ids && x in t && t[x].portions.Some? && Count(ids, x) > t[x].portions.value;
      StockReported(t, reqs, incs, ids, x);
    }
    if errs != [] {
      StockExplained(t, reqs, incs, ids, errs[0]);
    }
  }

  /** With every id known, no requirement error exactly when every requirement is met. */
  lemma RequirementErrorsDecide(t: Table, reqs: seq<Edge>, incs: seq<Edge>, ids: seq<nat>)
    requires AllKnown(t, ids)
    ensures RequirementErrors(Infos(t, reqs, incs, ids), SortedDistinct(ids)) == [] <==> RequirementsMet(t, reqs, ids)
  {
    var errs := RequirementErrors(Infos(t, reqs, incs, ids), SortedDistinct(ids));
    if !RequirementsMet(t, reqs, ids) {
      var e :| e in reqs && e.from in ids && e.to in t && e.to !in ids;
      RequirementReported(t, reqs, incs, ids, e);
    }
    if errs != [] {
      RequirementExplained(t, reqs, incs, ids, errs[0]);
    }
  }

  /** With every id known, no incompatibility error exactly when no incompatible pair is selected. */
  lemma ConflictErrorsDecide(t: Table, reqs: seq<Edge>, incs: seq<Edge>, ids: seq<nat>)
    requires AllKnown(t, ids)
    ensures ConflictErrors(Infos(t, reqs, incs, ids), SortedDistinct(ids)) == [] <==> NoConflicts(incs, ids)
  {
    var errs := ConflictErrors(Infos(t, reqs, incs, ids), SortedDistinct(ids));
    if !NoConflicts(incs, ids) {
      var e :| e in incs && e.from in ids && e.to in ids;
      ConflictReported(t, reqs, incs, ids, e);
    }
    if errs != [] {
      ConflictExplained(t, reqs, incs, ids, errs[0]);
      var a, b :| a in ids && b in ids && a in t && b in t && (Edge(a, b) in incs || Edge(b, a) in incs);
      if Edge(a, b) in incs {
        assert Edge(a, b).from in ids;
      } else {
        assert Edge(b, a).from in ids;
      }
    }
  }

  /** No "Invalid ingredient IDs" error exactly when every id is known. */
  lemma UnknownErrorsDecide(t: Table, ids: seq<nat>)
    ensures UnknownErrors(Without(ids, FoundIds(t, ids))) == [] <==> AllKnown(t, ids)
  {
    var missing := Without(ids, FoundIds(t, ids));
    if !AllKnown(t, ids) {
      var x :| x in ids && x !in t;
      assert x in missing;
    }
    if missing != [] {
      assert missing[0] in missing;
    }
  }

  /** The order is valid exactly when the dish exists, the size is priced for it, the limit holds and the selection is legal. */
  lemma DirectValidIff(dishes: set<nat>, pricing: PricingTable, t: Table, reqs: seq<Edge>, incs: seq<Edge>,
                       dishId: nat, size: string, ids: seq<nat>)
    ensures DirectErrors(dishes, pricing, t, reqs, incs, dishId, size, ids) == [] <==>
              DirectlyAcceptable(dishes, pricing, t, reqs, incs, dishId, size, ids)
  {
    UnknownErrorsDecide(t, ids);
    StockErrorsDecide(t, reqs, incs, ids);
    if AllKnown(t, ids) {
      RequirementErrorsDecide(t, reqs, incs, ids);
      ConflictErrorsDecide(t, reqs, incs, ids);
    }
  }

  // ---------------------------------------------------------------------------
  // Properties of the whole error list

  /** Number of "Too many ingredients" errors in a list. */
  function TooManyCount(errs: seq<OrderError>): nat
  {
    if errs == [] then 0
    else TooManyCount(errs[..|errs| - 1]) + (if errs[|errs| - 1].TooManyMaximumAllowed? then 1 else 0)
  }

  lemma {:induction false} TooManyCountConcat(a: seq<OrderError>, b: seq<OrderError>)
    ensures TooManyCount(a + b) == TooManyCount(a) + TooManyCount(b)
  {
    if b == [] {
      assert a + b == a;
    } else {
      var init := b[..|b| - 1];
      assert (a + b)[..|a + b| - 1] == a + init;
      assert (a + b)[|a + b| - 1] == b[|b| - 1];
      TooManyCountConcat(a, init);
    }
  }

  lemma {:induction false} TooManyCountNone(errs: seq<OrderError>)
    requires forall e :: e in errs ==> !e.TooManyMaximumAllowed?
    ensures TooManyCount(errs) == 0
  {
    if errs != [] {
      assert errs[|errs| - 1] in errs;
      TooManyCountNone(errs[..|errs| - 1]);
    }
  }

  /**
   * A list longer than the limit of a priced dish and size produces exactly
   * one "Too many ingredients" error, and it cites that limit; otherwise none.
   */
  lemma TooManyReportedOnce(dishes: set<nat>, pricing: PricingTable, t: Table, reqs: seq<Edge>, incs: seq<Edge>,
                            dishId: nat, size: string, ids: seq<nat>)
    ensures var errs := DirectErrors(dishes, pricing, t, reqs, incs, dishId, size, ids);
            TooManyCount(errs) == (if (dishId, size) in pricing && |ids| > pricing[(dishId, size)].maxIngredients then 1 else 0)
  {
    var infos, sel := Infos(t, reqs, incs, ids), SortedDistinct(ids);
    var a, b, c := DishErrors(dishes, dishId), SizeErrors(pricing, dishId, size, |ids|), UnknownErrors(Without(ids, FoundIds(t, ids)));
    var d, e, f := StockErrors(ids, infos), RequirementErrors(infos, sel), ConflictErrors(infos, sel);
    assert DirectErrors(dishes, pricing, t, reqs, incs, dishId, size, ids) == a + b + c + d + e + f;
    TooManyCountSix(a, b, c, d, e, f);
    OnlySizeErrorsTooMany(dishes, t, reqs, incs, dishId, ids);
    assert TooManyCount(b) == (if (dishId, size) in pricing && |ids| > pricing[(dishId, size)].maxIngredients then 1 else 0) by {
      assert b == [] || b[..|b| - 1] == [];
    }
  }

  lemma TooManyCountSix(a: seq<OrderError>, b: seq<OrderError>, c: seq<OrderError>, d: seq<OrderError>,
                        e: seq<OrderError>, f: seq<OrderError>)
    ensures TooManyCount(a + b + c + d + e + f)
            == TooManyCount(a) + TooManyCount(b) + TooManyCount(c) + TooManyCount(d) + TooManyCount(e) + TooManyCount(f)
  {
    TooManyCountConcat(a + b + c + d + e, f);
    TooManyCountConcat(a + b + c + d, e);
    TooManyCountConcat(a + b + c, d);
    TooManyCountConcat(a + b, c);
    TooManyCountConcat(a, b);
  }

  /** Only the size check reports "Too many ingredients". */
  lemma OnlySizeErrorsTooMany(dishes: set<nat>, t: Table, reqs: seq<Edge>, incs: seq<Edge>, dishId: nat, ids: seq<nat>)
    ensures var infos, sel := Infos(t, reqs, incs, ids), SortedDistinct(ids);
            TooManyCount(DishErrors(dishes, dishId)) == 0
            && TooManyCount(UnknownErrors(Without(ids, FoundIds(t, ids)))) == 0
            && TooManyCount(StockErrors(ids, infos)) == 0
            && TooManyCount(RequirementErrors(infos, sel)) == 0
            && TooManyCount(ConflictErrors(infos, sel)) == 0
  {
    var infos, sel := Infos(t, reqs, incs, ids), SortedDistinct(ids);
    TooManyCountNone(DishErrors(dishes, dishId));
    TooManyCountNone(UnknownErrors(Without(ids, FoundIds(t, ids))));
    TooManyCountNone(StockErrors(ids, infos));
    TooManyCountNone(RequirementErrors(infos, sel));
    TooManyCountNone(ConflictErrors(infos, sel));
  }

  /** The "Too many ingredients" error cites the limit of the priced dish and size. */
  lemma TooManyCitesLimit(dishes: set<nat>, pricing: PricingTable, t: Table, reqs: seq<Edge>, incs: seq<Edge>,
                          dishId: nat, size: string, ids: seq<nat>)
    ensures forall e :: e in DirectErrors(dishes, pricing, t, reqs, incs, dishId, size, ids) && e.TooManyMaximumAllowed? ==>
              (dishId, size) in pricing && e == TooManyMaximumAllowed(size, pricing[(dishId, size)].maxIngredients)
  {
    var a, b, c, d, e, f := ErrorParts(dishes, pricing, t, reqs, incs, dishId, size, ids);
    forall x: OrderError | x in a + b + c + d + e + f && x.TooManyMaximumAllowed?
      ensures x in b
    {
      TooManyOnlyInSecond(a, b, c, d, e, f, x);
    }
  }

  /** The six parts of the error list, each holding only its own kind of error. */
  lemma ErrorParts(dishes: set<nat>, pricing: PricingTable, t: Table, reqs: seq<Edge>, incs: seq<Edge>,
                   dishId: nat, size: string, ids: seq<nat>)
    returns (a: seq<OrderError>, b: seq<OrderError>, c: seq<OrderError>, d: seq<OrderError>,
             e: seq<OrderError>, f: seq<OrderError>)
    ensures DirectErrors(dishes, pricing, t, reqs, incs, dishId, size, ids) == a + b + c + d + e + f
    ensures b == SizeErrors(pricing, dishId, size, |ids|)
    ensures forall y :: y in a ==> y.InvalidDishId?
    ensures forall y :: y in c ==> y.InvalidIngredientIds?
    ensures forall y :: y in d ==> y.NotEnough?
    ensures forall y :: y in e ==> y.RequiresToBeSelected?
    ensures forall y :: y in f ==> y.IncompatibleWith?
  {
    var infos, sel := Infos(t, reqs, incs, ids), SortedDistinct(ids);
    a, b, c := DishErrors(dishes, dishId), SizeErrors(pricing, dishId, size, |ids|), UnknownErrors(Without(ids, FoundIds(t, ids)));
    d, e, f := StockErrors(ids, infos), RequirementErrors(infos, sel), ConflictErrors(infos, sel);
  }

  lemma TooManyOnlyInSecond(a: seq<OrderError>, b: seq<OrderError>, c: seq<OrderError>, d: seq<OrderError>,
                            e: seq<OrderError>, f: seq<OrderError>, x: OrderError)
    requires x in a + b + c + d + e + f && x.TooManyMaximumAllowed?
    requires forall y :: y in a ==> y.InvalidDishId?
    requires forall y :: y in c ==> y.InvalidIngredientIds?
    requires forall y :: y in d ==> y.NotEnough?
    requires forall y :: y in e ==> y.RequiresToBeSelected?
    requires forall y :: y in f ==> y.IncompatibleWith?
    ensures x in b
  {
    InOneOfSix(a, b, c, d, e, f, x);
  }

  /** Membership in the six concatenated error groups, stated once so the callers need not unfold the concatenation. */
  lemma InOneOfSix(a: seq<OrderError>, b: seq<OrderError>, c: seq<OrderError>, d: seq<OrderError>,
                   e: seq<OrderError>, f: seq<OrderError>, x: OrderError)
    ensures x in a + b + c + d + e + f <==> x in a || x in b || x in c || x in d || x in e || x in f
  {
  }

  /**
   * Checking does not stop at the first failure: the dish and size errors
   * appear exactly when those checks fail, and every unknown id, exceeded
   * stock, missing requirement and selected incompatible pair is reported
   * whatever else is wrong with the order.
   */
  lemma DirectReportsEveryFailure(dishes: set<nat>, pricing: PricingTable, t: Table, reqs: seq<Edge>, incs: seq<Edge>,
                                  dishId: nat, size: string, ids: seq<nat>)
    ensures var errs := DirectErrors(dishes, pricing, t, reqs, incs, dishId, size, ids);
            && (InvalidDishId(dishId) in errs <==> dishId !in dishes)
            && (InvalidSize(size) in errs <==> (dishId, size) !in pricing)
            && (forall x :: x in ids && x !in t ==> InvalidIngredientIds(Without(ids, FoundIds(t, ids))) in errs)
            && (forall x :: x in ids && x in t && t[x].portions.Some? && Count(ids, x) > t[x].portions.value ==>
                  NotEnough(t[x].name, Count(ids, x), t[x].portions.value) in errs)
            && (forall r :: r in reqs && r.from in ids && r.from in t && r.to in t && r.to !in ids ==>
                  RequiresToBeSelected(t[r.from].name, t[r.to].name) in errs)
            && (forall r :: r in incs && r.from in ids && r.to in ids && r.from in t && r.to in t ==>
                  IncompatibleWith(t[r.from].name, t[r.to].name) in errs && IncompatibleWith(t[r.to].name, t[r.from].name) in errs)
  {
    var infos, sel := Infos(t, reqs, incs, ids), SortedDistinct(ids);
    var a, b, c := DishErrors(dishes, dishId), SizeErrors(pricing, dishId, size, |ids|), UnknownErrors(Without(ids, FoundIds(t, ids)));
    var d, e, f := StockErrors(ids, infos), RequirementErrors(infos, sel), ConflictErrors(infos, sel);
    assert DirectErrors(dishes, pricing, t, reqs, incs, dishId, size, ids) == a + b + c + d + e + f;
    InOneOfSix(a, b, c, d, e, f, InvalidDishId(dishId));
    InOneOfSix(a, b, c, d, e, f, InvalidSize(size));
    InOneOfSix(a, b, c, d, e, f, InvalidIngredientIds(Without(ids, FoundIds(t, ids))));
    forall x | x in ids && x !in t
      ensures InvalidIngredientIds(Without(ids, FoundIds(t, ids))) in c
    {
      assert x in Without(ids, FoundIds(t, ids));
    }
    forall x | x in ids && x in t && t[x].portions.Some? && Count(ids, x) > t[x].portions.value
      ensures NotEnough(t[x].name, Count(ids, x), t[x].portions.value) in a + b + c + d + e + f
    {
      StockReported(t, reqs, incs, ids, x);
      InOneOfSix(a, b, c, d, e, f, NotEnough(t[x].name, Count(ids, x), t[x].portions.value));
    }
    forall r | r in reqs && r.from in ids && r.from in t && r.to in t && r.to !in ids
      ensures RequiresToBeSelected(t[r.from].name, t[r.to].name) in a + b + c + d + e + f
    {
      RequirementReported(t, reqs, incs, ids, r);
      InOneOfSix(a, b, c, d, e, f, RequiresToBeSelected(t[r.from].name, t[r.to].name));
    }
    forall r | r in incs && r.from in ids && r.to in ids && r.from in t && r.to in t
      ensures IncompatibleWith(t[r.from].name, t[r.to].name) in a + b + c + d + e + f
      ensures IncompatibleWith(t[r.to].name, t[r.from].name) in a + b + c + d + e + f
    {
      ConflictReported(t, reqs, incs, ids, r);
      InOneOfSix(a, b, c, d, e, f, IncompatibleWith(t[r.from].name, t[r.to].name));
      InOneOfSix(a, b, c, d, e, f, IncompatibleWith(t[r.to].name, t[r.from].name));
    }
  }

  /**
   * The "Invalid ingredient IDs" error lists exactly the requested ids missing
   * from the catalog, in request order and with their repetitions.
   */
  lemma UnknownIdsListed(dishes: set<nat>, pricing: PricingTable, t: Table, reqs: seq<Edge>, incs: seq<Edge>,
                         dishId: nat, size: string, ids: seq<nat>, err: OrderError)
    requires err in DirectErrors(dishes, pricing, t, reqs, incs, dishId, size, ids) && err.InvalidIngredientIds?
    ensures err.ids == Without(ids, FoundIds(t, ids))
    ensures forall x :: x in err.ids <==> x in ids && x !in t
  {
    var infos, sel := Infos(t, reqs, incs, ids), SortedDistinct(ids);
    var a, b, c := DishErrors(dishes, dishId), SizeErrors(pricing, dishId, size, |ids|), UnknownErrors(Without(ids, FoundIds(t, ids)));
    var d, e, f := StockErrors(ids, infos), RequirementErrors(infos, sel), ConflictErrors(infos, sel);
    assert DirectErrors(dishes, pricing, t, reqs, incs, dishId, size, ids) == a + b + c + d + e + f;
    InOneOfSix(a, b, c, d, e, f, err);
    assert err in c;
  }

  /**
   * Requirement and incompatibility errors depend only on which ids are
   * selected: repeating an ingredient or reordering the list does not repeat
   * or reorder them.
   */
  lemma ConstraintErrorsBySet(t: Table, reqs: seq<Edge>, incs: seq<Edge>, ids: seq<nat>, ids': seq<nat>)
    requires forall x :: x in ids <==> x in ids'
    ensures RequirementErrors(Infos(t, reqs, incs, ids), SortedDistinct(ids))
            == RequirementErrors(Infos(t, reqs, incs, ids'), SortedDistinct(ids'))
    ensures ConflictErrors(Infos(t, reqs, incs, ids), SortedDistinct(ids))
            == ConflictErrors(Infos(t, reqs, incs, ids'), SortedDistinct(ids'))
  {
    SortedDistinctBySet(ids, ids');
    SortedDistinctBySet(FilterKnown(ids, t), FilterKnown(ids', t));
    assert FoundIds(t, ids) == FoundIds(t, ids');
    assert Infos(t, reqs, incs, ids) == Infos(t, reqs, incs, ids');
  }
}
