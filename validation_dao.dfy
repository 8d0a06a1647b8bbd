/**
 * The validation data-access layer: the early-returning order validator, its
 * requirement and incompatibility checks, the order total, and the ingredient
 * listing with constraint lists served to the client.
 */
module ValidationDao {
  import opened Tally
  import opened Catalog
  import opened IngredientDao

  /** `{valid, errors}`. */
  datatype Verdict = Verdict(valid: bool, errors: seq<OrderError>)

  // ---------------------------------------------------------------------------
  // checkRequirements

  /** One "<name> requires <required>" per requirement row whose source is selected and whose target is not. */
  function MissingRequirements(selected: seq<nat>, rows: seq<EdgeRow>): (errs: seq<OrderError>)
    ensures forall e :: e in errs ==> e.Requires?
  {
    if rows == [] then []
    else
      var init, r := rows[..|rows| - 1], rows[|rows| - 1];
      MissingRequirements(selected, init)
        + (if r.from in selected && r.to !in selected then [Requires(r.fromName, r.toName)] else [])
  }

  lemma {:induction false} MissingRequirementsIff(selected: seq<nat>, rows: seq<EdgeRow>, e: OrderError)
    ensures e in MissingRequirements(selected, rows) <==>
              exists r :: r in rows && r.from in selected && r.to !in selected && e == Requires(r.fromName, r.toName)
  {
    if rows != [] {
      var init, r := rows[..|rows| - 1], rows[|rows| - 1];
      assert rows == init + [r];
      MissingRequirementsIff(selected, init, e);
    }
  }

  lemma {:induction false} MissingRequirementsEmpty(selected: seq<nat>, rows: seq<EdgeRow>)
    ensures MissingRequirements(selected, rows) == [] <==>
              forall r :: r in rows && r.from in selected ==> r.to in selected
  {
    if rows != [] {
      var init, r := rows[..|rows| - 1], rows[|rows| - 1];
      assert rows == init + [r];
      MissingRequirementsEmpty(selected, init);
    }
  }

  /** `checkRequirements`: walks the joined requirement rows. */
  method CheckRequirements(t: Table, reqs: seq<Edge>, selected: seq<nat>) returns (errs: seq<OrderError>)
    ensures errs == MissingRequirements(selected, JoinEdges(t, reqs))
  {
    var rows := JoinEdges(t, reqs);
    errs := [];
    for i := 0 to |rows|
      invariant errs == MissingRequirements(selected, rows[..i])
    {
      var r := rows[i];
      assert rows[..i + 1][..i] == rows[..i];
      if r.from in selected && r.to !in selected {
        errs := errs + [Requires(r.fromName, r.toName)];
      }
    }
    assert rows[..|rows|] == rows;
  }

  // ---------------------------------------------------------------------------
  // checkIncompatibilities

  /** One "<name> is incompatible with <other>" per incompatibility row with both endpoints selected. */
  function Conflicts(selected: seq<nat>, rows: seq<EdgeRow>): (errs: seq<OrderError>)
    ensures forall e :: e in errs ==> e.IncompatibleWith?
  {
    if rows == [] then []
    else
      var init, r := rows[..|rows| - 1], rows[|rows| - 1];
      Conflicts(selected, init)
        + (if r.from in selected && r.to in selected then [IncompatibleWith(r.fromName, r.toName)] else [])
  }

  lemma {:induction false} ConflictsIff(selected: seq<nat>, rows: seq<EdgeRow>, e: OrderError)
    ensures e in Conflicts(selected, rows) <==>
              exists r :: r in rows && r.from in selected && r.to in selected && e == IncompatibleWith(r.fromName, r.toName)
  {
    if rows != [] {
      var init, r := rows[..|rows| - 1], rows[|rows| - 1];
      assert rows == init + [r];
      ConflictsIff(selected, init, e);
    }
  }

  lemma {:induction false} ConflictsEmpty(selected: seq<nat>, rows: seq<EdgeRow>)
    ensures Conflicts(selected, rows) == [] <==>
              forall r :: r in rows && r.from in selected ==> r.to !in selected
  {
    if rows != [] {
      var init, r := rows[..|rows| - 1], rows[|rows| - 1];
      assert rows == init + [r];
      ConflictsEmpty(selected, init);
    }
  }

  /** `checkIncompatibilities`: walks the joined incompatibility rows. */
  method CheckIncompatibilities(t: Table, incs: seq<Edge>, selected: seq<nat>) returns (errs: seq<OrderError>)
    ensures errs == Conflicts(selected, JoinEdges(t, incs))
  {
    var rows := JoinEdges(t, incs);
    errs := [];
    for i := 0 to |rows|
      invariant errs == Conflicts(selected, rows[..i])
    {
      var r := rows[i];
      assert rows[..i + 1][..i] == rows[..i];
      if r.from in selected && r.to in selected {
        errs := errs + [IncompatibleWith(r.fromName, r.toName)];
      }
    }
    assert rows[..|rows|] == rows;
  }

  // ---------------------------------------------------------------------------
  // validateOrder

  /** The existence and availability error of one distinct id with its count in `ids`. */
  function KeyError(t: Table, ids: seq<nat>, k: nat): (errs: seq<OrderError>)
  {
    if k !in t then [InvalidIngredientWithId(k)]
    else if t[k].portions.Some? && Count(ids, k) > t[k].portions.value then
      [NotEnough(t[k].name, Count(ids, k), t[k].portions.value)]
    else []
  }

  /** Existence and availability errors of the keys, in key order. */
  function KeyErrors(t: Table, ids: seq<nat>, keys: seq<nat>): (errs: seq<OrderError>)
    ensures forall e :: e in errs ==> e.InvalidIngredientWithId? || e.NotEnough?
  {
    if keys == [] then []
    else KeyErrors(t, ids, keys[..|keys| - 1]) + KeyError(t, ids, keys[|keys| - 1])
  }

  /** No key error at all exactly when every key exists and no finite stock is exceeded. */
  lemma {:induction false} KeyErrorsEmpty(t: Table, ids: seq<nat>, keys: seq<nat>)
    ensures KeyErrors(t, ids, keys) == [] <==>
              forall k :: k in keys ==> k in t && (t[k].portions.Some? ==> Count(ids, k) <= t[k].portions.value)
  {
    if keys != [] {
      var init, k := keys[..|keys| - 1], keys[|keys| - 1];
      assert keys == init + [k];
      KeyErrorsEmpty(t, ids, init);
    }
  }

  /** Every unknown distinct id gets its own "Invalid ingredient with ID" error. */
  lemma {:induction false} UnknownKeyReported(t: Table, ids: seq<nat>, keys: seq<nat>, k: nat)
    requires k in keys && k !in t
    ensures InvalidIngredientWithId(k) in KeyErrors(t, ids, keys)
  {
    var init, last := keys[..|keys| - 1], keys[|keys| - 1];
    assert keys == init + [last];
    if k != last {
      UnknownKeyReported(t, ids, init, k);
    }
  }

  /** The three checks that return early, passed. */
  predicate PassesLimits(dishes: set<nat>, maxIngredients: map<string, nat>, dishId: nat, size: string, n: nat)
  {
    dishId in dishes && size in ValidSizes && !(size in maxIngredients && n > maxIngredients[size])
  }

  /** With every id known, the requirement rows report nothing exactly when the requirements are met. */
  lemma RequirementRowsDecide(t: Table, reqs: seq<Edge>, ids: seq<nat>)
    requires AllKnown(t, ids)
    ensures MissingRequirements(SortedDistinct(ids), JoinEdges(t, reqs)) == [] <==> RequirementsMet(t, reqs, ids)
  {
    var sel, rows := SortedDistinct(ids), JoinEdges(t, reqs);
    MissingRequirementsEmpty(sel, rows);
    if MissingRequirements(sel, rows) == [] {
      forall e | e in reqs && e.from in ids && e.to in t
        ensures e.to in ids
      {
        assert EdgeRow(e.from, e.to, t[e.from].name, t[e.to].name) in rows;
      }
    }
  }

  /** With every id known, the incompatibility rows report nothing exactly when no edge is fully selected. */
  lemma ConflictRowsDecide(t: Table, incs: seq<Edge>, ids: seq<nat>)
    requires AllKnown(t, ids)
    ensures Conflicts(SortedDistinct(ids), JoinEdges(t, incs)) == [] <==> NoConflicts(incs, ids)
  {
    var sel, rows := SortedDistinct(ids), JoinEdges(t, incs);
    forall e | e in incs && e.from in ids && e.to in ids
      ensures EdgeRow(e.from, e.to, t[e.from].name, t[e.to].name) in rows
    {
    }
    ConflictsEmpty(sel, rows);
  }

  /**
   * `validateOrder`: an unknown dish, an unknown size, or too many ingredients
   * each end the check with that single error; existence and availability
   * errors are collected for every distinct id and, when there are any,
   * requirement and incompatibility checks are skipped.  The order is valid
   * exactly when the selection is legal.
   */
  method ValidateOrder(dishes: set<nat>, maxIngredients: map<string, nat>, t: Table, reqs: seq<Edge>,
                       incs: seq<Edge>, dishId: nat, size: string, ids: seq<nat>) returns (v: Verdict)
    ensures v.valid <==> v.errors == []
    ensures dishId !in dishes ==> v.errors == [InvalidDishSelected]
    ensures dishId in dishes && size !in ValidSizes ==> v.errors == [InvalidSizeSelected]
    ensures dishId in dishes && size in ValidSizes && size in maxIngredients && |ids| > maxIngredients[size] ==>
              v.errors == [TooManyForSize(size, maxIngredients[size])]
    ensures PassesLimits(dishes, maxIngredients, dishId, size, |ids|) ==>
              var early := KeyErrors(t, ids, SortedDistinct(ids));
              (early != [] ==> v.errors == early)
              && (early == [] ==> v.errors == MissingRequirements(SortedDistinct(ids), JoinEdges(t, reqs))
                                             + Conflicts(SortedDistinct(ids), JoinEdges(t, incs)))
    ensures v.valid <==> PassesLimits(dishes, maxIngredients, dishId, size, |ids|) && Acceptable(t, reqs, incs, ids)
  {
    if dishId !in dishes {
      return Verdict(false, [InvalidDishSelected]);
    }
    if size !in ValidSizes {
      return Verdict(false, [InvalidSizeSelected]);
    }
    if size in maxIngredients && |ids| > maxIngredients[size] {
      return Verdict(false, [TooManyForSize(size, maxIngredients[size])]);
    }

    var keys := SortedDistinct(ids);
    var errors := CheckKeys(t, ids);
    KeyErrorsEmpty(t, ids, keys);
    if |errors| > 0 {
      return Verdict(false, errors);
    }
    assert AllKnown(t, ids) && StockSuffices(t, ids);

    var requirementErrors := CheckRequirements(t, reqs, keys);
    var incompatibilityErrors := CheckIncompatibilities(t, incs, keys);
    errors := requirementErrors + incompatibilityErrors;
    RequirementRowsDecide(t, reqs, ids);
    ConflictRowsDecide(t, incs, ids);
    v := Verdict(|errors| == 0, errors);
  }

  /** The per-key pass of `validateOrder`: every distinct id is looked up and its stock checked. */
  method CheckKeys(t: Table, ids: seq<nat>) returns (errors: seq<OrderError>)
    ensures errors == KeyErrors(t, ids, SortedDistinct(ids))
  {
    var counts := CountIngredients(ids);
    var keys := SortedDistinct(ids);
    errors := [];
    for i := 0 to |keys|
      invariant errors == KeyErrors(t, ids, keys[..i])
    {
      var id := keys[i];
      assert id in ids;
      assert id in counts && counts[id] == Count(ids, id);
      var found := CheckKey(t, ids, id, counts[id]);
      KeyErrorsStep(t, ids, keys, i, errors);
      errors := errors + found;
    }
    assert keys[..|keys|] == keys;
  }

  lemma KeyErrorsStep(t: Table, ids: seq<nat>, keys: seq<nat>, i: nat, errors: seq<OrderError>)
    requires i < |keys| && errors == KeyErrors(t, ids, keys[..i])
    ensures errors + KeyError(t, ids, keys[i]) == KeyErrors(t, ids, keys[..i + 1])
  {
    assert keys[..i + 1][..i] == keys[..i];
  }

  /** One distinct id of the per-key pass: unknown, or known with too little finite stock for its count. */
  method CheckKey(t: Table, ids: seq<nat>, id: nat, requested: nat) returns (errors: seq<OrderError>)
    requires requested == Count(ids, id)
    ensures errors == KeyError(t, ids, id)
  {
    errors := [];
    var ingredient := GetIngredientById(t, id);
    if ingredient.None? {
      errors := [InvalidIngredientWithId(id)];
    } else if ingredient.value.portions.Some? && requested > ingredient.value.portions.value {
      errors := [NotEnough(ingredient.value.name, requested, ingredient.value.portions.value)];
    }
  }

  // ---------------------------------------------------------------------------
  // calculateOrderTotal

  /**
   * `calculateOrderTotal`: the size price (0 when the size has none) plus one
   * ingredient price per occurrence; unknown ids add nothing.
   */
  method CalculateOrderTotal(prices: map<string, nat>, t: Table, size: string, ids: seq<nat>) returns (total: nat)
    ensures total == (if size in prices then prices[size] else 0) + SumBy(ids, PriceIn(t))
  {
    total := if size in prices then prices[size] else 0;
    ghost var base := total;
    for i := 0 to |ids|
      invariant total == base + SumBy(ids[..i], PriceIn(t))
    {
      assert ids[..i + 1][..i] == ids[..i];
      var ingredient := GetIngredientById(t, ids[i]);
      if ingredient.Some? {
        total := total + ingredient.value.price;
      }
    }
    assert ids[..|ids|] == ids;
  }

  // ---------------------------------------------------------------------------
  // getIngredientsWithConstraints

  /** `{id: to, name: toName}` for every row leaving `id`, in row order. */
  function ForwardRefs(rows: seq<EdgeRow>, id: nat): (refs: seq<Ref>)
    ensures forall x :: x in refs <==> exists r :: r in rows && r.from == id && x == Ref(r.to, r.toName)
  {
    if rows == [] then []
    else
      var init, r := rows[..|rows| - 1], rows[|rows| - 1];
      assert rows == init + [r];
      ForwardRefs(init, id) + (if r.from == id then [Ref(r.to, r.toName)] else [])
  }

  /** `{id: from, name: fromName}` for every row entering `id`, in row order. */
  function BackwardRefs(rows: seq<EdgeRow>, id: nat): (refs: seq<Ref>)
    ensures forall x :: x in refs <==> exists r :: r in rows && r.to == id && x == Ref(r.from, r.fromName)
  {
    if rows == [] then []
    else
      var init, r := rows[..|rows| - 1], rows[|rows| - 1];
      assert rows == init + [r];
      BackwardRefs(init, id) + (if r.to == id then [Ref(r.from, r.fromName)] else [])
  }

  /** `x` is what the row contributes to the `incompatible_with` list of `id`, read forwards or backwards. */
  predicate IncompatibleEntry(row: EdgeRow, id: nat, x: Ref)
  {
    (row.from == id && x == Ref(row.to, row.toName)) || (row.to == id && x == Ref(row.from, row.fromName))
  }

  /**
   * `getIngredientsWithConstraints`: the ingredient list, unchanged and in
   * order, each entry with the forward requirement rows as `requires` and the
   * forward rows followed by the reverse rows as `incompatible_with`.
   */
  function GetIngredientsWithConstraints(ingredients: seq<Ingredient>, reqRows: seq<EdgeRow>, incRows: seq<EdgeRow>)
    : (r: seq<IngredientInfo>)
    ensures |r| == |ingredients|
    ensures forall i :: 0 <= i < |r| ==> r[i].ingredient == ingredients[i]
    ensures forall i, x :: 0 <= i < |r| && x in r[i].required <==>
              0 <= i < |r| && (exists row :: row in reqRows && row.from == ingredients[i].id && x == Ref(row.to, row.toName))
    ensures forall i, x :: 0 <= i < |r| && x in r[i].incompatible <==>
              0 <= i < |r| && (exists row :: row in incRows && IncompatibleEntry(row, ingredients[i].id, x))
  {
    seq(|ingredients|, i requires 0 <= i < |ingredients| =>
      var id := ingredients[i].id;
      IngredientInfo(ingredients[i], ForwardRefs(reqRows, id), ForwardRefs(incRows, id) + BackwardRefs(incRows, id)))
  }

  /** An incompatibility row puts each endpoint in the other's `incompatible_with` list. */
  lemma {:induction false} IncompatibilityListed(ingredients: seq<Ingredient>, reqRows: seq<EdgeRow>,
                                                incRows: seq<EdgeRow>, row: EdgeRow, i: nat, j: nat)
    requires row in incRows
    requires i < |ingredients| && ingredients[i].id == row.from
    requires j < |ingredients| && ingredients[j].id == row.to
    ensures Ref(row.to, row.toName) in GetIngredientsWithConstraints(ingredients, reqRows, incRows)[i].incompatible
    ensures Ref(row.from, row.fromName) in GetIngredientsWithConstraints(ingredients, reqRows, incRows)[j].incompatible
  {
    var r := GetIngredientsWithConstraints(ingredients, reqRows, incRows);
    assert Ref(row.to, row.toName) in ForwardRefs(incRows, row.from);
    assert Ref(row.from, row.fromName) in BackwardRefs(incRows, row.to);
  }

  /**
   * The lists served to the client are symmetric: if ingredient `j` is in the
   * `incompatible_with` list of ingredient `i`, then `i` is in that of `j`.
   */
  lemma ServedIncompatibilitySymmetric(ingredients: seq<Ingredient>, reqRows: seq<EdgeRow>,
                                       incRows: seq<EdgeRow>, i: nat, j: nat)
    requires i < |ingredients| && j < |ingredients|
    requires ingredients[j].id in RefIds(GetIngredientsWithConstraints(ingredients, reqRows, incRows)[i].incompatible)
    ensures ingredients[i].id in RefIds(GetIngredientsWithConstraints(ingredients, reqRows, incRows)[j].incompatible)
  {
    var r := GetIngredientsWithConstraints(ingredients, reqRows, incRows);
    var a, b := ingredients[i].id, ingredients[j].id;
    var k :| 0 <= k < |r[i].incompatible| && r[i].incompatible[k].id == b;
    var x := r[i].incompatible[k];
    assert x in r[i].incompatible;
    var row :| row in incRows && IncompatibleEntry(row, a, x);
    var y := if row.from == a && x == Ref(row.to, row.toName) then Ref(row.from, row.fromName) else Ref(row.to, row.toName);
    assert y in r[j].incompatible;
    var m :| 0 <= m < |r[j].incompatible| && r[j].incompatible[m] == y;
    assert RefIds(r[j].incompatible)[m] == a;
  }
}
