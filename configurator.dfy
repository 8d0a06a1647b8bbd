/**
 * The client's order configurator: the selected ingredient list (repetition
 * is quantity), the selected size and dish, the rules that decide whether an
 * ingredient may be added or removed or the size changed, the button status
 * of each ingredient, the displayed total, and the grouped list shown to the
 * user.  The ingredient catalog is the list the server serves, with each
 * ingredient's `requires` and `incompatible_with` lists.
 */
module Configurator {
  import opened Tally
  import opened Catalog
  import opened ValidationDao

  /** The selected dish: its id and an optional `base_price` in cents. */
  datatype Dish = Dish(id: nat, basePrice: Option<nat>)

  // ---------------------------------------------------------------------------
  // Lookups

  /** `ingredients.find(i => i.id === id)`: the first catalog entry with that id. */
  function Find(catalog: seq<IngredientInfo>, id: nat): (r: Option<IngredientInfo>)
    ensures r.Some? ==> r.value in catalog && r.value.ingredient.id == id
    ensures r.None? <==> forall i :: 0 <= i < |catalog| ==> catalog[i].ingredient.id != id
  {
    if catalog == [] then None
    else if catalog[0].ingredient.id == id then Some(catalog[0])
    else Find(catalog[1..], id)
  }

  /** `find` returns the first match: the entry found sits at a position before which no entry has the id. */
  lemma {:induction false} FindFirst(catalog: seq<IngredientInfo>, id: nat) returns (i: nat)
    requires Find(catalog, id).Some?
    ensures i < |catalog| && catalog[i] == Find(catalog, id).value
    ensures forall j :: 0 <= j < i ==> catalog[j].ingredient.id != id
  {
    if catalog[0].ingredient.id == id {
      i := 0;
    } else {
      var k := FindFirst(catalog[1..], id);
      i := k + 1;
    }
  }

  /** `pricing.maxIngredients[size] || 0`. */
  function MaxFor(maxIngredients: map<string, nat>, size: string): nat
  {
    if size in maxIngredients then maxIngredients[size] else 0
  }

  /** The entries of a reference list whose ingredient is selected. */
  function SelectedRefs(refs: seq<Ref>, selected: seq<nat>): (r: seq<Ref>)
    ensures forall x :: x in r <==> x in refs && x.id in selected
  {
    if refs == [] then []
    else SelectedRefs(refs[..|refs| - 1], selected)
         + (if refs[|refs| - 1].id in selected then [refs[|refs| - 1]] else [])
  }

  /** The entries of a reference list whose ingredient is not selected. */
  function MissingRefs(refs: seq<Ref>, selected: seq<nat>): (r: seq<Ref>)
    ensures forall x :: x in r <==> x in refs && x.id !in selected
  {
    if refs == [] then []
    else MissingRefs(refs[..|refs| - 1], selected)
         + (if refs[|refs| - 1].id !in selected then [refs[|refs| - 1]] else [])
  }

  /** The names of a reference list, for the warning messages. */
  function Names(refs: seq<Ref>): (names: seq<string>)
    ensures |names| == |refs|
    ensures forall i :: 0 <= i < |refs| ==> names[i] == refs[i].name
  {
    seq(|refs|, i requires 0 <= i < |refs| => refs[i].name)
  }

  /** The ids the ingredient `a` is listed as incompatible with (none for an unknown id). */
  function IncompatIds(catalog: seq<IngredientInfo>, a: nat): seq<nat>
  {
    var f := Find(catalog, a);
    if f.Some? then RefIds(f.value.incompatible) else []
  }

  /** The ids the ingredient `a` requires (none for an unknown id). */
  function ReqIds(catalog: seq<IngredientInfo>, a: nat): seq<nat>
  {
    var f := Find(catalog, a);
    if f.Some? then RefIds(f.value.required) else []
  }

  /** Incompatibility as the server serves it: listed in both directions. */
  ghost predicate Symmetric(catalog: seq<IngredientInfo>)
  {
    forall a, b :: b in IncompatIds(catalog, a) ==> a in IncompatIds(catalog, b)
  }

  /** No ingredient is listed as incompatible with itself. */
  ghost predicate Irreflexive(catalog: seq<IngredientInfo>)
  {
    forall a :: a !in IncompatIds(catalog, a)
  }

  /**
   * With distinct ids, the entry found for an entry's id is that entry; this
   * follows from `Find`'s own contract, since only one entry has the id.
   */
  lemma FindDistinct(catalog: seq<IngredientInfo>, j: nat)
    requires j < |catalog|
    requires forall p, q :: 0 <= p < q < |catalog| ==> catalog[p].ingredient.id != catalog[q].ingredient.id
    ensures Find(catalog, catalog[j].ingredient.id) == Some(catalog[j])
  {
  }

  /** Ingredient ids are a primary key. */
  predicate DistinctIds(ingredients: seq<Ingredient>)
  {
    forall p, q :: 0 <= p < q < |ingredients| ==> ingredients[p].id != ingredients[q].id
  }

  /** An id is the id of a listed ingredient. */
  predicate Listed(ingredients: seq<Ingredient>, id: nat)
  {
    exists i :: 0 <= i < |ingredients| && ingredients[i].id == id
  }

  /**
   * The catalog the server serves meets the configurator's assumptions:
   * when ingredient ids are distinct, each incompatibility row joins two
   * listed ingredients and no row pairs an ingredient with itself, the
   * `incompatible_with` lists are symmetric and irreflexive.
   */
  lemma ServedCatalogFits(ingredients: seq<Ingredient>, reqRows: seq<EdgeRow>, incRows: seq<EdgeRow>)
    requires DistinctIds(ingredients)
    requires forall row :: row in incRows ==> Listed(ingredients, row.from) && Listed(ingredients, row.to)
    requires forall row :: row in incRows ==> row.from != row.to
    ensures Symmetric(GetIngredientsWithConstraints(ingredients, reqRows, incRows))
    ensures Irreflexive(GetIngredientsWithConstraints(ingredients, reqRows, incRows))
  {
    var c := GetIngredientsWithConstraints(ingredients, reqRows, incRows);
    forall a, b | b in IncompatIds(c, a)
      ensures a in IncompatIds(c, b)
    {
      ServedPairSymmetric(ingredients, reqRows, incRows, a, b);
    }
    forall a
      ensures a !in IncompatIds(c, a)
    {
      ServedNotSelf(ingredients, reqRows, incRows, a);
    }
  }

  lemma ServedPairSymmetric(ingredients: seq<Ingredient>, reqRows: seq<EdgeRow>, incRows: seq<EdgeRow>, a: nat, b: nat)
    requires DistinctIds(ingredients)
    requires forall row :: row in incRows ==> Listed(ingredients, row.from) && Listed(ingredients, row.to)
    requires b in IncompatIds(GetIngredientsWithConstraints(ingredients, reqRows, incRows), a)
    ensures a in IncompatIds(GetIngredientsWithConstraints(ingredients, reqRows, incRows), b)
  {
    var c := GetIngredientsWithConstraints(ingredients, reqRows, incRows);
    var i := FoundAt(c, a);
    var j := PartnerListed(ingredients, reqRows, incRows, a, b);
    FindDistinct(c, j);
    assert IncompatIds(c, b) == RefIds(c[j].incompatible);
    ServedIncompatibilitySymmetric(ingredients, reqRows, incRows, i, j);
  }

  /** The position of the entry `Find` returns. */
  lemma FoundAt(c: seq<IngredientInfo>, a: nat) returns (i: nat)
    requires Find(c, a).Some?
    ensures i < |c| && c[i] == Find(c, a).value
  {
    var fa := Find(c, a).value;
    i :| 0 <= i < |c| && c[i] == fa;
  }

  /** A served incompatibility partner is a listed ingredient, when every row joins listed ingredients. */
  lemma PartnerListed(ingredients: seq<Ingredient>, reqRows: seq<EdgeRow>, incRows: seq<EdgeRow>, a: nat, b: nat)
    returns (j: nat)
    requires forall row :: row in incRows ==> Listed(ingredients, row.from) && Listed(ingredients, row.to)
    requires b in IncompatIds(GetIngredientsWithConstraints(ingredients, reqRows, incRows), a)
    ensures j < |ingredients| && ingredients[j].id == b
  {
    var c := GetIngredientsWithConstraints(ingredients, reqRows, incRows);
    var i := FoundAt(c, a);
    assert c[i].ingredient == ingredients[i];
    var x := RefIdSource(c[i].incompatible, b);
    var row :| row in incRows && IncompatibleEntry(row, ingredients[i].id, x);
    assert Listed(ingredients, row.from) && Listed(ingredients, row.to);
    j :| 0 <= j < |ingredients| && ingredients[j].id == b;
  }

  lemma ServedNotSelf(ingredients: seq<Ingredient>, reqRows: seq<EdgeRow>, incRows: seq<EdgeRow>, a: nat)
    requires forall row :: row in incRows ==> row.from != row.to
    ensures a !in IncompatIds(GetIngredientsWithConstraints(ingredients, reqRows, incRows), a)
  {
    var c := GetIngredientsWithConstraints(ingredients, reqRows, incRows);
    if a in IncompatIds(c, a) {
      var fa := Find(c, a).value;
      var i :| 0 <= i < |c| && c[i] == fa;
      var x := RefIdSource(c[i].incompatible, a);
      assert false;
    }
  }

  /** Every selected ingredient's requirements are selected. */
  predicate RequirementsClosed(catalog: seq<IngredientInfo>, selected: seq<nat>)
  {
    forall x, r :: x in selected && r in ReqIds(catalog, x) ==> r in selected
  }

  /** No selected ingredient is incompatible with a selected ingredient. */
  predicate NoConflictPair(catalog: seq<IngredientInfo>, selected: seq<nat>)
  {
    forall x, y :: x in selected && y in IncompatIds(catalog, x) ==> y !in selected
  }

  /** The selection invariants, relative to a size's maximum. */
  predicate Consistent(catalog: seq<IngredientInfo>, maxIngredients: map<string, nat>, size: string, selected: seq<nat>)
  {
    RequirementsClosed(catalog, selected) && NoConflictPair(catalog, selected)
    && |selected| <= MaxFor(maxIngredients, size)
  }

  // ---------------------------------------------------------------------------
  // handleIngredientAdd and canAddIngredient

  /** What `handleIngredientAdd` does: one of its warnings, or the append. */
  datatype AddOutcome =
      /** the id is not in the catalog: nothing happens */
    | UnknownIngredient
      /** "<name> is out of stock or limit reached" */
    | StockReached(name: string)
      /** "Cannot add more ingredients. <size> dishes allow maximum <max> ingredients." */
    | SizeFull(size: string, max: nat)
      /** "<name> is incompatible with: <names>" */
    | IncompatibleWithSelected(name: string, others: seq<string>)
      /** "<name> requires: <names>" */
    | RequiresMissing(name: string, missing: seq<string>)
    | Appended

  /**
   * The checks of `handleIngredientAdd`, in its order: known id, finite stock
   * not reached, room left for the size, and only for an ingredient not yet
   * selected, no incompatible ingredient selected and no requirement missing.
   */
  function AddDecision(catalog: seq<IngredientInfo>, maxIngredients: map<string, nat>, size: string,
                       selected: seq<nat>, id: nat): AddOutcome
  {
    var found := Find(catalog, id);
    if found.None? then UnknownIngredient
    else
      var info := found.value;
      var q := Count(selected, id);
      if info.ingredient.portions.Some? && q >= info.ingredient.portions.value then StockReached(info.ingredient.name)
      else if |selected| >= MaxFor(maxIngredients, size) then SizeFull(size, MaxFor(maxIngredients, size))
      else if q == 0 && SelectedRefs(info.incompatible, selected) != [] then
        IncompatibleWithSelected(info.ingredient.name, Names(SelectedRefs(info.incompatible, selected)))
      else if q == 0 && MissingRefs(info.required, selected) != [] then
        RequiresMissing(info.ingredient.name, Names(MissingRefs(info.required, selected)))
      else Appended
  }

  /** The selection after `handleIngredientAdd`. */
  function AfterAdd(catalog: seq<IngredientInfo>, maxIngredients: map<string, nat>, size: string,
                    selected: seq<nat>, id: nat): seq<nat>
  {
    if AddDecision(catalog, maxIngredients, size, selected, id) == Appended then selected + [id] else selected
  }

  /** `canAddIngredient` for one catalog entry. */
  function CanAdd(info: IngredientInfo, maxIngredients: map<string, nat>, size: string, selected: seq<nat>): bool
  {
    var q := Count(selected, info.ingredient.id);
    var p := info.ingredient.portions;
    if p == Some(0) then false
    else if p.Some? && q >= p.value then false
    else if |selected| >= MaxFor(maxIngredients, size) then false
    else if q == 0 && (exists r :: r in info.incompatible && r.id in selected) then false
    else if q == 0 && (exists r :: r in info.required && r.id !in selected) then false
    else true
  }

  /**
   * The add handler appends exactly when the ingredient is known, its finite
   * stock is not reached by the copies already selected, the size has room,
   * and a first copy clashes with nothing selected and finds all its
   * requirements selected.  It never appends anything but the given id.
   */
  lemma AddAppendsIff(catalog: seq<IngredientInfo>, maxIngredients: map<string, nat>, size: string,
                      selected: seq<nat>, id: nat)
    ensures AddDecision(catalog, maxIngredients, size, selected, id) == Appended <==>
              Find(catalog, id).Some?
              && (Find(catalog, id).value.ingredient.portions.Some? ==>
                    Count(selected, id) < Find(catalog, id).value.ingredient.portions.value)
              && |selected| < MaxFor(maxIngredients, size)
              && (id !in selected ==>
                    (forall r :: r in Find(catalog, id).value.incompatible ==> r.id !in selected)
                    && (forall r :: r in Find(catalog, id).value.required ==> r.id in selected))
    ensures AfterAdd(catalog, maxIngredients, size, selected, id) == selected
            || AfterAdd(catalog, maxIngredients, size, selected, id) == selected + [id]
  {
    var found := Find(catalog, id);
    if found.Some? {
      var info := found.value;
      EmptyRefsIff(info.incompatible, selected);
      EmptyRefsIff(info.required, selected);
    }
  }

  /** An empty filtered list means no entry passes the filter. */
  lemma EmptyRefsIff(refs: seq<Ref>, selected: seq<nat>)
    ensures SelectedRefs(refs, selected) == [] <==> forall r :: r in refs ==> r.id !in selected
    ensures MissingRefs(refs, selected) == [] <==> forall r :: r in refs ==> r.id in selected
  {
    if SelectedRefs(refs, selected) != [] {
      assert SelectedRefs(refs, selected)[0] in SelectedRefs(refs, selected);
    }
    if MissingRefs(refs, selected) != [] {
      assert MissingRefs(refs, selected)[0] in MissingRefs(refs, selected);
    }
  }

  /**
   * For the catalog entry the add handler finds, `canAddIngredient` is true
   * exactly when the handler would append the ingredient.
   */
  lemma CanAddIffAppends(catalog: seq<IngredientInfo>, maxIngredients: map<string, nat>, size: string,
                         selected: seq<nat>, info: IngredientInfo)
    requires Find(catalog, info.ingredient.id) == Some(info)
    ensures CanAdd(info, maxIngredients, size, selected) <==>
              AddDecision(catalog, maxIngredients, size, selected, info.ingredient.id) == Appended
  {
    AddAppendsIff(catalog, maxIngredients, size, selected, info.ingredient.id);
  }

  /** Adding raises the added ingredient's quantity and the total count by one and leaves other quantities alone. */
  lemma AddQuantities(catalog: seq<IngredientInfo>, maxIngredients: map<string, nat>, size: string,
                      selected: seq<nat>, id: nat, other: nat)
    requires AddDecision(catalog, maxIngredients, size, selected, id) == Appended
    ensures var s' := AfterAdd(catalog, maxIngredients, size, selected, id);
            |s'| == |selected| + 1 && Count(s', id) == Count(selected, id) + 1
            && (other != id ==> Count(s', other) == Count(selected, other))
  {
    CountAppend(selected, id, id);
    CountAppend(selected, id, other);
  }

  /**
   * The size limit alone: whatever the catalog, an add keeps a selection
   * within the size's maximum, because it appends only below that maximum.
   */
  lemma AddKeepsLength(catalog: seq<IngredientInfo>, maxIngredients: map<string, nat>, size: string,
                       selected: seq<nat>, id: nat)
    requires |selected| <= MaxFor(maxIngredients, size)
    ensures |AfterAdd(catalog, maxIngredients, size, selected, id)| <= MaxFor(maxIngredients, size)
  {
    AddAppendsIff(catalog, maxIngredients, size, selected, id);
  }

  /**
   * With incompatibility listed in both directions and never reflexive, the
   * add handler keeps every selected ingredient's requirements selected, no
   * two selected ingredients incompatible, and the count within the size's
   * maximum.
   */
  lemma AddKeepsConsistent(catalog: seq<IngredientInfo>, maxIngredients: map<string, nat>, size: string,
                           selected: seq<nat>, id: nat)
    requires Symmetric(catalog) && Irreflexive(catalog)
    requires Consistent(catalog, maxIngredients, size, selected)
    ensures Consistent(catalog, maxIngredients, size, AfterAdd(catalog, maxIngredients, size, selected, id))
  {
    var s' := AfterAdd(catalog, maxIngredients, size, selected, id);
    if s' != selected {
      AddAppendsIff(catalog, maxIngredients, size, selected, id);
      var info := Find(catalog, id).value;
      assert s' == selected + [id];
      forall x, r | x in s' && r in ReqIds(catalog, x)
        ensures r in s'
      {
        if x !in selected {
          var _ := RefIdSource(info.required, r);
        }
      }
      forall x, y | x in s' && y in IncompatIds(catalog, x)
        ensures y !in s'
      {
        if x in selected {
          if y == id {
            assert x in IncompatIds(catalog, id);
            var _ := RefIdSource(info.incompatible, x);
            assert false;
          }
        } else if id !in selected {
          var _ := RefIdSource(info.incompatible, y);
        }
      }
    }
  }

  /** An id in a reference list's ids comes from an entry with that id. */
  lemma RefIdSource(refs: seq<Ref>, y: nat) returns (r: Ref)
    requires y in RefIds(refs)
    ensures r in refs && r.id == y
  {
    var i :| 0 <= i < |refs| && RefIds(refs)[i] == y;
    r := refs[i];
  }

  // ---------------------------------------------------------------------------
  // handleIngredientRemove

  /** What `handleIngredientRemove` does. */
  datatype RemoveOutcome =
      /** the id is not in the catalog: nothing happens */
    | NotInCatalog
      /** "Cannot remove <name> - required by: <names>" */
    | RequiredBy(name: string, dependents: seq<string>)
      /** `indexOf` found nothing: nothing happens */
    | NotSelected
    | RemovedFirst

  /** The catalog entries that are selected and list `id` among their requirements. */
  function Dependents(catalog: seq<IngredientInfo>, selected: seq<nat>, id: nat): (d: seq<IngredientInfo>)
    ensures forall x :: x in d <==> x in catalog && x.ingredient.id in selected && id in RefIds(x.required)
  {
    if catalog == [] then []
    else
      var last := catalog[|catalog| - 1];
      Dependents(catalog[..|catalog| - 1], selected, id)
      + (if last.ingredient.id in selected && id in RefIds(last.required) then [last] else [])
  }

  /** `indexOf`: the position of the first occurrence. */
  function IndexOf(s: seq<nat>, x: nat): (i: nat)
    requires x in s
    ensures i < |s| && s[i] == x && x !in s[..i]
  {
    if s[0] == x then 0 else assert s == [s[0]] + s[1..]; 1 + IndexOf(s[1..], x)
  }

  /** `splice(indexOf(x), 1)`: the list without its first occurrence of `x`. */
  function RemoveFirst(s: seq<nat>, x: nat): (r: seq<nat>)
    requires x in s
  {
    var i := IndexOf(s, x);
    s[..i] + s[i + 1..]
  }

  function RemoveDecision(catalog: seq<IngredientInfo>, selected: seq<nat>, id: nat): RemoveOutcome
  {
    var found := Find(catalog, id);
    if found.None? then NotInCatalog
    else if Dependents(catalog, selected, id) != [] then
      RequiredBy(found.value.ingredient.name,
                 seq(|Dependents(catalog, selected, id)|,
                     i requires 0 <= i < |Dependents(catalog, selected, id)| =>
                       Dependents(catalog, selected, id)[i].ingredient.name))
    else if id !in selected then NotSelected
    else RemovedFirst
  }

  /** The selection after `handleIngredientRemove`. */
  function AfterRemove(catalog: seq<IngredientInfo>, selected: seq<nat>, id: nat): seq<nat>
  {
    if RemoveDecision(catalog, selected, id) == RemovedFirst then RemoveFirst(selected, id) else selected
  }

  lemma {:induction false} CountConcat(a: seq<nat>, b: seq<nat>, x: nat)
    ensures Count(a + b, x) == Count(a, x) + Count(b, x)
  {
    if b != [] {
      var init, last := b[..|b| - 1], b[|b| - 1];
      CountConcat(a, init, x);
      assert a + b == (a + init) + [last];
      assert b == init + [last];
      CountAppend(a + init, last, x);
      CountAppend(init, last, x);
    } else {
      assert a + b == a;
    }
  }

  /**
   * Removing the first occurrence takes exactly one copy of `x` away: the
   * list keeps its order around the removed position, and every other
   * ingredient keeps its quantity.
   */
  lemma RemoveFirstCounts(s: seq<nat>, x: nat, y: nat)
    requires x in s
    ensures |RemoveFirst(s, x)| == |s| - 1
    ensures Count(RemoveFirst(s, x), x) == Count(s, x) - 1
    ensures y != x ==> Count(RemoveFirst(s, x), y) == Count(s, y)
    ensures RemoveFirst(s, x)[..IndexOf(s, x)] == s[..IndexOf(s, x)]
    ensures RemoveFirst(s, x)[IndexOf(s, x)..] == s[IndexOf(s, x) + 1..]
  {
    var i := IndexOf(s, x);
    var a, b := s[..i], s[i + 1..];
    assert s == a + [x] + b;
    CountConcat(a + [x], b, x);
    CountConcat(a + [x], b, y);
    CountAppend(a, x, x);
    CountAppend(a, x, y);
    CountConcat(a, b, x);
    CountConcat(a, b, y);
    assert RemoveFirst(s, x) == a + b;
  }

  /**
   * The remove handler refuses whenever a selected ingredient requires the
   * target, however many copies of the target are selected; otherwise a
   * selected target loses exactly one copy.
   */
  lemma RemoveRefusedIff(catalog: seq<IngredientInfo>, selected: seq<nat>, id: nat)
    ensures RemoveDecision(catalog, selected, id).RequiredBy? <==>
              Find(catalog, id).Some?
              && exists x :: x in catalog && x.ingredient.id in selected && id in RefIds(x.required)
    ensures RemoveDecision(catalog, selected, id) == RemovedFirst <==>
              Find(catalog, id).Some? && id in selected
              && forall x :: x in catalog && x.ingredient.id in selected ==> id !in RefIds(x.required)
    ensures RemoveDecision(catalog, selected, id) == RemovedFirst ==>
              Count(AfterRemove(catalog, selected, id), id) + 1 == Count(selected, id)
  {
    var d := Dependents(catalog, selected, id);
    if d != [] {
      assert d[0] in d;
    }
    if RemoveDecision(catalog, selected, id) == RemovedFirst {
      RemoveFirstCounts(selected, id, id);
    }
  }

  /** Membership after removing one copy: `y` stays exactly when it is another id, or a second copy of `x`. */
  lemma RemoveFirstMembers(s: seq<nat>, x: nat, y: nat)
    requires x in s
    ensures y in RemoveFirst(s, x) <==> y in s && (y != x || Count(s, x) >= 2)
  {
    RemoveFirstCounts(s, x, y);
  }

  /**
   * The remove handler keeps every selected ingredient's requirements
   * selected, no two selected ingredients incompatible, and the count
   * within the size's maximum.
   */
  lemma RemoveKeepsConsistent(catalog: seq<IngredientInfo>, maxIngredients: map<string, nat>, size: string,
                              selected: seq<nat>, id: nat)
    requires Consistent(catalog, maxIngredients, size, selected)
    ensures Consistent(catalog, maxIngredients, size, AfterRemove(catalog, selected, id))
  {
    if RemoveDecision(catalog, selected, id) == RemovedFirst {
      RemoveFirstConsistent(catalog, maxIngredients, size, selected, id);
    }
  }

  /** Removing one copy keeps only selected ids, and keeps every other selected id. */
  lemma RemoveFirstSubset(s: seq<nat>, x: nat)
    requires x in s
    ensures forall y :: y in RemoveFirst(s, x) ==> y in s
    ensures forall y :: y in s && y != x ==> y in RemoveFirst(s, x)
  {
    forall y
      ensures y in RemoveFirst(s, x) ==> y in s
      ensures y in s && y != x ==> y in RemoveFirst(s, x)
    {
      RemoveFirstMembers(s, x, y);
    }
  }

  /** The removal branch of `RemoveKeepsConsistent`: no selected ingredient depends on the one removed. */
  lemma RemoveFirstConsistent(catalog: seq<IngredientInfo>, maxIngredients: map<string, nat>, size: string,
                              selected: seq<nat>, id: nat)
    requires Consistent(catalog, maxIngredients, size, selected)
    requires RemoveDecision(catalog, selected, id) == RemovedFirst
    ensures Consistent(catalog, maxIngredients, size, RemoveFirst(selected, id))
  {
    RemoveRefusedIff(catalog, selected, id);
    RemoveFirstCounts(selected, id, id);
    RemoveFirstSubset(selected, id);
    RemoveKeepsClosed(catalog, selected, id);
  }

  /** Requirements stay closed when the copy removed is required by no selected ingredient. */
  lemma RemoveKeepsClosed(catalog: seq<IngredientInfo>, selected: seq<nat>, id: nat)
    requires RequirementsClosed(catalog, selected) && id in selected
    requires forall x :: x in catalog && x.ingredient.id in selected ==> id !in RefIds(x.required)
    ensures RequirementsClosed(catalog, RemoveFirst(selected, id))
  {
    var s' := RemoveFirst(selected, id);
    RemoveFirstSubset(selected, id);
    forall x, r | x in s' && r in ReqIds(catalog, x)
      ensures r in s'
    {
      var entry := Find(catalog, x).value;
      assert entry in catalog && entry.ingredient.id in selected;
      assert r in RefIds(entry.required);
    }
  }

  // ---------------------------------------------------------------------------
  // handleSizeChange

  /** `handleSizeChange`'s refusal: "Cannot change to <size> size. Remove <excess> ingredient(s) first." */
  datatype SizeOutcome = TooManyFor(size: string, excess: nat) | SizeChanged

  function SizeDecision(maxIngredients: map<string, nat>, selected: seq<nat>, newSize: string): SizeOutcome
  {
    var max := MaxFor(maxIngredients, newSize);
    if |selected| > max then TooManyFor(newSize, |selected| - max) else SizeChanged
  }

  /**
   * The size changes exactly when the current selection fits the new size's
   * maximum, and a refusal names how many ingredients are too many; the
   * selection invariants hold under whichever size is then selected.
   */
  lemma SizeChangeKeepsConsistent(catalog: seq<IngredientInfo>, maxIngredients: map<string, nat>, size: string,
                                  selected: seq<nat>, newSize: string)
    requires Consistent(catalog, maxIngredients, size, selected)
    ensures SizeDecision(maxIngredients, selected, newSize) == SizeChanged <==>
              |selected| <= MaxFor(maxIngredients, newSize)
    ensures SizeDecision(maxIngredients, selected, newSize).TooManyFor? ==>
              SizeDecision(maxIngredients, selected, newSize).excess + MaxFor(maxIngredients, newSize) == |selected|
              && SizeDecision(maxIngredients, selected, newSize).excess >= 1
    ensures Consistent(catalog, maxIngredients,
                       if SizeDecision(maxIngredients, selected, newSize) == SizeChanged then newSize else size,
                       selected)
  {
  }

  // ---------------------------------------------------------------------------
  // getIngredientStatus

  /** The label of an ingredient's button. */
  datatype Label = OutOfStock | MaxQuantity | LimitReached | Selected(quantity: nat) | Incompatible | MissingRequirements | Available

  /** `getIngredientStatus`'s `{disabled, variant, text}`. */
  datatype Status = Status(disabled: bool, variant: string, text: Label)

  function IngredientStatus(info: IngredientInfo, maxIngredients: map<string, nat>, size: string,
                            selected: seq<nat>): Status
  {
    var q := Count(selected, info.ingredient.id);
    var p := info.ingredient.portions;
    if p == Some(0) then Status(true, "secondary", OutOfStock)
    else if p.Some? && q >= p.value then Status(true, "secondary", MaxQuantity)
    else if |selected| >= MaxFor(maxIngredients, size) && q == 0 then Status(true, "secondary", LimitReached)
    else if q > 0 then Status(false, "success", Selected(q))
    else if exists r :: r in info.incompatible && r.id in selected then Status(true, "warning", Incompatible)
    else if exists r :: r in info.required && r.id !in selected then Status(true, "info", MissingRequirements)
    else Status(false, "outline-primary", Available)
  }

  /**
   * The button of an ingredient is enabled exactly when it may be added, or
   * when copies are already selected and the finite stock is not reached
   * (then it shows the quantity even if the size is full).
   */
  lemma StatusAgreesWithCanAdd(info: IngredientInfo, maxIngredients: map<string, nat>, size: string,
                               selected: seq<nat>)
    ensures !IngredientStatus(info, maxIngredients, size, selected).disabled <==>
              CanAdd(info, maxIngredients, size, selected)
              || (Count(selected, info.ingredient.id) > 0
                  && !(info.ingredient.portions.Some?
                       && Count(selected, info.ingredient.id) >= info.ingredient.portions.value))
    ensures (IngredientStatus(info, maxIngredients, size, selected).text == Selected(Count(selected, info.ingredient.id)))
              <==> !IngredientStatus(info, maxIngredients, size, selected).disabled && info.ingredient.id in selected
  {
  }

  // ---------------------------------------------------------------------------
  // calculateTotal

  /** The client's fixed size prices in cents (5, 7 and 9), with Medium's as the default. */
  function SizeBase(size: string): nat
  {
    if size == "Small" then 500 else if size == "Large" then 900 else 700
  }

  /** The dish's `base_price`, 0 without a dish or without a price. */
  function DishPrice(dish: Option<Dish>): nat
  {
    if dish.Some? && dish.value.basePrice.Some? then dish.value.basePrice.value else 0
  }

  /** The catalog price of an id, 0 for an id the catalog does not list. */
  function CatalogPrice(catalog: seq<IngredientInfo>): nat -> nat
  {
    x => var f := Find(catalog, x); if f.Some? then f.value.ingredient.price else 0
  }

  /** `calculateTotal`, in cents. */
  function Total(catalog: seq<IngredientInfo>, dish: Option<Dish>, size: string, selected: seq<nat>): nat
  {
    SizeBase(size) + DishPrice(dish) + SumBy(selected, CatalogPrice(catalog))
  }

  /**
   * The total is the size price plus the dish price plus, over the distinct
   * selected ingredients, price times quantity; an append raises it by the
   * appended ingredient's price.
   */
  lemma TotalByQuantities(catalog: seq<IngredientInfo>, dish: Option<Dish>, size: string, selected: seq<nat>, id: nat)
    ensures Total(catalog, dish, size, selected)
            == SizeBase(size) + DishPrice(dish) + Weighted(SortedDistinct(selected), selected, CatalogPrice(catalog))
    ensures Total(catalog, dish, size, selected + [id]) == Total(catalog, dish, size, selected) + CatalogPrice(catalog)(id)
    ensures SizeBase(size) in {500, 700, 900}
  {
    Regroup(SortedDistinct(selected), selected, CatalogPrice(catalog));
    assert (selected + [id])[..|selected + [id]| - 1] == selected;
  }

  // ---------------------------------------------------------------------------
  // getSelectedIngredientsWithQuantity

  /** `{ingredient, quantity}`. */
  datatype SelectedItem = SelectedItem(ingredient: IngredientInfo, quantity: nat)

  /** The grouped entries for the keys `keys`, dropping ids the catalog does not list. */
  function KnownGroups(catalog: seq<IngredientInfo>, keys: seq<nat>, selected: seq<nat>): seq<SelectedItem>
  {
    if keys == [] then []
    else
      var k := keys[|keys| - 1];
      var f := Find(catalog, k);
      KnownGroups(catalog, keys[..|keys| - 1], selected) + (if f.Some? then [SelectedItem(f.value, Count(selected, k))] else [])
  }

  function QuantityTotal(items: seq<SelectedItem>): nat
  {
    if items == [] then 0 else QuantityTotal(items[..|items| - 1]) + items[|items| - 1].quantity
  }

  /** 1 for an id the catalog lists, 0 otherwise. */
  function Known(catalog: seq<IngredientInfo>): nat -> nat
  {
    x => if Find(catalog, x).Some? then 1 else 0
  }

  /** The grouped entries follow the keys: ascending ids, each a listed key with its catalog entry and quantity. */
  lemma {:induction false} KnownGroupsOrdered(catalog: seq<IngredientInfo>, keys: seq<nat>, selected: seq<nat>)
    requires Increasing(keys)
    ensures forall it :: it in KnownGroups(catalog, keys, selected) ==>
              it.ingredient.ingredient.id in keys && Find(catalog, it.ingredient.ingredient.id) == Some(it.ingredient)
              && it.quantity == Count(selected, it.ingredient.ingredient.id)
    ensures forall i, j :: 0 <= i < j < |KnownGroups(catalog, keys, selected)| ==>
              KnownGroups(catalog, keys, selected)[i].ingredient.ingredient.id
              < KnownGroups(catalog, keys, selected)[j].ingredient.ingredient.id
  {
    if keys != [] {
      var init, k := keys[..|keys| - 1], keys[|keys| - 1];
      assert Increasing(init);
      KnownGroupsOrdered(catalog, init, selected);
      var g := KnownGroups(catalog, init, selected);
      var f := Find(catalog, k);
      var tail := if f.Some? then [SelectedItem(f.value, Count(selected, k))] else [];
      assert KnownGroups(catalog, keys, selected) == g + tail;
      forall i | 0 <= i < |g|
        ensures g[i].ingredient.ingredient.id < k
      {
        assert g[i] in g;
        var m :| 0 <= m < |init| && init[m] == g[i].ingredient.ingredient.id;
        assert keys[m] < keys[|keys| - 1];
      }
      var all := g + tail;
      forall i, j | 0 <= i < j < |all|
        ensures all[i].ingredient.ingredient.id < all[j].ingredient.ingredient.id
      {
        assert all[i] == g[i];
        if j < |g| {
          assert all[j] == g[j];
        }
      }
    }
  }

  /** Every listed key has its entry, with its quantity, in the grouped list. */
  lemma {:induction false} KnownGroupsComplete(catalog: seq<IngredientInfo>, keys: seq<nat>, selected: seq<nat>)
    ensures forall k :: k in keys && Find(catalog, k).Some? ==>
              SelectedItem(Find(catalog, k).value, Count(selected, k)) in KnownGroups(catalog, keys, selected)
  {
    if keys != [] {
      var init, k := keys[..|keys| - 1], keys[|keys| - 1];
      KnownGroupsComplete(catalog, init, selected);
      var g := KnownGroups(catalog, init, selected);
      var f := Find(catalog, k);
      var tail := if f.Some? then [SelectedItem(f.value, Count(selected, k))] else [];
      assert KnownGroups(catalog, keys, selected) == g + tail;
      forall kk | kk in keys && Find(catalog, kk).Some?
        ensures SelectedItem(Find(catalog, kk).value, Count(selected, kk)) in g + tail
      {
        if kk != k {
          assert kk in init;
        }
      }
    }
  }

  /** The quantities of the grouped list add up to the weighted count of listed ids. */
  lemma {:induction false} KnownGroupsTotal(catalog: seq<IngredientInfo>, keys: seq<nat>, selected: seq<nat>)
    ensures QuantityTotal(KnownGroups(catalog, keys, selected)) == Weighted(keys, selected, Known(catalog))
  {
    if keys != [] {
      var init, k := keys[..|keys| - 1], keys[|keys| - 1];
      KnownGroupsTotal(catalog, init, selected);
      var g := KnownGroups(catalog, init, selected);
      var f := Find(catalog, k);
      var tail := if f.Some? then [SelectedItem(f.value, Count(selected, k))] else [];
      assert KnownGroups(catalog, keys, selected) == g + tail;
      if f.Some? {
        assert (g + tail)[..|g + tail| - 1] == g;
        assert Term(Known(catalog), k, selected) == Count(selected, k);
      } else {
        assert g + tail == g;
        assert Term(Known(catalog), k, selected) == 0;
      }
    }
  }

  /** The quantities of the grouped list count every selected occurrence of a listed id. */
  lemma GroupedQuantitiesCountKnown(catalog: seq<IngredientInfo>, selected: seq<nat>)
    ensures QuantityTotal(KnownGroups(catalog, SortedDistinct(selected), selected)) == SumBy(selected, Known(catalog))
    ensures (forall x :: x in selected ==> Find(catalog, x).Some?) ==>
              QuantityTotal(KnownGroups(catalog, SortedDistinct(selected), selected)) == |selected|
  {
    KnownGroupsTotal(catalog, SortedDistinct(selected), selected);
    Regroup(SortedDistinct(selected), selected, Known(catalog));
    if forall x :: x in selected ==> Find(catalog, x).Some? {
      KnownAll(catalog, selected);
    }
  }

  lemma {:induction false} KnownAll(catalog: seq<IngredientInfo>, s: seq<nat>)
    requires forall x :: x in s ==> Find(catalog, x).Some?
    ensures SumBy(s, Known(catalog)) == |s|
  {
    if s != [] {
      var init := s[..|s| - 1];
      assert forall x :: x in init ==> x in s;
      KnownAll(catalog, init);
    }
  }

  // ---------------------------------------------------------------------------
  // The component's state

  /** The configurator's props and state: the catalog and size limits it is given, and the current choices. */
  class OrderConfiguration {
    const catalog: seq<IngredientInfo>
    const maxIngredients: map<string, nat>
    var selectedDish: Option<Dish>
    var selectedSize: string
    var selected: seq<nat>

    /** The catalog lists incompatibility both ways, and the selection keeps its invariants. */
    ghost predicate Valid()
      reads this
    {
      Symmetric(catalog) && Irreflexive(catalog) && Consistent(catalog, maxIngredients, selectedSize, selected)
    }

    /** An empty selection. */
    constructor (catalog: seq<IngredientInfo>, maxIngredients: map<string, nat>, size: string, dish: Option<Dish>)
      requires Symmetric(catalog) && Irreflexive(catalog)
      ensures Valid()
      ensures this.catalog == catalog && this.maxIngredients == maxIngredients
      ensures selectedSize == size && selectedDish == dish && selected == []
    {
      this.catalog := catalog;
      this.maxIngredients := maxIngredients;
      selectedSize, selectedDish, selected := size, dish, [];
    }

    /** `getIngredientQuantity`. */
    function Quantity(id: nat): (q: nat)
      reads this
      ensures q <= |selected| && (q > 0 <==> id in selected)
    {
      Count(selected, id)
    }

    /** `handleIngredientAdd`. */
    method Add(id: nat) returns (outcome: AddOutcome)
      requires Valid()
      modifies this
      ensures Valid()
      ensures outcome == AddDecision(catalog, maxIngredients, selectedSize, old(selected), id)
      ensures selected == AfterAdd(catalog, maxIngredients, selectedSize, old(selected), id)
      ensures selectedSize == old(selectedSize) && selectedDish == old(selectedDish)
    {
      outcome := AddDecision(catalog, maxIngredients, selectedSize, selected, id);
      AddKeepsConsistent(catalog, maxIngredients, selectedSize, selected, id);
      if outcome == Appended {
        selected := selected + [id];
      }
    }

    /** `handleIngredientRemove`. */
    method Remove(id: nat) returns (outcome: RemoveOutcome)
      requires Valid()
      modifies this
      ensures Valid()
      ensures outcome == RemoveDecision(catalog, old(selected), id)
      ensures selected == AfterRemove(catalog, old(selected), id)
      ensures selectedSize == old(selectedSize) && selectedDish == old(selectedDish)
    {
      outcome := RemoveDecision(catalog, selected, id);
      RemoveKeepsConsistent(catalog, maxIngredients, selectedSize, selected, id);
      if outcome == RemovedFirst {
        var index := IndexOf(selected, id);
        selected := selected[..index] + selected[index + 1..];
      }
    }

    /** `handleSizeChange`. */
    method ChangeSize(newSize: string) returns (outcome: SizeOutcome)
      requires Valid()
      modifies this
      ensures Valid()
      ensures outcome == SizeDecision(maxIngredients, selected, newSize)
      ensures selectedSize == (if outcome == SizeChanged then newSize else old(selectedSize))
      ensures selected == old(selected) && selectedDish == old(selectedDish)
    {
      outcome := SizeDecision(maxIngredients, selected, newSize);
      SizeChangeKeepsConsistent(catalog, maxIngredients, selectedSize, selected, newSize);
      if outcome == SizeChanged {
        selectedSize := newSize;
      }
    }

    /**
     * `getSelectedIngredientsWithQuantity`: one entry per distinct selected id
     * the catalog lists, in increasing id order, with its quantity.
     */
    method SelectedWithQuantity() returns (items: seq<SelectedItem>)
      ensures items == KnownGroups(catalog, SortedDistinct(selected), selected)
      ensures forall i, j :: 0 <= i < j < |items| ==> items[i].ingredient.ingredient.id < items[j].ingredient.ingredient.id
      ensures forall it :: it in items ==>
                it.ingredient.ingredient.id in selected && it.quantity == Count(selected, it.ingredient.ingredient.id)
                && it.quantity >= 1
      ensures forall k :: k in selected && Find(catalog, k).Some? ==>
                SelectedItem(Find(catalog, k).value, Count(selected, k)) in items
      ensures QuantityTotal(items) == SumBy(selected, Known(catalog))
    {
      var counts := CountIngredients(selected);
      var keys := SortedDistinct(selected);
      items := [];
      assert keys[..0] == [];
      for i := 0 to |keys|
        invariant items == KnownGroups(catalog, keys[..i], selected)
      {
        var id := keys[i];
        assert id in selected;
        ghost var upTo := keys[..i + 1];
        assert upTo[..|upTo| - 1] == keys[..i] && upTo[|upTo| - 1] == id;
        var ingredient := Find(catalog, id);
        if ingredient.Some? {
          items := items + [SelectedItem(ingredient.value, counts[id])];
        }
      }
      assert keys[..|keys|] == keys;
      KnownGroupsOrdered(catalog, keys, selected);
      KnownGroupsComplete(catalog, keys, selected);
      GroupedQuantitiesCountKnown(catalog, selected);
    }
  }
}
