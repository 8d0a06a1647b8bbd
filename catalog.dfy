/**
 * The catalog the order rules are checked against: the Ingredients table, the
 * IngredientRequirements and IngredientIncompatibilities edge tables, the
 * messages the validators produce, and a reference definition of a legal
 * ingredient selection that both validators are proved to decide.
 */
module Catalog {
  import opened Tally

  datatype Option<T> = None | Some(value: T)

  /**
   * A row of the Ingredients table, keyed by its id in `Table`.  Prices are in
   * cents; `portions` is `available_portions`, `None` standing for SQL NULL
   * (unlimited stock).
   */
  datatype IngredientRow = IngredientRow(name: string, price: nat, portions: Option<nat>)

  type Table = map<nat, IngredientRow>

  /** The ingredient object the DAOs hand out: `{id, name, price, available_portions}`. */
  datatype Ingredient = Ingredient(id: nat, name: string, price: nat, portions: Option<nat>)

  function RecordOf(t: Table, id: nat): (i: Ingredient)
    requires id in t
  {
    Ingredient(id, t[id].name, t[id].price, t[id].portions)
  }

  /**
   * A row of an edge table.  In IngredientRequirements, `from` requires `to`;
   * in IngredientIncompatibilities, `from` is incompatible with `to`.
   */
  datatype Edge = Edge(from: nat, to: nat)

  /** An edge joined with the names of both endpoints. */
  datatype EdgeRow = EdgeRow(from: nat, to: nat, fromName: string, toName: string)

  /** `{id, name}`: an entry of an ingredient's `requires` or `incompatible_with` list. */
  datatype Ref = Ref(id: nat, name: string)

  /** An ingredient with its `requires` and `incompatible_with` lists. */
  datatype IngredientInfo = IngredientInfo(ingredient: Ingredient, required: seq<Ref>, incompatible: seq<Ref>)

  /** The ids of a `requires` or `incompatible_with` list. */
  function RefIds(refs: seq<Ref>): (ids: seq<nat>)
    ensures |ids| == |refs|
    ensures forall i :: 0 <= i < |refs| ==> ids[i] == refs[i].id
  {
    seq(|refs|, i requires 0 <= i < |refs| => refs[i].id)
  }

  /** Unit price of an id, 0 for an id the table does not hold. */
  function PriceIn(t: Table): nat -> nat
  {
    x => if x in t then t[x].price else 0
  }

  /** The errors the validators report; each constructor carries the fields of one message. */
  datatype OrderError =
      /** "Invalid dish selected" */
    | InvalidDishSelected
      /** "Invalid size selected" */
    | InvalidSizeSelected
      /** "Too many ingredients for <size> size (max <max>)" */
    | TooManyForSize(size: string, max: nat)
      /** "Invalid ingredient with ID <id>" */
    | InvalidIngredientWithId(id: nat)
      /** "<name> requires <required>" */
    | Requires(name: string, required: string)
      /** "Invalid dish ID: <dishId>" */
    | InvalidDishId(dishId: nat)
      /** "Invalid size: <size>" */
    | InvalidSize(size: string)
      /** "Too many ingredients for <size> size. Maximum allowed: <max>" */
    | TooManyMaximumAllowed(size: string, max: nat)
      /** "Invalid ingredient IDs: <id>, <id>, ..." */
    | InvalidIngredientIds(ids: seq<nat>)
      /** "<name> requires <required> to be selected" */
    | RequiresToBeSelected(name: string, required: string)
      /** "Not enough <name> available (requested: <requested>, available: <available>)" */
    | NotEnough(name: string, requested: nat, available: nat)
      /** "<name> is incompatible with <other>" */
    | IncompatibleWith(name: string, other: string)

  /** The sizes the server accepts. */
  const ValidSizes: seq<string> := ["Small", "Medium", "Large"]

  // A reference definition of a legal selection (repetition means quantity).

  predicate AllKnown(t: Table, ids: seq<nat>)
  {
    forall x :: x in ids ==> x in t
  }

  /** No finite stock is exceeded by the number of times its ingredient is selected. */
  predicate StockSuffices(t: Table, ids: seq<nat>)
  {
    forall x :: x in ids && x in t && t[x].portions.Some? ==> Count(ids, x) <= t[x].portions.value
  }

  /**
   * Every requirement edge out of a selected ingredient, towards an ingredient
   * that exists, ends at a selected ingredient.
   */
  predicate RequirementsMet(t: Table, reqs: seq<Edge>, ids: seq<nat>)
  {
    forall e :: e in reqs && e.from in ids && e.to in t ==> e.to in ids
  }

  /** No incompatibility edge has both endpoints selected. */
  predicate NoConflicts(incs: seq<Edge>, ids: seq<nat>)
  {
    forall e :: e in incs && e.from in ids ==> e.to !in ids
  }

  predicate Acceptable(t: Table, reqs: seq<Edge>, incs: seq<Edge>, ids: seq<nat>)
  {
    AllKnown(t, ids) && StockSuffices(t, ids) && RequirementsMet(t, reqs, ids) && NoConflicts(incs, ids)
  }
}
