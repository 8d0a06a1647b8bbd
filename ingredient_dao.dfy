/**
 * The ingredient data-access layer: lookups in the Ingredients table, the
 * joins that name the endpoints of requirement and incompatibility edges,
 * the batch lookup with constraint lists used by the order validator, and
 * the guarded stock decrement.
 */
module IngredientDao {
  import opened Tally
  import opened Catalog

  /** `getIngredientById`: the row with that id, or null. */
  function GetIngredientById(t: Table, id: nat): (r: Option<Ingredient>)
    ensures r.None? <==> id !in t
    ensures r.Some? ==> r.value.id == id && r.value.name == t[id].name
                        && r.value.price == t[id].price && r.value.portions == t[id].portions
  {
    if id in t then Some(RecordOf(t, id)) else None
  }

  /**
   * `getIngredientRequirements` / `getIngredientIncompatibilities`: the edge
   * table joined twice with Ingredients, so an edge whose endpoint does not
   * exist is dropped.
   */
  function JoinEdges(t: Table, edges: seq<Edge>): (rows: seq<EdgeRow>)
    ensures forall r :: r in rows ==>
              Edge(r.from, r.to) in edges && r.from in t && r.to in t
              && r.fromName == t[r.from].name && r.toName == t[r.to].name
    ensures forall e :: e in edges && e.from in t && e.to in t ==>
              EdgeRow(e.from, e.to, t[e.from].name, t[e.to].name) in rows
  {
    if edges == [] then []
    else
      var init, e := edges[..|edges| - 1], edges[|edges| - 1];
      assert edges == init + [e];
      JoinEdges(t, init)
        + (if e.from in t && e.to in t then [EdgeRow(e.from, e.to, t[e.from].name, t[e.to].name)] else [])
  }

  /** The elements of `s` the table holds, in order and with repetitions. */
  function FilterKnown(s: seq<nat>, t: Table): (r: seq<nat>)
    ensures forall x :: x in r <==> x in s && x in t
  {
    if s == [] then []
    else
      var init, x := s[..|s| - 1], s[|s| - 1];
      assert s == init + [x];
      FilterKnown(init, t) + (if x in t then [x] else [])
  }

  /** `s.filter(id => !known.includes(id))`. */
  function Without(s: seq<nat>, known: seq<nat>): (r: seq<nat>)
    ensures forall x :: x in r <==> x in s && x !in known
    ensures |r| <= |s|
  {
    if s == [] then []
    else
      var init, x := s[..|s| - 1], s[|s| - 1];
      assert s == init + [x];
      Without(init, known) + (if x !in known then [x] else [])
  }

  /** Targets of the requirement edges out of `id` that exist, in table order. */
  function RequiredRefs(t: Table, reqs: seq<Edge>, id: nat): (refs: seq<Ref>)
    ensures forall r :: r in refs <==> Edge(id, r.id) in reqs && r.id in t && r.name == t[r.id].name
  {
    if reqs == [] then []
    else
      var init, e := reqs[..|reqs| - 1], reqs[|reqs| - 1];
      assert reqs == init + [e];
      RequiredRefs(t, init, id) + (if e.from == id && e.to in t then [Ref(e.to, t[e.to].name)] else [])
  }

  /** The other endpoint of every incompatibility edge touching `id`, in either direction. */
  function Partners(incs: seq<Edge>, id: nat): (r: seq<nat>)
    ensures forall x :: x in r <==> Edge(id, x) in incs || Edge(x, id) in incs
  {
    if incs == [] then []
    else
      var init, e := incs[..|incs| - 1], incs[|incs| - 1];
      assert incs == init + [e];
      Partners(init, id) + (if e.from == id then [e.to] else []) + (if e.to == id then [e.from] else [])
  }

  /**
   * The `UNION` of the forward and the backward incompatibility edges of `id`,
   * joined with the names: duplicate-free, modelled in ascending id order.
   */
  function IncompatibleRefs(t: Table, incs: seq<Edge>, id: nat): (refs: seq<Ref>)
    ensures forall r :: r in refs <==>
              (Edge(id, r.id) in incs || Edge(r.id, id) in incs) && r.id in t && r.name == t[r.id].name
    ensures forall i, j :: 0 <= i < j < |refs| ==> refs[i].id < refs[j].id
  {
    var ks := SortedDistinct(FilterKnown(Partners(incs, id), t));
    RefsOfMembers(t, ks);
    RefsOf(t, ks)
  }

  /** The references, with their names, of ids the table holds, in the given order. */
  function RefsOf(t: Table, ks: seq<nat>): (refs: seq<Ref>)
    requires forall k :: k in ks ==> k in t
    ensures |refs| == |ks|
    ensures forall i :: 0 <= i < |ks| ==> refs[i] == Ref(ks[i], t[ks[i]].name)
  {
    seq(|ks|, i requires 0 <= i < |ks| => assert ks[i] in ks; Ref(ks[i], t[ks[i]].name))
  }

  lemma RefsOfMembers(t: Table, ks: seq<nat>)
    requires forall k :: k in ks ==> k in t
    ensures forall r :: r in RefsOf(t, ks) <==> r.id in ks && r.name == t[r.id].name
  {
    var refs := RefsOf(t, ks);
    forall r: Ref | r.id in ks && r.name == t[r.id].name
      ensures r in refs
    {
      var i :| 0 <= i < |ks| && ks[i] == r.id;
      assert refs[i] == r;
    }
  }

  /** An ingredient row with its `incompatible_with` and `requires` lists. */
  function InfoOf(t: Table, reqs: seq<Edge>, incs: seq<Edge>, id: nat): (info: IngredientInfo)
    requires id in t
  {
    IngredientInfo(RecordOf(t, id), RequiredRefs(t, reqs, id), IncompatibleRefs(t, incs, id))
  }

  /**
   * The ids `SELECT * FROM Ingredients WHERE id IN (...)` returns: every
   * requested id the table holds, once, modelled in ascending order.
   */
  function FoundIds(t: Table, ids: seq<nat>): (r: seq<nat>)
    ensures Increasing(r)
    ensures forall x :: x in r <==> x in ids && x in t
  {
    SortedDistinct(FilterKnown(ids, t))
  }

  /** The rows `getIngredientsByIds` resolves with. */
  function Infos(t: Table, reqs: seq<Edge>, incs: seq<Edge>, ids: seq<nat>): (r: seq<IngredientInfo>)
    ensures |r| == |FoundIds(t, ids)|
  {
    var keys := FoundIds(t, ids);
    seq(|keys|, i requires 0 <= i < |keys| => assert keys[i] in keys; InfoOf(t, reqs, incs, keys[i]))
  }

  /**
   * `getIngredientsByIds`: empty for an empty request; otherwise one entry per
   * requested id that exists, carrying exactly that row and its constraint lists.
   */
  method GetIngredientsByIds(t: Table, reqs: seq<Edge>, incs: seq<Edge>, ids: seq<nat>)
    returns (infos: seq<IngredientInfo>)
    ensures ids == [] ==> infos == []
    ensures infos == Infos(t, reqs, incs, ids)
  {
    if |ids| == 0 {
      return [];
    }
    var keys := FoundIds(t, ids);
    infos := [];
    for i := 0 to |keys|
      invariant |infos| == i
      invariant forall j :: 0 <= j < i ==> keys[j] in t && infos[j] == InfoOf(t, reqs, incs, keys[j])
    {
      assert keys[i] in keys;
      infos := infos + [InfoOf(t, reqs, incs, keys[i])];
    }
  }

  /** The answer to a requested id: every entry of `Infos` is a requested row, and every requested row is there exactly once. */
  lemma InfosAreRequestedRows(t: Table, reqs: seq<Edge>, incs: seq<Edge>, ids: seq<nat>)
    ensures forall i :: 0 <= i < |Infos(t, reqs, incs, ids)| ==>
              var info := Infos(t, reqs, incs, ids)[i];
              info.ingredient.id in ids && info.ingredient.id in t
              && info.ingredient == RecordOf(t, info.ingredient.id)
    ensures forall x :: x in ids && x in t ==>
              exists i :: 0 <= i < |Infos(t, reqs, incs, ids)| && Infos(t, reqs, incs, ids)[i].ingredient.id == x
    ensures forall i, j :: 0 <= i < j < |Infos(t, reqs, incs, ids)| ==>
              Infos(t, reqs, incs, ids)[i].ingredient.id < Infos(t, reqs, incs, ids)[j].ingredient.id
  {
    var keys, infos := FoundIds(t, ids), Infos(t, reqs, incs, ids);
    forall i | 0 <= i < |infos|
      ensures infos[i].ingredient.id == keys[i]
    {
    }
    forall x | x in ids && x in t
      ensures exists i :: 0 <= i < |infos| && infos[i].ingredient.id == x
    {
      assert x in keys;
      var i :| 0 <= i < |keys| && keys[i] == x;
      assert infos[i].ingredient.id == x;
    }
  }

  /** The effect of the guarded `UPDATE` on one row: subtract `q` iff the stock is finite and at least `q`. */
  function DeductRow(r: IngredientRow, q: nat): (r': IngredientRow)
    ensures r'.name == r.name && r'.price == r.price
    ensures r'.portions.None? <==> r.portions.None?
    ensures r.portions.Some? && r.portions.value >= q ==> r'.portions.value == r.portions.value - q
    ensures !(r.portions.Some? && r.portions.value >= q) ==> r' == r
  {
    match r.portions
    case Some(p) => if p >= q then r.(portions := Some(p - q)) else r
    case None => r
  }

  /** The Ingredients table, whose `available_portions` column the order operations update in place. */
  class Inventory {
    var rows: Table

    constructor (initial: Table)
      ensures rows == initial
    {
      rows := initial;
    }

    /**
     * `updateIngredientAvailability`: for each distinct id, one guarded decrement
     * by its occurrence count; every other row is unchanged.
     */
    method UpdateIngredientAvailability(ids: seq<nat>)
      modifies this
      ensures rows.Keys == old(rows).Keys
      ensures forall k :: k in rows ==> rows[k] == DeductRow(old(rows)[k], Count(ids, k))
    {
      if |ids| == 0 {
        return;
      }
      var counts := CountIngredients(ids);
      var keys := SortedDistinct(ids);
      for i := 0 to |keys|
        invariant DeductedFor(old(rows), rows, ids, keys[..i])
      {
        var id := keys[i];
        assert id in ids;
        assert id !in keys[..i];
        assert keys[..i + 1] == keys[..i] + [id];
        ghost var prev := rows;
        Deduct(id, counts[id]);
        DeductStep(old(rows), prev, rows, ids, keys[..i], id);
      }
      assert keys[..|keys|] == keys;
    }

    /** One guarded `UPDATE`: lower a finite stock of at least `q` by `q`; otherwise no row changes. */
    method Deduct(id: nat, q: nat)
      modifies this
      ensures rows == if id in old(rows) then old(rows)[id := DeductRow(old(rows)[id], q)] else old(rows)
    {
      if id in rows && rows[id].portions.Some? && rows[id].portions.value >= q {
        rows := rows[id := rows[id].(portions := Some(rows[id].portions.value - q))];
      }
    }
  }

  /** `now` is `before` with the rows of `done` deducted by their counts in `ids`, and no other row changed. */
  predicate DeductedFor(before: Table, now: Table, ids: seq<nat>, done: seq<nat>)
  {
    now.Keys == before.Keys
    && forall k :: k in now ==> now[k] == if k in done then DeductRow(before[k], Count(ids, k)) else before[k]
  }

  lemma DeductStep(before: Table, prev: Table, next: Table, ids: seq<nat>, done: seq<nat>, id: nat)
    requires id !in done
    requires DeductedFor(before, prev, ids, done)
    requires next == if id in prev then prev[id := DeductRow(prev[id], Count(ids, id))] else prev
    ensures DeductedFor(before, next, ids, done + [id])
  {
  }
}
