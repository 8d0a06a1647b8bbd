/**
 * The order data-access layer: creating an order (its record, one line per
 * ingredient occurrence and a unit decrement of stock per occurrence), the
 * per-ingredient quantity rows, and cancellation with its guards and the
 * return of stock.
 */
module OrderDao {
  import opened Tally
  import opened Catalog
  import opened IngredientDao

  datatype Status = Confirmed | Cancelled

  /** A row of the orders table, keyed by its id. */
  datatype OrderRow = OrderRow(userId: nat, dishId: nat, size: string, totalPrice: nat, status: Status,
                               used2fa: bool, createdAt: string)

  /** The object `createOrder` resolves with. */
  datatype OrderRecord = OrderRecord(id: nat, userId: nat, dishId: nat, size: string, totalPrice: nat,
                                     status: Status, used2fa: bool, createdAt: string)

  /** A row of order_ingredients: one per ingredient occurrence in an order. */
  datatype LineRow = LineRow(orderId: nat, ingredientId: nat)

  /** A row of OrderItems: an ingredient of an order with its quantity and unit price. */
  datatype ItemRow = ItemRow(orderId: nat, ingredientId: nat, quantity: nat, price: nat)

  /** Why `cancelOrder` rejects, or that it succeeded. */
  datatype CancelOutcome = Done | NotFound | NotCancellable | TwoFactorRequired

  // ---------------------------------------------------------------------------
  // Stock arithmetic

  /** The guarded `available_portions - 1` of one occurrence: only a finite, positive stock moves. */
  function DecrementOne(t: Table, id: nat): Table
  {
    if id in t && t[id].portions.Some? && t[id].portions.value > 0
    then t[id := t[id].(portions := Some(t[id].portions.value - 1))]
    else t
  }

  /** The unit decrements of a whole ingredient list, in list order. */
  function DecrementEach(t: Table, ids: seq<nat>): Table
  {
    if ids == [] then t else DecrementOne(DecrementEach(t, ids[..|ids| - 1]), ids[|ids| - 1])
  }

  /** Subtraction that stops at zero. */
  function Monus(p: nat, q: nat): nat
  {
    if p >= q then p - q else 0
  }

  /**
   * Creating an order lowers each finite stock by the number of occurrences
   * of its ingredient, stopping at zero; unlimited stock stays unlimited, and
   * names, prices and the rows of other ingredients are untouched.
   */
  lemma {:induction false} DecrementEachAt(t: Table, ids: seq<nat>, k: nat)
    ensures k in DecrementEach(t, ids) <==> k in t
    ensures k in t ==>
              var r, r' := t[k], DecrementEach(t, ids)[k];
              r'.name == r.name && r'.price == r.price
              && (r.portions.None? ==> r'.portions.None?)
              && (r.portions.Some? ==> r'.portions == Some(Monus(r.portions.value, Count(ids, k))))
  {
    if ids != [] {
      var init, last := ids[..|ids| - 1], ids[|ids| - 1];
      DecrementEachAt(t, init, k);
      assert ids == init + [last];
      CountAppend(init, last, k);
    }
  }

  /** `available_portions + quantity` for one group, on finite stock only. */
  function RestockOne(t: Table, id: nat, q: nat): Table
  {
    if id in t && t[id].portions.Some? then t[id := t[id].(portions := Some(t[id].portions.value + q))] else t
  }

  /** The restoring updates, one per `GROUP BY ingredient_id` group of the order's lines. */
  function Restocked(t: Table, keys: seq<nat>, ids: seq<nat>): Table
  {
    if keys == [] then t else RestockOne(Restocked(t, keys[..|keys| - 1], ids), keys[|keys| - 1], Count(ids, keys[|keys| - 1]))
  }

  /**
   * Restoring over the distinct ingredients of a list adds each one's number
   * of occurrences back to its finite stock; unlimited stock and the rows of
   * other ingredients are untouched.
   */
  lemma {:induction false} RestockedAt(t: Table, keys: seq<nat>, ids: seq<nat>, k: nat)
    requires Increasing(keys)
    ensures k in Restocked(t, keys, ids) <==> k in t
    ensures k in t ==>
              var r, r' := t[k], Restocked(t, keys, ids)[k];
              r'.name == r.name && r'.price == r.price
              && (r.portions.None? ==> r'.portions.None?)
              && (r.portions.Some? ==> r'.portions == Some(r.portions.value + (if k in keys then Count(ids, k) else 0)))
  {
    if keys != [] {
      var init, last := keys[..|keys| - 1], keys[|keys| - 1];
      assert Increasing(init);
      RestockedAt(t, init, ids, k);
      assert last !in init;
      assert k in keys <==> k in init || k == last;
    }
  }

  /**
   * When every unit decrement at creation applied (no finite stock was below
   * its count), cancelling the order brings every stock back to its value
   * before the order.
   */
  lemma CancelUndoesCreate(t: Table, ids: seq<nat>)
    requires forall k :: k in ids && k in t && t[k].portions.Some? ==> Count(ids, k) <= t[k].portions.value
    ensures Restocked(DecrementEach(t, ids), SortedDistinct(ids), ids) == t
  {
    var d := DecrementEach(t, ids);
    var keys := SortedDistinct(ids);
    var r := Restocked(d, keys, ids);
    forall k
      ensures k in r <==> k in t
      ensures k in t ==> r[k] == t[k]
    {
      DecrementEachAt(t, ids, k);
      RestockedAt(d, keys, ids, k);
      if k in t && k !in ids {
        assert Count(ids, k) == 0;
      }
    }
    assert r.Keys == t.Keys;
  }

  lemma DecrementEachStep(t: Table, ids: seq<nat>, i: nat)
    requires i < |ids|
    ensures DecrementEach(t, ids[..i + 1]) == DecrementOne(DecrementEach(t, ids[..i]), ids[i])
  {
    assert ids[..i + 1][..i] == ids[..i];
  }

  lemma RestockedStep(t: Table, keys: seq<nat>, i: nat, ids: seq<nat>)
    requires i < |keys|
    ensures Restocked(t, keys[..i + 1], ids) == RestockOne(Restocked(t, keys[..i], ids), keys[i], Count(ids, keys[i]))
  {
    assert keys[..i + 1][..i] == keys[..i];
  }

  // ---------------------------------------------------------------------------
  // Derived rows

  /** One `order_ingredients` line per occurrence, in list order. */
  function LinesFor(orderId: nat, ids: seq<nat>): (ls: seq<LineRow>)
    ensures |ls| == |ids|
    ensures forall i :: 0 <= i < |ls| ==> ls[i] == LineRow(orderId, ids[i])
  {
    seq(|ids|, i requires 0 <= i < |ids| => LineRow(orderId, ids[i]))
  }

  /** The ingredient ids of an order's lines: `SELECT ingredient_id FROM order_ingredients WHERE order_id = ?`. */
  function LinesOf(lines: seq<LineRow>, orderId: nat): seq<nat>
  {
    if lines == [] then []
    else
      var l := lines[|lines| - 1];
      LinesOf(lines[..|lines| - 1], orderId) + (if l.orderId == orderId then [l.ingredientId] else [])
  }

  lemma {:induction false} LinesOfAppend(lines: seq<LineRow>, more: seq<LineRow>, orderId: nat)
    ensures LinesOf(lines + more, orderId) == LinesOf(lines, orderId) + LinesOf(more, orderId)
  {
    if more == [] {
      assert lines + more == lines;
    } else {
      var init := more[..|more| - 1];
      assert (lines + more)[..|lines + more| - 1] == lines + init;
      assert (lines + more)[|lines + more| - 1] == more[|more| - 1];
      LinesOfAppend(lines, init, orderId);
    }
  }

  lemma {:induction false} LinesOfOther(lines: seq<LineRow>, orderId: nat)
    requires forall l :: l in lines ==> l.orderId != orderId
    ensures LinesOf(lines, orderId) == []
  {
    if lines != [] {
      assert lines[|lines| - 1] in lines;
      LinesOfOther(lines[..|lines| - 1], orderId);
    }
  }

  /** The lines of a fresh order, read back, are exactly its ingredient list. */
  lemma {:induction false} LinesOfFresh(lines: seq<LineRow>, orderId: nat, ids: seq<nat>)
    requires forall l :: l in lines ==> l.orderId != orderId
    ensures LinesOf(lines + LinesFor(orderId, ids), orderId) == ids
  {
    LinesOfAppend(lines, LinesFor(orderId, ids), orderId);
    LinesOfOther(lines, orderId);
    LinesOfOwn(orderId, ids);
  }

  lemma {:induction false} LinesOfOwn(orderId: nat, ids: seq<nat>)
    ensures LinesOf(LinesFor(orderId, ids), orderId) == ids
  {
    if ids != [] {
      var init := ids[..|ids| - 1];
      assert LinesFor(orderId, ids)[..|ids| - 1] == LinesFor(orderId, init);
      LinesOfOwn(orderId, init);
    }
  }

  /** The OrderItems rows for the distinct ids: quantity is the count, price the current unit price; ids the table lacks insert nothing. */
  function ItemRowsFor(t: Table, orderId: nat, keys: seq<nat>, ids: seq<nat>): seq<ItemRow>
  {
    if keys == [] then []
    else
      var k := keys[|keys| - 1];
      ItemRowsFor(t, orderId, keys[..|keys| - 1], ids)
        + (if k in t then [ItemRow(orderId, k, Count(ids, k), t[k].price)] else [])
  }

  /** One more group: the rows inserted so far grow by the group's row, when its ingredient exists. */
  lemma ItemRowsStep(before: seq<ItemRow>, prev: seq<ItemRow>, next: seq<ItemRow>, t: Table, orderId: nat,
                     keys: seq<nat>, i: nat, ids: seq<nat>)
    requires i < |keys|
    requires prev == before + ItemRowsFor(t, orderId, keys[..i], ids)
    requires next == prev + (if keys[i] in t then [ItemRow(orderId, keys[i], Count(ids, keys[i]), t[keys[i]].price)] else [])
    ensures next == before + ItemRowsFor(t, orderId, keys[..i + 1], ids)
  {
    assert keys[..i + 1][..i] == keys[..i];
  }

  /**
   * The quantity rows of an order: one per distinct requested id the table
   * holds, carrying its occurrence count and unit price, and none for other ids.
   */
  lemma {:induction false} ItemRowsExact(t: Table, orderId: nat, keys: seq<nat>, ids: seq<nat>)
    ensures forall r :: r in ItemRowsFor(t, orderId, keys, ids) <==>
              r.orderId == orderId && r.ingredientId in keys && r.ingredientId in t
              && r.quantity == Count(ids, r.ingredientId) && r.price == t[r.ingredientId].price
  {
    if keys != [] {
      ItemRowsExact(t, orderId, keys[..|keys| - 1], ids);
      assert forall k :: k in keys <==> k in keys[..|keys| - 1] || k == keys[|keys| - 1];
    }
  }

  /** Rows in strictly increasing ingredient order, so no ingredient has two. */
  predicate OneRowPerIngredient(rows: seq<ItemRow>)
  {
    forall i, j :: 0 <= i < j < |rows| ==> rows[i].ingredientId < rows[j].ingredientId
  }

  /** No two quantity rows are for the same ingredient. */
  lemma {:induction false} ItemRowsDistinct(t: Table, orderId: nat, keys: seq<nat>, ids: seq<nat>)
    requires Increasing(keys)
    ensures OneRowPerIngredient(ItemRowsFor(t, orderId, keys, ids))
  {
    if keys != [] {
      var init, k := keys[..|keys| - 1], keys[|keys| - 1];
      assert Increasing(init);
      ItemRowsDistinct(t, orderId, init, ids);
      ItemRowsExact(t, orderId, init, ids);
      var rows := ItemRowsFor(t, orderId, init, ids);
      forall i | 0 <= i < |rows|
        ensures rows[i].ingredientId < k
      {
        assert rows[i] in rows;
        var m :| 0 <= m < |init| && init[m] == rows[i].ingredientId;
        assert keys[m] < keys[|keys| - 1];
      }
      var all := ItemRowsFor(t, orderId, keys, ids);
      assert all == rows + (if k in t then [ItemRow(orderId, k, Count(ids, k), t[k].price)] else []);
      forall i, j | 0 <= i < j < |all|
        ensures all[i].ingredientId < all[j].ingredientId
      {
        if j < |rows| {
          assert all[i] == rows[i] && all[j] == rows[j];
          assert rows[i].ingredientId < rows[j].ingredientId;
        } else {
          assert k in t && j == |rows| && all[j].ingredientId == k;
          assert all[i] == rows[i];
          assert rows[i].ingredientId < k;
        }
      }
    }
  }

  // ---------------------------------------------------------------------------
  // The tables

  /** The orders, order_ingredients and OrderItems tables, next to the Ingredients table they update. */
  class OrderStore {
    const inventory: Inventory
    var orders: map<nat, OrderRow>
    var lines: seq<LineRow>
    var items: seq<ItemRow>
    /** The id the next insert receives (`lastID` + 1). */
    var nextId: nat

    /** Ids start at 1, and every order and every line refers to an id already handed out. */
    predicate Valid()
      reads this
    {
      nextId >= 1
      && (forall id :: id in orders ==> id < nextId)
      && (forall l :: l in lines ==> l.orderId < nextId)
    }

    constructor (inventory: Inventory)
      ensures Valid()
      ensures this.inventory == inventory
      ensures orders == map[] && lines == [] && items == [] && nextId == 1
    {
      this.inventory := inventory;
      orders, lines, items := map[], [], [];
      nextId := 1;
    }

    /**
     * `createOrder`: a new confirmed order under a fresh id echoing the input,
     * `used_2fa` stored as a boolean (absent counts as false), one line per
     * ingredient occurrence, and one guarded unit decrement per occurrence.
     */
    method CreateOrder(userId: nat, dishId: nat, size: string, ingredients: seq<nat>, totalPrice: nat,
                       used2fa: Option<bool>, now: string) returns (order: OrderRecord)
      requires Valid()
      modifies this, inventory
      ensures Valid()
      ensures order.id !in old(orders) && order.id == old(nextId) && nextId == old(nextId) + 1
      ensures order == OrderRecord(order.id, userId, dishId, size, totalPrice, Confirmed, used2fa == Some(true), now)
      ensures orders == old(orders)[order.id := OrderRow(userId, dishId, size, totalPrice, Confirmed, used2fa == Some(true), now)]
      ensures lines == old(lines) + LinesFor(order.id, ingredients)
      ensures LinesOf(lines, order.id) == ingredients
      ensures items == old(items)
      ensures inventory.rows == DecrementEach(old(inventory.rows), ingredients)
    {
      var orderId := nextId;
      nextId := nextId + 1;
      var stored := used2fa == Some(true);
      orders := orders[orderId := OrderRow(userId, dishId, size, totalPrice, Confirmed, stored, now)];
      LinesOfFresh(lines, orderId, ingredients);

      ghost var placed := orders;
      for i := 0 to |ingredients|
        invariant orders == placed && nextId == orderId + 1 && items == old(items)
        invariant inventory.rows == old(inventory.rows)
        invariant lines == old(lines) + LinesFor(orderId, ingredients[..i])
      {
        assert LinesFor(orderId, ingredients[..i + 1]) == LinesFor(orderId, ingredients[..i]) + [LineRow(orderId, ingredients[i])];
        lines := lines + [LineRow(orderId, ingredients[i])];
      }
      assert ingredients[..|ingredients|] == ingredients;

      assert ingredients[..0] == [];
      ghost var listed := lines;
      for i := 0 to |ingredients|
        invariant orders == placed && nextId == orderId + 1 && items == old(items) && lines == listed
        invariant inventory.rows == DecrementEach(old(inventory.rows), ingredients[..i])
      {
        var id := ingredients[i];
        DecrementEachStep(old(inventory.rows), ingredients, i);
        TakeOne(id);
      }

      order := OrderRecord(orderId, userId, dishId, size, totalPrice, Confirmed, stored, now);
    }

    /** The guarded unit decrement of one occurrence: only a finite, positive stock moves. */
    method TakeOne(id: nat)
      modifies inventory
      ensures inventory.rows == DecrementOne(old(inventory.rows), id)
    {
      if id in inventory.rows && inventory.rows[id].portions.Some? && inventory.rows[id].portions.value > 0 {
        inventory.rows := inventory.rows[id := inventory.rows[id].(portions := Some(inventory.rows[id].portions.value - 1))];
      }
    }

    /**
     * `addOrderItems`: nothing for an empty list; otherwise one OrderItems row
     * per distinct id the Ingredients table holds, with its occurrence count
     * and current price.
     */
    method AddOrderItems(orderId: nat, ingredientIds: seq<nat>)
      modifies this
      ensures orders == old(orders) && lines == old(lines) && nextId == old(nextId)
      ensures ingredientIds == [] ==> items == old(items)
      ensures items == old(items) + ItemRowsFor(inventory.rows, orderId, SortedDistinct(ingredientIds), ingredientIds)
    {
      if |ingredientIds| == 0 {
        return;
      }
      var counts := CountIngredients(ingredientIds);
      var keys := SortedDistinct(ingredientIds);
      for i := 0 to |keys|
        invariant orders == old(orders) && lines == old(lines) && nextId == old(nextId)
        invariant inventory.rows == old(inventory.rows)
        invariant items == old(items) + ItemRowsFor(inventory.rows, orderId, keys[..i], ingredientIds)
      {
        var id := keys[i];
        assert id in ingredientIds;
        assert id in counts && counts[id] == Count(ingredientIds, id);
        ghost var prev := items;
        AddItem(orderId, id, counts[id]);
        ItemRowsStep(old(items), prev, items, inventory.rows, orderId, keys, i, ingredientIds);
      }
      assert keys[..|keys|] == keys;
    }

    /** One group of `addOrderItems`: look the ingredient up and, when it exists, insert its row at its current price. */
    method AddItem(orderId: nat, id: nat, quantity: nat)
      modifies this
      ensures orders == old(orders) && lines == old(lines) && nextId == old(nextId)
      ensures items == old(items) + (if id in inventory.rows then [ItemRow(orderId, id, quantity, inventory.rows[id].price)] else [])
    {
      var ingredient := GetIngredientById(inventory.rows, id);
      if ingredient.Some? {
        items := items + [ItemRow(orderId, id, quantity, ingredient.value.price)];
      }
    }

    /**
     * `cancelOrder`: an order that does not exist or belongs to someone else is
     * not found; one that is not confirmed cannot be cancelled; one placed with
     * 2FA needs `isTotp`.  A rejection changes nothing.  Otherwise the order
     * becomes cancelled and each ingredient's occurrence count in the order
     * goes back to its finite stock.
     */
    method CancelOrder(orderId: nat, userId: nat, isTotp: bool) returns (outcome: CancelOutcome)
      requires Valid()
      modifies this, inventory
      ensures Valid()
      ensures lines == old(lines) && items == old(items) && nextId == old(nextId)
      ensures (orderId !in old(orders) || old(orders)[orderId].userId != userId) ==> outcome == NotFound
      ensures (orderId in old(orders) && old(orders)[orderId].userId == userId && old(orders)[orderId].status != Confirmed)
                ==> outcome == NotCancellable
      ensures (orderId in old(orders) && old(orders)[orderId].userId == userId && old(orders)[orderId].status == Confirmed
                && old(orders)[orderId].used2fa && !isTotp) ==> outcome == TwoFactorRequired
      ensures outcome == Done <==>
                orderId in old(orders) && old(orders)[orderId].userId == userId
                && old(orders)[orderId].status == Confirmed && (!old(orders)[orderId].used2fa || isTotp)
      ensures outcome != Done ==> orders == old(orders) && inventory.rows == old(inventory.rows)
      ensures outcome == Done ==>
                orders == old(orders)[orderId := old(orders)[orderId].(status := Cancelled)]
                && var ids := LinesOf(old(lines), orderId);
                   inventory.rows == Restocked(old(inventory.rows), SortedDistinct(ids), ids)
    {
      if orderId !in orders || orders[orderId].userId != userId {
        return NotFound;
      }
      var order := orders[orderId];
      if order.status != Confirmed {
        return NotCancellable;
      }
      if order.used2fa && !isTotp {
        return TwoFactorRequired;
      }

      orders := orders[orderId := order.(status := Cancelled)];
      ReturnToInventory(LinesOf(lines, orderId));
      outcome := Done;
    }

    /**
     * The restoring updates of `cancelOrder`: one per distinct ingredient of
     * the order's lines (`GROUP BY ingredient_id`), adding its count to a finite
     * stock.
     */
    method ReturnToInventory(ids: seq<nat>)
      modifies inventory
      ensures inventory.rows == Restocked(old(inventory.rows), SortedDistinct(ids), ids)
    {
      var counts := CountIngredients(ids);
      var groups := SortedDistinct(ids);
      assert groups[..0] == [];
      for i := 0 to |groups|
        invariant inventory.rows == Restocked(old(inventory.rows), groups[..i], ids)
      {
        var id := groups[i];
        assert id in ids;
        RestockedStep(old(inventory.rows), groups, i, ids);
        RestoreOne(id, counts[id]);
      }
      assert groups[..|groups|] == groups;
    }

    /** One restoring `UPDATE`: add `q` to a finite stock; an unlimited or missing row is left alone. */
    method RestoreOne(id: nat, q: nat)
      modifies inventory
      ensures inventory.rows == RestockOne(old(inventory.rows), id, q)
    {
      if id in inventory.rows && inventory.rows[id].portions.Some? {
        inventory.rows := inventory.rows[id := inventory.rows[id].(portions := Some(inventory.rows[id].portions.value + q))];
      }
    }
  }

  /**
   * Cancelling twice never restores stock twice: the second call finds the
   * order cancelled and changes nothing.
   */
  method CancelTwice(store: OrderStore, orderId: nat, userId: nat)
    requires store.Valid()
    modifies store, store.inventory
    ensures store.Valid()
    ensures orderId in old(store.orders) && old(store.orders)[orderId].userId == userId
            && old(store.orders)[orderId].status == Confirmed ==>
              var ids := LinesOf(old(store.lines), orderId);
              store.inventory.rows == Restocked(old(store.inventory.rows), SortedDistinct(ids), ids)
              && orderId in store.orders && store.orders[orderId].status == Cancelled
  {
    var first := store.CancelOrder(orderId, userId, true);
    var second := store.CancelOrder(orderId, userId, true);
    assert first == Done ==> second == NotCancellable;
  }

  /**
   * An order created against enough stock and then cancelled leaves every
   * stock value as it was before the order.
   */
  method CreateThenCancel(store: OrderStore, userId: nat, dishId: nat, size: string, ingredients: seq<nat>,
                          totalPrice: nat, now: string)
    requires store.Valid()
    requires forall k :: k in ingredients && k in store.inventory.rows && store.inventory.rows[k].portions.Some?
               ==> Count(ingredients, k) <= store.inventory.rows[k].portions.value
    modifies store, store.inventory
    ensures store.Valid()
    ensures store.inventory.rows == old(store.inventory.rows)
  {
    var order := store.CreateOrder(userId, dishId, size, ingredients, totalPrice, Some(true), now);
    var outcome := store.CancelOrder(order.id, userId, true);
    assert outcome == Done;
    CancelUndoesCreate(old(store.inventory.rows), ingredients);
  }
}
