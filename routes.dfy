/**
 * The two order routes of the server: submitting an order (form checks,
 * login, direct validation, then creation) and cancelling one (login, form
 * check, the second-factor gate, then cancellation).  The catalog tables the
 * validator reads besides Ingredients (dishes, pricing, requirement and
 * incompatibility edges) are parameters: no route changes them.
 */
module Routes {
  import opened Tally
  import opened Catalog
  import opened IngredientDao
  import opened DirectValidation
  import opened OrderDao
  import opened SessionGate

  /** The answer of `POST /api/orders`: a status, the validator's errors on 400, the order on 201. */
  datatype SubmitReply = SubmitReply(status: nat, errors: seq<OrderError>, order: Option<OrderRecord>)

  /**
   * The field checks of `POST /api/orders`: a dish id, when given, at least
   * 1; a size among the three accepted; every ingredient id at least 1.
   */
  predicate WellFormedOrder(dishId: Option<int>, size: string, ingredients: seq<int>)
  {
    (dishId.Some? ==> dishId.value >= 1)
    && size in ValidSizes
    && forall i :: 0 <= i < |ingredients| ==> ingredients[i] >= 1
  }

  /** The ingredient ids of a well-formed order as naturals. */
  function AsIds(ingredients: seq<int>): (ids: seq<nat>)
    requires forall i :: 0 <= i < |ingredients| ==> ingredients[i] >= 1
    ensures |ids| == |ingredients|
    ensures forall i :: 0 <= i < |ids| ==> ids[i] == ingredients[i]
  {
    seq(|ingredients|, i requires 0 <= i < |ingredients| => ingredients[i] as nat)
  }

  /**
   * `POST /api/orders`.  401 without a login; 400 for a malformed form, then
   * 400 when no dish id was given; 400 with the validator's errors when the
   * order is not legal against the current Ingredients table; otherwise the
   * order is created at the validator's total and answered with 201.  Only
   * the 201 path changes anything.
   */
  method SubmitOrder(session: Session, store: OrderStore, dishes: set<nat>, pricing: PricingTable,
                     reqs: seq<Edge>, incs: seq<Edge>, dishId: Option<int>, size: string,
                     ingredients: seq<int>, now: string) returns (reply: SubmitReply)
    requires store.Valid()
    modifies store, store.inventory
    ensures store.Valid()
    ensures session.user.None? ==> reply.status == 401
    ensures session.user.Some? && !WellFormedOrder(dishId, size, ingredients) ==> reply.status == 400
    ensures session.user.Some? && WellFormedOrder(dishId, size, ingredients) && dishId.None? ==> reply.status == 400
    ensures reply.status == 201 <==>
              session.user.Some? && WellFormedOrder(dishId, size, ingredients) && dishId.Some?
              && DirectlyAcceptable(dishes, pricing, old(store.inventory.rows), reqs, incs, dishId.value as nat, size,
                                    AsIds(ingredients))
    ensures reply.status != 201 ==>
              store.orders == old(store.orders) && store.lines == old(store.lines)
              && store.items == old(store.items) && store.nextId == old(store.nextId)
              && store.inventory.rows == old(store.inventory.rows)
    ensures reply.status == 201 ==>
              var ids := AsIds(ingredients);
              var d := dishId.value as nat;
              reply.order.Some? && reply.order.value.id == old(store.nextId)
              && reply.order.value.userId == session.user.value.id
              && reply.order.value.dishId == d && reply.order.value.size == size
              && reply.order.value.totalPrice == pricing[(d, size)].basePrice + SumBy(ids, PriceIn(old(store.inventory.rows)))
              && reply.order.value.status == Confirmed && !reply.order.value.used2fa
              && store.orders == old(store.orders)[reply.order.value.id :=
                   OrderRow(reply.order.value.userId, d, size, reply.order.value.totalPrice, Confirmed, false, now)]
              && store.nextId == old(store.nextId) + 1
              && store.lines == old(store.lines) + LinesFor(reply.order.value.id, ids)
              && LinesOf(store.lines, reply.order.value.id) == ids
              && store.items == old(store.items)
              && store.inventory.rows == DecrementEach(old(store.inventory.rows), ids)
  {
    if session.user.None? {
      return SubmitReply(401, [], None);
    }
    if !WellFormedOrder(dishId, size, ingredients) {
      return SubmitReply(400, [], None);
    }
    if dishId.None? {
      return SubmitReply(400, [], None);
    }
    var ids := AsIds(ingredients);
    var d := dishId.value as nat;
    var result := ValidateOrderDirectly(dishes, pricing, store.inventory.rows, reqs, incs, d, size, ids);
    if !result.valid {
      return SubmitReply(400, result.errors, None);
    }
    var order := store.CreateOrder(session.user.value.id, d, size, ids, result.totalPrice, None, now);
    reply := SubmitReply(201, [], Some(order));
  }

  /**
   * `DELETE /api/orders/:id`.  401 without a login; 400 for an id below 1;
   * 403 unless the second factor is totp; then the order is cancelled (200)
   * or the cancellation is refused (500).  Only the 200 path changes
   * the orders table and the stock, and it does exactly what a successful
   * `cancelOrder` does; no path touches the lines, the item rows or the next id.
   */
  method DeleteOrder(session: Session, store: OrderStore, orderId: int) returns (status: nat)
    requires store.Valid()
    modifies store, store.inventory
    ensures store.Valid()
    ensures store.lines == old(store.lines) && store.items == old(store.items) && store.nextId == old(store.nextId)
    ensures session.user.None? ==> status == 401
    ensures session.user.Some? && orderId < 1 ==> status == 400
    ensures session.user.Some? && orderId >= 1 && !session.MayCancel() ==> status == 403
    ensures status == 200 <==>
              session.MayCancel() && orderId >= 1 && orderId in old(store.orders)
              && old(store.orders)[orderId].userId == session.user.value.id
              && old(store.orders)[orderId].status == Confirmed
    ensures status != 200 ==>
              store.orders == old(store.orders) && store.inventory.rows == old(store.inventory.rows)
    ensures status == 200 ==>
              store.orders == old(store.orders)[orderId := old(store.orders)[orderId].(status := Cancelled)]
              && var ids := LinesOf(old(store.lines), orderId);
                 store.inventory.rows == Restocked(old(store.inventory.rows), SortedDistinct(ids), ids)
  {
    if session.user.None? {
      return 401;
    }
    if orderId < 1 {
      return 400;
    }
    if session.secondFactor != Some(Totp) {
      return 403;
    }
    var outcome := store.CancelOrder(orderId as nat, session.user.value.id, true);
    status := if outcome == Done then 200 else 500;
  }

  /**
   * An accepted order lowers every finite stock by exactly its number of
   * occurrences: the validator's stock check rules out the decrements that
   * would stop at zero.
   */
  lemma AcceptedDecrementIsExact(t: Table, ids: seq<nat>, k: nat)
    requires StockSuffices(t, ids)
    requires k in t && t[k].portions.Some?
    ensures k in DecrementEach(t, ids) && DecrementEach(t, ids)[k].portions.Some?
    ensures DecrementEach(t, ids)[k].portions.value + Count(ids, k) == t[k].portions.value
  {
    DecrementEachAt(t, ids, k);
    if k !in ids {
      assert Count(ids, k) == 0;
    }
  }

  /** A session that has only skipped the second factor is refused with 403 and changes nothing. */
  method SkippedCannotCancel(session: Session, store: OrderStore, orderId: int)
    requires store.Valid() && session.user.Some? && orderId >= 1
    modifies session, store, store.inventory
    ensures store.orders == old(store.orders) && store.inventory.rows == old(store.inventory.rows)
    ensures store.lines == old(store.lines) && store.items == old(store.items) && store.nextId == old(store.nextId)
  {
    var skipped := session.SkipTotp();
    var status := DeleteOrder(session, store, orderId);
    assert status == 403;
  }

  /**
   * An order accepted by the submit route and then deleted by the same
   * session, once it has verified its second factor, leaves every stock
   * value as it was before the order.
   */
  method SubmitThenDelete(session: Session, store: OrderStore, dishes: set<nat>, pricing: PricingTable,
                          reqs: seq<Edge>, incs: seq<Edge>, dishId: Option<int>, size: string,
                          ingredients: seq<int>, now: string, code: string)
    requires store.Valid() && session.user.Some? && WellFormedCode(code)
    modifies session, store, store.inventory
    ensures store.Valid()
    ensures store.inventory.rows == old(store.inventory.rows)
  {
    var submitted := SubmitOrder(session, store, dishes, pricing, reqs, incs, dishId, size, ingredients, now);
    if submitted.status != 201 {
      return;
    }
    ghost var ids := AsIds(ingredients);
    assert StockSuffices(old(store.inventory.rows), ids);
    var upgraded := session.LoginTotp(code, true, true);
    var orderId := submitted.order.value.id;
    assert orderId in store.orders && store.orders[orderId].status == Confirmed;
    var deleted := DeleteOrder(session, store, orderId);
    assert deleted == 200;
    CancelUndoesCreate(old(store.inventory.rows), ids);
  }
}
