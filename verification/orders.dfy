/** The order lifecycle of orderControllers.js: creation with its pricing, payment
    confirmation, cancellation by the owner, status updates by an admin, and deletion. The
    store keeps every product's stock and units sold in step with the orders that hold
    them. */
module Orders {
  import opened Wrappers
  import opened Constants
  import opened OrderModel
  import opened Catalog
  import opened Pricing
  import Coupons
  import Users
  import Http
  import Mail

  /** An order's units are out of stock and counted as sold from payment until it is
      cancelled, or deleted before delivery. */
  predicate HoldsStock(o: Order) {
    o.isPaid && o.status != Cancelled && (!o.isDeleted || o.status == Delivered)
  }

  /** The units of a product an order holds. */
  function Contribution(o: Order, pid: ProductId): int {
    if HoldsStock(o) then QtyOf(o.items, pid) else 0
  }

  /** The units of a product all orders hold together. */
  function Held(orders: seq<Order>, pid: ProductId): int
    decreases |orders|
  {
    if |orders| == 0 then 0
    else Held(orders[..|orders| - 1], pid) + Contribution(orders[|orders| - 1], pid)
  }

  lemma HeldSnoc(orders: seq<Order>, o: Order, pid: ProductId)
    ensures Held(orders + [o], pid) == Held(orders, pid) + Contribution(o, pid)
  {
    assert (orders + [o])[..|orders|] == orders;
  }

  /** Replacing one order changes the units held by exactly the difference of the two
      orders' holdings. */
  lemma {:induction false} HeldUpdate(orders: seq<Order>, i: nat, o: Order, pid: ProductId)
    requires i < |orders|
    ensures Held(orders[i := o], pid) == Held(orders, pid) - Contribution(orders[i], pid) + Contribution(o, pid)
    decreases |orders|
  {
    var n := |orders|;
    var updated := orders[i := o];
    if i == n - 1 {
      assert updated[..n - 1] == orders[..n - 1];
    } else {
      assert updated[..n - 1] == orders[..n - 1][i := o];
      HeldUpdate(orders[..n - 1], i, o, pid);
    }
  }

  /** Orders of valid lines never hold a negative number of units. */
  lemma {:induction false} HeldNonNegative(orders: seq<Order>, pid: ProductId)
    requires forall i :: 0 <= i < |orders| ==> ValidOrder(orders[i])
    ensures Held(orders, pid) >= 0
    decreases |orders|
  {
    if |orders| > 0 {
      var last := orders[|orders| - 1];
      assert ValidOrder(last);
      QtyOfNonNegative(last.items, pid);
      HeldNonNegative(orders[..|orders| - 1], pid);
    }
  }

  /** Every product's stock is its base stock less the units the orders hold, and its units
      sold are its base figure plus them. */
  ghost predicate LedgerHolds(orders: seq<Order>, products: Products, stockBase: map<ProductId, int>, soldBase: map<ProductId, int>) {
    forall pid :: pid in products ==>
      pid in stockBase && pid in soldBase
      && products[pid].stock == stockBase[pid] - Held(orders, pid)
      && products[pid].soldUnits == soldBase[pid] + Held(orders, pid)
  }

  /** An order that starts holding its units (`k = -1`) or stops holding them (`k = 1`),
      with the products shifted by its lines, keeps the ledger. */
  lemma LedgerAfterShift(orders: seq<Order>, i: nat, o: Order, products: Products, k: int,
                         stockBase: map<ProductId, int>, soldBase: map<ProductId, int>)
    requires i < |orders| && o.items == orders[i].items
    requires LedgerHolds(orders, products, stockBase, soldBase)
    requires (k == -1 && !HoldsStock(orders[i]) && HoldsStock(o)) || (k == 1 && HoldsStock(orders[i]) && !HoldsStock(o))
    ensures LedgerHolds(orders[i := o], Shifted(products, o.items, k), stockBase, soldBase)
  {
    var r := Shifted(products, o.items, k);
    forall pid | pid in r
      ensures pid in stockBase && pid in soldBase
      && r[pid].stock == stockBase[pid] - Held(orders[i := o], pid)
      && r[pid].soldUnits == soldBase[pid] + Held(orders[i := o], pid)
    {
      ShiftedAt(products, o.items, k, pid);
      HeldUpdate(orders, i, o, pid);
    }
  }

  /** An order that holds its units before and after the change keeps the ledger with the
      products untouched. */
  lemma LedgerAfterKeep(orders: seq<Order>, i: nat, o: Order, products: Products,
                        stockBase: map<ProductId, int>, soldBase: map<ProductId, int>)
    requires i < |orders| && o.items == orders[i].items
    requires LedgerHolds(orders, products, stockBase, soldBase)
    requires HoldsStock(o) == HoldsStock(orders[i])
    ensures LedgerHolds(orders[i := o], products, stockBase, soldBase)
  {
    forall pid | pid in products
      ensures Held(orders[i := o], pid) == Held(orders, pid)
    {
      HeldUpdate(orders, i, o, pid);
    }
  }

  /** With valid orders the stock never exceeds its base and the units sold never fall
      below theirs. */
  lemma LedgerBounds(orders: seq<Order>, products: Products, stockBase: map<ProductId, int>, soldBase: map<ProductId, int>)
    requires forall i :: 0 <= i < |orders| ==> ValidOrder(orders[i])
    requires LedgerHolds(orders, products, stockBase, soldBase)
    ensures forall pid :: pid in products ==>
      products[pid].stock <= stockBase[pid] && products[pid].soldUnits >= soldBase[pid]
      && products[pid].stock + products[pid].soldUnits == stockBase[pid] + soldBase[pid]
  {
    forall pid | pid in products
      ensures products[pid].stock <= stockBase[pid] && products[pid].soldUnits >= soldBase[pid]
    {
      HeldNonNegative(orders, pid);
    }
  }

  /** `Order.findOne({ _id })`: the first order with the id. */
  function FindOrder(orders: seq<Order>, id: OrderId): (r: Option<nat>)
    ensures r.Some? ==> r.value < |orders| && orders[r.value].id == id
    ensures r.Some? ==> forall j :: 0 <= j < r.value ==> orders[j].id != id
    ensures r.None? ==> forall j :: 0 <= j < |orders| ==> orders[j].id != id
  {
    if |orders| == 0 then None
    else if orders[0].id == id then Some(0)
    else
      var k := FindOrder(orders[1..], id);
      if k.None? then None else Some(k.value + 1)
  }

  predicate UniqueOrderIds(orders: seq<Order>) {
    forall i, j :: 0 <= i < j < |orders| ==> orders[i].id != orders[j].id
  }

  /** The per-order part of the store invariant: ids are unique, every order meets the
      order schema, an unpaid order is still in the created status, and a paid one has its
      payment id. */
  predicate WellFormed(orders: seq<Order>) {
    UniqueOrderIds(orders)
    && (forall i :: 0 <= i < |orders| ==> ValidOrder(orders[i]))
    && (forall i :: 0 <= i < |orders| ==> !orders[i].isPaid ==> orders[i].status == Created)
    && (forall i :: 0 <= i < |orders| ==> orders[i].isPaid ==> orders[i].paymentId.Some?)
  }

  /** Replacing an order by one with the same id that meets the schema keeps the orders
      well formed. */
  lemma WellFormedReplace(orders: seq<Order>, i: nat, o: Order)
    requires WellFormed(orders) && i < |orders|
    requires o.id == orders[i].id && ValidOrder(o)
    requires !o.isPaid ==> o.status == Created
    requires o.isPaid ==> o.paymentId.Some?
    ensures WellFormed(orders[i := o])
  {
  }

  /** Appending an unpaid order in the created status, with a new id and meeting the
      schema, keeps the orders well formed. */
  lemma WellFormedAppend(orders: seq<Order>, o: Order)
    requires WellFormed(orders) && ValidOrder(o) && !o.isPaid && o.status == Created
    requires forall j :: 0 <= j < |orders| ==> orders[j].id != o.id
    ensures WellFormed(orders + [o])
  {
    var n := orders + [o];
    assert forall i :: 0 <= i < |orders| ==> n[i] == orders[i];
    assert n[|orders|] == o;
  }

  /** An appended order that holds no units keeps the ledger. */
  lemma LedgerAfterAppend(orders: seq<Order>, o: Order, products: Products,
                          stockBase: map<ProductId, int>, soldBase: map<ProductId, int>)
    requires LedgerHolds(orders, products, stockBase, soldBase) && !HoldsStock(o)
    ensures LedgerHolds(orders + [o], products, stockBase, soldBase)
  {
    forall pid | pid in products
      ensures Held(orders + [o], pid) == Held(orders, pid)
    {
      HeldSnoc(orders, o, pid);
    }
  }

  /** The schema only looks at the lines and the amounts. */
  lemma ValidOrderOfSameAmounts(a: Order, b: Order)
    requires ValidOrder(a)
    requires b.items == a.items && b.orderAmount == a.orderAmount && b.discount == a.discount
    requires b.shippingCharges == a.shippingCharges && b.taxAmount == a.taxAmount && b.totalAmount == a.totalAmount
    ensures ValidOrder(b)
  {
  }

  /** The order after a verified payment: paid, with the payment id and the estimated
      delivery date `todayStart` plus the mode's shipping days. */
  function Confirmed(o: Order, paymentId: string, todayStart: int): (r: Order)
    ensures r.isPaid && r.paymentId == Some(paymentId)
    ensures r.estimatedDeliveryDate == Some(todayStart + ShippingDays(o.deliveryMode) * DayMs)
    ensures r.(isPaid := o.isPaid, paymentId := o.paymentId, estimatedDeliveryDate := o.estimatedDeliveryDate) == o
  {
    o.(isPaid := true, paymentId := Some(paymentId),
       estimatedDeliveryDate := Some(todayStart + ShippingDays(o.deliveryMode) * DayMs))
  }

  /** Standard delivery is estimated 7 days out, express 4. */
  lemma ConfirmedEstimate(o: Order, paymentId: string, todayStart: int)
    ensures o.deliveryMode == Standard ==>
      Confirmed(o, paymentId, todayStart).estimatedDeliveryDate == Some(todayStart + 7 * DayMs)
    ensures o.deliveryMode == Express ==>
      Confirmed(o, paymentId, todayStart).estimatedDeliveryDate == Some(todayStart + 4 * DayMs)
  {
    ShippingDaysValues();
  }

  /** A 403, 409 or 404 of `updateOrderStatus`, with the status required next when a step
      is skipped. */
  datatype StatusError = StatusError(code: int, required: Option<OrderStatus>)

  /** The guards of `updateOrderStatus` on a found order, in the order they are checked. */
  function StatusGuard(o: Order, target: OrderStatus): (r: Result<(), StatusError>)
    ensures !o.isPaid ==> r == Err(StatusError(Http.Forbidden, None))
    ensures o.isPaid && o.status == Cancelled ==> r == Err(StatusError(Http.Forbidden, None))
    ensures o.isPaid && o.status != Cancelled && o.status == target ==> r == Err(StatusError(Http.Conflict, None))
  {
    var cur := StatusIndex(o.status);
    var next := StatusIndex(target);
    if !o.isPaid then Err(StatusError(Http.Forbidden, None))
    else if o.status == Cancelled then Err(StatusError(Http.Forbidden, None))
    else if o.status == target then Err(StatusError(Http.Conflict, None))
    else if next < cur then Err(StatusError(Http.Forbidden, None))
    else if next > cur + 1 then Err(StatusError(Http.Forbidden, Some(AllowedStatus()[cur + 1])))
    else Ok(())
  }

  /** Only the next status in created, processing, shipped, delivered passes, so a delivered
      order is final and no order is ever moved to cancelled this way; a skip is refused
      naming the status that must come first. */
  lemma StatusGuardOnlyNext(o: Order, target: OrderStatus)
    ensures StatusGuard(o, target).Ok? <==>
      o.isPaid && o.status != Cancelled && target != Cancelled && StatusIndex(target) == StatusIndex(o.status) + 1
    ensures o.status == Delivered ==> StatusGuard(o, target).Err?
    ensures StatusGuard(o, target).Ok? ==> target != Cancelled && target != Created
    ensures o.isPaid && o.status != Cancelled && StatusIndex(target) > StatusIndex(o.status) + 1 ==>
      StatusGuard(o, target) == Err(StatusError(Http.Forbidden, Some(AllowedStatus()[StatusIndex(o.status) + 1])))
    ensures o.isPaid && o.status != Cancelled && target != o.status && StatusIndex(target) < StatusIndex(o.status) ==>
      StatusGuard(o, target) == Err(StatusError(Http.Forbidden, None))
  {
  }

  /** `deleteOrder` puts the units back and refunds only a paid order that is created,
      processing or shipped. */
  predicate RestoresOnDelete(o: Order) {
    o.isPaid && (o.status == Created || o.status == Processing || o.status == Shipped)
  }

  /** The record `deleteOrder` writes. */
  function Deleted(o: Order, admin: UserId, now: int): (r: Order)
    ensures r.isDeleted && r.deletedBy == Some(admin) && r.deletedAt == Some(now)
    ensures r.(isDeleted := o.isDeleted, deletedBy := o.deletedBy, deletedAt := o.deletedAt) == o
  {
    o.(isDeleted := true, deletedBy := Some(admin), deletedAt := Some(now))
  }

  /** Deleting a live order restores its units exactly when it stops holding them: a
      cancelled order (already restored) or a delivered one never is, so no order is ever
      restored twice. */
  lemma RestoreMatchesRelease(o: Order, admin: UserId, now: int)
    requires !o.isDeleted
    ensures RestoresOnDelete(o) <==> HoldsStock(o) && !HoldsStock(Deleted(o, admin, now))
    ensures !RestoresOnDelete(o) ==> HoldsStock(o) == HoldsStock(Deleted(o, admin, now))
    ensures o.status == Cancelled ==> !RestoresOnDelete(o) && !HoldsStock(o)
  {
  }

  /** A refund handed to the payment gateway: the payment and the amount in paise. */
  datatype Refund = Refund(paymentId: string, amount: real)

  /** The order collection, the refunds issued, and the ghost base figures of the stock
      ledger. */
  class OrderStore {
    var orders: seq<Order>
    var refunds: seq<Refund>
    ghost var stockBase: map<ProductId, int>
    ghost var soldBase: map<ProductId, int>

    /** Ids are unique, every order meets the order schema, an unpaid order is still in the
        created status, a paid one has its payment id, and the products agree with the
        ledger. */
    ghost predicate Valid(products: Products)
      reads this
    {
      WellFormed(orders) && LedgerHolds(orders, products, stockBase, soldBase)
    }

    constructor (products: Products)
      ensures orders == [] && refunds == [] && Valid(products)
    {
      orders := [];
      refunds := [];
      stockBase := map pid | pid in products :: products[pid].stock;
      soldBase := map pid | pid in products :: products[pid].soldUnits;
    }

    /** `createOrder`: the pricing either fails with 400 (a flat coupon above the order
        amount) and nothing is stored, or an unpaid order in the created status is
        appended under the gateway's order id. */
    method CreateOrder(catalog: ProductStore, newId: OrderId, caller: UserId, items: seq<OrderItem>,
                       coupon: Option<Coupons.Coupon>, shippingAddress: AddressId, mode: DeliveryMode, now: int)
      returns (r: Result<OrderId, int>)
      requires Valid(catalog.products)
      requires |items| > 0 && forall i :: 0 <= i < |items| ==> ValidItem(items[i])
      requires coupon.Some? ==> Coupons.ValidPolicy(coupon.value.policy)
      requires FindOrder(orders, newId).None?
      modifies this
      ensures Valid(catalog.products)
      ensures stockBase == old(stockBase) && soldBase == old(soldBase) && refunds == old(refunds)
      ensures PriceOrder(items, coupon, mode).Err? ==> r == Err(Http.BadRequest) && orders == old(orders)
      ensures PriceOrder(items, coupon, mode).Ok? ==> r == Ok(newId)
      ensures PriceOrder(items, coupon, mode).Ok? ==>
        orders == old(orders) + [NewOrder(newId, caller, items, PriceOrder(items, coupon, mode).value, shippingAddress, mode, now)]
    {
      var priced := PriceOrder(items, coupon, mode);
      if priced.Err? {
        return Err(Http.BadRequest);
      }
      var order := NewOrder(newId, caller, items, priced.value, shippingAddress, mode, now);
      CreatedOrderValid(newId, caller, items, coupon, shippingAddress, mode, now);
      var appended := orders + [order];
      WellFormedAppend(orders, order);
      LedgerAfterAppend(orders, order, catalog.products, stockBase, soldBase);
      orders := appended;
      assert WellFormed(orders) && LedgerHolds(orders, catalog.products, stockBase, soldBase);
      return Ok(newId);
    }

    /** `confirmOrder`: 404 for a missing or deleted order, 409 when it is already paid, 400
        when the signature is not the HMAC of `orderId|paymentId`. Otherwise the order is
        paid, the caller's cart is emptied and every line's units leave stock for units
        sold; a failed email is a 500 with all of that already done. */
    method ConfirmOrder(catalog: ProductStore, acct: Users.Account, orderId: OrderId, paymentId: string,
                        signature: string, hmac: string -> string, todayStart: int, emailSent: bool)
      returns (r: Result<Order, int>)
      requires Valid(catalog.products)
      modifies this, catalog, acct
      ensures Valid(catalog.products)
      ensures stockBase == old(stockBase) && soldBase == old(soldBase) && refunds == old(refunds)
      ensures StockTotals(catalog.products) == StockTotals(old(catalog.products))
      ensures acct.wishlist == old(acct.wishlist)
      ensures var f := FindOrder(old(orders), orderId);
        f.None? || old(orders)[f.value].isDeleted ==> r == Err(Http.NotFound)
      ensures var f := FindOrder(old(orders), orderId);
        f.Some? && !old(orders)[f.value].isDeleted && old(orders)[f.value].isPaid ==> r == Err(Http.Conflict)
      ensures var f := FindOrder(old(orders), orderId);
        f.Some? && !old(orders)[f.value].isDeleted && !old(orders)[f.value].isPaid && signature != hmac(orderId + "|" + paymentId)
        ==> r == Err(Http.BadRequest)
      ensures r.Err? && r.error != Http.ServerError ==>
        orders == old(orders) && catalog.products == old(catalog.products) && acct.cart == old(acct.cart)
      ensures var f := FindOrder(old(orders), orderId);
        f.Some? && !old(orders)[f.value].isDeleted && !old(orders)[f.value].isPaid && signature == hmac(orderId + "|" + paymentId)
        ==> var o := old(orders)[f.value];
            orders == old(orders)[f.value := Confirmed(o, paymentId, todayStart)]
            && acct.cart == []
            && catalog.products == Shifted(old(catalog.products), o.items, -1)
            && r == (if emailSent then Ok(Confirmed(o, paymentId, todayStart)) else Err(Http.ServerError))
    {
      var found := FindOrder(orders, orderId);
      if found.None? || orders[found.value].isDeleted {
        return Err(Http.NotFound);
      }
      var i := found.value;
      var order := orders[i];
      if order.isPaid {
        return Err(Http.Conflict);
      }
      var generatedSignature := hmac(orderId + "|" + paymentId);
      if signature != generatedSignature {
        return Err(Http.BadRequest);
      }
      r := ConfirmFound(catalog, acct, i, paymentId, todayStart, emailSent);
    }

    /** `confirmOrder` as written: its email options hold the address under `recepient`, so
        `sendEmail` throws and every confirmation that passes the guards answers 500, after
        the payment, the emptied cart and the stock moves are saved. `accepted` is what the
        mail server would answer to an addressed message. */
    method ConfirmOrderAsWritten(catalog: ProductStore, acct: Users.Account, email: string, orderId: OrderId,
                                 paymentId: string, signature: string, hmac: string -> string, todayStart: int,
                                 accepted: bool)
      returns (r: Result<Order, int>)
      requires Valid(catalog.products)
      modifies this, catalog, acct
      ensures Valid(catalog.products)
      ensures r.Err?
      ensures var f := FindOrder(old(orders), orderId);
        f.Some? && !old(orders)[f.value].isDeleted && !old(orders)[f.value].isPaid && signature == hmac(orderId + "|" + paymentId)
        ==> var o := old(orders)[f.value];
            orders == old(orders)[f.value := Confirmed(o, paymentId, todayStart)]
            && acct.cart == []
            && catalog.products == Shifted(old(catalog.products), o.items, -1)
            && r == Err(Http.ServerError)
    {
      Mail.ConfirmAsWrittenNeverDelivered(email, accepted);
      r := ConfirmOrder(catalog, acct, orderId, paymentId, signature, hmac, todayStart,
                        Mail.Delivered(Mail.ConfirmOptionsAsWritten(email), accepted));
    }

    /** The commit of `confirmOrder` once the order at `i` passed the guards: it is paid,
        the cart is emptied, and its lines leave stock for units sold. */
    method ConfirmFound(catalog: ProductStore, acct: Users.Account, i: nat, paymentId: string,
                        todayStart: int, emailSent: bool) returns (r: Result<Order, int>)
      requires Valid(catalog.products)
      requires i < |orders| && !orders[i].isDeleted && !orders[i].isPaid
      modifies this, catalog, acct
      ensures Valid(catalog.products)
      ensures stockBase == old(stockBase) && soldBase == old(soldBase) && refunds == old(refunds)
      ensures StockTotals(catalog.products) == StockTotals(old(catalog.products))
      ensures acct.wishlist == old(acct.wishlist)
      ensures var o := old(orders)[i];
        orders == old(orders)[i := Confirmed(o, paymentId, todayStart)]
        && acct.cart == []
        && catalog.products == Shifted(old(catalog.products), o.items, -1)
        && r == (if emailSent then Ok(Confirmed(o, paymentId, todayStart)) else Err(Http.ServerError))
    {
      var order := orders[i];
      var confirmedOrder := Confirmed(order, paymentId, todayStart);
      ValidOrderOfSameAmounts(order, confirmedOrder);
      WellFormedReplace(orders, i, confirmedOrder);
      LedgerAfterShift(orders, i, confirmedOrder, catalog.products, -1, stockBase, soldBase);
      ShiftKeepsTotals(catalog.products, order.items, -1);
      orders := orders[i := confirmedOrder];
      acct.cart := [];
      catalog.ShiftStock(order.items, -1);
      assert WellFormed(orders) && LedgerHolds(orders, catalog.products, stockBase, soldBase);
      if !emailSent {
        return Err(Http.ServerError);
      }
      return Ok(confirmedOrder);
    }

    /** `cancelOrder`: 404 unless the order is paid and not deleted, 403 for another user's
        order, 409 when it is already cancelled or delivered. Otherwise it is cancelled,
        every line's units go back to stock, and its total is refunded; a failed email is a
        500 with all of that already done. */
    method CancelOrder(catalog: ProductStore, orderId: OrderId, caller: UserId, emailSent: bool)
      returns (r: Result<Order, int>)
      requires Valid(catalog.products)
      modifies this, catalog
      ensures Valid(catalog.products)
      ensures stockBase == old(stockBase) && soldBase == old(soldBase)
      ensures StockTotals(catalog.products) == StockTotals(old(catalog.products))
      ensures var f := FindOrder(old(orders), orderId);
        f.None? || !old(orders)[f.value].isPaid || old(orders)[f.value].isDeleted ==> r == Err(Http.NotFound)
      ensures var f := FindOrder(old(orders), orderId);
        f.Some? && old(orders)[f.value].isPaid && !old(orders)[f.value].isDeleted && old(orders)[f.value].user != caller
        ==> r == Err(Http.Forbidden)
      ensures var f := FindOrder(old(orders), orderId);
        f.Some? && old(orders)[f.value].isPaid && !old(orders)[f.value].isDeleted && old(orders)[f.value].user == caller
        && (old(orders)[f.value].status == Cancelled || old(orders)[f.value].status == Delivered)
        ==> r == Err(Http.Conflict)
      ensures r.Err? && r.error != Http.ServerError ==>
        orders == old(orders) && catalog.products == old(catalog.products) && refunds == old(refunds)
      ensures var f := FindOrder(old(orders), orderId);
        f.Some? && old(orders)[f.value].isPaid && !old(orders)[f.value].isDeleted && old(orders)[f.value].user == caller
        && old(orders)[f.value].status != Cancelled && old(orders)[f.value].status != Delivered
        ==> var o := old(orders)[f.value];
            orders == old(orders)[f.value := o.(status := Cancelled)]
            && catalog.products == Shifted(old(catalog.products), o.items, 1)
            && refunds == old(refunds) + [Refund(o.paymentId.value, o.totalAmount * 100.0)]
            && r == (if emailSent then Ok(o.(status := Cancelled)) else Err(Http.ServerError))
    {
      var found := FindOrder(orders, orderId);
      if found.None? || !orders[found.value].isPaid || orders[found.value].isDeleted {
        return Err(Http.NotFound);
      }
      var i := found.value;
      var order := orders[i];
      if order.user != caller {
        return Err(Http.Forbidden);
      }
      if order.status == Cancelled {
        return Err(Http.Conflict);
      }
      if order.status == Delivered {
        return Err(Http.Conflict);
      }
      r := CancelFound(catalog, i, emailSent);
    }

    /** The commit of `cancelOrder` once the order at `i` passed the guards: it is
        cancelled, its lines go back to stock, and its total is refunded. */
    method CancelFound(catalog: ProductStore, i: nat, emailSent: bool) returns (r: Result<Order, int>)
      requires Valid(catalog.products)
      requires i < |orders| && orders[i].isPaid && !orders[i].isDeleted
      requires orders[i].status != Cancelled && orders[i].status != Delivered
      modifies this, catalog
      ensures Valid(catalog.products)
      ensures stockBase == old(stockBase) && soldBase == old(soldBase)
      ensures StockTotals(catalog.products) == StockTotals(old(catalog.products))
      ensures var o := old(orders)[i];
        orders == old(orders)[i := o.(status := Cancelled)]
        && catalog.products == Shifted(old(catalog.products), o.items, 1)
        && refunds == old(refunds) + [Refund(o.paymentId.value, o.totalAmount * 100.0)]
        && r == (if emailSent then Ok(o.(status := Cancelled)) else Err(Http.ServerError))
    {
      var order := orders[i];
      var cancelledOrder := order.(status := Cancelled);
      ValidOrderOfSameAmounts(order, cancelledOrder);
      WellFormedReplace(orders, i, cancelledOrder);
      LedgerAfterShift(orders, i, cancelledOrder, catalog.products, 1, stockBase, soldBase);
      ShiftKeepsTotals(catalog.products, order.items, 1);
      orders := orders[i := cancelledOrder];
      catalog.ShiftStock(order.items, 1);
      refunds := refunds + [Refund(cancelledOrder.paymentId.value, cancelledOrder.totalAmount * 100.0)];
      assert WellFormed(orders) && LedgerHolds(orders, catalog.products, stockBase, soldBase);
      if !emailSent {
        return Err(Http.ServerError);
      }
      return Ok(cancelledOrder);
    }

    /** `updateOrderStatus`: 404 for a missing or deleted order, then the status guards;
        on success the status, the admin and the time are recorded and nothing else
        changes. */
    method UpdateOrderStatus(catalog: ProductStore, orderId: OrderId, admin: UserId, status: OrderStatus, now: int)
      returns (r: Result<Order, StatusError>)
      requires Valid(catalog.products)
      modifies this
      ensures Valid(catalog.products)
      ensures stockBase == old(stockBase) && soldBase == old(soldBase) && refunds == old(refunds)
      ensures var f := FindOrder(old(orders), orderId);
        f.None? || old(orders)[f.value].isDeleted ==> r == Err(StatusError(Http.NotFound, None)) && orders == old(orders)
      ensures var f := FindOrder(old(orders), orderId);
        f.Some? && !old(orders)[f.value].isDeleted && StatusGuard(old(orders)[f.value], status).Err? ==>
          r == Err(StatusGuard(old(orders)[f.value], status).error) && orders == old(orders)
      ensures var f := FindOrder(old(orders), orderId);
        f.Some? && !old(orders)[f.value].isDeleted && StatusGuard(old(orders)[f.value], status).Ok? ==>
          var o := old(orders)[f.value].(status := status, statusLastUpdatedBy := Some(admin), statusUpdatedAt := Some(now));
          r == Ok(o) && orders == old(orders)[f.value := o]
    {
      var found := FindOrder(orders, orderId);
      if found.None? || orders[found.value].isDeleted {
        return Err(StatusError(Http.NotFound, None));
      }
      var i := found.value;
      var order := orders[i];
      var guard := StatusGuard(order, status);
      if guard.Err? {
        return Err(guard.error);
      }
      StatusGuardOnlyNext(order, status);
      var updatedOrder := order.(status := status, statusLastUpdatedBy := Some(admin), statusUpdatedAt := Some(now));
      ValidOrderOfSameAmounts(order, updatedOrder);
      WellFormedReplace(orders, i, updatedOrder);
      LedgerAfterKeep(orders, i, updatedOrder, catalog.products, stockBase, soldBase);
      orders := orders[i := updatedOrder];
      assert WellFormed(orders) && LedgerHolds(orders, catalog.products, stockBase, soldBase);
      return Ok(updatedOrder);
    }

    /** `deleteOrder`: 404 for a missing or deleted order, 403 for an unpaid order less than
        two days old. Otherwise the order is marked deleted, and a paid order that is
        created, processing or shipped also gets its units back into stock and its total
        refunded; a failed email is then a 500 with all of that already done. */
    method DeleteOrder(catalog: ProductStore, orderId: OrderId, admin: UserId, now: int, emailSent: bool)
      returns (r: Result<OrderId, int>)
      requires Valid(catalog.products)
      modifies this, catalog
      ensures Valid(catalog.products)
      ensures stockBase == old(stockBase) && soldBase == old(soldBase)
      ensures StockTotals(catalog.products) == StockTotals(old(catalog.products))
      ensures var f := FindOrder(old(orders), orderId);
        f.None? || old(orders)[f.value].isDeleted ==> r == Err(Http.NotFound)
      ensures var f := FindOrder(old(orders), orderId);
        (f.Some? && !old(orders)[f.value].isDeleted && !old(orders)[f.value].isPaid
         && now < old(orders)[f.value].createdAt + 2 * DayMs) ==> r == Err(Http.Forbidden)
      ensures r.Err? && r.error != Http.ServerError ==>
        orders == old(orders) && catalog.products == old(catalog.products) && refunds == old(refunds)
      ensures var f := FindOrder(old(orders), orderId);
        f.Some? && !old(orders)[f.value].isDeleted
        && (old(orders)[f.value].isPaid || now >= old(orders)[f.value].createdAt + 2 * DayMs)
        ==> var o := old(orders)[f.value];
            orders == old(orders)[f.value := Deleted(o, admin, now)]
            && (RestoresOnDelete(o) ==>
                  catalog.products == Shifted(old(catalog.products), o.items, 1)
                  && refunds == old(refunds) + [Refund(o.paymentId.value, o.totalAmount * 100.0)]
                  && r == (if emailSent then Ok(orderId) else Err(Http.ServerError)))
            && (!RestoresOnDelete(o) ==>
                  catalog.products == old(catalog.products) && refunds == old(refunds) && r == Ok(orderId))
    {
      var found := FindOrder(orders, orderId);
      if found.None? || orders[found.value].isDeleted {
        return Err(Http.NotFound);
      }
      var i := found.value;
      var order := orders[i];
      if !order.isPaid && now < order.createdAt + 2 * DayMs {
        return Err(Http.Forbidden);
      }
      r := DeleteFound(catalog, i, orderId, admin, now, emailSent);
    }

    /** The commit of `deleteOrder` once the order at `i` passed the guards: it is marked
        deleted, and a paid order that is created, processing or shipped also gets its
        units back into stock and its total refunded. */
    method DeleteFound(catalog: ProductStore, i: nat, orderId: OrderId, admin: UserId, now: int, emailSent: bool)
      returns (r: Result<OrderId, int>)
      requires Valid(catalog.products)
      requires i < |orders| && !orders[i].isDeleted
      modifies this, catalog
      ensures Valid(catalog.products)
      ensures stockBase == old(stockBase) && soldBase == old(soldBase)
      ensures StockTotals(catalog.products) == StockTotals(old(catalog.products))
      ensures var o := old(orders)[i];
        orders == old(orders)[i := Deleted(o, admin, now)]
        && (RestoresOnDelete(o) ==>
              catalog.products == Shifted(old(catalog.products), o.items, 1)
              && refunds == old(refunds) + [Refund(o.paymentId.value, o.totalAmount * 100.0)]
              && r == (if emailSent then Ok(orderId) else Err(Http.ServerError)))
        && (!RestoresOnDelete(o) ==>
              catalog.products == old(catalog.products) && refunds == old(refunds) && r == Ok(orderId))
    {
      var order := orders[i];
      var deletedOrder := Deleted(order, admin, now);
      ValidOrderOfSameAmounts(order, deletedOrder);
      WellFormedReplace(orders, i, deletedOrder);
      RestoreMatchesRelease(order, admin, now);
      if RestoresOnDelete(order) {
        LedgerAfterShift(orders, i, deletedOrder, catalog.products, 1, stockBase, soldBase);
        ShiftKeepsTotals(catalog.products, order.items, 1);
      } else {
        LedgerAfterKeep(orders, i, deletedOrder, catalog.products, stockBase, soldBase);
      }
      orders := orders[i := deletedOrder];
      if RestoresOnDelete(order) {
        catalog.ShiftStock(order.items, 1);
        refunds := refunds + [Refund(order.paymentId.value, order.totalAmount * 100.0)];
        assert WellFormed(orders) && LedgerHolds(orders, catalog.products, stockBase, soldBase);
        if !emailSent {
          return Err(Http.ServerError);
        }
      }
      return Ok(orderId);
    }
  }
}
