/** The pricing block of `createOrder` in orderControllers.js: order amount, coupon discount,
    shipping from the delivery table, GST and the total, in exact arithmetic. */
module Pricing {
  import opened Wrappers
  import opened Constants
  import opened OrderModel
  import opened Coupons
  import Http

  /** `items.reduce((total, item) => total + item.price * item.quantity, 0)`. */
  function OrderAmount(items: seq<OrderItem>): (r: real)
    ensures (forall i :: 0 <= i < |items| ==> items[i].price >= 0.0 && items[i].quantity >= 0) ==> r >= 0.0
    decreases |items|
  {
    if |items| == 0 then 0.0
    else OrderAmount(items[..|items| - 1]) + items[|items| - 1].price * items[|items| - 1].quantity as real
  }

  /** Valid lines add up to at least the minimum price per line. */
  lemma {:induction false} OrderAmountAtLeast(items: seq<OrderItem>)
    requires forall i :: 0 <= i < |items| ==> ValidItem(items[i])
    ensures OrderAmount(items) >= PriceMin as real * |items| as real
    decreases |items|
  {
    if |items| > 0 {
      var prefix := items[..|items| - 1];
      var last := items[|items| - 1];
      OrderAmountAtLeast(prefix);
      var q := last.quantity as real;
      assert OrderAmount(items) == OrderAmount(prefix) + last.price * q;
      assert ValidItem(last);
      AtLeastOnce(last.price, q);
      var m := PriceMin as real;
      assert |items| as real == |prefix| as real + 1.0;
      assert m * (|prefix| as real + 1.0) == m * |prefix| as real + m;
    }
  }

  /** A price taken at least once is at least the price. */
  lemma AtLeastOnce(price: real, q: real)
    requires price >= 0.0 && q >= 1.0
    ensures price * q >= price
  {
    assert price * q == price + price * (q - 1.0);
    assert price * (q - 1.0) >= 0.0;
  }

  /** The amounts `createOrder` stores on a new order. */
  datatype Totals = Totals(
    orderAmount: real,
    discount: real,
    shippingCharges: int,
    taxAmount: real,
    totalAmount: real)

  /** `(percentageDiscount * orderAmount) / 100`. */
  function PercentageOf(percent: int, amount: real): real {
    (percent as real * amount) / 100.0
  }

  /** The coupon discount: none without a coupon; a flat coupon needs an order amount of at
      least its value (equality is enough) and then takes off exactly that value; a
      percentage coupon takes off that share of the order amount. */
  function Discount(coupon: Option<Coupon>, orderAmount: real): (r: Result<real, int>)
    ensures coupon.None? ==> r == Ok(0.0)
    ensures coupon.Some? && coupon.value.policy.FlatDiscount? ==>
      var flat := coupon.value.policy.amount as real;
      (orderAmount < flat ==> r == Err(Http.BadRequest)) && (orderAmount >= flat ==> r == Ok(flat))
    ensures coupon.Some? && coupon.value.policy.PercentageDiscount? ==>
      r == Ok(PercentageOf(coupon.value.policy.percent, orderAmount))
  {
    if coupon.None? then Ok(0.0)
    else if coupon.value.policy.FlatDiscount? then
      var flat := coupon.value.policy.amount as real;
      if orderAmount < flat then Err(Http.BadRequest) else Ok(flat)
    else Ok(PercentageOf(coupon.value.policy.percent, orderAmount))
  }

  /** A discount within the coupon bounds never exceeds the order amount and is never
      negative. */
  lemma DiscountBounded(coupon: Option<Coupon>, orderAmount: real)
    requires orderAmount >= 0.0
    requires coupon.Some? ==> ValidPolicy(coupon.value.policy)
    ensures Discount(coupon, orderAmount).Ok? ==>
      0.0 <= Discount(coupon, orderAmount).value <= orderAmount
  {
    if coupon.Some? && coupon.value.policy.PercentageDiscount? {
      var p := coupon.value.policy.percent as real;
      assert p * orderAmount <= 100.0 * orderAmount;
      assert PercentageOf(coupon.value.policy.percent, orderAmount) == (p * orderAmount) / 100.0;
    }
  }

  /** The pricing of `createOrder`. */
  function PriceOrder(items: seq<OrderItem>, coupon: Option<Coupon>, mode: DeliveryMode): (r: Result<Totals, int>)
    ensures r.Err? <==> Discount(coupon, OrderAmount(items)).Err?
    ensures r.Err? ==> r.error == Http.BadRequest
    ensures r.Ok? ==>
      var t := r.value;
      t.orderAmount == OrderAmount(items)
      && t.discount == Discount(coupon, OrderAmount(items)).value
      && t.shippingCharges == PolicyOf(mode).shippingCharges
      && t.taxAmount == (t.orderAmount + t.shippingCharges as real) * GstRate
      && t.totalAmount == t.orderAmount - t.discount + t.shippingCharges as real + t.taxAmount
  {
    var orderAmount := OrderAmount(items);
    match Discount(coupon, orderAmount)
    case Err(e) => Err(e)
    case Ok(discount) =>
      var shippingCharges := PolicyOf(mode).shippingCharges;
      var taxAmount := (orderAmount + shippingCharges as real) * GstRate;
      Ok(Totals(orderAmount, discount, shippingCharges, taxAmount,
                orderAmount - discount + shippingCharges as real + taxAmount))
  }

  /** Tax is charged on goods plus shipping before the discount: two coupons that both apply
      give the same tax, and the same tax as no coupon. */
  lemma TaxIgnoresDiscount(items: seq<OrderItem>, c1: Option<Coupon>, c2: Option<Coupon>, mode: DeliveryMode)
    requires PriceOrder(items, c1, mode).Ok? && PriceOrder(items, c2, mode).Ok?
    ensures PriceOrder(items, c1, mode).value.taxAmount == PriceOrder(items, c2, mode).value.taxAmount
    ensures PriceOrder(items, None, mode).Ok?
    ensures PriceOrder(items, c1, mode).value.taxAmount == PriceOrder(items, None, mode).value.taxAmount
    ensures PriceOrder(items, c1, mode).value.totalAmount
      == PriceOrder(items, None, mode).value.totalAmount - PriceOrder(items, c1, mode).value.discount
  {
  }

  /** With valid lines and a coupon within bounds every stored amount meets the order
      schema, and the total is at least shipping plus tax. */
  lemma PricedAmountsValid(items: seq<OrderItem>, coupon: Option<Coupon>, mode: DeliveryMode)
    requires |items| > 0 && forall i :: 0 <= i < |items| ==> ValidItem(items[i])
    requires coupon.Some? ==> ValidPolicy(coupon.value.policy)
    requires PriceOrder(items, coupon, mode).Ok?
    ensures var t := PriceOrder(items, coupon, mode).value;
      t.orderAmount >= PriceMin as real && 0.0 <= t.discount <= t.orderAmount
      && t.shippingCharges >= ShippingChargesMin && t.taxAmount >= 0.0
      && t.totalAmount >= t.shippingCharges as real + t.taxAmount
  {
    OrderAmountAtLeast(items);
    DiscountBounded(coupon, OrderAmount(items));
  }

  /** Two items at 500 with standard delivery and no coupon: 1000 of goods, 30 shipping,
      185.4 tax, 1215.4 in total. */
  lemma PricingExample()
    ensures PriceOrder([OrderItem("p", 2, 500.0)], None, Standard)
      == Ok(Totals(1000.0, 0.0, 30, 185.4, 1215.4))
  {
    var items := [OrderItem("p", 2, 500.0)];
    assert items[..0] == [];
    assert OrderAmount(items) == 1000.0;
  }

  /** A flat coupon worth exactly the order amount is accepted and the goods are free: only
      shipping and tax remain. One unit less and it is refused. */
  lemma FlatDiscountFloor(items: seq<OrderItem>, c: Coupon, mode: DeliveryMode)
    requires c.policy.FlatDiscount? && OrderAmount(items) == c.policy.amount as real
    ensures PriceOrder(items, Some(c), mode).Ok?
    ensures var t := PriceOrder(items, Some(c), mode).value;
      t.discount == t.orderAmount && t.totalAmount == t.shippingCharges as real + t.taxAmount
    ensures !Discount(Some(c.(policy := FlatDiscount(c.policy.amount + 1))), OrderAmount(items)).Ok?
  {
  }

  /** The record `Order.create` stores: unpaid, in the created status, not deleted. */
  function NewOrder(id: OrderId, user: UserId, items: seq<OrderItem>, t: Totals,
                    shippingAddress: AddressId, mode: DeliveryMode, now: int): (o: Order)
    ensures o.id == id && o.user == user && o.items == items && o.createdAt == now
    ensures !o.isPaid && o.status == Created && !o.isDeleted
  {
    Order(id, user, items, t.orderAmount, t.discount, t.shippingCharges, t.taxAmount, t.totalAmount,
          shippingAddress, mode, Created, false, None, None, false, None, None, None, None, now)
  }

  /** An order priced from valid lines with a coupon within bounds satisfies the order
      schema. */
  lemma CreatedOrderValid(id: OrderId, user: UserId, items: seq<OrderItem>, coupon: Option<Coupon>,
                          shippingAddress: AddressId, mode: DeliveryMode, now: int)
    requires |items| > 0 && forall i :: 0 <= i < |items| ==> ValidItem(items[i])
    requires coupon.Some? ==> ValidPolicy(coupon.value.policy)
    requires PriceOrder(items, coupon, mode).Ok?
    ensures ValidOrder(NewOrder(id, user, items, PriceOrder(items, coupon, mode).value, shippingAddress, mode, now))
  {
    PricedAmountsValid(items, coupon, mode);
  }
}
