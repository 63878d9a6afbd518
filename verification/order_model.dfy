/** The order record of models/order.js, with the fields the order handlers write. */
module OrderModel {
  import opened Wrappers
  import opened Constants

  type OrderId = string
  type ProductId = string
  type UserId = string
  type AddressId = string

  /** One line of an order: the product, how many, and the unit price charged. */
  datatype OrderItem = OrderItem(product: ProductId, quantity: int, price: real)

  datatype Order = Order(
    id: OrderId,
    user: UserId,
    items: seq<OrderItem>,
    orderAmount: real,
    discount: real,
    shippingCharges: int,
    taxAmount: real,
    totalAmount: real,
    shippingAddress: AddressId,
    deliveryMode: DeliveryMode,
    status: OrderStatus,
    isPaid: bool,
    paymentId: Option<string>,
    estimatedDeliveryDate: Option<int>,
    isDeleted: bool,
    deletedBy: Option<UserId>,
    deletedAt: Option<int>,
    statusLastUpdatedBy: Option<UserId>,
    statusUpdatedAt: Option<int>,
    createdAt: int)

  /** The item schema: a whole quantity of 1 to 10 and a price within the price bounds. */
  predicate ValidItem(it: OrderItem): (r: bool)
    ensures r ==> it.price * it.quantity as real >= PriceMin as real
  {
    QuantityMin <= it.quantity <= QuantityMax && PriceMin as real <= it.price <= PriceMax as real
  }

  /** The order schema: at least one item, every item valid, an order amount of at least
      the minimum price, a discount, tax and total that are not negative, and shipping
      charges of at least the minimum. The status is one of ORDER_STATUS by its type. */
  predicate ValidOrder(o: Order): (r: bool)
    ensures r ==> forall i :: 0 <= i < |o.items| ==> o.items[i].price * o.items[i].quantity as real >= PriceMin as real
  {
    |o.items| > 0
    && (forall i :: 0 <= i < |o.items| ==> ValidItem(o.items[i]))
    && o.orderAmount >= PriceMin as real
    && o.discount >= 0.0
    && o.shippingCharges >= ShippingChargesMin
    && o.taxAmount >= 0.0
    && o.totalAmount >= 0.0
  }

  /** Units of `pid` across the lines of an order. */
  function QtyOf(items: seq<OrderItem>, pid: ProductId): int
    decreases |items|
  {
    if |items| == 0 then 0
    else QtyOf(items[..|items| - 1], pid) + (if items[|items| - 1].product == pid then items[|items| - 1].quantity else 0)
  }

  lemma QtyOfSnoc(prefix: seq<OrderItem>, last: OrderItem, pid: ProductId)
    ensures QtyOf(prefix + [last], pid) == QtyOf(prefix, pid) + (if last.product == pid then last.quantity else 0)
  {
    assert (prefix + [last])[..|prefix|] == prefix;
  }

  /** Lines with positive quantities never count a negative number of units. */
  lemma {:induction false} QtyOfNonNegative(items: seq<OrderItem>, pid: ProductId)
    requires forall i :: 0 <= i < |items| ==> items[i].quantity >= QuantityMin
    ensures QtyOf(items, pid) >= 0
    ensures (forall i :: 0 <= i < |items| ==> items[i].product != pid) ==> QtyOf(items, pid) == 0
    decreases |items|
  {
    if |items| > 0 {
      QtyOfNonNegative(items[..|items| - 1], pid);
    }
  }
}
