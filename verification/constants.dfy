/** The frozen constant tables of the storefront: roles, order and coupon states, delivery
    modes with their shipping policy, and the numeric bounds the schemas enforce. */
module Constants {
  import opened Wrappers

  datatype Role = User | Admin

  /** ORDER_STATUS, in declaration order. */
  datatype OrderStatus = Created | Processing | Shipped | Delivered | Cancelled

  const OrderStatuses: seq<OrderStatus> := [Created, Processing, Shipped, Delivered, Cancelled]

  datatype DeliveryMode = Standard | Express

  datatype DiscountType = Percentage | Flat

  datatype CouponStatus = Active | Inactive | Expired

  /** Shipping time window in days. */
  datatype ShippingTime = ShippingTime(min: int, max: int)

  datatype DeliveryOption = DeliveryOption(mode: DeliveryMode, shippingCharges: int, shippingTime: ShippingTime)

  /** DELIVERY_OPTIONS. */
  const DeliveryOptions: seq<DeliveryOption> := [
    DeliveryOption(Standard, 30, ShippingTime(4, 10)),
    DeliveryOption(Express, 100, ShippingTime(2, 5))
  ]

  const PriceMin: int := 10
  const PriceMax: int := 100000
  const StockMin: int := 1
  const StockMax: int := 10000
  const QuantityMin: int := 1
  const QuantityMax: int := 10
  const RatingMin: int := 1
  const RatingMax: int := 5
  const ShippingChargesMin: int := 30
  const GstRate: real := 0.18
  const MinFlatDiscount: int := 10
  const MaxFlatDiscount: int := 1000
  const FlatDiscountMultiple: int := 10
  const MinPercentageDiscount: int := 1
  const MaxPercentageDiscount: int := 100

  /** Milliseconds in a day: the unit of every timestamp in the model. */
  const DayMs: int := 86400000

  /** `options.find(option => option.TYPE === mode)`. */
  function FindOption(options: seq<DeliveryOption>, mode: DeliveryMode): (r: Option<DeliveryOption>)
    ensures r.Some? ==> r.value in options && r.value.mode == mode
    ensures r.None? ==> forall o :: o in options ==> o.mode != mode
  {
    if |options| == 0 then None
    else if options[0].mode == mode then Some(options[0])
    else FindOption(options[1..], mode)
  }

  /** Every delivery mode has an entry, so the lookup in the order handlers never fails. */
  lemma DeliveryOptionsCover(mode: DeliveryMode)
    ensures FindOption(DeliveryOptions, mode).Some?
  {
  }

  /** The policy of a delivery mode. */
  function PolicyOf(mode: DeliveryMode): (o: DeliveryOption)
    ensures o in DeliveryOptions && o.mode == mode
    ensures ShippingChargesMin <= o.shippingCharges
    ensures 0 < o.shippingTime.min <= o.shippingTime.max
  {
    DeliveryOptionsCover(mode);
    FindOption(DeliveryOptions, mode).value
  }

  /** `Math.ceil((MIN + MAX) / 2)`: the days from today to the estimated delivery. */
  function ShippingDays(mode: DeliveryMode): (d: int)
    ensures PolicyOf(mode).shippingTime.min <= d <= PolicyOf(mode).shippingTime.max
    ensures 2 * d - 1 <= PolicyOf(mode).shippingTime.min + PolicyOf(mode).shippingTime.max <= 2 * d
  {
    var t := PolicyOf(mode).shippingTime;
    (t.min + t.max + 1) / 2
  }

  lemma ShippingDaysValues()
    ensures ShippingDays(Standard) == 7 && ShippingDays(Express) == 4
  {
  }

  /** Exactly the two delivery modes, with their charges; the minimum shipping charge is the
      standard charge. */
  lemma DeliveryTableFacts()
    ensures |DeliveryOptions| == 2
    ensures PolicyOf(Standard).shippingCharges == 30 == ShippingChargesMin
    ensures PolicyOf(Express).shippingCharges == 100
    ensures forall o :: o in DeliveryOptions ==> o.shippingTime.min <= o.shippingTime.max
  {
  }

  /** `Object.values(ORDER_STATUS).filter(status => status !== CANCELLED)`. */
  function Without(statuses: seq<OrderStatus>, s: OrderStatus): (r: seq<OrderStatus>)
    ensures forall x :: x in r <==> x in statuses && x != s
    ensures |r| <= |statuses|
  {
    if |statuses| == 0 then []
    else if statuses[0] == s then Without(statuses[1..], s)
    else [statuses[0]] + Without(statuses[1..], s)
  }

  /** The statuses `updateOrderStatus` moves through, in order. */
  function AllowedStatus(): (r: seq<OrderStatus>)
    ensures r == [Created, Processing, Shipped, Delivered]
  {
    Without(OrderStatuses, Cancelled)
  }

  /** `allowedStatus.indexOf(s)`: -1 for a status not in the list. */
  function StatusIndex(s: OrderStatus): (i: int)
    ensures -1 <= i < |AllowedStatus()|
    ensures i == -1 <==> s == Cancelled
    ensures i >= 0 ==> AllowedStatus()[i] == s
  {
    match s
    case Created => 0
    case Processing => 1
    case Shipped => 2
    case Delivered => 3
    case Cancelled => -1
  }

  lemma BoundsFacts()
    ensures QuantityMin == 1 && QuantityMax == 10
    ensures StockMin == 1 && StockMax == 10000
    ensures PriceMin == 10 && PriceMax == 100000
    ensures MinFlatDiscount == 10 && MaxFlatDiscount == 1000 && FlatDiscountMultiple == 10
    ensures MinPercentageDiscount == 1 && MaxPercentageDiscount == 100
    ensures GstRate == 18.0 / 100.0
  {
  }
}
