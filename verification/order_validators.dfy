/** The request checks of orderValidators.js that run before `createOrder`: every line's
    product is on sale with enough stock, the coupon code (if any) names a redeemable
    coupon, and the shipping address is the caller's. */
module OrderValidators {
  import opened Wrappers
  import opened OrderModel
  import opened Catalog
  import Coupons
  import Constants
  import Addresses
  import Http

  /** `{ product, quantity }`: a validated line paired with its product record. */
  datatype ProductLine = ProductLine(product: Product, quantity: int)

  /** The check on one line: 404 for a product missing or deleted, 409 when it is out of
      stock, 409 when the stock is below the quantity. */
  function CheckItem(products: Products, it: OrderItem): (r: Result<ProductLine, int>)
    ensures !Catalog.Live(products, it.product) ==> r == Err(Http.NotFound)
    ensures Catalog.Live(products, it.product) && products[it.product].stock == 0 ==> r == Err(Http.Conflict)
    ensures Catalog.Live(products, it.product) && products[it.product].stock < it.quantity ==> r.Err?
    ensures r.Err? ==> r.error == Http.NotFound || r.error == Http.Conflict
    ensures r.Ok? <==> (Catalog.Live(products, it.product) && products[it.product].stock != 0
      && it.quantity <= products[it.product].stock)
    ensures r.Ok? ==> r.value == ProductLine(products[it.product], it.quantity)
  {
    if !Catalog.Live(products, it.product) then Err(Http.NotFound)
    else if products[it.product].stock == 0 then Err(Http.Conflict)
    else if products[it.product].stock < it.quantity then Err(Http.Conflict)
    else Ok(ProductLine(products[it.product], it.quantity))
  }

  /** `validateProducts`: the lines paired with their products, in input order; when
      several lines fail, the first failing line in input order is reported. */
  function ValidateProducts(products: Products, items: seq<OrderItem>): (r: Result<seq<ProductLine>, int>)
    ensures r.Ok? <==> forall i :: 0 <= i < |items| ==> CheckItem(products, items[i]).Ok?
    ensures r.Ok? ==> |r.value| == |items|
    ensures r.Ok? ==>
      forall i :: 0 <= i < |items| ==> r.value[i] == ProductLine(products[items[i].product], items[i].quantity)
    ensures r.Err? ==> exists i :: (0 <= i < |items| && CheckItem(products, items[i]) == Err(r.error)
      && forall j :: 0 <= j < i ==> CheckItem(products, items[j]).Ok?)
    decreases |items|
  {
    if |items| == 0 then Ok([])
    else
      match CheckItem(products, items[0])
      case Err(e) => Err(e)
      case Ok(line) =>
        match ValidateProducts(products, items[1..])
        case Err(e) =>
          assert exists i :: (0 <= i < |items| && CheckItem(products, items[i]) == Err(e)
            && forall j :: 0 <= j < i ==> CheckItem(products, items[j]).Ok?) by {
            var k :| 0 <= k < |items| - 1 && CheckItem(products, items[1..][k]) == Err(e)
              && forall j :: 0 <= j < k ==> CheckItem(products, items[1..][j]).Ok?;
            assert forall j :: 0 <= j < k + 1 ==> CheckItem(products, items[j]).Ok? by {
              forall j | 0 <= j < k + 1
                ensures CheckItem(products, items[j]).Ok?
              {
                if j > 0 {
                  assert items[j] == items[1..][j - 1];
                }
              }
            }
            assert CheckItem(products, items[k + 1]) == Err(e);
          }
          Err(e)
        case Ok(rest) =>
          assert forall i :: 0 <= i < |items| ==> CheckItem(products, items[i]).Ok? by {
            forall i | 0 <= i < |items|
              ensures CheckItem(products, items[i]).Ok?
            {
              if i > 0 {
                assert items[i] == items[1..][i - 1];
              }
            }
          }
          Ok([line] + rest)
  }

  /** After validation every line of the order schema is on sale and fits in its product's
      stock. */
  lemma ValidatedLinesInStock(products: Products, items: seq<OrderItem>)
    requires forall i :: 0 <= i < |items| ==> ValidItem(items[i])
    requires ValidateProducts(products, items).Ok?
    ensures forall i :: 0 <= i < |items| ==>
      Catalog.Live(products, items[i].product) && 0 < products[items[i].product].stock
      && items[i].quantity <= products[items[i].product].stock
  {
    forall i | 0 <= i < |items|
      ensures Catalog.Live(products, items[i].product) && 0 < products[items[i].product].stock
        && items[i].quantity <= products[items[i].product].stock
    {
      assert CheckItem(products, items[i]).Ok? && ValidItem(items[i]);
    }
  }

  /** Each line is checked on its own: two lines for the same product pass even when together
      they ask for more than the stock, and confirming such an order leaves the stock below
      zero. */
  lemma SplitLinesPassValidation()
    ensures var products := map["p" := Product(100.0, 5, 0, false, 0.0, 0)];
      var items := [OrderItem("p", 3, 100.0), OrderItem("p", 3, 100.0)];
      ValidateProducts(products, items).Ok? && Shifted(products, items, -1)["p"].stock == -1
  {
    var products := map["p" := Product(100.0, 5, 0, false, 0.0, 0)];
    var items := [OrderItem("p", 3, 100.0), OrderItem("p", 3, 100.0)];
    assert items[..1] == [items[0]];
    assert items[..1][..0] == [];
    assert QtyOf(items, "p") == 6;
    ShiftedAt(products, items, -1, "p");
    assert CheckItem(products, items[0]).Ok?;
    assert items[1..] == [items[1]];
    assert ValidateProducts(products, items[1..][1..]) == Ok([]);
  }

  /** `validateCoupon`: an empty code attaches no coupon and raises nothing; otherwise 404
      when no coupon has the code, 400 when it is past its expiry instant or inactive. */
  function ValidateCoupon(coupons: seq<Coupons.Coupon>, couponCode: string, now: int): (r: Result<Option<Coupons.Coupon>, int>)
    ensures couponCode == "" ==> r == Ok(None)
    ensures couponCode != "" && !Coupons.CodeTaken(coupons, couponCode) ==> r == Err(Http.NotFound)
    ensures couponCode != "" && r.Ok? ==> r.value.Some?
    ensures r.Ok? && r.value.Some? ==>
      r.value.value.code == couponCode && Coupons.Redeemable(r.value.value, now) && r.value.value in coupons
    ensures couponCode != "" ==>
      (r.Ok? <==> Coupons.CheckCouponValidity(coupons, couponCode, now).Ok?)
    ensures r.Err? ==> r.error == Coupons.CheckCouponValidity(coupons, couponCode, now).error
  {
    if couponCode == "" then Ok(None)
    else
      match Coupons.FindByCode(coupons, couponCode)
      case None => Err(Http.NotFound)
      case Some(i) =>
        if coupons[i].expiryDate < now || coupons[i].status == Constants.Inactive then Err(Http.BadRequest)
        else Ok(Some(coupons[i]))
  }

  /** `validateAddress`: the shipping address must exist, not be deleted, and be the
      caller's. */
  function ValidateAddress(book: Addresses.Book, shippingAddress: Addresses.AddressId, caller: UserId): (r: Result<(), int>)
    ensures !Addresses.Live(book, shippingAddress) ==> r == Err(Http.NotFound)
    ensures Addresses.Live(book, shippingAddress) && book[shippingAddress].user != caller ==> r == Err(Http.Forbidden)
    ensures r.Ok? <==> Addresses.Live(book, shippingAddress) && book[shippingAddress].user == caller
  {
    if !Addresses.Live(book, shippingAddress) then Err(Http.NotFound)
    else if book[shippingAddress].user != caller then Err(Http.Forbidden)
    else Ok(())
  }

  /** The address check agrees with `getAddressById`: the same address is usable for an
      order exactly when the caller may read it. */
  lemma ValidateAddressAgrees(book: Addresses.Book, shippingAddress: Addresses.AddressId, caller: UserId)
    ensures ValidateAddress(book, shippingAddress, caller).Ok?
      <==> Addresses.GetAddressById(book, shippingAddress, caller).Ok?
    ensures ValidateAddress(book, shippingAddress, caller).Err? ==>
      ValidateAddress(book, shippingAddress, caller).error == Addresses.GetAddressById(book, shippingAddress, caller).error
  {
  }
}
