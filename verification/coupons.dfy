/** The coupon collection and the admin and user coupon handlers of couponControllers.js. */
module Coupons {
  import opened Wrappers
  import opened Constants
  import Http

  type CouponId = string
  type UserId = string

  /** The discount a coupon grants. The schema keeps exactly the field that matches
      `discountType` (the other one is stripped or unset), so the two are one choice here. */
  datatype DiscountPolicy = FlatDiscount(amount: int) | PercentageDiscount(percent: int) {
    function Type(): DiscountType {
      if FlatDiscount? then Flat else Percentage
    }
  }

  /** The bounds the coupon schema puts on the discount: a flat amount of 10 to 1000 in
      steps of 10, or a whole percentage of 1 to 100. */
  predicate ValidPolicy(p: DiscountPolicy) {
    match p
    case FlatDiscount(a) => MinFlatDiscount <= a <= MaxFlatDiscount && a % FlatDiscountMultiple == 0
    case PercentageDiscount(q) => MinPercentageDiscount <= q <= MaxPercentageDiscount
  }

  datatype Coupon = Coupon(
    id: CouponId,
    code: string,
    policy: DiscountPolicy,
    expiryDate: int,
    status: CouponStatus,
    createdBy: Option<UserId>,
    lastUpdatedBy: Option<UserId>,
    activeStatusLastUpdatedBy: Option<UserId>)

  /** The status a new coupon starts in. */
  const DefaultCouponStatus: CouponStatus := Active

  /** The check `checkCouponValidity` and `validateCoupon` make: not past its expiry instant
      (the instant itself still counts) and not deactivated. */
  predicate Redeemable(c: Coupon, now: int): (r: bool)
    ensures r <==> c.expiryDate >= now && (c.status == Active || c.status == Expired)
  {
    !(c.expiryDate < now) && c.status != Inactive
  }

  /** The filter of `getValidCoupons`: strictly before expiry and active. */
  predicate Listed(c: Coupon, now: int): (r: bool)
    ensures r ==> Redeemable(c, now)
    ensures r ==> Redeemable(c, now + 1)
  {
    c.expiryDate > now && c.status == Active
  }

  /** `Coupon.findOne({ code })`: the first coupon with the code. */
  function FindByCode(coupons: seq<Coupon>, code: string): (r: Option<nat>)
    ensures r.Some? ==> r.value < |coupons| && coupons[r.value].code == code
    ensures r.Some? ==> forall j :: 0 <= j < r.value ==> coupons[j].code != code
    ensures r.None? ==> forall j :: 0 <= j < |coupons| ==> coupons[j].code != code
  {
    if |coupons| == 0 then None
    else if coupons[0].code == code then Some(0)
    else
      var k := FindByCode(coupons[1..], code);
      if k.None? then None else Some(k.value + 1)
  }

  /** `Coupon.findById(id)`. */
  function FindById(coupons: seq<Coupon>, id: CouponId): (r: Option<nat>)
    ensures r.Some? ==> r.value < |coupons| && coupons[r.value].id == id
    ensures r.Some? ==> forall j :: 0 <= j < r.value ==> coupons[j].id != id
    ensures r.None? ==> forall j :: 0 <= j < |coupons| ==> coupons[j].id != id
  {
    if |coupons| == 0 then None
    else if coupons[0].id == id then Some(0)
    else
      var k := FindById(coupons[1..], id);
      if k.None? then None else Some(k.value + 1)
  }

  /** `Coupon.findOne({ code, _id: { $ne: id } })`. */
  function FindByCodeExcept(coupons: seq<Coupon>, code: string, id: CouponId): (r: Option<nat>)
    ensures r.Some? ==> r.value < |coupons| && coupons[r.value].code == code && coupons[r.value].id != id
    ensures r.None? ==> forall j :: 0 <= j < |coupons| ==> !(coupons[j].code == code && coupons[j].id != id)
  {
    if |coupons| == 0 then None
    else if coupons[0].code == code && coupons[0].id != id then Some(0)
    else
      var k := FindByCodeExcept(coupons[1..], code, id);
      if k.None? then None else Some(k.value + 1)
  }

  predicate CodeTaken(coupons: seq<Coupon>, code: string) {
    exists j :: 0 <= j < |coupons| && coupons[j].code == code
  }

  /** Some coupon other than `id` has the code. */
  predicate CodeTakenByOther(coupons: seq<Coupon>, code: string, id: CouponId) {
    exists j :: 0 <= j < |coupons| && coupons[j].code == code && coupons[j].id != id
  }

  predicate UniqueIds(coupons: seq<Coupon>) {
    forall i, j :: 0 <= i < j < |coupons| ==> coupons[i].id != coupons[j].id
  }

  predicate UniqueCodes(coupons: seq<Coupon>) {
    forall i, j :: 0 <= i < j < |coupons| ==> coupons[i].code != coupons[j].code
  }

  /** An update may keep the coupon's own code: with unique codes, the only coupon holding
      it is the one being updated. */
  lemma OwnCodeIsFree(coupons: seq<Coupon>, i: nat)
    requires UniqueCodes(coupons) && i < |coupons|
    ensures !CodeTakenByOther(coupons, coupons[i].code, coupons[i].id)
  {
    forall j | 0 <= j < |coupons| && coupons[j].code == coupons[i].code
      ensures coupons[j].id == coupons[i].id
    {
      assert j == i;
    }
  }

  /** `checkCouponValidity`: 404 when no coupon has the code, 400 when the coupon is past
      its expiry or inactive, valid otherwise. */
  function CheckCouponValidity(coupons: seq<Coupon>, code: string, now: int): (r: Result<bool, int>)
    ensures !CodeTaken(coupons, code) ==> r == Err(Http.NotFound)
    ensures r.Ok? ==> r.value
    ensures r.Ok? <==> exists j :: (0 <= j < |coupons| && coupons[j].code == code && Redeemable(coupons[j], now)
      && forall k :: 0 <= k < j ==> coupons[k].code != code)
    ensures r.Err? ==> r.error == Http.NotFound || r.error == Http.BadRequest
  {
    match FindByCode(coupons, code)
    case None => Err(Http.NotFound)
    case Some(i) => if !Redeemable(coupons[i], now) then Err(Http.BadRequest) else Ok(true)
  }

  /** With unique codes the answer depends on the one coupon with that code. */
  lemma CheckCouponValidityUnique(coupons: seq<Coupon>, code: string, now: int, j: nat)
    requires UniqueCodes(coupons)
    requires j < |coupons| && coupons[j].code == code
    ensures CheckCouponValidity(coupons, code, now).Ok? <==> Redeemable(coupons[j], now)
    ensures CheckCouponValidity(coupons, code, now) == Err(Http.BadRequest) <==> !Redeemable(coupons[j], now)
  {
    var i := FindByCode(coupons, code).value;
    assert i == j;
  }

  /** `getValidCoupons`: the listed coupons, in collection order. */
  function GetValidCoupons(coupons: seq<Coupon>, now: int): (r: seq<Coupon>)
    ensures forall c :: c in r <==> c in coupons && Listed(c, now)
    ensures |r| <= |coupons|
  {
    if |coupons| == 0 then []
    else
      var rest := GetValidCoupons(coupons[1..], now);
      assert forall c :: c in coupons <==> c == coupons[0] || c in coupons[1..];
      if Listed(coupons[0], now) then [coupons[0]] + rest else rest
  }

  /** Every listed coupon passes the validity check. */
  lemma ListedIsRedeemable(coupons: seq<Coupon>, now: int)
    ensures forall c :: c in GetValidCoupons(coupons, now) ==> Redeemable(c, now)
  {
  }

  /** The converse fails on the edges: a coupon at its expiry instant, and a coupon whose
      status says expired but whose expiry lies ahead (the sweep has not seen an extension),
      pass the validity check without being listed. */
  lemma RedeemableNotListed(c: Coupon, now: int)
    requires c.expiryDate == now && c.status == Active
    ensures Redeemable(c, now) && !Listed(c, now)
    ensures Redeemable(c.(expiryDate := now + DayMs, status := Expired), now)
    ensures !Listed(c.(expiryDate := now + DayMs, status := Expired), now)
  {
  }

  /** The coupon collection: a sequence in insertion order, where `findOne` takes the first
      match. */
  class CouponStore {
    var coupons: seq<Coupon>

    /** Ids and codes are unique and every discount is within the schema bounds. */
    ghost predicate Valid()
      reads this
    {
      UniqueIds(coupons) && UniqueCodes(coupons)
      && forall i :: 0 <= i < |coupons| ==> ValidPolicy(coupons[i].policy)
    }

    constructor ()
      ensures coupons == [] && Valid()
    {
      coupons := [];
    }

    /** `createCoupon`: 409 when the code exists, otherwise the coupon is appended. */
    method CreateCoupon(newId: CouponId, code: string, policy: DiscountPolicy, expiryDate: int,
                        admin: UserId, now: int)
      returns (r: Result<Coupon, int>)
      requires Valid()
      requires ValidPolicy(policy) && expiryDate > now
      requires forall j :: 0 <= j < |coupons| ==> coupons[j].id != newId
      modifies this
      ensures Valid()
      ensures CodeTaken(old(coupons), code) ==> r == Err(Http.Conflict) && coupons == old(coupons)
      ensures !CodeTaken(old(coupons), code) ==>
        r == Ok(Coupon(newId, code, policy, expiryDate, DefaultCouponStatus, Some(admin), None, None))
        && coupons == old(coupons) + [r.value]
    {
      if FindByCode(coupons, code).Some? {
        return Err(Http.Conflict);
      }
      var c := Coupon(newId, code, policy, expiryDate, DefaultCouponStatus, Some(admin), None, None);
      coupons := coupons + [c];
      return Ok(c);
    }

    /** `updateCoupon`: 404 for a missing coupon, 409 when another coupon has the code;
        otherwise the code, discount and expiry are replaced (the unmatched discount field
        goes), and the status becomes active only when the old expiry has passed and the
        new one lies ahead. */
    method UpdateCoupon(id: CouponId, code: string, policy: DiscountPolicy, expiryDate: int,
                        admin: UserId, now: int)
      returns (r: Result<Coupon, int>)
      requires Valid()
      requires ValidPolicy(policy) && expiryDate > now
      modifies this
      ensures Valid()
      ensures FindById(old(coupons), id).None? ==> r == Err(Http.NotFound) && coupons == old(coupons)
      ensures FindById(old(coupons), id).Some? && CodeTakenByOther(old(coupons), code, id) ==>
        r == Err(Http.Conflict) && coupons == old(coupons)
      ensures FindById(old(coupons), id).Some? && !CodeTakenByOther(old(coupons), code, id) ==>
        var i := FindById(old(coupons), id).value;
        var c := old(coupons)[i];
        r.Ok? && r.value == c.(code := code, policy := policy, expiryDate := expiryDate,
          status := if c.expiryDate < now && expiryDate > now then Active else c.status,
          lastUpdatedBy := Some(admin))
        && coupons == old(coupons)[i := r.value]
    {
      var found := FindById(coupons, id);
      if found.None? {
        return Err(Http.NotFound);
      }
      var i := found.value;
      if FindByCodeExcept(coupons, code, id).Some? {
        return Err(Http.Conflict);
      }
      var c := coupons[i];
      var status := if c.expiryDate < now && expiryDate > now then Active else c.status;
      var updated := c.(code := code, policy := policy, expiryDate := expiryDate, status := status,
        lastUpdatedBy := Some(admin));
      coupons := coupons[i := updated];
      return Ok(updated);
    }

    /** `deleteCoupon`: 404 when absent, otherwise exactly that coupon goes. */
    method DeleteCoupon(id: CouponId) returns (r: Result<CouponId, int>)
      requires Valid()
      modifies this
      ensures Valid()
      ensures FindById(old(coupons), id).None? ==> r == Err(Http.NotFound) && coupons == old(coupons)
      ensures FindById(old(coupons), id).Some? ==>
        var i := FindById(old(coupons), id).value;
        r == Ok(id) && coupons == old(coupons)[..i] + old(coupons)[i + 1..]
      ensures forall c :: c in coupons ==> c in old(coupons) && c.id != id
    {
      var found := FindById(coupons, id);
      if found.None? {
        return Err(Http.NotFound);
      }
      var i := found.value;
      ghost var before := coupons;
      coupons := coupons[..i] + coupons[i + 1..];
      assert forall j :: 0 <= j < |coupons| ==> coupons[j] == (if j < i then before[j] else before[j + 1]);
      return Ok(id);
    }

    /** `activateCoupon`: 404, 403 past the expiry, 409 when already active; otherwise the
        coupon becomes active. */
    method ActivateCoupon(id: CouponId, admin: UserId, now: int) returns (r: Result<Coupon, int>)
      requires Valid()
      modifies this
      ensures Valid()
      ensures FindById(old(coupons), id).None? ==> r == Err(Http.NotFound)
      ensures FindById(old(coupons), id).Some? ==>
        var i := FindById(old(coupons), id).value;
        var c := old(coupons)[i];
        (c.expiryDate < now ==> r == Err(Http.Forbidden))
        && (!(c.expiryDate < now) && c.status == Active ==> r == Err(Http.Conflict))
        && (!(c.expiryDate < now) && c.status != Active ==>
              r == Ok(c.(status := Active, activeStatusLastUpdatedBy := Some(admin)))
              && coupons == old(coupons)[i := r.value])
      ensures r.Err? ==> coupons == old(coupons)
    {
      var found := FindById(coupons, id);
      if found.None? {
        return Err(Http.NotFound);
      }
      var i := found.value;
      var c := coupons[i];
      if c.expiryDate < now {
        return Err(Http.Forbidden);
      }
      if c.status == Active {
        return Err(Http.Conflict);
      }
      var updated := c.(status := Active, activeStatusLastUpdatedBy := Some(admin));
      coupons := coupons[i := updated];
      return Ok(updated);
    }

    /** `deactivateCoupon`: 404, 409 past the expiry, 409 when already inactive; otherwise
        the coupon becomes inactive. */
    method DeactivateCoupon(id: CouponId, admin: UserId, now: int) returns (r: Result<Coupon, int>)
      requires Valid()
      modifies this
      ensures Valid()
      ensures FindById(old(coupons), id).None? ==> r == Err(Http.NotFound)
      ensures FindById(old(coupons), id).Some? ==>
        var i := FindById(old(coupons), id).value;
        var c := old(coupons)[i];
        (c.expiryDate < now ==> r == Err(Http.Conflict))
        && (!(c.expiryDate < now) && c.status == Inactive ==> r == Err(Http.Conflict))
        && (!(c.expiryDate < now) && c.status != Inactive ==>
              r == Ok(c.(status := Inactive, activeStatusLastUpdatedBy := Some(admin)))
              && coupons == old(coupons)[i := r.value])
      ensures r.Err? ==> coupons == old(coupons)
    {
      var found := FindById(coupons, id);
      if found.None? {
        return Err(Http.NotFound);
      }
      var i := found.value;
      var c := coupons[i];
      if c.expiryDate < now {
        return Err(Http.Conflict);
      }
      if c.status == Inactive {
        return Err(Http.Conflict);
      }
      var updated := c.(status := Inactive, activeStatusLastUpdatedBy := Some(admin));
      coupons := coupons[i := updated];
      return Ok(updated);
    }
  }
}
