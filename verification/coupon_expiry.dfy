/** The scheduled job of checkCouponExpiry.js: one `updateMany` that marks every coupon past
    its expiry as expired. */
module CouponExpiry {
  import opened Constants
  import opened Coupons

  /** The filter of the sweep: past the expiry instant and not yet marked expired. */
  predicate Stale(c: Coupon, now: int) {
    c.expiryDate < now && c.status != Expired
  }

  /** What the sweep does to one coupon. */
  function Sweep(c: Coupon, now: int): (r: Coupon)
    ensures Stale(c, now) ==> r == c.(status := Expired)
    ensures !Stale(c, now) ==> r == c
  {
    if Stale(c, now) then c.(status := Expired) else c
  }

  /** The collection after the sweep. */
  function Swept(coupons: seq<Coupon>, now: int): (r: seq<Coupon>)
    ensures |r| == |coupons|
    ensures forall i :: 0 <= i < |r| ==> r[i] == Sweep(coupons[i], now)
  {
    seq(|coupons|, i requires 0 <= i < |coupons| => Sweep(coupons[i], now))
  }

  /** `checkCouponExpiry`, the `updateMany` as a loop over the collection. */
  method CheckCouponExpiry(store: CouponStore, now: int)
    requires store.Valid()
    modifies store
    ensures store.Valid()
    ensures store.coupons == Swept(old(store.coupons), now)
  {
    var i := 0;
    while i < |store.coupons|
      invariant 0 <= i <= |store.coupons| == |old(store.coupons)|
      invariant forall k :: 0 <= k < i ==> store.coupons[k] == Sweep(old(store.coupons)[k], now)
      invariant forall k :: i <= k < |store.coupons| ==> store.coupons[k] == old(store.coupons)[k]
      invariant store.Valid()
    {
      var c := store.coupons[i];
      if c.expiryDate < now && c.status != Expired {
        store.coupons := store.coupons[i := c.(status := Expired)];
      }
      i := i + 1;
    }
  }

  /** Only the status changes, and only for stale coupons; everything else is untouched. */
  lemma SweptChangesOnlyStatus(coupons: seq<Coupon>, now: int)
    ensures forall i :: 0 <= i < |coupons| ==> Swept(coupons, now)[i].(status := coupons[i].status) == coupons[i]
    ensures forall i :: 0 <= i < |coupons| && !Stale(coupons[i], now) ==> Swept(coupons, now)[i] == coupons[i]
    ensures forall i :: 0 <= i < |coupons| && Stale(coupons[i], now) ==> Swept(coupons, now)[i].status == Expired
  {
  }

  /** After a sweep no coupon past its expiry is active or inactive. */
  lemma SweptLeavesNoStale(coupons: seq<Coupon>, now: int)
    ensures forall i :: 0 <= i < |Swept(coupons, now)| ==> !Stale(Swept(coupons, now)[i], now)
    ensures forall c :: c in Swept(coupons, now) && c.expiryDate < now ==> c.status == Expired
  {
  }

  /** A second sweep at the same instant changes nothing. */
  lemma SweptIdempotent(coupons: seq<Coupon>, now: int)
    ensures Swept(Swept(coupons, now), now) == Swept(coupons, now)
  {
  }

  /** A sweep at a later instant subsumes an earlier one. */
  lemma SweptLater(coupons: seq<Coupon>, t1: int, t2: int)
    requires t1 <= t2
    ensures Swept(Swept(coupons, t1), t2) == Swept(coupons, t2)
  {
  }

  /** A swept coupon past its expiry can no longer be redeemed by the order validator's
      standard, nor listed. */
  lemma SweptPastExpiryUnusable(coupons: seq<Coupon>, now: int, later: int)
    requires now <= later
    ensures forall c :: c in Swept(coupons, now) && c.expiryDate < now ==>
      !Redeemable(c, later) && !Listed(c, later)
  {
  }
}
