/**
 * OrderService: the coupon lookup by name.
 *
 * The coupon table is a sequence in the order the by-name query returns its rows (the query
 * has no ORDER BY); the query keeps the rows whose name equals the one asked for, and the
 * first of them is used.
 */
module Orders {
  import opened Wrappers
  import opened ServiceErrors
  import opened FoodOrderingUtil
  import opened Entities

  /** The position of the first coupon with that name in row order; |coupons| if there is none. */
  function FirstCouponIndex(coupons: seq<Coupon>, couponName: string): (i: nat)
    ensures i <= |coupons|
    ensures forall j :: 0 <= j < i ==> coupons[j].couponName != couponName
    ensures i < |coupons| ==> coupons[i].couponName == couponName
  {
    if coupons == [] || coupons[0].couponName == couponName then 0
    else 1 + FirstCouponIndex(coupons[1..], couponName)
  }

  /** The coupon the by-name lookup yields: the first with that name, or null. */
  function CouponByCouponName(coupons: seq<Coupon>, couponName: string): (r: Option<Coupon>)
    ensures r.None? <==> forall i :: 0 <= i < |coupons| ==> coupons[i].couponName != couponName
    ensures r.Some? ==> r.value == coupons[FirstCouponIndex(coupons, couponName)]
  {
    var i := FirstCouponIndex(coupons, couponName);
    if i < |coupons| then Some(coupons[i]) else None
  }

  /**
   * `getCouponByCouponName`: CPF-002 for a null or empty name, without a lookup; CPF-001
   * when no coupon has the name; otherwise the first coupon with it.
   */
  function GetCouponByCouponName(coupons: seq<Coupon>, couponName: Option<string>): (r: Result<Coupon, ServiceError>)
    ensures r == Failure(CPF_002) <==> IsInValid(couponName)
    ensures r == Failure(CPF_001) <==>
      !IsInValid(couponName) && forall i :: 0 <= i < |coupons| ==> coupons[i].couponName != couponName.value
    ensures r.Success? ==> r.value.couponName == couponName.value && r.value in coupons
  {
    if IsInValid(couponName) then Failure(CPF_002)
    else
      match CouponByCouponName(coupons, couponName.value)
      case None => Failure(CPF_001)
      case Some(coupon) => Success(coupon)
  }

  /** Of two coupons sharing a name, the one the query returns first is returned. */
  lemma {:induction false} FirstStoredCouponWins(front: seq<Coupon>, coupon: Coupon, back: seq<Coupon>)
    requires coupon.couponName != ""
    requires forall i :: 0 <= i < |front| ==> front[i].couponName != coupon.couponName
    ensures GetCouponByCouponName(front + [coupon] + back, Some(coupon.couponName)) == Success(coupon)
    decreases |front|
  {
    if front != [] {
      assert (front + [coupon] + back)[1..] == front[1..] + [coupon] + back;
      FirstStoredCouponWins(front[1..], coupon, back);
    }
  }
}
