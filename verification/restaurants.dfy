/**
 * RestaurantService: restaurant lookups and the customer-rating update.
 *
 * The restaurant table is a map keyed by uuid. The two list queries (by name pattern,
 * by category) are named JPQL queries whose text is not part of this model; they are
 * passed in as functions from the query parameter to the rows returned.
 * Ratings are reals: Java's `double` rounding is not modelled.
 */
module Restaurants {
  import opened Wrappers
  import opened ServiceErrors
  import opened FoodOrderingUtil
  import opened Entities

  /** The LIKE pattern `restaurantsByName` queries with: the name between two `%`. */
  function LikeRestaurantName(restaurantName: string): (r: string)
    ensures |r| == |restaurantName| + 2
    ensures r[0] == '%' && r[|r| - 1] == '%'
    ensures r[1..|r| - 1] == restaurantName
  {
    "%" + restaurantName + "%"
  }

  /** `restaurantsByName`: RNF-003 for a null or empty name, otherwise the rows the pattern query returns. */
  function RestaurantsByName(restaurantName: Option<string>, restaurantsLike: string -> seq<Restaurant>)
    : (r: Result<seq<Restaurant>, ServiceError>)
    ensures r.Failure? <==> IsInValid(restaurantName)
    ensures r.Failure? ==> r.error == RNF_003
    ensures r.Success? ==>
      exists pattern :: r.value == restaurantsLike(pattern) && pattern == LikeRestaurantName(restaurantName.value)
  {
    if IsInValid(restaurantName) then Failure(RNF_003)
    else Success(restaurantsLike(LikeRestaurantName(restaurantName.value)))
  }

  /**
   * `restaurantByCategory`: CNF-001 for an empty id and CNF-002 for an unknown category,
   * both before the restaurants are listed.
   */
  function RestaurantByCategory(categoryUuid: Option<string>, categories: map<string, Category>,
                                restaurantsIn: string -> seq<Restaurant>)
    : (r: Result<seq<Restaurant>, ServiceError>)
    ensures r == Failure(CNF_001) <==> IsInValid(categoryUuid)
    ensures r == Failure(CNF_002) <==> !IsInValid(categoryUuid) && categoryUuid.value !in categories
    ensures r.Success? <==> !IsInValid(categoryUuid) && categoryUuid.value in categories
    ensures r.Success? ==> r.value == restaurantsIn(categoryUuid.value)
  {
    if IsInValid(categoryUuid) then Failure(CNF_001)
    else if categoryUuid.value !in categories then Failure(CNF_002)
    else Success(restaurantsIn(categoryUuid.value))
  }

  /** A rating the service accepts: present and within 1 to 5, both ends inclusive. */
  function IsValidRating(customerRating: Option<real>): (r: bool)
    ensures !r <==> customerRating.None? || customerRating.value < 1.0 || customerRating.value > 5.0
  {
    customerRating.Some? && 1.0 <= customerRating.value <= 5.0
  }

  /** The new average after one more rating: (avg * n + rating) / (n + 1). */
  function UpdatedRating(avgRating: real, numberRated: nat, customerRating: real): (r: real)
    ensures r * (numberRated + 1) as real == avgRating * numberRated as real + customerRating
  {
    (avgRating * numberRated as real + customerRating) / (numberRated + 1) as real
  }

  /** The sum of a sequence of ratings. */
  function Sum(ratings: seq<real>): real
  {
    if ratings == [] then 0.0 else Sum(ratings[..|ratings| - 1]) + ratings[|ratings| - 1]
  }

  /** The mean of a non-empty sequence of ratings. */
  function Mean(ratings: seq<real>): real
    requires ratings != []
  {
    Sum(ratings) / |ratings| as real
  }

  /** Ratings within [lo, hi] sum to within [n * lo, n * hi]. */
  lemma {:induction false} SumBounds(ratings: seq<real>, lo: real, hi: real)
    requires forall i :: 0 <= i < |ratings| ==> lo <= ratings[i] <= hi
    ensures |ratings| as real * lo <= Sum(ratings) <= |ratings| as real * hi
  {
    if ratings != [] {
      SumBounds(ratings[..|ratings| - 1], lo, hi);
    }
  }

  /** Dividing out a positive factor keeps bounds: lo * m <= q * m <= hi * m gives lo <= q <= hi. */
  lemma ScaleBounds(q: real, m: real, lo: real, hi: real)
    requires m > 0.0 && lo * m <= q * m <= hi * m
    ensures lo <= q <= hi
  {
  }

  /** Multiplying bounds by a non-negative factor. */
  lemma MulBounds(x: real, m: real, lo: real, hi: real)
    requires m >= 0.0 && lo <= x <= hi
    ensures lo * m <= x * m <= hi * m
  {
  }

  /** The mean of ratings within [1, 5] is within [1, 5]. */
  lemma MeanInRange(ratings: seq<real>)
    requires ratings != []
    requires forall i :: 0 <= i < |ratings| ==> 1.0 <= ratings[i] <= 5.0
    ensures 1.0 <= Mean(ratings) <= 5.0
  {
    SumBounds(ratings, 1.0, 5.0);
    var n := |ratings| as real;
    assert Mean(ratings) * n == Sum(ratings);
    ScaleBounds(Mean(ratings), n, 1.0, 5.0);
  }

  /**
   * The update is a running mean: if the stored average is the mean of the ratings seen
   * so far (and the count is their number), the new average is the mean with one more.
   */
  lemma RunningMean(ratings: seq<real>, avgRating: real, customerRating: real)
    requires ratings == [] || avgRating == Mean(ratings)
    ensures UpdatedRating(avgRating, |ratings|, customerRating) == Mean(ratings + [customerRating])
  {
    var all := ratings + [customerRating];
    assert all[..|all| - 1] == ratings;
    assert Sum(all) == Sum(ratings) + customerRating;
    var n := |ratings| as real;
    if ratings != [] {
      assert avgRating * n == Sum(ratings);
    }
  }

  /** Adding one rating in [1, 5] to a total within [n, 5n] gives a total within [n + 1, 5(n + 1)]. */
  lemma TotalBounds(total: real, n: real, customerRating: real)
    requires n >= 0.0 && n <= total <= 5.0 * n && 1.0 <= customerRating <= 5.0
    ensures 1.0 * (n + 1.0) <= total + customerRating <= 5.0 * (n + 1.0)
  {
  }

  /** An accepted rating keeps the average within [1, 5] when it was there before, or nobody had rated. */
  lemma UpdatedRatingInRange(avgRating: real, numberRated: nat, customerRating: real)
    requires 1.0 <= customerRating <= 5.0
    requires numberRated == 0 || 1.0 <= avgRating <= 5.0
    ensures 1.0 <= UpdatedRating(avgRating, numberRated, customerRating) <= 5.0
  {
    var n := numberRated as real;
    var r := UpdatedRating(avgRating, numberRated, customerRating);
    if numberRated == 0 {
      assert avgRating * n == 0.0;
    } else {
      MulBounds(avgRating, n, 1.0, 5.0);
    }
    assert n >= 0.0;
    assert n <= avgRating * n;
    assert avgRating * n <= 5.0 * n;
    TotalBounds(avgRating * n, n, customerRating);
    assert r * (n + 1.0) == avgRating * n + customerRating;
    ScaleBounds(r, n + 1.0, 1.0, 5.0);
  }

  /** The restaurant after one accepted rating. */
  function Rated(restaurant: Restaurant, customerRating: real): (r: Restaurant)
    ensures r.numberCustomersRated == restaurant.numberCustomersRated + 1
    ensures r == restaurant.(customerRating := r.customerRating, numberCustomersRated := r.numberCustomersRated)
  {
    restaurant.(customerRating := UpdatedRating(restaurant.customerRating, restaurant.numberCustomersRated, customerRating),
                numberCustomersRated := restaurant.numberCustomersRated + 1)
  }

  class RestaurantService {
    /** The restaurant table, keyed by uuid. */
    var restaurants: map<string, Restaurant>

    ghost predicate Valid()
      reads this
    {
      forall uuid :: uuid in restaurants ==> restaurants[uuid].uuid == uuid
    }

    constructor (restaurants: map<string, Restaurant>)
      requires forall uuid :: uuid in restaurants ==> restaurants[uuid].uuid == uuid
      ensures Valid() && this.restaurants == restaurants
    {
      this.restaurants := restaurants;
    }

    /** `restaurantByUUID`: RNF-002 for a null or empty uuid, RNF-001 when no row matches. */
    function RestaurantByUUID(restaurantUuid: Option<string>): (r: Result<Restaurant, ServiceError>)
      reads this
      requires Valid()
      ensures r == Failure(RNF_002) <==> IsInValid(restaurantUuid)
      ensures r == Failure(RNF_001) <==> !IsInValid(restaurantUuid) && restaurantUuid.value !in restaurants
      ensures r.Success? <==> !IsInValid(restaurantUuid) && restaurantUuid.value in restaurants
      ensures r.Success? ==>
        restaurantUuid.Some? && restaurantUuid.value in restaurants && r.value == restaurants[restaurantUuid.value]
        && r.value.uuid == restaurantUuid.value
    {
      if IsInValid(restaurantUuid) then Failure(RNF_002)
      else if restaurantUuid.value in restaurants then Success(restaurants[restaurantUuid.value])
      else Failure(RNF_001)
    }

    /**
     * `updateRestaurantRating`: IRE-001 for a null rating or one outside [1, 5], with
     * nothing stored; otherwise one more rating is averaged in and the row is merged.
     */
    method UpdateRestaurantRating(restaurant: Restaurant, customerRating: Option<real>)
      returns (r: Result<Restaurant, ServiceError>)
      requires Valid()
      modifies this
      ensures Valid()
      ensures !IsValidRating(customerRating) ==> r == Failure(IRE_001) && restaurants == old(restaurants)
      ensures IsValidRating(customerRating) ==>
        && r == Success(Rated(restaurant, customerRating.value))
        && restaurants == old(restaurants)[restaurant.uuid := r.value]
      ensures IsValidRating(customerRating) && (restaurant.numberCustomersRated == 0 || 1.0 <= restaurant.customerRating <= 5.0) ==>
        1.0 <= r.value.customerRating <= 5.0
    {
      if customerRating.Some? && customerRating.value >= 1.0 && customerRating.value <= 5.0 {
        var updated := Rated(restaurant, customerRating.value);
        if restaurant.numberCustomersRated == 0 || 1.0 <= restaurant.customerRating <= 5.0 {
          UpdatedRatingInRange(restaurant.customerRating, restaurant.numberCustomersRated, customerRating.value);
        }
        restaurants := restaurants[restaurant.uuid := updated];
        r := Success(updated);
      } else {
        r := Failure(IRE_001);
      }
    }
  }
}
