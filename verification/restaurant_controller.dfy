/**
 * RestaurantController: the restaurant list response (one entry per restaurant, its
 * category names joined into one string), the category and item nesting of the details
 * response, and the order of the checks when a customer rates a restaurant.
 *
 * The restaurant_category rows of a restaurant and the categories the
 * category-and-restaurant query returns are passed in as functions of their query
 * parameters. Response objects are values holding the fields copied from the entities.
 */
module RestaurantController {
  import opened Wrappers
  import opened ServiceErrors
  import opened JavaStrings
  import opened FoodOrderingUtil
  import opened Entities
  import opened Customers
  import opened Restaurants
  import opened Categories
  import opened Items

  /** The separator between category names in a list entry. */
  const CATEGORY_SEPARATOR: string := ", "

  /** One restaurant of the list response. */
  datatype RestaurantList = RestaurantList(
    id: string,
    restaurantName: string,
    address: Address,
    photoUrl: string,
    customerRating: real,
    averagePrice: int,
    numberCustomersRated: nat,
    categories: string)

  /** One item of a category in the details response. */
  datatype ItemList = ItemList(id: string, itemName: string, price: int, itemType: ItemType)

  /** One category of the details response, with its items. */
  datatype CategoryList = CategoryList(id: string, categoryName: string, itemList: seq<ItemList>)

  function CategoryNames(categories: seq<Category>): (names: seq<string>)
  {
    seq(|categories|, k requires 0 <= k < |categories| => categories[k].categoryName)
  }

  /** The list entry of a restaurant whose category names joined to `categories`. */
  function ListEntry(restaurant: Restaurant, categories: string): RestaurantList
  {
    RestaurantList(restaurant.uuid, restaurant.restaurantName, restaurant.address, restaurant.photoUrl,
                   restaurant.customerRating, restaurant.avgPrice, restaurant.numberCustomersRated, categories)
  }

  function ItemEntry(item: Item): ItemList
  {
    ItemList(item.uuid, item.itemName, item.price, item.itemType)
  }

  /** Appending one more part adds a separator and the part. */
  lemma {:induction false} JoinSnoc(parts: seq<string>, part: string, d: string)
    requires |parts| >= 1
    ensures Join(parts + [part], d) == Join(parts, d) + d + part
    decreases |parts|
  {
    var all := parts + [part];
    if |parts| == 1 {
      assert all[1..] == [part];
    } else {
      assert all[1..] == parts[1..] + [part];
      JoinSnoc(parts[1..], part, d);
    }
  }

  /**
   * The categories string of a list entry: each name appended in turn, with ", " after
   * every name but the last.
   */
  method JoinCategoryNames(restaurantCategories: seq<Category>) returns (joined: string)
    ensures joined == Join(CategoryNames(restaurantCategories), CATEGORY_SEPARATOR)
  {
    var names := CategoryNames(restaurantCategories);
    var sb := "";
    var index := 0;
    while index < |restaurantCategories|
      invariant 0 <= index <= |restaurantCategories|
      invariant index == 0 ==> sb == ""
      invariant 0 < index < |restaurantCategories| ==> sb == Join(names[..index], CATEGORY_SEPARATOR) + CATEGORY_SEPARATOR
      invariant 0 < index == |restaurantCategories| ==> sb == Join(names[..index], CATEGORY_SEPARATOR)
    {
      if index > 0 {
        assert names[..index + 1] == names[..index] + [names[index]];
        JoinSnoc(names[..index], names[index], CATEGORY_SEPARATOR);
      } else {
        assert names[..1] == [names[0]];
      }
      sb := sb + restaurantCategories[index].categoryName;
      if index < |restaurantCategories| - 1 {
        sb := sb + CATEGORY_SEPARATOR;
      }
      index := index + 1;
    }
    assert names[..index] == names;
    joined := sb;
  }

  /** Joined names end with the last name. */
  lemma {:induction false} JoinEndsWithLast(parts: seq<string>, d: string)
    requires |parts| >= 1
    ensures |parts[|parts| - 1]| <= |Join(parts, d)|
    ensures Join(parts, d)[|Join(parts, d)| - |parts[|parts| - 1]|..] == parts[|parts| - 1]
    decreases |parts|
  {
    if |parts| > 1 {
      JoinEndsWithLast(parts[1..], d);
      var tail := Join(parts[1..], d);
      assert Join(parts, d) == (parts[0] + d) + tail;
    }
  }

  /**
   * No leading or trailing separator: the categories string of a restaurant with
   * categories starts with the first name and ends with the last; with none it is empty.
   */
  lemma CategoriesStringBoundaries(names: seq<string>)
    ensures names == [] ==> Join(names, CATEGORY_SEPARATOR) == ""
    ensures |names| >= 1 ==>
      var joined := Join(names, CATEGORY_SEPARATOR);
      var last := names[|names| - 1];
      && |names[0]| <= |joined| && joined[..|names[0]|] == names[0]
      && |last| <= |joined| && joined[|joined| - |last|..] == last
  {
    if |names| >= 1 {
      JoinStartsWithHead(names, CATEGORY_SEPARATOR);
      JoinEndsWithLast(names, CATEGORY_SEPARATOR);
    }
  }

  /** Non-empty names without a comma are recovered by splitting the categories string on ", ". */
  lemma CategoriesStringRoundTrip(names: seq<string>)
    requires |names| >= 1
    requires forall k :: 0 <= k < |names| ==> names[k] != ""
    requires forall k, i :: 0 <= k < |names| && 0 <= i < |names[k]| ==> names[k][i] != ','
    ensures Split(Join(names, CATEGORY_SEPARATOR), CATEGORY_SEPARATOR) == names
  {
    var joined := Join(names, CATEGORY_SEPARATOR);
    SplitJoinPlain(names, CATEGORY_SEPARATOR);
    if !Occurs(CATEGORY_SEPARATOR, joined) {
      SplitRawNoOccurrence(joined, CATEGORY_SEPARATOR);
    } else {
      assert names[|names| - 1] != "";
    }
  }

  /**
   * `populateRestaurantList`: no restaurants (null or empty) give an empty list;
   * otherwise one entry per restaurant, in order, each with its category names joined.
   */
  method PopulateRestaurantList(restaurantEntityList: Option<seq<Restaurant>>,
                                categoriesByRestaurant: string -> Option<seq<RestaurantCategory>>)
    returns (restaurantsList: seq<RestaurantList>)
    ensures restaurantEntityList.None? ==> restaurantsList == []
    ensures restaurantEntityList.Some? ==>
      var restaurants := restaurantEntityList.value;
      && |restaurantsList| == |restaurants|
      && forall i :: 0 <= i < |restaurants| ==>
           restaurantsList[i] == ListEntry(restaurants[i],
             Join(CategoryNames(LinkedCategories(categoriesByRestaurant(restaurants[i].uuid))), CATEGORY_SEPARATOR))
  {
    restaurantsList := [];
    if restaurantEntityList.None? || restaurantEntityList.value == [] {
      return;
    }
    var restaurants := restaurantEntityList.value;
    var i := 0;
    while i < |restaurants|
      invariant 0 <= i <= |restaurants|
      invariant |restaurantsList| == i
      invariant forall k :: 0 <= k < i ==>
        restaurantsList[k] == ListEntry(restaurants[k],
          Join(CategoryNames(LinkedCategories(categoriesByRestaurant(restaurants[k].uuid))), CATEGORY_SEPARATOR))
    {
      var restaurantCategories := GetCategoriesByRestaurant(categoriesByRestaurant(restaurants[i].uuid));
      var categories := JoinCategoryNames(restaurantCategories);
      restaurantsList := restaurantsList + [ListEntry(restaurants[i], categories)];
      i := i + 1;
    }
  }

  /**
   * The category part of `populateRestaurantDetailsResponse`: one entry per category of
   * the restaurant, in order, each listing the items of that category and restaurant in order.
   */
  method PopulateRestaurantDetailsResponse(restaurant: Restaurant,
                                           categoriesByRestaurant: string -> Option<seq<RestaurantCategory>>,
                                           categoriesByCategoryAndRestaurant: (string, string) -> seq<Category>)
    returns (categoryLists: seq<CategoryList>)
    ensures
      var categories := LinkedCategories(categoriesByRestaurant(restaurant.uuid));
      && |categoryLists| == |categories|
      && forall k :: 0 <= k < |categories| ==>
           var items := ItemsOf(categoriesByCategoryAndRestaurant(restaurant.uuid, categories[k].uuid));
           && categoryLists[k].id == categories[k].uuid
           && categoryLists[k].categoryName == categories[k].categoryName
           && |categoryLists[k].itemList| == |items|
           && forall j :: 0 <= j < |items| ==> categoryLists[k].itemList[j] == ItemEntry(items[j])
  {
    var restaurantCategories := GetCategoriesByRestaurant(categoriesByRestaurant(restaurant.uuid));
    categoryLists := [];
    var k := 0;
    while k < |restaurantCategories|
      invariant 0 <= k <= |restaurantCategories|
      invariant |categoryLists| == k
      invariant forall c :: 0 <= c < k ==>
        var items := ItemsOf(categoriesByCategoryAndRestaurant(restaurant.uuid, restaurantCategories[c].uuid));
        && categoryLists[c].id == restaurantCategories[c].uuid
        && categoryLists[c].categoryName == restaurantCategories[c].categoryName
        && |categoryLists[c].itemList| == |items|
        && forall j :: 0 <= j < |items| ==> categoryLists[c].itemList[j] == ItemEntry(items[j])
    {
      var category := restaurantCategories[k];
      var itemEntities := GetItemsByCategoryAndRestaurant(categoriesByCategoryAndRestaurant(restaurant.uuid, category.uuid));
      var itemLists: seq<ItemList> := [];
      var j := 0;
      while j < |itemEntities|
        invariant 0 <= j <= |itemEntities|
        invariant |itemLists| == j
        invariant forall m :: 0 <= m < j ==> itemLists[m] == ItemEntry(itemEntities[m])
      {
        itemLists := itemLists + [ItemEntry(itemEntities[j])];
        j := j + 1;
      }
      categoryLists := categoryLists + [CategoryList(category.uuid, category.categoryName, itemLists)];
      k := k + 1;
    }
  }

  /**
   * `updateRestaurantRating`: the bearer token and its session first (ATHR-*), then the
   * restaurant (RNF-002, RNF-001), then the rating (IRE-001); only a request passing all
   * of them changes the restaurant table. On success the response carries the restaurant id.
   */
  method UpdateRestaurantRating(customerService: CustomerService, restaurantService: RestaurantService,
                                authorization: string, restaurantUuid: Option<string>,
                                customerRating: Option<real>, now: int)
    returns (r: Result<string, ServiceError>)
    requires customerService.Valid() && restaurantService.Valid()
    modifies restaurantService
    ensures restaurantService.Valid()
    ensures DecodeBearerToken(authorization).Failure? ==>
      r == Failure(ATHR_001) && restaurantService.restaurants == old(restaurantService.restaurants)
    ensures DecodeBearerToken(authorization).Success? ==>
      var customer := customerService.GetCustomer(Some(DecodeBearerToken(authorization).value), now);
      var found := old(restaurantService.RestaurantByUUID(restaurantUuid));
      && (customer.Failure? ==>
            r == Failure(customer.error) && restaurantService.restaurants == old(restaurantService.restaurants))
      && (customer.Success? && found.Failure? ==>
            r == Failure(found.error) && restaurantService.restaurants == old(restaurantService.restaurants))
      && (customer.Success? && found.Success? && !IsValidRating(customerRating) ==>
            r == Failure(IRE_001) && restaurantService.restaurants == old(restaurantService.restaurants))
      && (customer.Success? && found.Success? && IsValidRating(customerRating) ==>
            && r == Success(restaurantUuid.value)
            && restaurantService.restaurants ==
                 old(restaurantService.restaurants)[restaurantUuid.value := Rated(found.value, customerRating.value)])
  {
    var token := DecodeBearerToken(authorization);
    if token.Failure? {
      return Failure(token.error);
    }
    var customer := customerService.GetCustomer(Some(token.value), now);
    if customer.Failure? {
      return Failure(customer.error);
    }
    var restaurantEntity := restaurantService.RestaurantByUUID(restaurantUuid);
    if restaurantEntity.Failure? {
      return Failure(restaurantEntity.error);
    }
    var updated := restaurantService.UpdateRestaurantRating(restaurantEntity.value, customerRating);
    if updated.Failure? {
      return Failure(updated.error);
    }
    r := Success(restaurantUuid.value);
  }
}
