/**
 * CategoryService: category lookup, the categories a restaurant offers, and the list of
 * all categories ordered by name.
 *
 * The category table is a map keyed by uuid; the rows the restaurant_category query
 * returns for one restaurant are passed in (`None` stands for a null list).
 */
module Categories {
  import opened Wrappers
  import opened ServiceErrors
  import opened FoodOrderingUtil
  import opened Entities

  /** `getCategoryById`: CNF-001 for a null or empty uuid before any lookup, CNF-002 for an unknown one. */
  function GetCategoryById(categories: map<string, Category>, categoryUuid: Option<string>)
    : (r: Result<Category, ServiceError>)
    ensures r == Failure(CNF_001) <==> IsInValid(categoryUuid)
    ensures r == Failure(CNF_002) <==> !IsInValid(categoryUuid) && categoryUuid.value !in categories
    ensures r.Success? <==> !IsInValid(categoryUuid) && categoryUuid.value in categories
    ensures r.Success? ==>
      categoryUuid.Some? && categoryUuid.value in categories && r.value == categories[categoryUuid.value]
  {
    if IsInValid(categoryUuid) then Failure(CNF_001)
    else if categoryUuid.value !in categories then Failure(CNF_002)
    else Success(categories[categoryUuid.value])
  }

  /** The categories of restaurant_category rows, in the rows' order; none for a null list. */
  function LinkedCategories(restaurantCategories: Option<seq<RestaurantCategory>>): (r: seq<Category>)
  {
    match restaurantCategories
    case None => []
    case Some(links) => seq(|links|, k requires 0 <= k < |links| => links[k].category)
  }

  /**
   * `getCategoriesByRestaurant`: the category of each restaurant_category row, in the
   * rows' order; a null list gives an empty one.
   */
  method GetCategoriesByRestaurant(restaurantCategories: Option<seq<RestaurantCategory>>)
    returns (categories: seq<Category>)
    ensures categories == LinkedCategories(restaurantCategories)
    ensures restaurantCategories.None? ==> categories == []
    ensures restaurantCategories.Some? ==>
      && |categories| == |restaurantCategories.value|
      && forall i :: 0 <= i < |categories| ==> categories[i] == restaurantCategories.value[i].category
  {
    categories := [];
    if restaurantCategories.Some? {
      var links := restaurantCategories.value;
      var i := 0;
      while i < |links|
        invariant 0 <= i <= |links|
        invariant |categories| == i
        invariant forall k :: 0 <= k < i ==> categories[k] == links[k].category
      {
        categories := categories + [links[i].category];
        i := i + 1;
      }
    }
  }

  /**
   * The order of category names: lexicographic on characters, a proper prefix first.
   * (The database's collation is not part of this model.)
   */
  predicate NameLe(a: string, b: string)
    decreases |a|
  {
    a == [] || (b != [] && (a[0] < b[0] || (a[0] == b[0] && NameLe(a[1..], b[1..]))))
  }

  lemma {:induction false} NameLeTotal(a: string, b: string)
    ensures NameLe(a, b) || NameLe(b, a)
    decreases |a|
  {
    if a != [] && b != [] && a[0] == b[0] {
      NameLeTotal(a[1..], b[1..]);
    }
  }

  lemma {:induction false} NameLeTransitive(a: string, b: string, c: string)
    requires NameLe(a, b) && NameLe(b, c)
    ensures NameLe(a, c)
    decreases |a|
  {
    if a != [] && a[0] == b[0] && b[0] == c[0] {
      NameLeTransitive(a[1..], b[1..], c[1..]);
    }
  }

  /** Categories in ascending order of name. */
  predicate SortedByName(categories: seq<Category>)
  {
    forall i, j :: 0 <= i < j < |categories| ==> NameLe(categories[i].categoryName, categories[j].categoryName)
  }

  /** Inserts a category into a name-ordered list, before the first one it does not follow. */
  function InsertByName(category: Category, sorted: seq<Category>): (r: seq<Category>)
    requires SortedByName(sorted)
    ensures SortedByName(r)
    ensures multiset(r) == multiset(sorted) + multiset{category}
    ensures forall k :: 0 <= k < |r| ==> r[k] == category || r[k] in sorted
  {
    if sorted == [] then [category]
    else if NameLe(category.categoryName, sorted[0].categoryName) then
      assert forall j :: 0 < j < |sorted| ==> NameLe(sorted[0].categoryName, sorted[j].categoryName);
      LowerBoundTransitive(category, sorted);
      [category] + sorted
    else
      var rest := InsertByName(category, sorted[1..]);
      NameLeTotal(category.categoryName, sorted[0].categoryName);
      assert sorted == [sorted[0]] + sorted[1..];
      FirstPrecedesRest(sorted[0], category, sorted[1..], rest);
      [sorted[0]] + rest
  }

  /** A category that precedes the head of a sorted list precedes all of it. */
  lemma LowerBoundTransitive(category: Category, sorted: seq<Category>)
    requires SortedByName(sorted) && sorted != []
    requires NameLe(category.categoryName, sorted[0].categoryName)
    ensures SortedByName([category] + sorted)
  {
    forall j | 0 <= j < |sorted|
      ensures NameLe(category.categoryName, sorted[j].categoryName)
    {
      if j > 0 {
        NameLeTransitive(category.categoryName, sorted[0].categoryName, sorted[j].categoryName);
      }
    }
  }

  lemma FirstPrecedesRest(first: Category, category: Category, tail: seq<Category>, rest: seq<Category>)
    requires SortedByName([first] + tail) && SortedByName(rest)
    requires NameLe(first.categoryName, category.categoryName)
    requires forall k :: 0 <= k < |rest| ==> rest[k] == category || rest[k] in tail
    ensures SortedByName([first] + rest)
  {
    var all := [first] + tail;
    forall k | 0 <= k < |rest|
      ensures NameLe(first.categoryName, rest[k].categoryName)
    {
      if rest[k] != category {
        var j :| 0 <= j < |tail| && tail[j] == rest[k];
        assert all[0] == first && all[j + 1] == tail[j];
        assert NameLe(all[0].categoryName, all[j + 1].categoryName);
      }
    }
  }

  /**
   * `getAllCategoriesOrderedByName`: the category table listed in ascending name order,
   * every row exactly once.
   */
  function GetAllCategoriesOrderedByName(categories: seq<Category>): (r: seq<Category>)
    ensures SortedByName(r)
    ensures multiset(r) == multiset(categories)
  {
    if categories == [] then []
    else
      assert categories == [categories[0]] + categories[1..];
      InsertByName(categories[0], GetAllCategoriesOrderedByName(categories[1..]))
  }
}
