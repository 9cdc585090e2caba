/**
 * ItemService: item lookup, the popular items of a restaurant, and the items of a
 * restaurant's category.
 *
 * The item table is a map keyed by uuid. The rows of the two list queries are passed
 * in: the popularity query's rows in popularity order, and the categories the
 * category-and-restaurant query returns.
 */
module Items {
  import opened Wrappers
  import opened ServiceErrors
  import opened Entities

  /** The most rows the popularity query returns. */
  const MAX_POPULAR_ITEMS: nat := 5

  /** `getItemByUUID`: INF-003 for a null id or one no item has; otherwise the stored item. */
  function GetItemByUUID(items: map<string, Item>, itemId: Option<string>): (r: Result<Item, ServiceError>)
    ensures r.Success? <==> itemId.Some? && itemId.value in items
    ensures r.Success? ==> r.value == items[itemId.value]
    ensures r.Failure? ==> r.error == INF_003
  {
    if itemId.Some? && itemId.value in items then Success(items[itemId.value])
    else Failure(INF_003)
  }

  /** `getItemsByPopularity`: the first five rows of the popularity query, or all of them if fewer. */
  function GetItemsByPopularity(byPopularity: seq<Item>): (r: seq<Item>)
    ensures |r| <= MAX_POPULAR_ITEMS
    ensures |r| <= |byPopularity| && r == byPopularity[..|r|]
    ensures |byPopularity| <= MAX_POPULAR_ITEMS ==> r == byPopularity
    ensures |byPopularity| > MAX_POPULAR_ITEMS ==> |r| == MAX_POPULAR_ITEMS
  {
    if |byPopularity| <= MAX_POPULAR_ITEMS then byPopularity else byPopularity[..MAX_POPULAR_ITEMS]
  }

  /** The items of a list of categories: each category's items, in category order then item order. */
  function ItemsOf(categories: seq<Category>): seq<Item>
  {
    if categories == [] then []
    else ItemsOf(categories[..|categories| - 1]) + categories[|categories| - 1].items
  }

  /** The total number of items listed under the categories. */
  function ItemCount(categories: seq<Category>): nat
  {
    if categories == [] then 0 else |categories[0].items| + ItemCount(categories[1..])
  }

  /** ItemsOf distributes over concatenation. */
  lemma {:induction false} ItemsOfAppend(front: seq<Category>, back: seq<Category>)
    ensures ItemsOf(front + back) == ItemsOf(front) + ItemsOf(back)
    decreases |back|
  {
    if back != [] {
      var all := front + back;
      assert all[..|all| - 1] == front + back[..|back| - 1];
      assert all[|all| - 1] == back[|back| - 1];
      ItemsOfAppend(front, back[..|back| - 1]);
      assert ItemsOf(all) == ItemsOf(front) + ItemsOf(back[..|back| - 1]) + back[|back| - 1].items;
    } else {
      assert front + back == front;
    }
  }

  /** Nothing is dropped or merged: the length is the sum of the item-list lengths. */
  lemma {:induction false} ItemsOfLength(categories: seq<Category>)
    ensures |ItemsOf(categories)| == ItemCount(categories)
  {
    if categories != [] {
      assert categories == [categories[0]] + categories[1..];
      ItemsOfAppend([categories[0]], categories[1..]);
      assert [categories[0]][..0] == [];
      ItemsOfLength(categories[1..]);
    }
  }

  /** An item is listed exactly when some category lists it. */
  lemma {:induction false} ItemsOfMembership(categories: seq<Category>, item: Item)
    ensures item in ItemsOf(categories) <==> exists c :: 0 <= c < |categories| && item in categories[c].items
  {
    if categories != [] {
      var front := categories[..|categories| - 1];
      ItemsOfMembership(front, item);
      if item in ItemsOf(categories) && item !in categories[|categories| - 1].items {
        var c :| 0 <= c < |front| && item in front[c].items;
        assert categories[c] == front[c];
      }
    }
  }

  /**
   * `getItemsByCategoryAndRestaurant`: walks the categories and, within each, its items,
   * appending every item.
   */
  method GetItemsByCategoryAndRestaurant(categoryEntities: seq<Category>) returns (itemEntities: seq<Item>)
    ensures itemEntities == ItemsOf(categoryEntities)
  {
    itemEntities := [];
    var c := 0;
    while c < |categoryEntities|
      invariant 0 <= c <= |categoryEntities|
      invariant itemEntities == ItemsOf(categoryEntities[..c])
    {
      var items := categoryEntities[c].items;
      var i := 0;
      while i < |items|
        invariant 0 <= i <= |items|
        invariant itemEntities == ItemsOf(categoryEntities[..c]) + items[..i]
      {
        itemEntities := itemEntities + [items[i]];
        assert items[..i + 1] == items[..i] + [items[i]];
        i := i + 1;
      }
      assert items[..i] == items;
      assert categoryEntities[..c + 1][..c] == categoryEntities[..c];
      c := c + 1;
    }
    assert categoryEntities[..c] == categoryEntities;
  }
}
