/**
 * The persistent entities the address, restaurant and catalog services work on,
 * reduced to the fields those services read or write. Java's nullable references are
 * `Option`s; integer ids are not modelled, rows are identified by their uuid.
 */
module Entities {
  import opened Wrappers

  datatype State = State(uuid: string, stateName: string)

  /** An address row. `active` is 1 until an order uses the address. */
  datatype Address = Address(
    uuid: string,
    flatBuilNo: Option<string>,
    locality: Option<string>,
    city: Option<string>,
    pincode: Option<string>,
    state: Option<State>,
    active: int)

  datatype ItemType = Veg | NonVeg

  datatype Item = Item(uuid: string, itemName: string, price: int, itemType: ItemType)

  /** A category with the items listed under it. */
  datatype Category = Category(uuid: string, categoryName: string, items: seq<Item>)

  /** A row of the restaurant_category table: a restaurant offers a category. */
  datatype RestaurantCategory = RestaurantCategory(restaurantUuid: string, category: Category)

  /** A restaurant row; `customerRating` is the mean of `numberCustomersRated` ratings. */
  datatype Restaurant = Restaurant(
    uuid: string,
    restaurantName: string,
    photoUrl: string,
    customerRating: real,
    avgPrice: int,
    numberCustomersRated: nat,
    address: Address)

  datatype Coupon = Coupon(uuid: string, couponName: string, percent: int)

  datatype Payment = Payment(uuid: string, paymentName: string)
}
