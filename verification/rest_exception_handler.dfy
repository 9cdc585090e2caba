/**
 * RestExceptionHandler: every service exception becomes an error response with a fixed
 * HTTP status for its class, carrying the exception's code and message unchanged.
 */
module RestExceptionHandler {
  import opened Wrappers
  import opened ServiceErrors
  import opened FoodOrderingUtil
  import opened Customers
  import opened Addresses
  import opened Restaurants
  import opened Categories
  import opened Items
  import opened Orders
  import opened Payments
  import opened Entities

  const BAD_REQUEST: int := 400
  const UNAUTHORIZED: int := 401
  const FORBIDDEN: int := 403
  const NOT_FOUND: int := 404

  /** The body and status of an error response. */
  datatype ErrorResponse = ErrorResponse(status: int, code: string, message: string)

  /** The validation failures: signup, address and customer-update input, and ratings. */
  predicate IsBadRequest(kind: ErrorKind)
  {
    kind in {SignUpRestricted, SaveAddress, UpdateCustomer, InvalidRating}
  }

  /** The lookups that found nothing. */
  predicate IsNotFound(kind: ErrorKind)
  {
    kind in {AddressNotFound, CouponNotFound, CategoryNotFound, PaymentMethodNotFound, RestaurantNotFound, ItemNotFound}
  }

  /** The status each handler answers with. */
  function StatusOf(kind: ErrorKind): (status: int)
    ensures status == BAD_REQUEST <==> IsBadRequest(kind)
    ensures status == UNAUTHORIZED <==> kind == AuthenticationFailed
    ensures status == FORBIDDEN <==> kind == AuthorizationFailed
    ensures status == NOT_FOUND <==> IsNotFound(kind)
    ensures status in {BAD_REQUEST, UNAUTHORIZED, FORBIDDEN, NOT_FOUND}
  {
    match kind
    case SignUpRestricted => BAD_REQUEST
    case AuthenticationFailed => UNAUTHORIZED
    case AuthorizationFailed => FORBIDDEN
    case SaveAddress => BAD_REQUEST
    case AddressNotFound => NOT_FOUND
    case UpdateCustomer => BAD_REQUEST
    case CouponNotFound => NOT_FOUND
    case CategoryNotFound => NOT_FOUND
    case PaymentMethodNotFound => NOT_FOUND
    case RestaurantNotFound => NOT_FOUND
    case ItemNotFound => NOT_FOUND
    case InvalidRating => BAD_REQUEST
  }

  /** The handler for an exception: its class's status, its code and message as they are. */
  function Handle(error: ServiceError): (r: ErrorResponse)
    ensures r.code == error.code && r.message == error.message
    ensures r.status == StatusOf(error.kind)
  {
    ErrorResponse(StatusOf(error.kind), error.code, error.message)
  }

  /** A rejected bearer header or session is answered with 403 Forbidden. */
  lemma SessionFailuresForbidden(sessions: map<string, CustomerAuth>, authorization: string, now: int)
    ensures DecodeBearerToken(authorization).Failure? ==> Handle(DecodeBearerToken(authorization).error).status == FORBIDDEN
    ensures DecodeBearerToken(authorization).Success? ==>
      var check := ValidateCustomerAuthorization(sessions, Some(DecodeBearerToken(authorization).value), now);
      check.Failure? ==> Handle(check.error).status == FORBIDDEN
  {
  }

  /** A failed login is answered with 401 Unauthorized. */
  lemma LoginFailuresUnauthorized(customers: seq<Customer>, contactNumber: Option<string>, password: Option<string>,
                                  hash: (string, string) -> string)
    ensures AuthenticateCheck(customers, contactNumber, password, hash).Failure? ==>
      Handle(AuthenticateCheck(customers, contactNumber, password, hash).error).status == UNAUTHORIZED
  {
  }

  /** A refused signup or address is answered with 400 Bad Request. */
  lemma InputFailuresBadRequest(customers: seq<Customer>, customer: Customer, address: Address)
    ensures SignupCheck(customers, customer).Some? ==> Handle(SignupCheck(customers, customer).value).status == BAD_REQUEST
    ensures SaveAddressCheck(address).Some? ==> Handle(SaveAddressCheck(address).value).status == BAD_REQUEST
  {
  }

  /** The catalog lookups that fail are answered with 404 Not Found. */
  lemma LookupFailuresNotFound(categories: map<string, Category>, categoryUuid: Option<string>,
                               items: map<string, Item>, itemId: Option<string>,
                               coupons: seq<Coupon>, couponName: Option<string>,
                               payments: seq<Payment>, paymentUuid: Option<string>)
    ensures GetCategoryById(categories, categoryUuid).Failure? ==>
      Handle(GetCategoryById(categories, categoryUuid).error).status == NOT_FOUND
    ensures GetItemByUUID(items, itemId).Failure? ==> Handle(GetItemByUUID(items, itemId).error).status == NOT_FOUND
    ensures GetCouponByCouponName(coupons, couponName).Failure? ==>
      Handle(GetCouponByCouponName(coupons, couponName).error).status == NOT_FOUND
    ensures GetPaymentByUUID(payments, paymentUuid).Failure? ==>
      Handle(GetPaymentByUUID(payments, paymentUuid).error).status == NOT_FOUND
  {
  }
}
