/**
 * The service-layer exceptions: each carries a kind (its Java exception class),
 * a stable machine-readable code and a human-readable message.
 */
module ServiceErrors {

  /** The twelve exception classes of the service layer. */
  datatype ErrorKind =
    | SignUpRestricted
    | AuthenticationFailed
    | AuthorizationFailed
    | SaveAddress
    | AddressNotFound
    | UpdateCustomer
    | CouponNotFound
    | CategoryNotFound
    | PaymentMethodNotFound
    | RestaurantNotFound
    | ItemNotFound
    | InvalidRating

  datatype ServiceError = ServiceError(kind: ErrorKind, code: string, message: string)

  // Signup
  const SGR_001 := ServiceError(SignUpRestricted, "SGR-001", "This contact number is already registered! Try other contact number.")
  const SGR_002 := ServiceError(SignUpRestricted, "SGR-002", "Invalid email-id format!")
  const SGR_003 := ServiceError(SignUpRestricted, "SGR-003", "Invalid contact number!")
  const SGR_004 := ServiceError(SignUpRestricted, "SGR-004", "Weak password!")
  const SGR_005 := ServiceError(SignUpRestricted, "SGR-005", "Except last name all fields should be filled")

  // Login
  const ATH_001 := ServiceError(AuthenticationFailed, "ATH-001", "This contact number has not been registered!")
  const ATH_002 := ServiceError(AuthenticationFailed, "ATH-002", "Invalid Credentials")
  const ATH_003 := ServiceError(AuthenticationFailed, "ATH-003", "Incorrect format of decoded customer name and password")

  // Bearer-token authorization
  const ATHR_001 := ServiceError(AuthorizationFailed, "ATHR-001", "Customer is not Logged in.")
  const ATHR_002 := ServiceError(AuthorizationFailed, "ATHR-002", "Customer is logged out. Log in again to access this endpoint.")
  const ATHR_003 := ServiceError(AuthorizationFailed, "ATHR-003", "Your session is expired. Log in again to access this endpoint.")
  const ATHR_004 := ServiceError(AuthorizationFailed, "ATHR-004", "You are not authorized to view/update/delete any one else's address")

  // Customer profile and password updates
  const UCR_001 := ServiceError(UpdateCustomer, "UCR-001", "Weak password!")
  const UCR_002 := ServiceError(UpdateCustomer, "UCR-002", "First name field should not be empty")
  const UCR_003 := ServiceError(UpdateCustomer, "UCR-003", "No field should be empty")
  const UCR_004 := ServiceError(UpdateCustomer, "UCR-004", "Incorrect old password!")

  // Address book
  const SAR_001 := ServiceError(SaveAddress, "SAR-001", "No field can be empty")
  const SAR_002 := ServiceError(SaveAddress, "SAR-002", "Invalid pincode")
  const ANF_002 := ServiceError(AddressNotFound, "ANF-002", "No state by this id")
  const ANF_003 := ServiceError(AddressNotFound, "ANF-003", "No address by this id")
  const ANF_005 := ServiceError(AddressNotFound, "ANF-005", "Address id can not be empty")

  // Catalog
  const RNF_001 := ServiceError(RestaurantNotFound, "RNF-001", "No restaurant by this id")
  const RNF_002 := ServiceError(RestaurantNotFound, "RNF-002", "Restaurant id field should not be empty")
  const RNF_003 := ServiceError(RestaurantNotFound, "RNF-003", "Restaurant name field should not be empty")
  const CNF_001 := ServiceError(CategoryNotFound, "CNF-001", "Category id field should not be empty")
  const CNF_002 := ServiceError(CategoryNotFound, "CNF-002", "No category by this id")
  const IRE_001 := ServiceError(InvalidRating, "IRE-001", "Restaurant should be in the range of 1 to 5")
  const INF_003 := ServiceError(ItemNotFound, "INF-003", "No item by this id exist")

  // Orders and payments
  const CPF_001 := ServiceError(CouponNotFound, "CPF-001", "No coupon by this name")
  const CPF_002 := ServiceError(CouponNotFound, "CPF-002", "Coupon name field should not be empty")
  const PNF_002 := ServiceError(PaymentMethodNotFound, "PNF-002", "No payment method found by this id")
}
