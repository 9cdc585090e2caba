# FoodOrderingApp services in Dafny

This project models the business core of the FoodOrderingApp backend, a Spring Boot REST
service where customers sign up, log in with a `Basic` header, hold an eight-hour session
addressed by a `Bearer` access token, keep delivery addresses, browse restaurants, their
categories and items, rate restaurants, and look up coupons and payment methods.

What is modelled:

- **Customers** (`customers.dfy`). `CustomerService` is a class. Its customer table is a
  sequence indexed by customer id, its session table (customer_auth) is a map keyed by
  access token, and the password hash is a fixed function `hash(plaintext, salt)`. Signup
  runs its checks in order: email (SGR-002), contact number (SGR-003), password strength
  (SGR-004), then a duplicate contact (SGR-001). Login runs ATH-003, ATH-001, ATH-002 in
  that order and opens a session lasting exactly `EIGHT_HOURS_IN_MILLIS`. Session checks
  run ATHR-001, ATHR-002, ATHR-003 in that order. Logout, profile update and password
  change are modelled as well.
- **Request validation** (`food_ordering_util.dfy`). The regular expressions of
  `FoodOrderingUtil` are each a character scan, with a contract saying which strings
  `matches()` accepts. For email this is a small automaton proved equal to the
  `local@domain` dotted-atom grammar. The `Bearer` header decoder is modelled too.
- **Header decoding.** `java_strings.dfy` models Java's `String.split` with a literal
  delimiter, including the dropping of trailing empty strings. `base64.dfy` models the
  basic Base64 decoder, with encoding as its inverse. `customer_controller.dfy` holds the
  login header decoder and the controller-level checks of the customer endpoints.
- **Addresses** (`addresses.dfy`). `AddressService` is a class over the address,
  customer_address and state tables. It models saving an address, ownership-checked
  lookup, and deletion of active addresses.
- **Restaurants** (`restaurants.dfy`). `RestaurantService` is a class over the restaurant
  table. It models lookups by uuid, name pattern and category, and the running-mean
  rating update. The rating is proved to be a running mean and to stay within 1 to 5.
- **Catalog, orders and payments.** `categories.dfy`, `items.dfy`, `orders.dfy` and
  `payments.dfy` hold the read-only services. The loops that collect categories and
  items are methods proved equal to specification functions. The name-ordered category
  listing is proved sorted and a permutation.
- **Restaurant responses and ratings** (`restaurant_controller.dfy`). It models the
  restaurant list response, where category names are joined with `", "` (proved to split
  back into the names), and the category/item nesting of the details response. It also
  models the order of checks when a customer rates a restaurant: token, session,
  restaurant, rating.
- **Error responses** (`rest_exception_handler.dfy`). This maps every service error to
  its HTTP status.

Time is an integer number of milliseconds passed in by the caller. Generated UUIDs,
salts and access tokens are parameters. Database queries are maps, sequences, or
functions from the query parameter to the rows returned. Java `null` is `Option.None`.

When login's `Basic` payload decodes to a single piece (for example `contact:` or `contact`),
the controller's guard (`length < 1`) lets it through. The read of the second piece then
fails outside the handler that maps decoding errors to ATH-003. This outcome is kept as
its own result (`IndexOutOfBounds` / `LoginCrashed`) rather than folded into ATH-003.

## Model

| member | source | states |
|---|---|---|
| JavaStrings.SplitRaw | FoodOrderingApp-service/src/main/java/com/upgrad/FoodOrderingApp/service/util/FoodOrderingUtil.java:79 | cutting at every occurrence of the delimiter leaves at least one piece; JoinSplitRaw and SplitRawPiecesAvoid relate the pieces to the input |
| JavaStrings.Split | FoodOrderingApp-api/src/main/java/com/upgrad/FoodOrderingApp/api/controller/CustomerController.java:196 | no occurrence gives the string alone; otherwise the raw pieces with only empty trailing ones dropped, the last kept piece non-empty |
| JavaStrings.DropTrailingEmpty | FoodOrderingApp-api/src/main/java/com/upgrad/FoodOrderingApp/api/controller/CustomerController.java:196 | the result is a prefix of the pieces that ends in a non-empty piece, and only empty pieces are dropped |
| JavaStrings.JoinSplitRaw | FoodOrderingApp-service/src/main/java/com/upgrad/FoodOrderingApp/service/util/FoodOrderingUtil.java:79 | splitting loses nothing: joining the pieces with the delimiter gives back the original string |
| JavaStrings.SplitRawLatePrefix | FoodOrderingApp-service/src/main/java/com/upgrad/FoodOrderingApp/service/util/FoodOrderingUtil.java:79 | text in which no occurrence of the delimiter starts joins the first piece |
| JavaStrings.FirstOccurrenceAppended | FoodOrderingApp-service/src/main/java/com/upgrad/FoodOrderingApp/service/util/FoodOrderingUtil.java:79 | for a delimiter whose first character does not recur, as with `Bearer ` and `Basic `, a delimiter-free text followed by the delimiter has its first occurrence at that copy |
| JavaStrings.SplitRawPiecesAvoid | FoodOrderingApp-service/src/main/java/com/upgrad/FoodOrderingApp/service/util/FoodOrderingUtil.java:79 | no piece of a split contains the delimiter |
| JavaStrings.SplitRawNoOccurrence | FoodOrderingApp-service/src/main/java/com/upgrad/FoodOrderingApp/service/util/FoodOrderingUtil.java:79 | a string without the delimiter splits into itself alone |
| JavaStrings.SplitRawDelimiterFirst | FoodOrderingApp-service/src/main/java/com/upgrad/FoodOrderingApp/service/util/FoodOrderingUtil.java:79 | a leading delimiter yields a leading empty piece |
| JavaStrings.SplitWithoutDelimiter | FoodOrderingApp-api/src/main/java/com/upgrad/FoodOrderingApp/api/controller/CustomerController.java:196 | `split` of a delimiter-free string, empty pieces dropped included, is that string alone |
| JavaStrings.SplitJoinPlain | FoodOrderingApp-api/src/main/java/com/upgrad/FoodOrderingApp/api/controller/CustomerController.java:196 | splitting the join of pieces none of which contains the delimiter's first character gives the pieces back |
| Base64.Encode | FoodOrderingApp-api/src/main/java/com/upgrad/FoodOrderingApp/api/controller/CustomerController.java:194 | the encoding has 4 characters per started 3-byte group, all from the alphabet or `=` |
| Base64.DecodeEncode | FoodOrderingApp-api/src/main/java/com/upgrad/FoodOrderingApp/api/controller/CustomerController.java:194 | round trip: decoding the padded encoding of any bytes gives those bytes |
| Base64.DecodeRejectsForeignChar | FoodOrderingApp-api/src/main/java/com/upgrad/FoodOrderingApp/api/controller/CustomerController.java:194 | a character outside the alphabet and `=` makes decoding fail |
| Base64.Decode | FoodOrderingApp-api/src/main/java/com/upgrad/FoodOrderingApp/api/controller/CustomerController.java:194 | a decoded payload uses only alphabet characters and `=` |
| Base64.DecodeLength | FoodOrderingApp-api/src/main/java/com/upgrad/FoodOrderingApp/api/controller/CustomerController.java:194 | three bytes per four characters, n - 1 for a final unit of n, at most two fewer for padding |
| Base64.DecodeRejectsDanglingChar | FoodOrderingApp-api/src/main/java/com/upgrad/FoodOrderingApp/api/controller/CustomerController.java:194 | a payload ending in a one-character unit is not Base64 |
| Base64.BytesToText | FoodOrderingApp-api/src/main/java/com/upgrad/FoodOrderingApp/api/controller/CustomerController.java:195 | each byte becomes the character with that code, one for one |
| Base64.TextBytesRoundTrip | FoodOrderingApp-api/src/main/java/com/upgrad/FoodOrderingApp/api/controller/CustomerController.java:195 | text of Latin-1 characters survives conversion to bytes and back |
| FoodOrderingUtil.IsInValid | FoodOrderingApp-service/src/main/java/com/upgrad/FoodOrderingApp/service/util/FoodOrderingUtil.java:20-22 | a value is valid exactly when it is present and has at least one character |
| FoodOrderingUtil.EightHoursInMillis | FoodOrderingApp-service/src/main/java/com/upgrad/FoodOrderingApp/service/util/FoodOrderingUtil.java:11 | the session length is 28,800,000 ms |
| FoodOrderingUtil.IsInValidContactNumber | FoodOrderingApp-service/src/main/java/com/upgrad/FoodOrderingApp/service/util/FoodOrderingUtil.java:43-47 | valid exactly when the number is ten ASCII digits |
| FoodOrderingUtil.IsInvalidPinCode | FoodOrderingApp-service/src/main/java/com/upgrad/FoodOrderingApp/service/util/FoodOrderingUtil.java:99-105 | valid exactly when the pin code is six ASCII digits |
| FoodOrderingUtil.IsStrongPassword | FoodOrderingApp-service/src/main/java/com/upgrad/FoodOrderingApp/service/util/FoodOrderingUtil.java:58-67 | strong exactly when the password has an upper-case letter, a digit and one of `#@$%&*!^`, and no line terminator |
| FoodOrderingUtil.StrongPasswordAccepted | FoodOrderingApp-service/src/main/java/com/upgrad/FoodOrderingApp/service/util/FoodOrderingUtil.java:58-67 | `Strong1!` is accepted |
| FoodOrderingUtil.ShortPasswordAccepted | FoodOrderingApp-service/src/main/java/com/upgrad/FoodOrderingApp/service/util/FoodOrderingUtil.java:58-67 | the six-character `Weak1!` is accepted: the expression sets no minimum length |
| FoodOrderingUtil.PasswordWithoutSpecialRejected | FoodOrderingApp-service/src/main/java/com/upgrad/FoodOrderingApp/service/util/FoodOrderingUtil.java:58-67 | a password without a special character is rejected |
| FoodOrderingUtil.PasswordWithLineBreakRejected | FoodOrderingApp-service/src/main/java/com/upgrad/FoodOrderingApp/service/util/FoodOrderingUtil.java:58-67 | a password containing a line break is rejected |
| FoodOrderingUtil.IsInValidEmail | FoodOrderingApp-service/src/main/java/com/upgrad/FoodOrderingApp/service/util/FoodOrderingUtil.java:30-35 | the email is valid exactly when it is a dotted local part, `@`, and a dotted domain |
| FoodOrderingUtil.EmailMatcherCorrect | FoodOrderingApp-service/src/main/java/com/upgrad/FoodOrderingApp/service/util/FoodOrderingUtil.java:30-35 | the character scan ends accepting exactly on the strings the grammar describes |
| FoodOrderingUtil.DomainStartAccepts | FoodOrderingApp-service/src/main/java/com/upgrad/FoodOrderingApp/service/util/FoodOrderingUtil.java:30-35 | from the domain start, the scan accepts exactly the dotted domains |
| FoodOrderingUtil.LocalAtomAccepts | FoodOrderingApp-service/src/main/java/com/upgrad/FoodOrderingApp/service/util/FoodOrderingUtil.java:30-35 | inside a local atom, the scan accepts exactly the rest of an address |
| FoodOrderingUtil.DeadStaysDead | FoodOrderingApp-service/src/main/java/com/upgrad/FoodOrderingApp/service/util/FoodOrderingUtil.java:30-35 | once rejected, no suffix makes the scan accept |
| FoodOrderingUtil.EmailAccepted | FoodOrderingApp-service/src/main/java/com/upgrad/FoodOrderingApp/service/util/FoodOrderingUtil.java:30-35 | `ab@cd.com` is valid |
| FoodOrderingUtil.EmailWithoutAtRejected | FoodOrderingApp-service/src/main/java/com/upgrad/FoodOrderingApp/service/util/FoodOrderingUtil.java:30-35 | an email with no `@` is invalid |
| FoodOrderingUtil.EmailHasOneAt | FoodOrderingApp-service/src/main/java/com/upgrad/FoodOrderingApp/service/util/FoodOrderingUtil.java:30-35 | in a valid email, every `@` splits it into a dotted local part and a dotted domain, so there is only one |
| FoodOrderingUtil.EmailWithEmptyLabelRejected | FoodOrderingApp-service/src/main/java/com/upgrad/FoodOrderingApp/service/util/FoodOrderingUtil.java:30-35 | a dot right after or right before the `@` makes the email invalid |
| FoodOrderingUtil.DecodeBearerToken | FoodOrderingApp-service/src/main/java/com/upgrad/FoodOrderingApp/service/util/FoodOrderingUtil.java:77-89 | every failure is ATHR-001 |
| FoodOrderingUtil.DecodeBearerRoundTrip | FoodOrderingApp-service/src/main/java/com/upgrad/FoodOrderingApp/service/util/FoodOrderingUtil.java:77-89 | round trip: `Bearer ` + token decodes to the token |
| FoodOrderingUtil.DecodeBearerUnanchored | FoodOrderingApp-service/src/main/java/com/upgrad/FoodOrderingApp/service/util/FoodOrderingUtil.java:79-83 | text before the first `Bearer ` is ignored: the prefix is not anchored |
| FoodOrderingUtil.DecodeBearerMissingPrefix | FoodOrderingApp-service/src/main/java/com/upgrad/FoodOrderingApp/service/util/FoodOrderingUtil.java:79-86 | a header without `Bearer ` fails with ATHR-001 |
| FoodOrderingUtil.DecodeBearerNothingAfter | FoodOrderingApp-service/src/main/java/com/upgrad/FoodOrderingApp/service/util/FoodOrderingUtil.java:79-86 | a header whose only `Bearer ` is at its very end fails with ATHR-001, because the trailing empty piece is dropped |
| FoodOrderingUtil.DecodeBearerDoubledPrefix | FoodOrderingApp-service/src/main/java/com/upgrad/FoodOrderingApp/service/util/FoodOrderingUtil.java:79-83 | `Bearer Bearer t` decodes to the empty token |
| FoodOrderingUtil.DecodeBearerShape | FoodOrderingApp-service/src/main/java/com/upgrad/FoodOrderingApp/service/util/FoodOrderingUtil.java:77-89 | a decoded token is exactly the text between the first `Bearer ` and the next one or the end |
| Customers.FindByContact | FoodOrderingApp-service/src/main/java/com/upgrad/FoodOrderingApp/service/dao/CustomerDao.java:34-41 | the result is a row with that contact number, and there is none exactly when no row has it |
| Customers.FindByContactUnique | FoodOrderingApp-service/src/main/java/com/upgrad/FoodOrderingApp/service/dao/CustomerDao.java:34-41 | with unique contact numbers, the lookup finds the one row holding the number |
| Customers.SignupCheck | FoodOrderingApp-service/src/main/java/com/upgrad/FoodOrderingApp/service/business/CustomerService.java:40-62 | each of SGR-002, SGR-003, SGR-004 and SGR-001 holds exactly when its check fails and every earlier check passes; passing means all four pass |
| Customers.Registered | FoodOrderingApp-service/src/main/java/com/upgrad/FoodOrderingApp/service/business/CustomerService.java:62-69 | the stored row has the next id, the contact number, the salt, and the salted hash of the password |
| Customers.IsUserSessionValid | FoodOrderingApp-service/src/main/java/com/upgrad/FoodOrderingApp/service/business/CustomerService.java:230-239 | valid exactly when the expiry is set and lies within `[now, now + 8h]` |
| Customers.ValidateCustomerAuthorization | FoodOrderingApp-service/src/main/java/com/upgrad/FoodOrderingApp/service/business/CustomerService.java:200-221 | ATHR-001 for a missing or unknown token, ATHR-002 for a logged-out session, ATHR-003 for an expired one, each exactly; success exactly for a known, not logged-out, unexpired session, which is returned |
| Customers.NewSession | FoodOrderingApp-service/src/main/java/com/upgrad/FoodOrderingApp/service/business/CustomerService.java:101-110 | the new session logs in at `now`, expires eight hours later, is not logged out, and belongs to the customer |
| Customers.NewSessionWindow | FoodOrderingApp-service/src/main/java/com/upgrad/FoodOrderingApp/service/business/CustomerService.java:200-239 | a fresh session validates at time t exactly when t is within eight hours after login, ends included; otherwise ATHR-003 |
| Customers.NewSessionBoundaries | FoodOrderingApp-service/src/main/java/com/upgrad/FoodOrderingApp/service/business/CustomerService.java:230-239 | the session is valid at login and at exactly eight hours, and ATHR-003 one millisecond after, and one millisecond before login |
| Customers.LoggedOutBeforeExpired | FoodOrderingApp-service/src/main/java/com/upgrad/FoodOrderingApp/service/business/CustomerService.java:208-215 | a session both logged out and expired reports ATHR-002: the logout check comes first |
| Customers.LoggedOut | FoodOrderingApp-service/src/main/java/com/upgrad/FoodOrderingApp/service/business/CustomerService.java:127-133 | logout sets `logoutAt` on that session and changes no other |
| Customers.LogoutIsFinal | FoodOrderingApp-service/src/main/java/com/upgrad/FoodOrderingApp/service/business/CustomerService.java:127-133 | after logout the token fails with ATHR-002 at every time, and every other token validates as before |
| Customers.AuthenticateCheck | FoodOrderingApp-service/src/main/java/com/upgrad/FoodOrderingApp/service/business/CustomerService.java:85-116 | ATH-003 exactly for a missing field and ATH-001 exactly for an unknown contact; success exactly when the row FindByContact returns has a matching salted hash, and then it is that row (the only one with that contact when contacts are unique, as the source's single-result query demands); no other error |
| Customers.MatchingPasswordAccepted | FoodOrderingApp-service/src/main/java/com/upgrad/FoodOrderingApp/service/business/CustomerService.java:85-116 | with unique contact numbers, a stored contact with a password whose salted hash matches logs in as that customer |
| Customers.WrongPasswordRejected | FoodOrderingApp-service/src/main/java/com/upgrad/FoodOrderingApp/service/business/CustomerService.java:85-116 | a stored contact with a password whose hash does not match is ATH-002 |
| Customers.SignupThenLogin | FoodOrderingApp-service/src/main/java/com/upgrad/FoodOrderingApp/service/business/CustomerService.java:40-116 | round trip: a customer signup stores can log in with the plaintext password it signed up with |
| Customers.PasswordChangeCheck | FoodOrderingApp-service/src/main/java/com/upgrad/FoodOrderingApp/service/business/CustomerService.java:173-188 | UCR-001 exactly for a weak new password; then UCR-004 exactly for a wrong old password |
| Customers.Resalted | FoodOrderingApp-service/src/main/java/com/upgrad/FoodOrderingApp/service/business/CustomerService.java:180-185 | a changed password keeps the row's identity, with the new salt and the new password hashed under it |
| Customers.PasswordChangeThenLogin | FoodOrderingApp-service/src/main/java/com/upgrad/FoodOrderingApp/service/business/CustomerService.java:85-188 | after a password change, the customer logs in with the new password |
| Customers.CustomerService.constructor | FoodOrderingApp-service/src/main/java/com/upgrad/FoodOrderingApp/service/business/CustomerService.java:21-27 | the service starts with empty tables, satisfying its invariant |
| Customers.CustomerService.SaveCustomer | FoodOrderingApp-service/src/main/java/com/upgrad/FoodOrderingApp/service/business/CustomerService.java:40-71 | on a failed check nothing is stored; otherwise exactly the registered row is appended; the invariant (unique valid contacts, sessions of stored customers) is kept |
| Customers.CustomerService.Authenticate | FoodOrderingApp-service/src/main/java/com/upgrad/FoodOrderingApp/service/business/CustomerService.java:85-116 | on failure no session is added; otherwise exactly the new eight-hour session for the matched customer is added |
| Customers.CustomerService.Logout | FoodOrderingApp-service/src/main/java/com/upgrad/FoodOrderingApp/service/business/CustomerService.java:127-133 | the token is validated first and nothing changes on failure; otherwise only that session is logged out |
| Customers.CustomerService.GetCustomer | FoodOrderingApp-service/src/main/java/com/upgrad/FoodOrderingApp/service/business/CustomerService.java:143-146 | the customer of a valid session, or the validation error |
| Customers.CustomerService.UpdateCustomer | FoodOrderingApp-service/src/main/java/com/upgrad/FoodOrderingApp/service/business/CustomerService.java:155-157 | the row is replaced by the merged one and nothing else changes |
| Customers.CustomerService.UpdateCustomerPassword | FoodOrderingApp-service/src/main/java/com/upgrad/FoodOrderingApp/service/business/CustomerService.java:173-188 | a failed check leaves the row unchanged; otherwise only its salt and hash are replaced |
| CustomerController.DecodeBasicAuthorization | FoodOrderingApp-api/src/main/java/com/upgrad/FoodOrderingApp/api/controller/CustomerController.java:192-201 | every failure is ATH-003, and no decoded piece contains `:` |
| CustomerController.CredentialsOf | FoodOrderingApp-api/src/main/java/com/upgrad/FoodOrderingApp/api/controller/CustomerController.java:84-88 | an empty array is refused, a one-piece array crashes, and otherwise the first two pieces are the credentials |
| CustomerController.LoginCredentials | FoodOrderingApp-api/src/main/java/com/upgrad/FoodOrderingApp/api/controller/CustomerController.java:82-88 | refusals are ATH-003, and the credentials contain no `:` |
| CustomerController.SplitPiecesAvoid | FoodOrderingApp-api/src/main/java/com/upgrad/FoodOrderingApp/api/controller/CustomerController.java:196 | no piece of `split` contains the delimiter |
| CustomerController.BasicHeaderRoundTrip | FoodOrderingApp-api/src/main/java/com/upgrad/FoodOrderingApp/api/controller/CustomerController.java:192-201 | round trip: `Basic ` + Base64 of a non-empty Latin-1 text decodes to that text split on `:` |
| CustomerController.SplitTwoFields | FoodOrderingApp-api/src/main/java/com/upgrad/FoodOrderingApp/api/controller/CustomerController.java:196 | `contact:password` splits into exactly the two fields |
| CustomerController.LoginRoundTrip | FoodOrderingApp-api/src/main/java/com/upgrad/FoodOrderingApp/api/controller/CustomerController.java:80-88 | round trip: the header a client builds from a non-empty, colon-free Latin-1 contact and password yields those credentials |
| CustomerController.PasswordCutAtColon | FoodOrderingApp-api/src/main/java/com/upgrad/FoodOrderingApp/api/controller/CustomerController.java:196 | text after a second `:` is ignored: the password is cut at it |
| CustomerController.NoColonCrashes | FoodOrderingApp-api/src/main/java/com/upgrad/FoodOrderingApp/api/controller/CustomerController.java:84-88 | a payload without `:` passes the guard and crashes on the second piece |
| CustomerController.TrailingColonCrashes | FoodOrderingApp-api/src/main/java/com/upgrad/FoodOrderingApp/api/controller/CustomerController.java:84-88 | `contact:` with an empty password crashes too, because the trailing empty piece is dropped |
| CustomerController.SplitRawColons | FoodOrderingApp-api/src/main/java/com/upgrad/FoodOrderingApp/api/controller/CustomerController.java:196 | n colons cut into n + 1 empty pieces |
| CustomerController.OnlyColonsRefused | FoodOrderingApp-api/src/main/java/com/upgrad/FoodOrderingApp/api/controller/CustomerController.java:84-86 | a payload of colons only splits to the empty array and is refused with ATH-003 |
| CustomerController.NothingAfterBasicRefused | FoodOrderingApp-api/src/main/java/com/upgrad/FoodOrderingApp/api/controller/CustomerController.java:192-201 | a header whose only `Basic ` is at its very end is refused with ATH-003 |
| CustomerController.BadBase64Refused | FoodOrderingApp-api/src/main/java/com/upgrad/FoodOrderingApp/api/controller/CustomerController.java:192-201 | a payload that is not Base64 is refused with ATH-003 |
| CustomerController.SignupPrecheck | FoodOrderingApp-api/src/main/java/com/upgrad/FoodOrderingApp/api/controller/CustomerController.java:48-53 | SGR-005 exactly when the first name, email, contact number or password is missing or empty |
| CustomerController.CustomerOf | FoodOrderingApp-api/src/main/java/com/upgrad/FoodOrderingApp/api/controller/CustomerController.java:55-60 | the entity carries the request's fields |
| CustomerController.LastNameOptional | FoodOrderingApp-api/src/main/java/com/upgrad/FoodOrderingApp/api/controller/CustomerController.java:48-53 | the last name affects neither the controller's check nor the service's |
| CustomerController.PasswordPrecheck | FoodOrderingApp-api/src/main/java/com/upgrad/FoodOrderingApp/api/controller/CustomerController.java:173-175 | UCR-003 exactly when the old or the new password is missing or empty |
| CustomerController.MergeNames | FoodOrderingApp-api/src/main/java/com/upgrad/FoodOrderingApp/api/controller/CustomerController.java:143-146 | the first name is replaced, the last name only when given and non-empty, and no other field changes |
| CustomerController.MergeNamesIdempotent | FoodOrderingApp-api/src/main/java/com/upgrad/FoodOrderingApp/api/controller/CustomerController.java:143-146 | applying the same update twice equals applying it once |
| CustomerController.Signup | FoodOrderingApp-api/src/main/java/com/upgrad/FoodOrderingApp/api/controller/CustomerController.java:44-67 | SGR-005 first, then the service's checks; on success only the registered customer is added and its uuid returned |
| CustomerController.Login | FoodOrderingApp-api/src/main/java/com/upgrad/FoodOrderingApp/api/controller/CustomerController.java:80-101 | header refusals are ATH-003, the one-piece payload crashes, and otherwise the outcome and new session are those of authentication |
| CustomerController.Logout | FoodOrderingApp-api/src/main/java/com/upgrad/FoodOrderingApp/api/controller/CustomerController.java:114-120 | ATHR-001 for a bad header, then the session checks; on success only that session is logged out and the customer's uuid returned |
| CustomerController.UpdateCustomer | FoodOrderingApp-api/src/main/java/com/upgrad/FoodOrderingApp/api/controller/CustomerController.java:136-153 | UCR-002 for a missing first name before any token check, then the header and session checks; on success only the customer's names change |
| CustomerController.UpdateCustomerPassword | FoodOrderingApp-api/src/main/java/com/upgrad/FoodOrderingApp/api/controller/CustomerController.java:170-182 | UCR-003 first, then the header and session checks, then the service's password checks; on success only that customer's salt and hash change |
| Addresses.SaveAddressCheck | FoodOrderingApp-service/src/main/java/com/upgrad/FoodOrderingApp/service/business/AddressService.java:37-49 | SAR-001 exactly for a missing or empty field or no state; passing exactly when every field is filled, the pin code is six digits, and a state is given; else SAR-002 |
| Addresses.PinCodeExamples | FoodOrderingApp-service/src/main/java/com/upgrad/FoodOrderingApp/service/business/AddressService.java:40-49 | `560001` passes, `56001` is SAR-002, and an empty pin code is SAR-001 |
| Addresses.AddressService.constructor | FoodOrderingApp-service/src/main/java/com/upgrad/FoodOrderingApp/service/business/AddressService.java:22-25 | the service starts with the given states and no addresses |
| Addresses.AddressService.SaveAddress | FoodOrderingApp-service/src/main/java/com/upgrad/FoodOrderingApp/service/business/AddressService.java:37-56 | a failed check stores nothing; otherwise the address is stored under the fresh uuid with `active = 1` and returned |
| Addresses.AddressService.SaveCustomerAddress | FoodOrderingApp-service/src/main/java/com/upgrad/FoodOrderingApp/service/business/AddressService.java:80-82 | the link is recorded, and the owner can then look the address up |
| Addresses.AddressService.GetStateByUUID | FoodOrderingApp-service/src/main/java/com/upgrad/FoodOrderingApp/service/business/AddressService.java:65-71 | the state with that uuid exactly when it exists, otherwise ANF-002 |
| Addresses.AddressService.GetAddressByUUID | FoodOrderingApp-service/src/main/java/com/upgrad/FoodOrderingApp/service/business/AddressService.java:103-120 | ANF-005 for an empty id, ANF-003 for an unknown address, ATHR-004 for an address not linked to this customer, each exactly; success exactly when none applies |
| Addresses.AddressService.DeleteAddress | FoodOrderingApp-service/src/main/java/com/upgrad/FoodOrderingApp/service/business/AddressService.java:131-140 | an active address is removed with its link and is then not found by anyone; an inactive one changes nothing |
| Addresses.OwnerOnly | FoodOrderingApp-service/src/main/java/com/upgrad/FoodOrderingApp/service/business/AddressService.java:113-118 | an address two different customers can read is linked to no customer |
| Restaurants.LikeRestaurantName | FoodOrderingApp-service/src/main/java/com/upgrad/FoodOrderingApp/service/business/RestaurantService.java:72-74 | the pattern is the name between two `%` |
| Restaurants.RestaurantsByName | FoodOrderingApp-service/src/main/java/com/upgrad/FoodOrderingApp/service/business/RestaurantService.java:66-76 | RNF-003 exactly for a missing or empty name; otherwise the rows of the query with the `%name%` pattern |
| Restaurants.RestaurantByCategory | FoodOrderingApp-service/src/main/java/com/upgrad/FoodOrderingApp/service/business/RestaurantService.java:86-97 | CNF-001 for an empty id, then CNF-002 for an unknown category, each exactly; otherwise that category's restaurants |
| Restaurants.IsValidRating | FoodOrderingApp-service/src/main/java/com/upgrad/FoodOrderingApp/service/business/RestaurantService.java:109 | a rating is rejected exactly when it is missing, below 1 or above 5 |
| Restaurants.UpdatedRating | FoodOrderingApp-service/src/main/java/com/upgrad/FoodOrderingApp/service/business/RestaurantService.java:110-115 | the new average times the new count equals the old total plus the new rating |
| Restaurants.SumBounds | FoodOrderingApp-service/src/main/java/com/upgrad/FoodOrderingApp/service/business/RestaurantService.java:110-115 | ratings within bounds sum to within n times those bounds |
| Restaurants.MeanInRange | FoodOrderingApp-service/src/main/java/com/upgrad/FoodOrderingApp/service/business/RestaurantService.java:110-115 | the mean of ratings in 1 to 5 is in 1 to 5 |
| Restaurants.RunningMean | FoodOrderingApp-service/src/main/java/com/upgrad/FoodOrderingApp/service/business/RestaurantService.java:110-115 | if the stored average is the mean of the ratings so far, the update gives the mean with the new rating added |
| Restaurants.UpdatedRatingInRange | FoodOrderingApp-service/src/main/java/com/upgrad/FoodOrderingApp/service/business/RestaurantService.java:110-120 | an accepted rating keeps the average within 1 to 5 |
| Restaurants.Rated | FoodOrderingApp-service/src/main/java/com/upgrad/FoodOrderingApp/service/business/RestaurantService.java:110-116 | one more customer rated, and only the rating and count change |
| Restaurants.RestaurantService.constructor | FoodOrderingApp-service/src/main/java/com/upgrad/FoodOrderingApp/service/business/RestaurantService.java:21-22 | the service holds the given table, satisfying its invariant |
| Restaurants.RestaurantService.RestaurantByUUID | FoodOrderingApp-service/src/main/java/com/upgrad/FoodOrderingApp/service/business/RestaurantService.java:45-56 | RNF-002 for an empty uuid, then RNF-001 when no row matches, each exactly; success exactly for a known uuid, giving the row with that uuid |
| Restaurants.RestaurantService.UpdateRestaurantRating | FoodOrderingApp-service/src/main/java/com/upgrad/FoodOrderingApp/service/business/RestaurantService.java:108-121 | IRE-001 with nothing stored for a missing rating or one outside 1 to 5; otherwise the rated restaurant is stored, with its average kept within 1 to 5 |
| Categories.GetCategoryById | FoodOrderingApp-service/src/main/java/com/upgrad/FoodOrderingApp/service/business/CategoryService.java:58-69 | CNF-001 for an empty id, then CNF-002 for an unknown one, each exactly; success exactly for a known id, giving that category |
| Categories.GetCategoriesByRestaurant | FoodOrderingApp-service/src/main/java/com/upgrad/FoodOrderingApp/service/business/CategoryService.java:39-48 | the category of each restaurant_category row in order, and none for a null list |
| Categories.NameLeTotal | FoodOrderingApp-service/src/main/java/com/upgrad/FoodOrderingApp/service/entity/CategoryEntity.java:11 | any two names are ordered one way or the other |
| Categories.NameLeTransitive | FoodOrderingApp-service/src/main/java/com/upgrad/FoodOrderingApp/service/entity/CategoryEntity.java:11 | the name order is transitive |
| Categories.InsertByName | FoodOrderingApp-service/src/main/java/com/upgrad/FoodOrderingApp/service/entity/CategoryEntity.java:11 | inserting into a sorted list keeps it sorted and adds exactly that category |
| Categories.GetAllCategoriesOrderedByName | FoodOrderingApp-service/src/main/java/com/upgrad/FoodOrderingApp/service/business/CategoryService.java:29-31 | sorted by name, and a permutation of the category table |
| Items.GetItemByUUID | FoodOrderingApp-service/src/main/java/com/upgrad/FoodOrderingApp/service/business/ItemService.java:33-41 | the item exactly when its uuid is stored, otherwise INF-003 |
| Items.GetItemsByPopularity | FoodOrderingApp-service/src/main/java/com/upgrad/FoodOrderingApp/service/dao/ItemDao.java:61-62 | the first five items in popularity order, or all of them when there are fewer |
| Items.ItemsOfAppend | FoodOrderingApp-service/src/main/java/com/upgrad/FoodOrderingApp/service/business/ItemService.java:61-70 | the items of two lists of categories are those of the first, then those of the second |
| Items.ItemsOfLength | FoodOrderingApp-service/src/main/java/com/upgrad/FoodOrderingApp/service/business/ItemService.java:61-70 | the flattened list has as many items as the categories together |
| Items.ItemsOfMembership | FoodOrderingApp-service/src/main/java/com/upgrad/FoodOrderingApp/service/business/ItemService.java:61-70 | an item is in the result exactly when some category lists it |
| Items.GetItemsByCategoryAndRestaurant | FoodOrderingApp-service/src/main/java/com/upgrad/FoodOrderingApp/service/business/ItemService.java:61-70 | the nested loop collects the items of every category in order |
| Orders.FirstCouponIndex | FoodOrderingApp-service/src/main/java/com/upgrad/FoodOrderingApp/service/dao/CouponDao.java:26-28 | the position of the first coupon with that name, or the length when there is none |
| Orders.CouponByCouponName | FoodOrderingApp-service/src/main/java/com/upgrad/FoodOrderingApp/service/dao/CouponDao.java:23-35 | no coupon exactly when none has the name; otherwise the first that has it |
| Orders.GetCouponByCouponName | FoodOrderingApp-service/src/main/java/com/upgrad/FoodOrderingApp/service/business/OrderService.java:27-38 | CPF-002 for an empty name, then CPF-001 for an unknown one, each exactly; otherwise a stored coupon with that name |
| Orders.FirstStoredCouponWins | FoodOrderingApp-service/src/main/java/com/upgrad/FoodOrderingApp/service/dao/CouponDao.java:26-28 | with several coupons of one name, the first in the order the query returns the rows is returned |
| Payments.GetAllPaymentMethods | FoodOrderingApp-service/src/main/java/com/upgrad/FoodOrderingApp/service/business/PaymentService.java:22-24 | the payment table, in its order |
| Payments.PaymentWithUuid | FoodOrderingApp-service/src/main/java/com/upgrad/FoodOrderingApp/service/business/PaymentService.java:33-40 | no payment exactly when none has the uuid; otherwise a listed payment with it |
| Payments.GetPaymentByUUID | FoodOrderingApp-service/src/main/java/com/upgrad/FoodOrderingApp/service/business/PaymentService.java:33-40 | PNF-002 exactly for a missing or unknown uuid; otherwise a listed payment with that uuid |
| Payments.ListedPaymentFound | FoodOrderingApp-service/src/main/java/com/upgrad/FoodOrderingApp/service/business/PaymentService.java:22-40 | every listed payment method is found by its uuid |
| RestaurantController.JoinSnoc | FoodOrderingApp-api/src/main/java/com/upgrad/FoodOrderingApp/api/controller/RestaurantController.java:186-195 | appending a part to a join adds the separator and the part |
| RestaurantController.JoinCategoryNames | FoodOrderingApp-api/src/main/java/com/upgrad/FoodOrderingApp/api/controller/RestaurantController.java:186-195 | the loop builds the category names joined with `", "` |
| RestaurantController.JoinEndsWithLast | FoodOrderingApp-api/src/main/java/com/upgrad/FoodOrderingApp/api/controller/RestaurantController.java:186-195 | a join ends with its last part |
| RestaurantController.CategoriesStringBoundaries | FoodOrderingApp-api/src/main/java/com/upgrad/FoodOrderingApp/api/controller/RestaurantController.java:186-195 | no categories give the empty string; otherwise it starts with the first name and ends with the last, with no stray separator |
| RestaurantController.CategoriesStringRoundTrip | FoodOrderingApp-api/src/main/java/com/upgrad/FoodOrderingApp/api/controller/RestaurantController.java:186-195 | round trip: splitting the joined string on `", "` gives back the names, when names are non-empty and comma-free |
| RestaurantController.PopulateRestaurantList | FoodOrderingApp-api/src/main/java/com/upgrad/FoodOrderingApp/api/controller/RestaurantController.java:151-201 | an empty list for a null or empty input; otherwise one entry per restaurant, in order, with its category names joined |
| RestaurantController.PopulateRestaurantDetailsResponse | FoodOrderingApp-api/src/main/java/com/upgrad/FoodOrderingApp/api/controller/RestaurantController.java:230-253 | one entry per category of the restaurant, in order, each listing that category's items in order |
| RestaurantController.UpdateRestaurantRating | FoodOrderingApp-api/src/main/java/com/upgrad/FoodOrderingApp/api/controller/RestaurantController.java:128-143 | header, session, restaurant and rating are checked in that order, and the first failure is returned with nothing stored; otherwise only that restaurant is re-rated |
| RestExceptionHandler.StatusOf | FoodOrderingApp-api/src/main/java/com/upgrad/FoodOrderingApp/api/exception/RestExceptionHandler.java:22-191 | 400 exactly for signup, address, update-customer and rating errors; 401 exactly for authentication; 403 exactly for authorization; 404 exactly for lookups |
| RestExceptionHandler.Handle | FoodOrderingApp-api/src/main/java/com/upgrad/FoodOrderingApp/api/exception/RestExceptionHandler.java:22-27 | the response carries the error's code and message and its kind's status |
| RestExceptionHandler.SessionFailuresForbidden | FoodOrderingApp-api/src/main/java/com/upgrad/FoodOrderingApp/api/exception/RestExceptionHandler.java:52-57 | every header or session failure is answered with 403 |
| RestExceptionHandler.LoginFailuresUnauthorized | FoodOrderingApp-api/src/main/java/com/upgrad/FoodOrderingApp/api/exception/RestExceptionHandler.java:37-42 | every login failure is answered with 401 |
| RestExceptionHandler.InputFailuresBadRequest | FoodOrderingApp-api/src/main/java/com/upgrad/FoodOrderingApp/api/exception/RestExceptionHandler.java:67-72 | every signup or address-validation failure is answered with 400 |
| RestExceptionHandler.LookupFailuresNotFound | FoodOrderingApp-api/src/main/java/com/upgrad/FoodOrderingApp/api/exception/RestExceptionHandler.java:112-177 | every category, item, coupon or payment lookup failure is answered with 404 |

## Left out

- Persistence, transactions and concurrency: tables are maps and sequences updated in one step, and JPA merge/persist are assignments.
- Query texts: the JPQL of the restaurant-by-name, restaurant-by-category, restaurant-category, items-by-category-and-restaurant and popularity queries is not modelled. Each query is a parameter giving the rows returned, so LIKE matching, case handling and the popularity ranking are the caller's.
- Categories.NameLe: the database collation of `order by categoryName` is replaced by lexicographic order of character codes.
- Password hashing: `PasswordCryptographyProvider` is an uninterpreted, deterministic function fixed at service creation. Salts, UUIDs and access tokens are parameters, and their freshness is a precondition.
- JWT: the access token is an opaque string chosen by the caller. JWT generation and signing are not modelled.
- Clocks: time is an integer in milliseconds. Time zones are not modelled. Customers.CustomerService.Logout takes one `now` for both the session check and `logoutAt`, where the source reads the clock twice (CustomerService.java:232 and :129); no contract depends on the value stored in `logoutAt`.
- Orders.CouponByCouponName: the coupon table is the sequence of rows in the order the by-name query returns them. The query has no ORDER BY, so which row the database returns first is not modelled.
- Base64.BytesToText: bytes are read as Latin-1, not in the platform's default charset, so a payload that is not valid in that charset is decoded differently.
- Restaurants.UpdatedRating: ratings are exact reals, not IEEE doubles. The Java `int` customer count is an unbounded `nat`, so its overflow is not modelled.
- Null handling: a null rating is `None`, and other null fields are `Option`s. The null `active` field of deleteAddress, and the null-pointer exceptions on other null entities, are not modelled.
- Addresses.AddressService.GetAddressByUUID: the customer comparison is by id value, whereas the source compares `Integer` objects with `!=`.
- Addresses.AddressService.SaveAddress: the customer parameter is not used by the source and is left out. Linking is done separately by SaveCustomerAddress.
- Addresses.AddressService.DeleteAddress: follows the code. Inactive addresses are returned unchanged, and the doc comment's opposite reading is not modelled.
- FoodOrderingUtil.IsStrongPassword: follows the code's regular expression, which sets no minimum length, not the doc comment's eight characters.
- Customers.CustomerService.UpdateCustomer: requires the contact number to be unchanged, as every caller guarantees. A general merge that could break uniqueness is not modelled.
- Items.GetItemByUUID: the item id is an `Option<string>`. The UUID parsing of the controller is not modelled.
- RestaurantController.PopulateRestaurantDetailsResponse: only the category and item lists are modelled. The restaurant fields and address copied into the details response are not.
- Conversion of uuids into `UUID` objects in responses, and all response headers and HTTP plumbing, are not modelled.
- The setCategories mutation of a restaurant entity in the controller is not modelled, because restaurants are values here.
- The address, category, item, order and payment controllers are only thin HTTP wrappers around the services above, and are not modelled. Order placement (`saveOrder`, `saveOrderItem`, `getOrdersByCustomers`) is not modelled either.
