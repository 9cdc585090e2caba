/**
 * CustomerController: the request checks the controller makes before it calls the
 * customer service, and the decoder of the `Basic` authorization header (section 2 of
 * RFC 7617) that login uses.
 *
 * The decoded payload is split on every `:` with Java's `split`, and the controller
 * reads the first two pieces after rejecting only an empty array; a payload with a
 * single piece therefore ends in an index-out-of-bounds error outside the handler that
 * maps decoding errors to ATH-003. That outcome is kept apart here as `IndexOutOfBounds`.
 */
module CustomerController {
  import opened Wrappers
  import opened ServiceErrors
  import opened JavaStrings
  import Base64
  import opened FoodOrderingUtil
  import opened Customers

  // ---------------------------------------------------------------------------
  // The Basic header

  /**
   * `decodeBasicAuthorization`: the second piece of the header split on `Basic `,
   * Base64-decoded, read as text and split on `:`. A missing piece or bad Base64 is ATH-003.
   */
  function DecodeBasicAuthorization(authorization: string): (r: Result<seq<string>, ServiceError>)
    ensures r.Failure? ==> r.error == ATH_003
    ensures r.Success? ==> forall i :: 0 <= i < |r.value| ==> !Occurs(COLON, r.value[i])
  {
    var pieces := Split(authorization, BASIC_TOKEN);
    if |pieces| < 2 then Failure(ATH_003)
    else match Base64.Decode(pieces[1])
      case None => Failure(ATH_003)
      case Some(decode) =>
        var decodedText := Base64.BytesToText(decode);
        SplitPiecesAvoid(decodedText, COLON);
        Success(Split(decodedText, COLON))
  }

  /** What login makes of the header: the two credentials, an ATH-003 refusal, or the crash. */
  datatype Credentials =
    | Credentials(contactNumber: string, password: string)
    | Refused(error: ServiceError)
    | IndexOutOfBounds

  /** Lines 84-88 of `login`: an empty array is refused, a one-piece array crashes. */
  function CredentialsOf(decodedText: seq<string>): (r: Credentials)
    ensures r.Refused? <==> |decodedText| == 0
    ensures r.IndexOutOfBounds? <==> |decodedText| == 1
    ensures r.Credentials? ==> |decodedText| >= 2 && r == Credentials(decodedText[0], decodedText[1])
  {
    if |decodedText| < 1 then Refused(ATH_003)
    else if |decodedText| < 2 then IndexOutOfBounds
    else Credentials(decodedText[0], decodedText[1])
  }

  function LoginCredentials(authorization: string): (r: Credentials)
    ensures r.Refused? ==> r.error == ATH_003
    ensures r.Credentials? ==> !Occurs(COLON, r.contactNumber) && !Occurs(COLON, r.password)
  {
    match DecodeBasicAuthorization(authorization)
    case Failure(e) => Refused(e)
    case Success(decodedText) => CredentialsOf(decodedText)
  }

  /** No piece of Java's split contains the delimiter. */
  lemma SplitPiecesAvoid(s: string, d: string)
    requires d != ""
    ensures forall i :: 0 <= i < |Split(s, d)| ==> !Occurs(d, Split(s, d)[i])
  {
    if Occurs(d, s) {
      SplitRawPiecesAvoid(s, d);
    }
  }

  /** The header a client builds from a Latin-1 text decodes to the split of that text. */
  lemma BasicHeaderRoundTrip(text: string)
    requires text != "" && Base64.IsLatin1(text)
    ensures DecodeBasicAuthorization(BASIC_TOKEN + Base64.Encode(Base64.TextToBytes(text))) == Success(Split(text, COLON))
  {
    var bytes := Base64.TextToBytes(text);
    var payload := Base64.Encode(bytes);
    assert |payload| >= 4;
    assert BASIC_TOKEN[5] == ' ';
    NoOccurrenceOfMissingChar(BASIC_TOKEN, payload, 5);
    OccursAtStart(BASIC_TOKEN, payload);
    SplitRawDelimiterFirst(BASIC_TOKEN, payload);
    SplitRawNoOccurrence(payload, BASIC_TOKEN);
    assert Split(BASIC_TOKEN + payload, BASIC_TOKEN) == ["", payload];
    Base64.DecodeEncode(bytes);
    Base64.TextBytesRoundTrip(text);
  }

  /** Two colon-free fields joined by one colon split back into the two fields. */
  lemma SplitTwoFields(contact: string, password: string)
    requires !Occurs(COLON, contact) && !Occurs(COLON, password) && password != ""
    ensures Split(contact + COLON + password, COLON) == [contact, password]
  {
    var s := contact + COLON + password;
    ColonFree(contact);
    ColonFree(password);
    SplitJoinPlain([contact, password], COLON);
    assert Join([contact, password], COLON) == s;
    if !Occurs(COLON, s) {
      SplitRawNoOccurrence(s, COLON);
    }
  }

  /** A string without a colon holds no colon character. */
  lemma ColonFree(s: string)
    requires !Occurs(COLON, s)
    ensures forall i :: 0 <= i < |s| ==> s[i] != COLON[0]
  {
    forall i | 0 <= i < |s| ensures s[i] != COLON[0] {
      if s[i] == ':' {
        ColonAt(s, i);
      }
    }
  }

  lemma {:induction false} ColonAt(s: string, i: nat)
    requires i < |s| && s[i] == ':'
    ensures Occurs(COLON, s)
    decreases i
  {
    if i > 0 {
      ColonAt(s[1..], i - 1);
    }
  }

  /**
   * Round trip: `Basic ` + base64(contact + ":" + password) gives login both credentials,
   * for non-empty, colon-free, Latin-1 credentials.
   */
  lemma LoginRoundTrip(contact: string, password: string)
    requires contact != "" && password != ""
    requires !Occurs(COLON, contact) && !Occurs(COLON, password)
    requires Base64.IsLatin1(contact) && Base64.IsLatin1(password)
    ensures var text := contact + COLON + password;
            Base64.IsLatin1(text) &&
            LoginCredentials(BASIC_TOKEN + Base64.Encode(Base64.TextToBytes(text))) == Credentials(contact, password)
  {
    var text := contact + COLON + password;
    assert Base64.IsLatin1(text) by {
      forall i | 0 <= i < |text| ensures text[i] as int < 256 {
        if i < |contact| {
        } else if i == |contact| {
        } else {
          assert text[i] == password[i - |contact| - 1];
        }
      }
    }
    BasicHeaderRoundTrip(text);
    SplitTwoFields(contact, password);
  }

  /** A colon-free field and a colon split off as the first raw piece. */
  lemma SplitRawFieldThen(field: string, rest: string)
    requires !Occurs(COLON, field)
    ensures SplitRaw(field + COLON + rest, COLON) == [field] + SplitRaw(rest, COLON)
  {
    ColonFree(field);
    SplitRawDelimiterFirst(COLON, rest);
    SplitRawPlainPrefix(field, COLON + rest, COLON);
    assert field + "" == field;
    assert field + COLON + rest == field + (COLON + rest);
  }

  /** The raw pieces of two colon-free fields followed by a colon and more text. */
  lemma SplitRawTwoFieldsThen(contact: string, password: string, rest: string)
    requires !Occurs(COLON, contact) && !Occurs(COLON, password)
    ensures SplitRaw(contact + COLON + password + COLON + rest, COLON) == [contact, password] + SplitRaw(rest, COLON)
  {
    var tail := password + COLON + rest;
    var s := contact + COLON + password + COLON + rest;
    assert s == contact + COLON + tail;
    SplitRawFieldThen(contact, tail);
    assert SplitRaw(s, COLON) == [contact] + SplitRaw(tail, COLON);
    SplitRawFieldThen(password, rest);
    assert [contact] + ([password] + SplitRaw(rest, COLON)) == [contact, password] + SplitRaw(rest, COLON);
  }

  /** A password holding a colon reaches login cut at its first colon. */
  lemma PasswordCutAtColon(contact: string, password: string, rest: string)
    requires !Occurs(COLON, contact) && !Occurs(COLON, password) && password != ""
    ensures CredentialsOf(Split(contact + COLON + password + COLON + rest, COLON)) == Credentials(contact, password)
  {
    var s := contact + COLON + password + COLON + rest;
    SplitRawTwoFieldsThen(contact, password, rest);
    var raw := SplitRaw(s, COLON);
    if !Occurs(COLON, s) {
      SplitRawNoOccurrence(s, COLON);
    }
    assert raw[0] == contact && raw[1] == password;
  }

  /** A payload with no colon is one piece: login crashes. */
  lemma NoColonCrashes(text: string)
    requires !Occurs(COLON, text)
    ensures CredentialsOf(Split(text, COLON)) == IndexOutOfBounds
  {
  }

  /** `contact:` with nothing after the colon is one piece too: login crashes. */
  lemma TrailingColonCrashes(contact: string)
    requires contact != "" && !Occurs(COLON, contact)
    ensures CredentialsOf(Split(contact + COLON, COLON)) == IndexOutOfBounds
  {
    ColonFree(contact);
    assert COLON + "" == COLON;
    SplitRawPlainPrefix(contact, COLON + "", COLON);
    SplitRawDelimiterFirst(COLON, "");
    assert contact + "" == contact;
    var raw := SplitRaw(contact + COLON, COLON);
    assert raw == [contact, ""];
    ColonAt(contact + COLON, |contact|);
    var pieces := DropTrailingEmpty(raw);
    assert Split(contact + COLON, COLON) == pieces;
    assert pieces == raw[..|pieces|];
    assert |pieces| != 2 by {
      if |pieces| == 2 {
        assert false;
      }
    }
    assert raw[0] != "";
  }

  /** `n` colons. */
  function Colons(n: nat): (s: string)
    ensures |s| == n && forall i :: 0 <= i < n ==> s[i] == ':'
  {
    seq(n, i => ':')
  }

  lemma {:induction false} SplitRawColons(n: nat)
    ensures SplitRaw(Colons(n), COLON) == seq(n + 1, i => "")
    decreases n
  {
    if n > 0 {
      assert Colons(n) == COLON + Colons(n - 1);
      SplitRawDelimiterFirst(COLON, Colons(n - 1));
      SplitRawColons(n - 1);
      assert [""] + seq(n, i => "") == seq(n + 1, i => "");
    }
  }

  /** A payload of colons only splits into an empty array: ATH-003. */
  lemma OnlyColonsRefused(n: nat)
    requires n >= 1
    ensures CredentialsOf(Split(Colons(n), COLON)) == Refused(ATH_003)
  {
    SplitRawColons(n);
    ColonAt(Colons(n), 0);
  }

  /** The only `Basic ` at the end of the header: split drops the empty second piece, so ATH-003. */
  lemma NothingAfterBasicRefused(junk: string)
    requires !Occurs(BASIC_TOKEN, junk)
    ensures LoginCredentials(junk + BASIC_TOKEN) == Refused(ATH_003)
  {
    FirstOccurrenceAppended(junk, BASIC_TOKEN, "");
    assert BASIC_TOKEN + "" == BASIC_TOKEN;
    SplitRawLatePrefix(junk, BASIC_TOKEN + "", BASIC_TOKEN);
    SplitRawDelimiterFirst(BASIC_TOKEN, "");
    assert junk + "" == junk;
    assert SplitRaw(junk + BASIC_TOKEN, BASIC_TOKEN) == [junk, ""];
  }

  /** A payload holding a character outside the Base64 alphabet is ATH-003. */
  lemma BadBase64Refused(payload: string, j: nat)
    requires !Occurs(BASIC_TOKEN, payload) && payload != ""
    requires j < |payload| && !Base64.IsBase64Char(payload[j]) && payload[j] != '='
    ensures LoginCredentials(BASIC_TOKEN + payload) == Refused(ATH_003)
  {
    OccursAtStart(BASIC_TOKEN, payload);
    SplitRawDelimiterFirst(BASIC_TOKEN, payload);
    SplitRawNoOccurrence(payload, BASIC_TOKEN);
    assert Split(BASIC_TOKEN + payload, BASIC_TOKEN) == ["", payload];
    Base64.DecodeRejectsForeignChar(payload, j);
  }

  // ---------------------------------------------------------------------------
  // Request checks

  /** The signup request body; any field may be missing. */
  datatype SignupCustomerRequest = SignupCustomerRequest(
    firstName: Option<string>,
    lastName: Option<string>,
    emailAddress: Option<string>,
    contactNumber: Option<string>,
    password: Option<string>)

  /** SGR-005 when a field other than the last name is missing or empty. */
  function SignupPrecheck(request: SignupCustomerRequest): (r: Option<ServiceError>)
    ensures r.None? <==>
      && request.firstName.Some? && request.firstName.value != ""
      && request.emailAddress.Some? && request.emailAddress.value != ""
      && request.contactNumber.Some? && request.contactNumber.value != ""
      && request.password.Some? && request.password.value != ""
    ensures r.Some? ==> r.value == SGR_005
  {
    if IsInValid(request.firstName) || IsInValid(request.emailAddress)
       || IsInValid(request.contactNumber) || IsInValid(request.password)
    then Some(SGR_005)
    else None
  }

  /** The customer entity the controller builds from a checked request (plaintext password). */
  function CustomerOf(request: SignupCustomerRequest): (c: Customer)
    requires SignupPrecheck(request).None?
    ensures c.firstName == request.firstName.value && c.lastName == request.lastName
    ensures c.email == request.emailAddress.value && c.contactNumber == request.contactNumber.value
    ensures c.password == request.password.value
  {
    Customer(0, "", request.firstName.value, request.lastName, request.emailAddress.value,
             request.contactNumber.value, "", request.password.value)
  }

  /** The last name is optional: two requests that differ only in it pass the same checks. */
  lemma LastNameOptional(request: SignupCustomerRequest, lastName: Option<string>, customers: seq<Customer>)
    ensures SignupPrecheck(request.(lastName := lastName)) == SignupPrecheck(request)
    ensures SignupPrecheck(request).None? ==>
      SignupCheck(customers, CustomerOf(request.(lastName := lastName))) == SignupCheck(customers, CustomerOf(request))
  {
  }

  /** UCR-003 when the old or the new password is missing or empty. */
  function PasswordPrecheck(oldPassword: Option<string>, newPassword: Option<string>): (r: Option<ServiceError>)
    ensures r.None? <==> oldPassword.Some? && oldPassword.value != "" && newPassword.Some? && newPassword.value != ""
    ensures r.Some? ==> r.value == UCR_003
  {
    if IsInValid(oldPassword) || IsInValid(newPassword) then Some(UCR_003) else None
  }

  /** The name update: the first name always, the last name only when given and non-empty. */
  function MergeNames(customer: Customer, firstName: string, lastName: Option<string>): (c: Customer)
    ensures c.firstName == firstName
    ensures lastName.Some? && lastName.value != "" ==> c.lastName == lastName
    ensures lastName.None? || lastName.value == "" ==> c.lastName == customer.lastName
    ensures c == customer.(firstName := c.firstName, lastName := c.lastName)
  {
    var updated := customer.(firstName := firstName);
    if lastName.Some? && lastName.value != "" then updated.(lastName := lastName) else updated
  }

  /** Sending the same update twice changes nothing more. */
  lemma MergeNamesIdempotent(customer: Customer, firstName: string, lastName: Option<string>)
    ensures MergeNames(MergeNames(customer, firstName, lastName), firstName, lastName) == MergeNames(customer, firstName, lastName)
  {
  }

  // ---------------------------------------------------------------------------
  // Endpoints

  /** `signup`: SGR-005 first, then the service's checks; the new customer's uuid on success. */
  method Signup(service: CustomerService, request: SignupCustomerRequest, uuid: string, salt: string)
    returns (r: Result<string, ServiceError>)
    requires service.Valid()
    modifies service
    ensures service.Valid() && service.sessions == old(service.sessions)
    ensures SignupPrecheck(request).Some? ==> r == Failure(SGR_005) && service.customers == old(service.customers)
    ensures SignupPrecheck(request).None? ==>
      var check := SignupCheck(old(service.customers), CustomerOf(request));
      && (check.Some? ==> r == Failure(check.value) && service.customers == old(service.customers))
      && (check.None? ==>
            && r == Success(uuid)
            && service.customers == old(service.customers) + [Registered(old(service.customers), CustomerOf(request), uuid, salt, service.hash)])
  {
    var precheck := SignupPrecheck(request);
    if precheck.Some? {
      return Failure(precheck.value);
    }
    var created := service.SaveCustomer(CustomerOf(request), uuid, salt);
    if created.Failure? {
      return Failure(created.error);
    }
    r := Success(created.value.uuid);
  }

  /** The outcome of `login`: the customer and its access token, an error, or the crash. */
  datatype LoginOutcome =
    | LoggedIn(customer: Customer, accessToken: string)
    | LoginFailed(error: ServiceError)
    | LoginCrashed

  /**
   * `login`: decode the header, then authenticate the two credentials. A refused header is
   * ATH-003, a one-piece payload crashes, and in both cases no session is stored.
   */
  method Login(service: CustomerService, authorization: string, now: int, authUuid: string, accessToken: string)
    returns (r: LoginOutcome)
    requires service.Valid() && accessToken !in service.sessions
    modifies service
    ensures service.Valid() && service.customers == old(service.customers)
    ensures LoginCredentials(authorization).Refused? ==>
      r == LoginFailed(ATH_003) && service.sessions == old(service.sessions)
    ensures LoginCredentials(authorization).IndexOutOfBounds? ==>
      r == LoginCrashed && service.sessions == old(service.sessions)
    ensures LoginCredentials(authorization).Credentials? ==>
      var credentials := LoginCredentials(authorization);
      var check := AuthenticateCheck(old(service.customers), Some(credentials.contactNumber), Some(credentials.password), service.hash);
      && (check.Failure? ==> r == LoginFailed(check.error) && service.sessions == old(service.sessions))
      && (check.Success? ==>
            && r == LoggedIn(service.customers[check.value], accessToken)
            && service.sessions == old(service.sessions)[accessToken := NewSession(authUuid, check.value, accessToken, now)])
  {
    var credentials := LoginCredentials(authorization);
    match credentials {
      case Refused(e) =>
        return LoginFailed(e);
      case IndexOutOfBounds =>
        return LoginCrashed;
      case Credentials(contactNumber, password) =>
        var customerAuth := service.Authenticate(Some(contactNumber), Some(password), now, authUuid, accessToken);
        if customerAuth.Failure? {
          return LoginFailed(customerAuth.error);
        }
        r := LoggedIn(service.customers[customerAuth.value.customer], customerAuth.value.accessToken);
    }
  }

  /** `logout`: the bearer token, then the service's logout; the customer's uuid on success. */
  method Logout(service: CustomerService, authorization: string, now: int) returns (r: Result<string, ServiceError>)
    requires service.Valid()
    modifies service
    ensures service.Valid() && service.customers == old(service.customers)
    ensures DecodeBearerToken(authorization).Failure? ==>
      r == Failure(ATHR_001) && service.sessions == old(service.sessions)
    ensures DecodeBearerToken(authorization).Success? ==>
      var token := DecodeBearerToken(authorization).value;
      var check := ValidateCustomerAuthorization(old(service.sessions), Some(token), now);
      && (check.Failure? ==> r == Failure(check.error) && service.sessions == old(service.sessions))
      && (check.Success? ==>
            && r == Success(service.customers[check.value.customer].uuid)
            && service.sessions == LoggedOut(old(service.sessions), token, now))
  {
    var token := DecodeBearerToken(authorization);
    if token.Failure? {
      return Failure(token.error);
    }
    var customerAuth := service.Logout(Some(token.value), now);
    if customerAuth.Failure? {
      return Failure(customerAuth.error);
    }
    r := Success(service.customers[customerAuth.value.customer].uuid);
  }

  /**
   * `updateCustomer`: UCR-002 for a missing first name before the token is looked at; then
   * the bearer token and the session; then the name update is stored.
   */
  method UpdateCustomer(service: CustomerService, authorization: string, firstName: Option<string>,
                        lastName: Option<string>, now: int) returns (r: Result<Customer, ServiceError>)
    requires service.Valid()
    modifies service
    ensures service.Valid() && service.sessions == old(service.sessions)
    ensures IsInValid(firstName) ==> r == Failure(UCR_002) && service.customers == old(service.customers)
    ensures !IsInValid(firstName) && DecodeBearerToken(authorization).Failure? ==>
      r == Failure(ATHR_001) && service.customers == old(service.customers)
    ensures !IsInValid(firstName) && DecodeBearerToken(authorization).Success? ==>
      var check := ValidateCustomerAuthorization(old(service.sessions), Some(DecodeBearerToken(authorization).value), now);
      && (check.Failure? ==> r == Failure(check.error) && service.customers == old(service.customers))
      && (check.Success? ==>
            var id := check.value.customer;
            && r == Success(MergeNames(old(service.customers)[id], firstName.value, lastName))
            && service.customers == old(service.customers)[id := r.value])
  {
    if IsInValid(firstName) {
      return Failure(UCR_002);
    }
    var token := DecodeBearerToken(authorization);
    if token.Failure? {
      return Failure(token.error);
    }
    var customer := service.GetCustomer(Some(token.value), now);
    if customer.Failure? {
      return Failure(customer.error);
    }
    var customerToUpdate := MergeNames(customer.value, firstName.value, lastName);
    var updated := service.UpdateCustomer(customerToUpdate);
    r := Success(updated);
  }

  /**
   * `updateCustomerPassword`: UCR-003 for a missing password before the token is looked at;
   * then the bearer token and the session; then the service's password change.
   */
  method UpdateCustomerPassword(service: CustomerService, authorization: string, oldPassword: Option<string>,
                                newPassword: Option<string>, now: int, newSalt: string)
    returns (r: Result<string, ServiceError>)
    requires service.Valid()
    modifies service
    ensures service.Valid() && service.sessions == old(service.sessions)
    ensures PasswordPrecheck(oldPassword, newPassword).Some? ==>
      r == Failure(UCR_003) && service.customers == old(service.customers)
    ensures PasswordPrecheck(oldPassword, newPassword).None? && DecodeBearerToken(authorization).Failure? ==>
      r == Failure(ATHR_001) && service.customers == old(service.customers)
    ensures PasswordPrecheck(oldPassword, newPassword).None? && DecodeBearerToken(authorization).Success? ==>
      var check := ValidateCustomerAuthorization(old(service.sessions), Some(DecodeBearerToken(authorization).value), now);
      && (check.Failure? ==> r == Failure(check.error) && service.customers == old(service.customers))
      && (check.Success? ==>
            var customer := old(service.customers)[check.value.customer];
            var change := PasswordChangeCheck(customer, oldPassword.value, newPassword.value, service.hash);
            && (change.Some? ==> r == Failure(change.value) && service.customers == old(service.customers))
            && (change.None? ==>
                  && r == Success(customer.uuid)
                  && service.customers == old(service.customers)[customer.id :=
                       Resalted(customer, newPassword.value, newSalt, service.hash)]))
  {
    var precheck := PasswordPrecheck(oldPassword, newPassword);
    if precheck.Some? {
      return Failure(precheck.value);
    }
    var token := DecodeBearerToken(authorization);
    if token.Failure? {
      return Failure(token.error);
    }
    var customer := service.GetCustomer(Some(token.value), now);
    if customer.Failure? {
      return Failure(customer.error);
    }
    var updated := service.UpdateCustomerPassword(oldPassword.value, newPassword.value, customer.value, newSalt);
    if updated.Failure? {
      return Failure(updated.error);
    }
    r := Success(updated.value.uuid);
  }
}
