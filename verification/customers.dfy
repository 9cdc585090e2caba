/**
 * CustomerService: signup, login sessions, logout, profile and password updates.
 *
 * The customer table is a sequence whose index is the customer id; the customer_auth
 * table is a map from access token to session. The clock is an integer number of
 * milliseconds passed in by the caller, and the password hash is an uninterpreted
 * deterministic function `hash(plaintext, salt)` fixed when the service is created.
 * Fresh UUIDs, salts and access tokens are parameters.
 */
module Customers {
  import opened Wrappers
  import opened ServiceErrors
  import opened FoodOrderingUtil

  /** A row of the customer table. `password` is the stored hash once the row is saved. */
  datatype Customer = Customer(
    id: nat,
    uuid: string,
    firstName: string,
    lastName: Option<string>,
    email: string,
    contactNumber: string,
    salt: string,
    password: string)

  /** A row of the customer_auth table: one login session. `customer` is a customer id. */
  datatype CustomerAuth = CustomerAuth(
    uuid: string,
    customer: nat,
    accessToken: string,
    loginAt: int,
    expiresAt: Option<int>,
    logoutAt: Option<int>)

  predicate ContactsUnique(customers: seq<Customer>) {
    forall i, j :: 0 <= i < j < |customers| ==> customers[i].contactNumber != customers[j].contactNumber
  }

  /** `getCustomerByContact`: the row with that contact number, if any. */
  function FindByContact(customers: seq<Customer>, contactNumber: string): (r: Option<nat>)
    ensures r.Some? ==> r.value < |customers| && customers[r.value].contactNumber == contactNumber
    ensures r.None? <==> forall i :: 0 <= i < |customers| ==> customers[i].contactNumber != contactNumber
    decreases |customers|
  {
    if |customers| == 0 then None
    else if customers[|customers| - 1].contactNumber == contactNumber then Some(|customers| - 1)
    else FindByContact(customers[..|customers| - 1], contactNumber)
  }

  /** With unique contact numbers the lookup finds the one row that holds the number. */
  lemma {:induction false} FindByContactUnique(customers: seq<Customer>, i: nat)
    requires ContactsUnique(customers) && i < |customers|
    ensures FindByContact(customers, customers[i].contactNumber) == Some(i)
    decreases |customers|
  {
    var n := |customers| - 1;
    if i < n {
      assert customers[n].contactNumber != customers[i].contactNumber;
      var prefix := customers[..n];
      assert prefix[i] == customers[i];
      FindByContactUnique(prefix, i);
    }
  }

  // ---------------------------------------------------------------------------
  // Signup

  /** The checks of `saveCustomer`, in order; `None` when the customer may be stored. */
  function SignupCheck(customers: seq<Customer>, customer: Customer): (r: Option<ServiceError>)
    ensures r.None? <==>
      && !IsInValidEmail(customer.email)
      && !IsInValidContactNumber(customer.contactNumber)
      && IsStrongPassword(customer.password)
      && forall i :: 0 <= i < |customers| ==> customers[i].contactNumber != customer.contactNumber
    ensures r == Some(SGR_002) <==> IsInValidEmail(customer.email)
    ensures r == Some(SGR_003) <==> !IsInValidEmail(customer.email) && IsInValidContactNumber(customer.contactNumber)
    ensures r == Some(SGR_004) <==>
      !IsInValidEmail(customer.email) && !IsInValidContactNumber(customer.contactNumber) && !IsStrongPassword(customer.password)
    ensures r == Some(SGR_001) <==>
      && !IsInValidEmail(customer.email) && !IsInValidContactNumber(customer.contactNumber) && IsStrongPassword(customer.password)
      && exists i :: 0 <= i < |customers| && customers[i].contactNumber == customer.contactNumber
  {
    if IsInValidEmail(customer.email) then Some(SGR_002)
    else if IsInValidContactNumber(customer.contactNumber) then Some(SGR_003)
    else if !IsStrongPassword(customer.password) then Some(SGR_004)
    else if FindByContact(customers, customer.contactNumber).Some? then Some(SGR_001)
    else None
  }

  /** The row `saveCustomer` stores: a new id, a fresh uuid, the salt and the salted hash. */
  function Registered(customers: seq<Customer>, customer: Customer, uuid: string, salt: string,
                      hash: (string, string) -> string): (c: Customer)
    ensures c.id == |customers| && c.contactNumber == customer.contactNumber && c.salt == salt
    ensures c.password == hash(customer.password, salt)
  {
    customer.(id := |customers|, uuid := uuid, salt := salt, password := hash(customer.password, salt))
  }

  // ---------------------------------------------------------------------------
  // Sessions

  /**
   * `isUserSessionValid`: the expiry is set, not in the past, and at most eight hours
   * ahead of `now`; both ends inclusive.
   */
  function IsUserSessionValid(expiryTime: Option<int>, now: int): (r: bool)
    ensures r <==> expiryTime.Some? && now <= expiryTime.value <= now + EIGHT_HOURS_IN_MILLIS
  {
    if expiryTime.Some? then
      var timeDifference := expiryTime.value - now;
      0 <= timeDifference <= EIGHT_HOURS_IN_MILLIS
    else
      false
  }

  /**
   * `validateCustomerAuthorization`: a missing or unknown token, then a logged-out
   * session, then an expired one; otherwise the session.
   */
  function ValidateCustomerAuthorization(sessions: map<string, CustomerAuth>, accessToken: Option<string>, now: int)
    : (r: Result<CustomerAuth, ServiceError>)
    ensures r == Failure(ATHR_001) <==> accessToken.None? || accessToken.value !in sessions
    ensures r == Failure(ATHR_002) <==>
      accessToken.Some? && accessToken.value in sessions && sessions[accessToken.value].logoutAt.Some?
    ensures r == Failure(ATHR_003) <==>
      && accessToken.Some? && accessToken.value in sessions && sessions[accessToken.value].logoutAt.None?
      && !IsUserSessionValid(sessions[accessToken.value].expiresAt, now)
    ensures r.Success? <==>
      && accessToken.Some? && accessToken.value in sessions && sessions[accessToken.value].logoutAt.None?
      && IsUserSessionValid(sessions[accessToken.value].expiresAt, now)
    ensures r.Success? ==> accessToken.Some? && accessToken.value in sessions && r.value == sessions[accessToken.value]
  {
    if accessToken.Some? then
      if accessToken.value !in sessions then Failure(ATHR_001)
      else
        var customerAuth := sessions[accessToken.value];
        if customerAuth.logoutAt.Some? then Failure(ATHR_002)
        else if !IsUserSessionValid(customerAuth.expiresAt, now) then Failure(ATHR_003)
        else Success(customerAuth)
    else
      Failure(ATHR_001)
  }

  /** The session a successful login stores. */
  function NewSession(uuid: string, customer: nat, accessToken: string, now: int): (s: CustomerAuth)
    ensures s.loginAt == now && s.expiresAt == Some(now + 28_800_000) && s.logoutAt.None?
    ensures s.customer == customer && s.accessToken == accessToken
  {
    CustomerAuth(uuid, customer, accessToken, now, Some(now + EIGHT_HOURS_IN_MILLIS), None)
  }

  /** A fresh session validates exactly during the eight hours after login, ends included. */
  lemma NewSessionWindow(sessions: map<string, CustomerAuth>, uuid: string, customer: nat, accessToken: string,
                         now: int, t: int)
    ensures var auth := NewSession(uuid, customer, accessToken, now);
            ValidateCustomerAuthorization(sessions[accessToken := auth], Some(accessToken), t)
            == if now <= t <= now + 28_800_000 then Success(auth) else Failure(ATHR_003)
  {
  }

  /** The boundaries of the window: the last valid millisecond and the first expired ones. */
  lemma NewSessionBoundaries(sessions: map<string, CustomerAuth>, uuid: string, customer: nat, accessToken: string,
                             now: int)
    ensures var s := sessions[accessToken := NewSession(uuid, customer, accessToken, now)];
            && ValidateCustomerAuthorization(s, Some(accessToken), now).Success?
            && ValidateCustomerAuthorization(s, Some(accessToken), now + 28_800_000).Success?
            && ValidateCustomerAuthorization(s, Some(accessToken), now + 28_800_001) == Failure(ATHR_003)
            && ValidateCustomerAuthorization(s, Some(accessToken), now - 1) == Failure(ATHR_003)
  {
    NewSessionWindow(sessions, uuid, customer, accessToken, now, now);
    NewSessionWindow(sessions, uuid, customer, accessToken, now, now + 28_800_000);
    NewSessionWindow(sessions, uuid, customer, accessToken, now, now + 28_800_001);
    NewSessionWindow(sessions, uuid, customer, accessToken, now, now - 1);
  }

  /** A session both logged out and expired reports the logout. */
  lemma LoggedOutBeforeExpired(sessions: map<string, CustomerAuth>, accessToken: string, now: int)
    requires accessToken in sessions && sessions[accessToken].logoutAt.Some?
    requires !IsUserSessionValid(sessions[accessToken].expiresAt, now)
    ensures ValidateCustomerAuthorization(sessions, Some(accessToken), now) == Failure(ATHR_002)
  {
  }

  /** The sessions after logging out `accessToken` at `now`. */
  function LoggedOut(sessions: map<string, CustomerAuth>, accessToken: string, now: int): (s: map<string, CustomerAuth>)
    requires accessToken in sessions
    ensures s.Keys == sessions.Keys && s[accessToken].logoutAt == Some(now)
    ensures forall t :: t in sessions && t != accessToken ==> s[t] == sessions[t]
  {
    sessions[accessToken := sessions[accessToken].(logoutAt := Some(now))]
  }

  /**
   * Logout is one way: afterwards the token fails with ATHR-002 at every time, and every
   * other token validates as before.
   */
  lemma LogoutIsFinal(sessions: map<string, CustomerAuth>, accessToken: string, now: int, t: int)
    requires accessToken in sessions
    ensures ValidateCustomerAuthorization(LoggedOut(sessions, accessToken, now), Some(accessToken), t) == Failure(ATHR_002)
    ensures forall other :: other != accessToken ==>
      ValidateCustomerAuthorization(LoggedOut(sessions, accessToken, now), Some(other), t)
      == ValidateCustomerAuthorization(sessions, Some(other), t)
  {
  }

  // ---------------------------------------------------------------------------
  // Login

  /** The checks of `authenticate`, in order; on success the id of the matched customer. */
  function AuthenticateCheck(customers: seq<Customer>, contactNumber: Option<string>, password: Option<string>,
                             hash: (string, string) -> string): (r: Result<nat, ServiceError>)
    ensures r.Success? ==>
      && r.value < |customers|
      && contactNumber == Some(customers[r.value].contactNumber)
      && password.Some? && hash(password.value, customers[r.value].salt) == customers[r.value].password
    ensures r == Failure(ATH_003) <==> IsInValid(contactNumber) || IsInValid(password)
    ensures r == Failure(ATH_001) <==>
      && !IsInValid(contactNumber) && !IsInValid(password)
      && forall i :: 0 <= i < |customers| ==> customers[i].contactNumber != contactNumber.value
    ensures r.Failure? ==> r.error == ATH_001 || r.error == ATH_002 || r.error == ATH_003
    ensures r.Success? <==>
      && !IsInValid(contactNumber) && !IsInValid(password)
      && FindByContact(customers, contactNumber.value).Some?
      && var id := FindByContact(customers, contactNumber.value).value;
         hash(password.value, customers[id].salt) == customers[id].password
    ensures r.Success? ==> r.value == FindByContact(customers, contactNumber.value).value
  {
    if IsInValid(contactNumber) || IsInValid(password) then Failure(ATH_003)
    else match FindByContact(customers, contactNumber.value)
      case None => Failure(ATH_001)
      case Some(id) =>
        if hash(password.value, customers[id].salt) == customers[id].password then Success(id)
        else Failure(ATH_002)
  }

  /** With unique contact numbers a stored contact with the matching password logs in as that customer. */
  lemma MatchingPasswordAccepted(customers: seq<Customer>, id: nat, password: string, hash: (string, string) -> string)
    requires ContactsUnique(customers) && id < |customers|
    requires customers[id].contactNumber != "" && password != ""
    requires hash(password, customers[id].salt) == customers[id].password
    ensures AuthenticateCheck(customers, Some(customers[id].contactNumber), Some(password), hash) == Success(id)
  {
    FindByContactUnique(customers, id);
  }

  /** With unique contact numbers a wrong password for a stored contact is ATH-002. */
  lemma WrongPasswordRejected(customers: seq<Customer>, id: nat, password: string, hash: (string, string) -> string)
    requires ContactsUnique(customers) && id < |customers|
    requires customers[id].contactNumber != "" && password != ""
    requires hash(password, customers[id].salt) != customers[id].password
    ensures AuthenticateCheck(customers, Some(customers[id].contactNumber), Some(password), hash) == Failure(ATH_002)
  {
    FindByContactUnique(customers, id);
  }

  /** Round trip: a customer that signup stores can log in with the plaintext password it signed up with. */
  lemma SignupThenLogin(customers: seq<Customer>, customer: Customer, uuid: string, salt: string,
                        hash: (string, string) -> string)
    requires SignupCheck(customers, customer).None?
    ensures var stored := customers + [Registered(customers, customer, uuid, salt, hash)];
            AuthenticateCheck(stored, Some(customer.contactNumber), Some(customer.password), hash) == Success(|customers|)
  {
    var p := customer.password;
    var k :| 0 <= k < |p| && IsAsciiUpper(p[k]);
  }

  // ---------------------------------------------------------------------------
  // Password change

  /** The checks of `updateCustomerPassword`, in order: the new password first, then the old one. */
  function PasswordChangeCheck(customer: Customer, oldPassword: string, newPassword: string,
                               hash: (string, string) -> string): (r: Option<ServiceError>)
    ensures r == Some(UCR_001) <==> !IsStrongPassword(newPassword)
    ensures r == Some(UCR_004) <==> IsStrongPassword(newPassword) && hash(oldPassword, customer.salt) != customer.password
    ensures r.None? <==> IsStrongPassword(newPassword) && hash(oldPassword, customer.salt) == customer.password
  {
    if !IsStrongPassword(newPassword) then Some(UCR_001)
    else if hash(oldPassword, customer.salt) == customer.password then None
    else Some(UCR_004)
  }

  /** The row after a password change: new salt, and the new password hashed with it. */
  function Resalted(customer: Customer, newPassword: string, newSalt: string, hash: (string, string) -> string)
    : (c: Customer)
    ensures c.id == customer.id && c.contactNumber == customer.contactNumber && c.salt == newSalt
    ensures c.password == hash(newPassword, newSalt)
  {
    customer.(salt := newSalt, password := hash(newPassword, newSalt))
  }

  /** After a password change the customer logs in with the new password. */
  lemma PasswordChangeThenLogin(customers: seq<Customer>, id: nat, oldPassword: string, newPassword: string,
                                newSalt: string, hash: (string, string) -> string)
    requires ContactsUnique(customers) && id < |customers| && customers[id].contactNumber != ""
    requires PasswordChangeCheck(customers[id], oldPassword, newPassword, hash).None?
    ensures var stored := customers[id := Resalted(customers[id], newPassword, newSalt, hash)];
            AuthenticateCheck(stored, Some(customers[id].contactNumber), Some(newPassword), hash) == Success(id)
  {
    var stored := customers[id := Resalted(customers[id], newPassword, newSalt, hash)];
    assert ContactsUnique(stored) by {
      forall i, j | 0 <= i < j < |stored| ensures stored[i].contactNumber != stored[j].contactNumber {
        assert stored[i].contactNumber == customers[i].contactNumber;
        assert stored[j].contactNumber == customers[j].contactNumber;
      }
    }
    FindByContactUnique(stored, id);
    var k :| 0 <= k < |newPassword| && IsAsciiUpper(newPassword[k]);
  }

  // ---------------------------------------------------------------------------
  // The service

  class CustomerService {
    /** The password hash `encrypt(plaintext, salt)`. */
    const hash: (string, string) -> string
    /** The customer table; a customer's id is its index. */
    var customers: seq<Customer>
    /** The customer_auth table, keyed by access token. */
    var sessions: map<string, CustomerAuth>

    /**
     * Contact numbers are unique and well formed, ids are indices, and every session
     * is stored under its own token and belongs to a stored customer.
     */
    ghost predicate Valid()
      reads this
    {
      && ContactsUnique(customers)
      && (forall i :: 0 <= i < |customers| ==> customers[i].id == i && !IsInValidContactNumber(customers[i].contactNumber))
      && (forall token :: token in sessions ==> sessions[token].accessToken == token && sessions[token].customer < |customers|)
    }

    constructor (hash: (string, string) -> string)
      ensures Valid() && this.hash == hash && customers == [] && sessions == map[]
    {
      this.hash := hash;
      customers := [];
      sessions := map[];
    }

    /**
     * `saveCustomer`: on a failed check nothing changes; otherwise the customer is stored
     * with a new id, a fresh uuid, the salt and the salted hash of its password.
     */
    method SaveCustomer(customer: Customer, uuid: string, salt: string) returns (r: Result<Customer, ServiceError>)
      requires Valid()
      modifies this
      ensures Valid() && sessions == old(sessions)
      ensures SignupCheck(old(customers), customer).Some? ==>
        r == Failure(SignupCheck(old(customers), customer).value) && customers == old(customers)
      ensures SignupCheck(old(customers), customer).None? ==>
        && r == Success(Registered(old(customers), customer, uuid, salt, hash))
        && customers == old(customers) + [r.value]
    {
      var check := SignupCheck(customers, customer);
      if check.Some? {
        return Failure(check.value);
      }
      var stored := Registered(customers, customer, uuid, salt, hash);
      customers := customers + [stored];
      r := Success(stored);
    }

    /**
     * `authenticate`: on a failed check nothing changes; otherwise exactly one session is
     * added, for the matched customer, from `now` to eight hours later, not logged out.
     */
    method Authenticate(contactNumber: Option<string>, password: Option<string>, now: int,
                        authUuid: string, accessToken: string) returns (r: Result<CustomerAuth, ServiceError>)
      requires Valid() && accessToken !in sessions
      modifies this
      ensures Valid() && customers == old(customers)
      ensures AuthenticateCheck(old(customers), contactNumber, password, hash).Failure? ==>
        r == Failure(AuthenticateCheck(old(customers), contactNumber, password, hash).error) && sessions == old(sessions)
      ensures AuthenticateCheck(old(customers), contactNumber, password, hash).Success? ==>
        && r == Success(NewSession(authUuid, AuthenticateCheck(old(customers), contactNumber, password, hash).value,
                                   accessToken, now))
        && sessions == old(sessions)[accessToken := r.value]
    {
      var check := AuthenticateCheck(customers, contactNumber, password, hash);
      if check.Failure? {
        return Failure(check.error);
      }
      var customerAuth := NewSession(authUuid, check.value, accessToken, now);
      sessions := sessions[accessToken := customerAuth];
      r := Success(customerAuth);
    }

    /**
     * `logout`: validates the token first and changes nothing on failure; otherwise sets
     * `logoutAt` on that session only.
     */
    method Logout(accessToken: Option<string>, now: int) returns (r: Result<CustomerAuth, ServiceError>)
      requires Valid()
      modifies this
      ensures Valid() && customers == old(customers)
      ensures ValidateCustomerAuthorization(old(sessions), accessToken, now).Failure? ==>
        r == ValidateCustomerAuthorization(old(sessions), accessToken, now) && sessions == old(sessions)
      ensures ValidateCustomerAuthorization(old(sessions), accessToken, now).Success? ==>
        && sessions == LoggedOut(old(sessions), accessToken.value, now)
        && r == Success(sessions[accessToken.value])
    {
      var check := ValidateCustomerAuthorization(sessions, accessToken, now);
      if check.Failure? {
        return check;
      }
      sessions := LoggedOut(sessions, accessToken.value, now);
      r := Success(sessions[accessToken.value]);
    }

    /** `getCustomer`: the customer of a valid session, or the validation error. */
    function GetCustomer(accessToken: Option<string>, now: int): (r: Result<Customer, ServiceError>)
      reads this
      requires Valid()
      ensures ValidateCustomerAuthorization(sessions, accessToken, now).Failure? ==>
        r == Failure(ValidateCustomerAuthorization(sessions, accessToken, now).error)
      ensures ValidateCustomerAuthorization(sessions, accessToken, now).Success? ==>
        r == Success(customers[ValidateCustomerAuthorization(sessions, accessToken, now).value.customer])
    {
      match ValidateCustomerAuthorization(sessions, accessToken, now)
      case Failure(e) => Failure(e)
      case Success(customerAuth) => Success(customers[customerAuth.customer])
    }

    /** `updateCustomer`: merges the row; callers change only the name fields. */
    method UpdateCustomer(customerToUpdate: Customer) returns (r: Customer)
      requires Valid()
      requires customerToUpdate.id < |customers|
      requires customerToUpdate.contactNumber == customers[customerToUpdate.id].contactNumber
      modifies this
      ensures Valid() && sessions == old(sessions)
      ensures customers == old(customers)[customerToUpdate.id := customerToUpdate] && r == customerToUpdate
    {
      customers := customers[customerToUpdate.id := customerToUpdate];
      r := customerToUpdate;
    }

    /**
     * `updateCustomerPassword`: a weak new password, then a wrong old password, leave the
     * row unchanged; otherwise its salt and hash are replaced.
     */
    method UpdateCustomerPassword(oldPassword: string, newPassword: string, customerToUpdate: Customer, newSalt: string)
      returns (r: Result<Customer, ServiceError>)
      requires Valid()
      requires customerToUpdate.id < |customers| && customers[customerToUpdate.id] == customerToUpdate
      modifies this
      ensures Valid() && sessions == old(sessions)
      ensures PasswordChangeCheck(customerToUpdate, oldPassword, newPassword, hash).Some? ==>
        r == Failure(PasswordChangeCheck(customerToUpdate, oldPassword, newPassword, hash).value)
        && customers == old(customers)
      ensures PasswordChangeCheck(customerToUpdate, oldPassword, newPassword, hash).None? ==>
        && r == Success(Resalted(customerToUpdate, newPassword, newSalt, hash))
        && customers == old(customers)[customerToUpdate.id := r.value]
    {
      var check := PasswordChangeCheck(customerToUpdate, oldPassword, newPassword, hash);
      if check.Some? {
        return Failure(check.value);
      }
      var updated := Resalted(customerToUpdate, newPassword, newSalt, hash);
      customers := customers[customerToUpdate.id := updated];
      r := Success(updated);
    }
  }
}
