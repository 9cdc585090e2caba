/**
 * AddressService: saving, looking up and deleting a customer's addresses.
 *
 * The address table and the customer_address table are maps keyed by address uuid; a
 * customer_address row is reduced to the id of its customer, which may be null
 * (`None`). The state table is a map keyed by state uuid.
 */
module Addresses {
  import opened Wrappers
  import opened ServiceErrors
  import opened FoodOrderingUtil
  import opened Entities

  /** The checks of `saveAddress`, in order: a missing field, then the pin code. */
  function SaveAddressCheck(address: Address): (r: Option<ServiceError>)
    ensures r.None? <==>
      && address.flatBuilNo.Some? && address.flatBuilNo.value != ""
      && address.locality.Some? && address.locality.value != ""
      && address.city.Some? && address.city.value != ""
      && address.pincode.Some? && |address.pincode.value| == 6
      && (forall i :: 0 <= i < 6 ==> IsAsciiDigit(address.pincode.value[i]))
      && address.state.Some?
    ensures r == Some(SAR_001) <==>
      IsInValid(address.flatBuilNo) || IsInValid(address.locality) || IsInValid(address.city)
      || IsInValid(address.pincode) || address.state.None?
    ensures r.Some? ==> r.value == SAR_001 || r.value == SAR_002
  {
    if IsInValid(address.flatBuilNo) || IsInValid(address.locality) || IsInValid(address.city)
       || IsInValid(address.pincode) || address.state.None?
    then Some(SAR_001)
    else if IsInvalidPinCode(address.pincode.value) then Some(SAR_002)
    else None
  }

  /** A six-digit pin code with every other field filled passes; a five-digit one is SAR-002. */
  lemma PinCodeExamples(address: Address)
    requires !IsInValid(address.flatBuilNo) && !IsInValid(address.locality) && !IsInValid(address.city)
    requires address.state.Some?
    ensures SaveAddressCheck(address.(pincode := Some("560001"))).None?
    ensures SaveAddressCheck(address.(pincode := Some("56001"))) == Some(SAR_002)
    ensures SaveAddressCheck(address.(pincode := Some(""))) == Some(SAR_001)
  {
    var good := "560001";
    assert forall i :: 0 <= i < 6 ==> IsAsciiDigit(good[i]);
  }

  class AddressService {
    /** The address table, keyed by uuid. */
    var addresses: map<string, Address>
    /** The customer_address table, keyed by address uuid: the owning customer's id, or null. */
    var owners: map<string, Option<nat>>
    /** The state table, keyed by uuid. */
    var states: map<string, State>

    /** Rows are stored under their own uuid, and every link names a stored address. */
    ghost predicate Valid()
      reads this
    {
      && (forall uuid :: uuid in addresses ==> addresses[uuid].uuid == uuid)
      && (forall uuid :: uuid in states ==> states[uuid].uuid == uuid)
      && owners.Keys <= addresses.Keys
    }

    constructor (states: map<string, State>)
      requires forall uuid :: uuid in states ==> states[uuid].uuid == uuid
      ensures Valid() && this.states == states && addresses == map[] && owners == map[]
    {
      this.states := states;
      addresses := map[];
      owners := map[];
    }

    /**
     * `saveAddress`: on a failed check nothing changes; otherwise the address gets the
     * fresh uuid and `active = 1`, is stored, and is returned.
     */
    method SaveAddress(address: Address, uuid: string) returns (r: Result<Address, ServiceError>)
      requires Valid() && uuid !in addresses
      modifies this
      ensures Valid() && owners == old(owners) && states == old(states)
      ensures SaveAddressCheck(address).Some? ==>
        r == Failure(SaveAddressCheck(address).value) && addresses == old(addresses)
      ensures SaveAddressCheck(address).None? ==>
        && r == Success(address.(uuid := uuid, active := 1))
        && addresses == old(addresses)[uuid := r.value]
    {
      var check := SaveAddressCheck(address);
      if check.Some? {
        return Failure(check.value);
      }
      var saved := address.(uuid := uuid, active := 1);
      addresses := addresses[uuid := saved];
      r := Success(saved);
    }

    /** `saveCustomerAddress`: links a stored address to its customer. */
    method SaveCustomerAddress(customer: Option<nat>, addressUuid: string)
      requires Valid() && addressUuid in addresses
      modifies this
      ensures Valid() && addresses == old(addresses) && states == old(states)
      ensures owners == old(owners)[addressUuid := customer]
      ensures addressUuid != "" && customer.Some? ==>
        GetAddressByUUID(Some(addressUuid), customer.value) == Success(addresses[addressUuid])
    {
      owners := owners[addressUuid := customer];
    }

    /** `getStateByUUID`: the state with that uuid, or ANF-002. */
    function GetStateByUUID(stateUuid: string): (r: Result<State, ServiceError>)
      reads this
      requires Valid()
      ensures r.Success? <==> stateUuid in states
      ensures r.Success? ==> r.value == states[stateUuid] && r.value.uuid == stateUuid
      ensures r.Failure? ==> r.error == ANF_002
    {
      if stateUuid in states then Success(states[stateUuid]) else Failure(ANF_002)
    }

    /**
     * `getAddressByUUID`: an empty id, then an unknown address, then an address that is
     * not linked or linked to another customer. A link with no customer passes.
     */
    function GetAddressByUUID(addressUuid: Option<string>, loggedCustomer: nat): (r: Result<Address, ServiceError>)
      reads this
      requires Valid()
      ensures r == Failure(ANF_005) <==> IsInValid(addressUuid)
      ensures r == Failure(ANF_003) <==> !IsInValid(addressUuid) && addressUuid.value !in addresses
      ensures r == Failure(ATHR_004) <==>
        && !IsInValid(addressUuid) && addressUuid.value in addresses
        && (addressUuid.value !in owners || owners[addressUuid.value] !in {None, Some(loggedCustomer)})
      ensures r.Success? <==>
        && !IsInValid(addressUuid) && addressUuid.value in addresses
        && addressUuid.value in owners && owners[addressUuid.value] in {None, Some(loggedCustomer)}
      ensures r.Success? ==>
        && addressUuid.Some? && addressUuid.value in addresses && r.value == addresses[addressUuid.value]
        && addressUuid.value in owners && owners[addressUuid.value] in {None, Some(loggedCustomer)}
    {
      if IsInValid(addressUuid) then Failure(ANF_005)
      else if addressUuid.value !in addresses then Failure(ANF_003)
      else if addressUuid.value !in owners
              || (owners[addressUuid.value].Some? && owners[addressUuid.value].value != loggedCustomer)
      then Failure(ATHR_004)
      else Success(addresses[addressUuid.value])
    }

    /**
     * `deleteAddress`: an address with `active == 1` is removed together with its link
     * (the link cascades on delete); any other address is returned and nothing changes.
     */
    method DeleteAddress(address: Address) returns (r: Address)
      requires Valid() && address.uuid in addresses && addresses[address.uuid] == address
      modifies this
      ensures Valid() && states == old(states) && r == address
      ensures address.active == 1 ==>
        addresses == old(addresses) - {address.uuid} && owners == old(owners) - {address.uuid}
      ensures address.active != 1 ==> addresses == old(addresses) && owners == old(owners)
      ensures address.active == 1 ==>
        address.uuid != "" ==>
          forall customer: nat :: GetAddressByUUID(Some(address.uuid), customer) == Failure(ANF_003)
    {
      if address.active == 1 {
        addresses := addresses - {address.uuid};
        owners := owners - {address.uuid};
      }
      r := address;
    }
  }

  /** Ownership: an address linked to a customer is returned to that customer only. */
  lemma OwnerOnly(service: AddressService, addressUuid: string, c1: nat, c2: nat)
    requires service.Valid() && c1 != c2
    requires service.GetAddressByUUID(Some(addressUuid), c1).Success?
    requires service.GetAddressByUUID(Some(addressUuid), c2).Success?
    ensures service.owners[addressUuid].None?
  {
  }
}
