/**
 * PaymentService: the payment methods and the lookup of one by uuid.
 *
 * The payment table is a sequence in the order the query returns its rows; the by-uuid query looks the uuid up.
 */
module Payments {
  import opened Wrappers
  import opened ServiceErrors
  import opened Entities

  /** `getAllPaymentMethods`: the payment table as stored, every row in order. */
  function GetAllPaymentMethods(payments: seq<Payment>): (r: seq<Payment>)
    ensures |r| == |payments| && forall i :: 0 <= i < |r| ==> r[i] == payments[i]
  {
    payments
  }

  /** The payment stored under a uuid, if any. */
  function PaymentWithUuid(payments: seq<Payment>, paymentUuid: string): (r: Option<Payment>)
    ensures r.None? <==> forall i :: 0 <= i < |payments| ==> payments[i].uuid != paymentUuid
    ensures r.Some? ==> r.value in payments && r.value.uuid == paymentUuid
  {
    if payments == [] then None
    else if payments[0].uuid == paymentUuid then Some(payments[0])
    else PaymentWithUuid(payments[1..], paymentUuid)
  }

  /**
   * `getPaymentByUUID`: the stored payment with that uuid; PNF-002 for an absent uuid
   * or one no payment has.
   */
  function GetPaymentByUUID(payments: seq<Payment>, paymentUuid: Option<string>): (r: Result<Payment, ServiceError>)
    ensures r.Failure? <==> paymentUuid.None? || forall i :: 0 <= i < |payments| ==> payments[i].uuid != paymentUuid.value
    ensures r.Failure? ==> r.error == PNF_002
    ensures r.Success? ==> r.value in payments && r.value.uuid == paymentUuid.value
  {
    if paymentUuid.None? then Failure(PNF_002)
    else
      match PaymentWithUuid(payments, paymentUuid.value)
      case None => Failure(PNF_002)
      case Some(payment) => Success(payment)
  }

  /** Every listed payment method can be looked up by its uuid. */
  lemma ListedPaymentFound(payments: seq<Payment>, i: nat)
    requires i < |payments|
    ensures GetPaymentByUUID(payments, Some(GetAllPaymentMethods(payments)[i].uuid)).Success?
  {
  }
}
