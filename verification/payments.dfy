/** Payment gating: the payment request schema, creating a gateway order for a pending booking, and
    verifying the gateway's signature, which confirms the booking and marks it paid. The gateway
    call and HMAC-SHA256 are parameters. */
module Payments {
  import opened Wrappers
  import opened BookingModel
  import opened PaymentModel
  import Joi
  import BookingValidation
  import Seqs

  /** `paymentValidationSchema` */
  const PaymentSchema: Joi.Schema := [
    Joi.KeySpec("booking", true, BookingValidation.HexId, [("string.length", "Invalid Booking ID")]),
    Joi.KeySpec("amount", true, Joi.Number(Some(1)), [("number.min", "Amount must be at least 1")])
  ]

  /** A payable request: a 24-hex booking id, an amount of at least 1, no other key. */
  predicate WellFormedPaymentRequest(body: Joi.Body)
  {
    && Joi.TextOf(body, "booking").Some? && BookingValidation.IsObjectIdText(Joi.TextOf(body, "booking").value)
    && Joi.NumberOf(body, "amount").Some? && Joi.NumberOf(body, "amount").value >= 1
    && (forall i :: 0 <= i < |body| ==> body[i].0 == "booking" || body[i].0 == "amount")
  }

  /** The schema accepts exactly the payable requests; both keys are required. */
  lemma PaymentSchemaIff(env: Joi.Env, body: Joi.Body)
    ensures Joi.Accepts(env, PaymentSchema, body) <==> WellFormedPaymentRequest(body)
  {
    var s := PaymentSchema;
    assert Joi.Keys(s) == {"booking", "amount"} by {
      assert s[0].key == "booking" && s[1].key == "amount";
    }
    assert s[0] == Joi.KeySpec("booking", true, BookingValidation.HexId, [("string.length", "Invalid Booking ID")]);
    assert s[1] == Joi.KeySpec("amount", true, Joi.Number(Some(1)), [("number.min", "Amount must be at least 1")]);
  }

  /** With a good booking id, an amount below 1 is the first failure, reported with the schema's message. */
  lemma SmallAmountMessage(env: Joi.Env, body: Joi.Body)
    requires Joi.TextOf(body, "booking").Some? && BookingValidation.IsObjectIdText(Joi.TextOf(body, "booking").value)
    requires Joi.NumberOf(body, "amount").Some? && Joi.NumberOf(body, "amount").value < 1
    ensures Joi.FirstViolation(env, PaymentSchema, body).Some?
    ensures Joi.FirstViolation(env, PaymentSchema, body).value.message == "Amount must be at least 1"
  {
    var s := PaymentSchema;
    var v := AmountTooSmall(env, body);
    BookingKeyClean(env, body);
    assert s[1..][1..] == [];
    assert Joi.SchemaViolations(env, s[1..], body) == [v] + Joi.SchemaViolations(env, s[1..][1..], body);
    assert Joi.SchemaViolations(env, s, body) == [] + Joi.SchemaViolations(env, s[1..], body);
    assert Joi.Validate(env, s, body)[0] == v;
  }

  /** A 24-hex booking id draws no failure. */
  lemma BookingKeyClean(env: Joi.Env, body: Joi.Body)
    requires Joi.TextOf(body, "booking").Some? && BookingValidation.IsObjectIdText(Joi.TextOf(body, "booking").value)
    ensures Joi.KeyViolations(env, PaymentSchema[0], Joi.Lookup(body, "booking")) == []
  {
    var spec := PaymentSchema[0];
    assert spec.rule == BookingValidation.HexId;
    BookingValidation.HexIdIff(env, spec, Joi.Lookup(body, "booking").value);
    Joi.KeyViolationsEmptyIff(env, spec, Joi.Lookup(body, "booking"));
  }

  /** An amount below 1 draws exactly the minimum failure, with the schema's message. */
  lemma AmountTooSmall(env: Joi.Env, body: Joi.Body) returns (v: Joi.Violation)
    requires Joi.NumberOf(body, "amount").Some? && Joi.NumberOf(body, "amount").value < 1
    ensures Joi.KeyViolations(env, PaymentSchema[1], Joi.Lookup(body, "amount")) == [v]
    ensures v.message == "Amount must be at least 1"
  {
    var spec := PaymentSchema[1];
    assert spec == Joi.KeySpec("amount", true, Joi.Number(Some(1)), [("number.min", "Amount must be at least 1")]);
    v := Joi.Violate("amount", Joi.NumberMin(1), spec.overrides);
    assert Joi.CodeName(Joi.NumberMin(1)) == "number.min";
  }

  /** The gateway credentials from the environment; an unset variable is absent. */
  datatype GatewayKeys = GatewayKeys(keyId: Option<string>, keySecret: Option<string>)

  /** Both keys set and non-empty, as the order endpoint's guard demands. */
  predicate KeysPresent(k: GatewayKeys)
  {
    k.keyId.Some? && k.keyId.value != "" && k.keySecret.Some? && k.keySecret.value != ""
  }

  /** The client's reply: the gateway order id, the public key and the amount in paise. */
  datatype Order = Order(orderId: string, key: string, amount: int)

  const KeysMissing: string := "Razorpay keys are missing. Check .env file"
  const NotPayable: string := "Payment already done or booking not payable"

  /** The amount the gateway is asked for: rupees to paise. */
  function GatewayAmount(amount: int): int
  {
    amount * 100
  }

  const OrderFailed: string := "Failed to create payment order"

  /** `createOrder`: validation (the first failure, 400), the key guard (500), the booking (404),
      its status (400), then the order and a payment record in state "created". `orderId` is what
      the gateway answers, `None` when the order call or the save of the record throws (500, nothing
      stored), and `paymentId` is the id of the new record. */
  function CreateOrder(env: Joi.Env, keys: GatewayKeys, store: Store, payments: seq<Payment>, caller: Id,
                       body: Joi.Body, orderId: Option<string>, paymentId: Id): (r: (Reply<Order>, seq<Payment>))
    ensures r.0.Fail? ==> r.1 == payments
    ensures !Joi.Accepts(env, PaymentSchema, body) ==>
              && Joi.FirstViolation(env, PaymentSchema, body).Some?
              && r.0 == Fail(400, Joi.FirstViolation(env, PaymentSchema, body).value.message)
    ensures Joi.Accepts(env, PaymentSchema, body) && !KeysPresent(keys) ==> r.0 == Fail(500, KeysMissing)
    ensures var payable := && Joi.Accepts(env, PaymentSchema, body) && KeysPresent(keys)
                           && FindById(store, Joi.TextOf(body, "booking").value).Some?
                           && store[FindById(store, Joi.TextOf(body, "booking").value).value].status == Pending;
            && (r.0.Ok? <==> payable && orderId.Some?)
            && (payable && orderId.None? ==> r.0 == Fail(500, OrderFailed))
    ensures r.0.Ok? ==> && WellFormedPaymentRequest(body)
                        && r.0.body == Order(orderId.value, keys.keyId.value, GatewayAmount(Joi.NumberOf(body, "amount").value))
                        && r.1 == payments + [Payment(paymentId, Joi.TextOf(body, "booking").value, caller,
                                                      Some(Joi.NumberOf(body, "amount").value), orderId, None, None, Created)]
  {
    match Joi.FirstViolation(env, PaymentSchema, body)
    case Some(v) => (Fail(400, v.message), payments)
    case None =>
      PaymentSchemaIff(env, body);
      if !KeysPresent(keys) then (Fail(500, KeysMissing), payments)
      else
        var bookingId := Joi.TextOf(body, "booking").value;
        var amount := Joi.NumberOf(body, "amount").value;
        match FindById(store, bookingId)
        case None => (Fail(404, "Booking not found"), payments)
        case Some(i) =>
          if store[i].status != Pending then (Fail(400, NotPayable), payments)
          else
            match orderId
            case None => (Fail(500, OrderFailed), payments)
            case Some(id) =>
              (Ok(200, Order(id, keys.keyId.value, GatewayAmount(amount))),
               payments + [Payment(paymentId, store[i].id, caller, Some(amount), Some(id), None, None, Created)])
  }

  /** Any order created asks the gateway for at least 100 paise, and for 100 times the validated amount. */
  lemma GatewayAmountAtLeast100(env: Joi.Env, keys: GatewayKeys, store: Store, payments: seq<Payment>, caller: Id,
                                body: Joi.Body, orderId: Option<string>, paymentId: Id)
    requires CreateOrder(env, keys, store, payments, caller, body, orderId, paymentId).0.Ok?
    ensures var order := CreateOrder(env, keys, store, payments, caller, body, orderId, paymentId).0.body;
            order.amount >= 100 && order.amount % 100 == 0
  {
    PaymentSchemaIff(env, body);
  }

  /** The text the gateway signs: order id, a bar, payment id. */
  function SignedText(orderId: string, paymentId: string): (t: string)
    ensures |t| == |orderId| + 1 + |paymentId|
    ensures t[..|orderId|] == orderId && t[|orderId|] == '|' && t[|orderId| + 1..] == paymentId
  {
    orderId + "|" + paymentId
  }

  const VerificationFailed: string := "Payment verification failed"
  const PaymentRecordNotFound: string := "Payment record not found"
  const Verified: string := "Payment verified & booking confirmed"

  /** `verifyPayment`: `hmac(secret, text)` stands for HMAC-SHA256 in hex. An unset secret makes the
      HMAC throw (500); a signature that differs is refused (400); an unknown order is 404. Otherwise
      the payment becomes "success" and its booking, if it still exists, confirmed and paid. */
  function VerifyPayment(hmac: (string, string) -> string, keys: GatewayKeys, store: Store, payments: seq<Payment>,
                         orderId: string, paymentId: string, signature: Option<string>): (r: (Reply<string>, Store, seq<Payment>))
    ensures r.0.Fail? ==> r.1 == store && r.2 == payments
    ensures keys.keySecret.None? ==> r.0.Fail? && r.0.status == 500
    ensures keys.keySecret.Some? && signature != Some(hmac(keys.keySecret.value, SignedText(orderId, paymentId))) ==>
              r.0 == Fail(400, VerificationFailed)
    ensures r.0.Ok? ==> && keys.keySecret.Some?
                        && signature == Some(hmac(keys.keySecret.value, SignedText(orderId, paymentId)))
                        && r.0.body == Verified
    ensures r.0.Ok? <==> && keys.keySecret.Some?
                         && signature == Some(hmac(keys.keySecret.value, SignedText(orderId, paymentId)))
                         && exists k :: 0 <= k < |payments| && payments[k].razorpayOrderId == Some(orderId)
    ensures r.0.Ok? ==> exists k :: 0 <= k < |payments| && payments[k].razorpayOrderId == Some(orderId)
                                  && (forall j :: 0 <= j < k ==> payments[j].razorpayOrderId != Some(orderId))
                                  && r.2 == payments[k := Succeed(payments[k], paymentId, signature.value)]
                                  && r.1 == Seqs.UpdateFirst(store, (b: Booking) => b.id == payments[k].booking, ConfirmPaid).1
  {
    if keys.keySecret.None? then (Fail(500, "The \"key\" argument must be of type string"), store, payments)
    else if signature != Some(hmac(keys.keySecret.value, SignedText(orderId, paymentId))) then
      (Fail(400, VerificationFailed), store, payments)
    else
      match Seqs.FirstIndex(payments, (p: Payment) => p.razorpayOrderId == Some(orderId))
      case None => (Fail(404, PaymentRecordNotFound), store, payments)
      case Some(k) =>
        var paid := Succeed(payments[k], paymentId, signature.value);
        var (_, next) := Seqs.UpdateFirst(store, (b: Booking) => b.id == payments[k].booking, ConfirmPaid);
        (Ok(200, Verified), next, payments[k := paid])
  }

  /** The payment record after a verified signature. */
  function Succeed(p: Payment, paymentId: string, signature: string): (q: Payment)
    ensures q.status == Succeeded && q.razorpayPaymentId == Some(paymentId) && q.razorpaySignature == Some(signature)
    ensures q.(status := p.status, razorpayPaymentId := p.razorpayPaymentId, razorpaySignature := p.razorpaySignature) == p
  {
    p.(razorpayPaymentId := Some(paymentId), razorpaySignature := Some(signature), status := Succeeded)
  }

  /** The booking after a verified payment: confirmed and paid, whatever its status was. */
  function ConfirmPaid(b: Booking): (c: Booking)
    ensures c.status == Confirmed && c.paymentStatus == Paid
    ensures c.(status := b.status, paymentStatus := b.paymentStatus) == b
  {
    b.(status := Confirmed, paymentStatus := Paid)
  }

  /** A verified payment confirms its booking from any status, even a cancelled one, when it exists;
      a booking that no longer exists is passed over and the reply is still a success. */
  lemma VerifiedPaymentConfirms(hmac: (string, string) -> string, keys: GatewayKeys, store: Store, payments: seq<Payment>,
                                orderId: string, paymentId: string, signature: Option<string>)
    requires VerifyPayment(hmac, keys, store, payments, orderId, paymentId, signature).0.Ok?
    ensures var r := VerifyPayment(hmac, keys, store, payments, orderId, paymentId, signature);
            exists k :: 0 <= k < |payments| && payments[k].razorpayOrderId == Some(orderId)
              && ((exists i :: 0 <= i < |store| && store[i].id == payments[k].booking
                     && r.1[i].status == Confirmed && r.1[i].paymentStatus == Paid)
                  || (r.1 == store && forall i :: 0 <= i < |store| ==> store[i].id != payments[k].booking))
  {
    var r := VerifyPayment(hmac, keys, store, payments, orderId, paymentId, signature);
    var k := Seqs.FirstIndex(payments, (p: Payment) => p.razorpayOrderId == Some(orderId)).value;
    var u := Seqs.UpdateFirst(store, (b: Booking) => b.id == payments[k].booking, ConfirmPaid);
    assert r.1 == u.1;
    if u.0.Some? {
      var i :| 0 <= i < |store| && store[i].id == payments[k].booking && u.1 == store[i := ConfirmPaid(store[i])];
      assert r.1[i] == ConfirmPaid(store[i]);
    }
  }
}
