/** The client's booking endpoints: create (validated, overlap-checked, then saved through the
    guard), update while pending, cancel, and record a payment. */
module ClientBookings {
  import opened Wrappers
  import opened BookingModel
  import Joi
  import BookingValidation
  import Overlap
  import PaymentModel
  import Seqs

  const ConflictError: string := "Scheduling Conflict"

  /** The document `createBooking` builds from a validated request: the caller as client, status
      "pending", unpaid, the package defaulting to "gold". `newId` is the id the store assigns and
      `now` the creation time. */
  function NewBooking(req: BookingValidation.CreateRequest, caller: Id, newId: Id, now: int): (b: Booking)
    ensures b.id == newId && b.clientId == caller && b.photographerId == Some(req.photographerId)
    ensures b.status == Pending && b.paymentStatus == Unpaid
    ensures b.package == (if req.package.Some? then req.package.value else DefaultPackage)
  {
    Booking(newId, caller, Some(req.photographerId), req.eventDate, req.startTime, req.endTime,
            req.eventType, None, Some(req.location),
            if req.package.Some? then req.package.value else DefaultPackage,
            None, req.notes, Unpaid, Pending, now)
  }

  /** The unique `_id` index refusing an insert whose id is taken. */
  const DuplicateIdError: string := "E11000 duplicate key error"

  /** The part of `createBooking` after validation: the controller's overlap check, then `save()` of
      a new document. Its `pre('save')` guard checks again, excluding the new id; then the insert
      itself is refused when a stored booking already has that id. Either refusal is a 500. */
  function CreateFrom(store: Store, req: BookingValidation.CreateRequest, caller: Id, newId: Id, now: int): (r: (Reply<Booking>, Store))
    ensures r.0.Fail? ==> r.1 == store
    ensures Overlap.CheckOverlap(store, Some(req.photographerId), req.eventDate, req.startTime, req.endTime, None) ==>
              r.0 == Fail(400, ConflictError)
    ensures FindById(store, newId).Some? ==> r.0.Fail? && r.0.status in {400, 500}
    ensures FindById(store, newId).Some?
            && !Overlap.CheckOverlap(store, Some(req.photographerId), req.eventDate, req.startTime, req.endTime, None)
            ==> r.0.Fail? && r.0.status == 500
    ensures r.0.Ok? <==> FindById(store, newId).None?
                         && !Overlap.CheckOverlap(store, Some(req.photographerId), req.eventDate, req.startTime, req.endTime, None)
    ensures r.0.Ok? ==> r.0 == Ok(201, NewBooking(req, caller, newId, now)) && r.1 == store + [r.0.body]
  {
    if Overlap.CheckOverlap(store, Some(req.photographerId), req.eventDate, req.startTime, req.endTime, None) then
      (Fail(400, ConflictError), store)
    else
      var b := NewBooking(req, caller, newId, now);
      FreshIdChecksAlike(store, b);
      match Overlap.Save(store, b, true)
      case Failure(message) => (Fail(500, message), store)
      case Success(saved) =>
        if FindById(store, newId).Some? then (Fail(500, DuplicateIdError), store)
        else (Ok(201, b), saved)
  }

  /** Creating a booking for a free slot adds it after the others; a second request with the same
      id is refused by the index and stores nothing more. */
  lemma CreateTwiceRefused(store: Store, req: BookingValidation.CreateRequest, caller: Id, newId: Id, now: int, later: int)
    requires CreateFrom(store, req, caller, newId, now).0.Ok?
    ensures var once := CreateFrom(store, req, caller, newId, now).1;
            && |once| == |store| + 1
            && CreateFrom(once, req, caller, newId, later).0.Fail?
            && CreateFrom(once, req, caller, newId, later).1 == once
  {
    var once := CreateFrom(store, req, caller, newId, now).1;
    assert once[|store|].id == newId;
    assert FindById(once, newId).Some?;
  }

  /** `createBooking`: a request the schema rejects is answered 400 with the first violation's
      message and stores nothing; an accepted one goes on to `CreateFrom`. */
  function CreateBooking(env: Joi.Env, store: Store, caller: Id, body: Joi.Body, newId: Id): (r: (Reply<Booking>, Store))
    ensures r.0.Fail? ==> r.1 == store
    ensures !Joi.Accepts(env, BookingValidation.CreateBookingSchema, body) ==>
              && Joi.FirstViolation(env, BookingValidation.CreateBookingSchema, body).Some?
              && r.0 == Fail(400, Joi.FirstViolation(env, BookingValidation.CreateBookingSchema, body).value.message)
    ensures Joi.Accepts(env, BookingValidation.CreateBookingSchema, body) ==>
              r == CreateFrom(store, BookingValidation.ValidateCreateBooking(env, body).value, caller, newId, env.now)
    ensures r.0.Ok? ==> Joi.Accepts(env, BookingValidation.CreateBookingSchema, body) && r.0.body.clientId == caller
  {
    var v := BookingValidation.ValidateCreateBooking(env, body);
    if v.Failure? then (Fail(400, v.error), store)
    else CreateFrom(store, v.value, caller, newId, env.now)
  }

  /** For a fresh id the guard's check (excluding that id) answers as the controller's check did. */
  lemma FreshIdChecksAlike(store: Store, b: Booking)
    ensures (forall x :: x in store ==> x.id != b.id) ==>
      Overlap.CheckOverlap(store, b.photographerId, b.eventDate, b.startTime, b.endTime, None)
        == Overlap.CheckOverlap(store, b.photographerId, b.eventDate, b.startTime, b.endTime, Some(b.id))
  {
  }

  /** A created booking never double-books its photographer. */
  lemma CreateKeepsNoDoubleBooking(env: Joi.Env, store: Store, caller: Id, body: Joi.Body, newId: Id)
    requires Overlap.NoDoubleBooking(store)
    ensures Overlap.NoDoubleBooking(CreateBooking(env, store, caller, body, newId).1)
  {
    var r := CreateBooking(env, store, caller, body, newId);
    if r.0.Ok? {
      var req := BookingValidation.ValidateCreateBooking(env, body).value;
      var b := NewBooking(req, caller, newId, env.now);
      assert !Overlap.CheckOverlap(store, b.photographerId, b.eventDate, b.startTime, b.endTime, None);
      Overlap.SaveKeepsNoDoubleBooking(store, b);
    }
  }

  /** The fields an update body may carry; absent fields are left as they are. The two enum fields
      arrive as the request's strings; a `photographerId` of `null` is `Some(None)`. */
  datatype BookingPatch = BookingPatch(
    clientId: Option<Id>,
    photographerId: Option<Option<Id>>,
    eventDate: Option<int>,
    startTime: Option<string>,
    endTime: Option<string>,
    eventType: Option<string>,
    eventVenue: Option<string>,
    location: Option<string>,
    package: Option<string>,
    amount: Option<int>,
    notes: Option<string>,
    paymentStatus: Option<string>,
    status: Option<string>)

  /** The update that sets no field. */
  const EmptyPatch: BookingPatch := BookingPatch(None, None, None, None, None, None, None, None, None, None, None, None, None)

  /** What the update validators (`runValidators: true`) check on the paths the body sets: the two
      `required` times are not set to the empty string, and the two enum fields name a value of
      their enum. */
  predicate PatchValid(p: BookingPatch)
  {
    && (p.startTime.Some? ==> p.startTime.value != "")
    && (p.endTime.Some? ==> p.endTime.value != "")
    && (p.status.Some? ==> ParseStatus(p.status.value).Some?)
    && (p.paymentStatus.Some? ==> ParsePaymentStatus(p.paymentStatus.value).Some?)
  }

  /** The status a valid enum string names. */
  function NamedStatus(name: string): (s: Status)
    requires ParseStatus(name).Some?
    ensures StatusName(s) == name
  {
    StatusNamesRoundTrip(ParseStatus(name).value, name);
    ParseStatus(name).value
  }

  /** The payment status a valid enum string names. */
  function NamedPaymentStatus(name: string): (p: PaymentStatus)
    requires ParsePaymentStatus(name).Some?
    ensures PaymentStatusName(p) == name
  {
    PaymentStatusNamesRoundTrip(ParsePaymentStatus(name).value, name);
    ParsePaymentStatus(name).value
  }

  /** A field after an update: the given value when there is one, else the value before. */
  predicate Takes<T(==)>(given: Option<T>, after: T, before: T)
  {
    (given.Some? ==> after == given.value) && (given.None? ==> after == before)
  }

  /** A required field after an update. */
  function Pick<T(==)>(given: Option<T>, current: T): (r: T)
    ensures Takes(given, r, current)
  {
    if given.Some? then given.value else current
  }

  /** An optional field after an update: the given value, or the current one (absent or not). */
  function PickOption<T>(given: Option<T>, current: Option<T>): (r: Option<T>)
    ensures given.Some? ==> r == given
    ensures given.None? ==> r == current
  {
    if given.Some? then given else current
  }

  /** The document after `$set` of the given fields: each given field takes the request's value
      (an enum field the value its name denotes), each absent one keeps the document's. */
  function ApplyPatch(b: Booking, p: BookingPatch): (r: Booking)
    requires PatchValid(p)
    ensures r.id == b.id && r.createdAt == b.createdAt
    ensures Takes(p.clientId, r.clientId, b.clientId) && Takes(p.photographerId, r.photographerId, b.photographerId)
    ensures Takes(p.eventDate, r.eventDate, b.eventDate)
    ensures Takes(p.startTime, r.startTime, b.startTime) && Takes(p.endTime, r.endTime, b.endTime)
    ensures Takes(p.eventType, r.eventType, b.eventType) && Takes(p.package, r.package, b.package)
    ensures p.eventVenue.Some? ==> r.eventVenue == p.eventVenue
    ensures p.location.Some? ==> r.location == p.location
    ensures p.amount.Some? ==> r.amount == p.amount
    ensures p.notes.Some? ==> r.notes == p.notes
    ensures p.eventVenue.None? ==> r.eventVenue == b.eventVenue
    ensures p.location.None? ==> r.location == b.location
    ensures p.amount.None? ==> r.amount == b.amount
    ensures p.notes.None? ==> r.notes == b.notes
    ensures p.paymentStatus.Some? ==> PaymentStatusName(r.paymentStatus) == p.paymentStatus.value
    ensures p.paymentStatus.None? ==> r.paymentStatus == b.paymentStatus
    ensures p.status.Some? ==> StatusName(r.status) == p.status.value
    ensures p.status.None? ==> r.status == b.status
  {
    var paymentStatus := if p.paymentStatus.Some? then NamedPaymentStatus(p.paymentStatus.value) else b.paymentStatus;
    var status := if p.status.Some? then NamedStatus(p.status.value) else b.status;
    Booking(b.id, Pick(p.clientId, b.clientId), Pick(p.photographerId, b.photographerId),
            Pick(p.eventDate, b.eventDate), Pick(p.startTime, b.startTime), Pick(p.endTime, b.endTime),
            Pick(p.eventType, b.eventType),
            PickOption(p.eventVenue, b.eventVenue), PickOption(p.location, b.location),
            Pick(p.package, b.package), PickOption(p.amount, b.amount), PickOption(p.notes, b.notes),
            paymentStatus, status, b.createdAt)
  }

  /** The empty update changes nothing, and applying an update twice is applying it once. */
  lemma ApplyPatchIdempotent(b: Booking, p: BookingPatch)
    requires PatchValid(p)
    ensures ApplyPatch(b, EmptyPatch) == b
    ensures ApplyPatch(ApplyPatch(b, p), p) == ApplyPatch(b, p)
  {
  }

  /** The booking the caller owns with this id, if it exists and is still pending. */
  predicate OwnedPending(b: Booking, caller: Id, id: Id)
  {
    b.id == id && b.clientId == caller && b.status == Pending
  }

  const NotUpdatable: string := "Booking not found or cannot be updated"

  /** The text of a refused update; Mongoose's own validation message is not modelled. */
  const UpdateRefused: string := "Validation failed"

  /** `updateBooking`: `findOneAndUpdate({ _id, clientId: caller, status: "pending" }, body,
      { runValidators: true })`. The validators run before the query, so an invalid update is a 500
      whether or not the booking exists. The update bypasses the save hook: no overlap check runs. */
  function UpdateBooking(store: Store, caller: Id, id: Id, patch: BookingPatch): (r: (Reply<Booking>, Store))
    ensures !PatchValid(patch) ==> r == (Fail(500, UpdateRefused), store)
    ensures PatchValid(patch) ==> (r.0.Fail? <==> forall i :: 0 <= i < |store| ==> !OwnedPending(store[i], caller, id))
    ensures PatchValid(patch) && r.0.Fail? ==> r.0 == Fail(404, NotUpdatable) && r.1 == store
    ensures r.0.Ok? ==> && PatchValid(patch)
                        && exists i :: 0 <= i < |store| && OwnedPending(store[i], caller, id)
                                     && (forall j :: 0 <= j < i ==> !OwnedPending(store[j], caller, id))
                                     && r.0.body == ApplyPatch(store[i], patch)
                                     && r.1 == store[i := ApplyPatch(store[i], patch)]
  {
    if !PatchValid(patch) then (Fail(500, UpdateRefused), store)
    else
      var (found, next) := Seqs.UpdateFirst(store, (b: Booking) => OwnedPending(b, caller, id), (b: Booking) => ApplyPatch(b, patch));
      if found.None? then (Fail(404, NotUpdatable), store)
      else (Ok(200, found.value), next)
  }

  /** Emptying a required time is refused with a 500 and stores nothing, even for a pending booking
      the caller owns. */
  lemma EmptiedTimeRefused(store: Store, caller: Id, id: Id, patch: BookingPatch)
    requires patch.startTime == Some("") || patch.endTime == Some("")
    ensures UpdateBooking(store, caller, id, patch) == (Fail(500, UpdateRefused), store)
  {
  }

  /** A status outside the enum is refused with a 500 and stores nothing. */
  lemma UnknownStatusRefused(store: Store, caller: Id, id: Id, patch: BookingPatch)
    requires patch.status == Some("approved") || patch.paymentStatus == Some("refunded")
    ensures UpdateBooking(store, caller, id, patch) == (Fail(500, UpdateRefused), store)
  {
  }

  /** `cancelBooking`: any booking the caller owns, whatever its status, becomes "cancelled". */
  function CancelBooking(store: Store, caller: Id, id: Id): (r: (Reply<Booking>, Store))
    ensures r.0.Fail? <==> forall i :: 0 <= i < |store| ==> !(store[i].id == id && store[i].clientId == caller)
    ensures r.0.Fail? ==> r.0 == Fail(404, "Booking not found") && r.1 == store
    ensures r.0.Ok? ==> r.0.status == 200
    ensures r.0.Ok? ==> exists i :: 0 <= i < |store| && store[i].id == id && store[i].clientId == caller
                                 && (forall j :: 0 <= j < i ==> !(store[j].id == id && store[j].clientId == caller))
                                 && r.0.body.status == Cancelled
                                 && r.0.body.photographerId == store[i].photographerId
                                 && r.0.body == store[i].(status := Cancelled)
                                 && r.1 == store[i := r.0.body]
  {
    var (found, next) := Seqs.UpdateFirst(store, (b: Booking) => b.id == id && b.clientId == caller, (b: Booking) => b.(status := Cancelled));
    if found.None? then (Fail(404, "Booking not found"), store)
    else (Ok(200, found.value), next)
  }

  /** A cancelled booking leaves its slot: it answers no overlap query, no conflict appears that
      was not there before, and a double-booking-free store stays so. */
  lemma CancelFreesSlot(store: Store, caller: Id, id: Id, photographerId: Option<Id>, date: int, start: string, end: string, exclude: Option<Id>)
    requires CancelBooking(store, caller, id).0.Ok?
    ensures var r := CancelBooking(store, caller, id);
            && !Overlap.IsCandidate(r.0.body, photographerId, date, exclude)
            && (Overlap.CheckOverlap(r.1, photographerId, date, start, end, exclude) ==> Overlap.CheckOverlap(store, photographerId, date, start, end, exclude))
            && (Overlap.NoDoubleBooking(store) ==> Overlap.NoDoubleBooking(r.1))
  {
    var r := CancelBooking(store, caller, id);
    var i :| 0 <= i < |store| && store[i].id == id && store[i].clientId == caller
             && r.0.body == store[i].(status := Cancelled) && r.1 == store[i := r.0.body];
    Overlap.ReleaseFreesSlot(store, i, Cancelled, photographerId, date, start, end, exclude);
  }

  /** Cancelling at a known first owned booking: the outcome written out. */
  lemma CancelBookingAt(store: Store, caller: Id, id: Id, i: nat)
    requires i < |store| && store[i].id == id && store[i].clientId == caller
    requires forall j :: 0 <= j < i ==> !(store[j].id == id && store[j].clientId == caller)
    ensures CancelBooking(store, caller, id)
            == (Ok(200, store[i].(status := Cancelled)), store[i := store[i].(status := Cancelled)])
  {
    var r := CancelBooking(store, caller, id);
    var k :| 0 <= k < |store| && store[k].id == id && store[k].clientId == caller
             && (forall j :: 0 <= j < k ==> !(store[j].id == id && store[j].clientId == caller))
             && r.0.body == store[k].(status := Cancelled) && r.1 == store[k := r.0.body];
    assert k == i;
  }

  /** Cancelling again finds the same booking, already cancelled, and changes nothing. */
  lemma CancelIdempotent(store: Store, caller: Id, id: Id)
    requires CancelBooking(store, caller, id).0.Ok?
    ensures var r := CancelBooking(store, caller, id);
            CancelBooking(r.1, caller, id) == r
  {
    var r := CancelBooking(store, caller, id);
    var i :| 0 <= i < |store| && store[i].id == id && store[i].clientId == caller
             && (forall j :: 0 <= j < i ==> !(store[j].id == id && store[j].clientId == caller));
    CancelBookingAt(store, caller, id, i);
    CancelBookingAt(r.1, caller, id, i);
    assert r.1[i := r.1[i].(status := Cancelled)] == r.1;
  }

  /** `recordPayment`: for a booking the caller owns, a succeeded payment is stored and the booking's
      payment status becomes "paid"; its status is left alone and, no temporal field being modified,
      the save hook does not check overlaps. */
  function RecordPayment(store: Store, payments: seq<PaymentModel.Payment>, caller: Id, id: Id, amount: Option<int>, paymentId: Id)
    : (r: (Reply<PaymentModel.Payment>, Store, seq<PaymentModel.Payment>))
    ensures r.0.Fail? <==> forall i :: 0 <= i < |store| ==> !(store[i].id == id && store[i].clientId == caller)
    ensures r.0.Fail? ==> r.0 == Fail(404, "Booking not found") && r.1 == store && r.2 == payments
    ensures r.0.Ok? ==> && r.2 == payments + [r.0.body]
                        && r.0.body.booking == id && r.0.body.user == caller && r.0.body.amount == amount
                        && r.0.body.status == PaymentModel.Succeeded
                        && exists i :: 0 <= i < |store| && store[i].id == id && store[i].clientId == caller
                                     && r.1 == Upsert(store, store[i].(paymentStatus := Paid))
  {
    match FindOwned(store, caller, id)
    case None => (Fail(404, "Booking not found"), store, payments)
    case Some(i) =>
      var payment := PaymentModel.Payment(paymentId, store[i].id, caller, amount, None, None, None, PaymentModel.Succeeded);
      var paid := store[i].(paymentStatus := Paid);
      assert Overlap.Save(store, paid, false) == Success(Upsert(store, paid));
      (Ok(200, payment), Overlap.Save(store, paid, false).value, payments + [payment])
  }

  /** `findOne({ _id: id, clientId: caller })`: the first booking with the id that the caller owns. */
  function FindOwned(store: Store, caller: Id, id: Id): (r: Option<nat>)
    ensures r.Some? ==> r.value < |store| && store[r.value].id == id && store[r.value].clientId == caller
    ensures r.Some? ==> forall j :: 0 <= j < r.value ==> !(store[j].id == id && store[j].clientId == caller)
    ensures r.None? <==> forall i :: 0 <= i < |store| ==> !(store[i].id == id && store[i].clientId == caller)
  {
    Seqs.FirstIndex(store, (b: Booking) => b.id == id && b.clientId == caller)
  }

  /** Recording a payment changes no booking's status, date or times. */
  lemma RecordPaymentKeepsSchedule(store: Store, payments: seq<PaymentModel.Payment>, caller: Id, id: Id, amount: Option<int>, paymentId: Id)
    requires RecordPayment(store, payments, caller, id, amount, paymentId).0.Ok?
    ensures forall x :: x in RecordPayment(store, payments, caller, id, amount, paymentId).1 ==>
              exists y :: y in store && x == y.(paymentStatus := x.paymentStatus)
  {
    var r := RecordPayment(store, payments, caller, id, amount, paymentId);
    var i :| 0 <= i < |store| && store[i].id == id && store[i].clientId == caller
             && r.1 == Upsert(store, store[i].(paymentStatus := Paid));
    forall x | x in r.1 ensures exists y :: y in store && x == y.(paymentStatus := x.paymentStatus) {
      if x == store[i].(paymentStatus := Paid) {
        assert store[i] in store;
      } else {
        assert x in store && x == x.(paymentStatus := x.paymentStatus);
      }
    }
  }
}
