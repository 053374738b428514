/** The booking document: references, temporal fields, the two status enums and their defaults,
    and the `save()` write. */
module BookingModel {
  import opened Wrappers
  import Seqs

  /** A document identifier (an ObjectId in its 24-hex-digit string form). */
  type Id = string

  datatype Status = Pending | Confirmed | Declined | InProgress | Completed | Cancelled

  datatype PaymentStatus = Unpaid | Paid

  /** `eventDate` and `createdAt` are millisecond timestamps; `startTime`/`endTime` are the "HH:mm" strings as stored. */
  datatype Booking = Booking(
    id: Id,
    clientId: Id,
    photographerId: Option<Id>,
    eventDate: int,
    startTime: string,
    endTime: string,
    eventType: string,
    eventVenue: Option<string>,
    location: Option<string>,
    package: string,
    amount: Option<int>,
    notes: Option<string>,
    paymentStatus: PaymentStatus,
    status: Status,
    createdAt: int)

  /** The booking collection. */
  type Store = seq<Booking>

  /** Schema default of `package`. */
  const DefaultPackage: string := "gold"

  /** The enum strings of `status`, in schema order. */
  const StatusNames: seq<string> := ["pending", "confirmed", "declined", "in_progress", "completed", "cancelled"]

  function StatusName(s: Status): string
  {
    match s
    case Pending => "pending"
    case Confirmed => "confirmed"
    case Declined => "declined"
    case InProgress => "in_progress"
    case Completed => "completed"
    case Cancelled => "cancelled"
  }

  /** The status an enum string names, if it names one. */
  function ParseStatus(name: string): Option<Status>
  {
    if name == "pending" then Some(Pending)
    else if name == "confirmed" then Some(Confirmed)
    else if name == "declined" then Some(Declined)
    else if name == "in_progress" then Some(InProgress)
    else if name == "completed" then Some(Completed)
    else if name == "cancelled" then Some(Cancelled)
    else None
  }

  /** Status names and statuses correspond one to one, and the enum list holds exactly the names. */
  lemma StatusNamesRoundTrip(s: Status, name: string)
    ensures ParseStatus(StatusName(s)) == Some(s)
    ensures ParseStatus(name) == Some(s) ==> name == StatusName(s)
    ensures ParseStatus(name).Some? <==> name in StatusNames
    ensures StatusName(s) in StatusNames
  {
  }

  function PaymentStatusName(p: PaymentStatus): string
  {
    match p
    case Unpaid => "unpaid"
    case Paid => "paid"
  }

  /** The payment status an enum string names, if it names one. */
  function ParsePaymentStatus(name: string): Option<PaymentStatus>
  {
    if name == "unpaid" then Some(Unpaid)
    else if name == "paid" then Some(Paid)
    else None
  }

  /** Payment status names and payment statuses correspond one to one; no other string parses. */
  lemma PaymentStatusNamesRoundTrip(p: PaymentStatus, name: string)
    ensures ParsePaymentStatus(PaymentStatusName(p)) == Some(p)
    ensures ParsePaymentStatus(name) == Some(p) ==> name == PaymentStatusName(p)
    ensures ParsePaymentStatus(name).Some? <==> name == "unpaid" || name == "paid"
  {
  }

  /** `_id` is the primary key: no two bookings share one. */
  predicate UniqueIds(store: Store)
  {
    forall i, j :: 0 <= i < |store| && 0 <= j < |store| && store[i].id == store[j].id ==> i == j
  }

  /** The first booking with this id, as `findById` returns it. */
  function FindById(store: Store, id: Id): (r: Option<nat>)
    ensures r.Some? ==> r.value < |store| && store[r.value].id == id
    ensures r.Some? ==> forall j :: 0 <= j < r.value ==> store[j].id != id
    ensures r.None? <==> forall i :: 0 <= i < |store| ==> store[i].id != id
  {
    Seqs.FirstIndex(store, (b: Booking) => b.id == id)
  }

  /** Writes `b` as `save()` does: the document with `b`'s id is replaced in place, or `b` is
      appended when no booking has that id. */
  function Upsert(store: Store, b: Booking): (r: Store)
    ensures b in r
    ensures forall x :: x in r ==> x == b || (x in store && x.id != b.id)
    ensures forall x :: x in store && x.id != b.id ==> x in r
    ensures FindById(store, b.id).None? ==> r == store + [b]
  {
    Seqs.Upsert(store, b, (x: Booking) => x.id)
  }
}
