/** The photographer's endpoints over bookings assigned to them: accept, decline, complete, set a
    status, the schedule, the assignment list and the dashboard counts. Every write is a
    `findOneAndUpdate({ _id, photographerId: caller }, ...)`: no status precondition, no overlap check. */
module PhotographerDesk {
  import opened Wrappers
  import opened BookingModel
  import Seqs
  import Sorting
  import Overlap

  const AssignmentNotFound: string := "Assignment not found"
  const BookingNotFound: string := "Booking not found"

  /** The filter of every write: this booking, assigned to the caller. */
  predicate AssignedTo(b: Booking, caller: Id, id: Id)
  {
    b.id == id && b.photographerId == Some(caller)
  }

  /** The first booking assigned to the caller with this id. */
  function FirstAssigned(store: Store, caller: Id, id: Id): (r: Option<nat>)
    ensures r.Some? ==> r.value < |store| && AssignedTo(store[r.value], caller, id)
    ensures r.Some? ==> forall j :: 0 <= j < r.value ==> !AssignedTo(store[j], caller, id)
    ensures r.None? <==> forall i :: 0 <= i < |store| ==> !AssignedTo(store[i], caller, id)
  {
    Seqs.FirstIndex(store, (b: Booking) => AssignedTo(b, caller, id))
  }

  /** The shared shape: rewrite the caller's booking `id` with `update`, or answer 404 with `notFound`. */
  function UpdateAssigned(store: Store, caller: Id, id: Id, update: Booking -> Booking, notFound: string): (r: (Reply<Booking>, Store))
    ensures r.0.Fail? <==> forall i :: 0 <= i < |store| ==> !AssignedTo(store[i], caller, id)
    ensures r.0.Fail? ==> r.0 == Fail(404, notFound) && r.1 == store
    ensures r.0.Ok? ==> r.0.status == 200
    ensures r.0.Ok? ==> exists i :: 0 <= i < |store| && AssignedTo(store[i], caller, id)
                                   && (forall j :: 0 <= j < i ==> !AssignedTo(store[j], caller, id))
                                   && r.0.body == update(store[i]) && r.1 == store[i := update(store[i])]
  {
    var (found, next) := Seqs.UpdateFirst(store, (b: Booking) => AssignedTo(b, caller, id), update);
    if found.None? then (Fail(404, notFound), store) else (Ok(200, found.value), next)
  }

  /** Once the first booking assigned to the caller with the id is known, the outcome is fixed. */
  lemma UpdateAssignedAt(store: Store, caller: Id, id: Id, update: Booking -> Booking, notFound: string, i: nat)
    requires i < |store| && AssignedTo(store[i], caller, id)
    requires forall j :: 0 <= j < i ==> !AssignedTo(store[j], caller, id)
    ensures UpdateAssigned(store, caller, id, update, notFound) == (Ok(200, update(store[i])), store[i := update(store[i])])
  {
    var r := UpdateAssigned(store, caller, id, update, notFound);
    var k :| 0 <= k < |store| && AssignedTo(store[k], caller, id)
             && (forall j :: 0 <= j < k ==> !AssignedTo(store[j], caller, id))
             && r.0.body == update(store[k]) && r.1 == store[k := update(store[k])];
    assert k == i;
  }

  /** An update that keeps the booking assigned and changes nothing when repeated makes the whole
      endpoint idempotent: the second call finds the same booking and leaves the store as it is. */
  lemma UpdateAssignedTwice(store: Store, caller: Id, id: Id, update: Booking -> Booking, notFound: string)
    requires FirstAssigned(store, caller, id).Some?
    requires var b := store[FirstAssigned(store, caller, id).value];
             AssignedTo(update(b), caller, id) && update(update(b)) == update(b)
    ensures UpdateAssigned(UpdateAssigned(store, caller, id, update, notFound).1, caller, id, update, notFound)
            == UpdateAssigned(store, caller, id, update, notFound)
  {
    var i := FirstAssigned(store, caller, id).value;
    UpdateAssignedAt(store, caller, id, update, notFound, i);
    var after := store[i := update(store[i])];
    UpdateAssignedAt(after, caller, id, update, notFound, i);
    assert after[i := update(after[i])] == after;
  }

  /** `acceptAssignment`: status becomes "confirmed", whatever it was; nothing else changes. */
  function Accept(store: Store, caller: Id, id: Id): (r: (Reply<Booking>, Store))
    ensures r.0.Fail? <==> forall i :: 0 <= i < |store| ==> !AssignedTo(store[i], caller, id)
    ensures r.0.Fail? ==> r.0 == Fail(404, AssignmentNotFound) && r.1 == store
    ensures r.0.Ok? ==> exists i :: 0 <= i < |store| && AssignedTo(store[i], caller, id)
                                   && r.0.body == store[i].(status := Confirmed) && r.1 == store[i := r.0.body]
  {
    UpdateAssigned(store, caller, id, (b: Booking) => b.(status := Confirmed), AssignmentNotFound)
  }

  /** `declineAssignment`: status becomes "cancelled" and the booking is unassigned. */
  function Decline(store: Store, caller: Id, id: Id): (r: (Reply<Booking>, Store))
    ensures r.0.Fail? <==> forall i :: 0 <= i < |store| ==> !AssignedTo(store[i], caller, id)
    ensures r.0.Fail? ==> r.0 == Fail(404, AssignmentNotFound) && r.1 == store
    ensures r.0.Ok? ==> exists i :: 0 <= i < |store| && AssignedTo(store[i], caller, id)
                                   && r.0.body == store[i].(status := Cancelled, photographerId := None)
                                   && r.1 == store[i := r.0.body]
  {
    UpdateAssigned(store, caller, id, (b: Booking) => b.(status := Cancelled, photographerId := None), AssignmentNotFound)
  }

  /** `markEventCompleted`: status becomes "completed", whatever it was. */
  function Complete(store: Store, caller: Id, id: Id): (r: (Reply<Booking>, Store))
    ensures r.0.Fail? <==> forall i :: 0 <= i < |store| ==> !AssignedTo(store[i], caller, id)
    ensures r.0.Fail? ==> r.0 == Fail(404, BookingNotFound) && r.1 == store
    ensures r.0.Ok? ==> exists i :: 0 <= i < |store| && AssignedTo(store[i], caller, id)
                                   && r.0.body == store[i].(status := Completed) && r.1 == store[i := r.0.body]
  {
    UpdateAssigned(store, caller, id, (b: Booking) => b.(status := Completed), BookingNotFound)
  }

  /** The update of `updateBookingStatus`: the given status, or no change. */
  function WithStatus(status: Option<Status>): Booking -> Booking
  {
    (b: Booking) => if status.Some? then b.(status := status.value) else b
  }

  /** `updateBookingStatus`: the body's status is written with no transition check; an absent status
      is an empty update, so the booking is found and returned unchanged. */
  function SetStatus(store: Store, caller: Id, id: Id, status: Option<Status>): (r: (Reply<Booking>, Store))
    ensures r.0.Fail? <==> forall i :: 0 <= i < |store| ==> !AssignedTo(store[i], caller, id)
    ensures r.0.Fail? ==> r.0 == Fail(404, BookingNotFound) && r.1 == store
    ensures r.0.Ok? ==> r.0.status == 200
    ensures r.0.Ok? ==>
              exists i :: 0 <= i < |store| && AssignedTo(store[i], caller, id)
                        && (forall j :: 0 <= j < i ==> !AssignedTo(store[j], caller, id))
                        && r.0.body == (if status.Some? then store[i].(status := status.value) else store[i])
                        && r.1 == store[i := r.0.body]
    ensures r.0.Ok? && status.None? ==> r.1 == store && r.0.body in store
  {
    UpdateAssigned(store, caller, id, WithStatus(status), BookingNotFound)
  }

  /** Writing a status is idempotent: writing it again finds the same booking and changes nothing. */
  lemma SetStatusIdempotent(store: Store, caller: Id, id: Id, s: Status)
    requires SetStatus(store, caller, id, Some(s)).0.Ok?
    ensures SetStatus(store, caller, id, Some(s)).0.body.status == s
    ensures SetStatus(SetStatus(store, caller, id, Some(s)).1, caller, id, Some(s)) == SetStatus(store, caller, id, Some(s))
  {
    UpdateAssignedTwice(store, caller, id, WithStatus(Some(s)), BookingNotFound);
  }

  /** A status that holds no slot (declined, cancelled) frees the booking's slot: it answers no
      overlap query, and a double-booking-free store stays so. */
  lemma SetStatusFreesSlot(store: Store, caller: Id, id: Id, s: Status, photographerId: Option<Id>, date: int, exclude: Option<Id>)
    requires SetStatus(store, caller, id, Some(s)).0.Ok? && !Overlap.OccupiesSlot(s)
    ensures var r := SetStatus(store, caller, id, Some(s));
            && !Overlap.IsCandidate(r.0.body, photographerId, date, exclude)
            && (Overlap.NoDoubleBooking(store) ==> Overlap.NoDoubleBooking(r.1))
  {
    var r := SetStatus(store, caller, id, Some(s));
    var i :| 0 <= i < |store| && AssignedTo(store[i], caller, id)
             && r.0.body == store[i].(status := s) && r.1 == store[i := r.0.body];
    Overlap.ReleaseFreesSlot(store, i, s, photographerId, date, "", "", exclude);
  }

  /** After a decline the photographer no longer holds the booking: accepting, declining or
      completing it again is not found and changes nothing. */
  lemma DeclineIsFinal(store: Store, caller: Id, id: Id)
    requires UniqueIds(store)
    requires Decline(store, caller, id).0.Ok?
    ensures var after := Decline(store, caller, id).1;
            && Accept(after, caller, id) == (Fail(404, AssignmentNotFound), after)
            && Decline(after, caller, id) == (Fail(404, AssignmentNotFound), after)
            && Complete(after, caller, id) == (Fail(404, BookingNotFound), after)
  {
    var after := Decline(store, caller, id).1;
    var i :| 0 <= i < |store| && AssignedTo(store[i], caller, id)
             && after == store[i := store[i].(status := Cancelled, photographerId := None)];
    forall j | 0 <= j < |after| ensures !AssignedTo(after[j], caller, id) {
      if j != i {
        assert store[j].id != id;
      }
    }
  }

  /** Accepting a booking changes its status only: date, times, client and photographer stay. */
  lemma AcceptKeepsSchedule(store: Store, caller: Id, id: Id)
    ensures var after := Accept(store, caller, id).1;
            && |after| == |store|
            && forall j :: 0 <= j < |after| ==> after[j].(status := store[j].status) == store[j]
  {
  }

  /** The schedule's status set. */
  predicate OnSchedule(s: Status)
  {
    s == Confirmed || s == Pending
  }

  /** Ascending `eventDate` order, ties kept in store order. */
  function ByEventDate(): (le: (Booking, Booking) -> bool)
    ensures Sorting.TotalPreorder(le)
  {
    (a: Booking, b: Booking) => a.eventDate <= b.eventDate
  }

  /** The `getSchedule` query: the caller's pending and confirmed bookings. */
  function ScheduleQuery(caller: Id): Booking -> bool
  {
    (b: Booking) => b.photographerId == Some(caller) && OnSchedule(b.status)
  }

  /** `getSchedule`: a reordering of exactly the caller's pending and confirmed bookings, each kept as
      often as it is stored, earliest event first. */
  function Schedule(store: Store, caller: Id): (r: Store)
    ensures multiset(r) == multiset(Seqs.Filter(store, ScheduleQuery(caller)))
    ensures forall b :: b in r <==> b in store && b.photographerId == Some(caller) && OnSchedule(b.status)
    ensures forall i, j :: 0 <= i < j < |r| ==> r[i].eventDate <= r[j].eventDate
  {
    var mine := Seqs.Filter(store, ScheduleQuery(caller));
    Sorting.SortSameElements(ByEventDate(), mine);
    Sorting.Sort(ByEventDate(), mine)
  }

  /** How many of the sorted results `.limit(parseInt(limit))` keeps: no limit, or a limit of 0, keeps
      all; a negative limit keeps as many as its magnitude. */
  function LimitCount(limit: Option<int>, available: nat): (n: nat)
    ensures n <= available
    ensures limit.None? || limit == Some(0) ==> n == available
    ensures limit.Some? && limit.value != 0 ==> n == if available < Abs(limit.value) then available else Abs(limit.value)
  {
    if limit.None? || limit.value == 0 then available
    else if available < Abs(limit.value) then available else Abs(limit.value)
  }

  function Abs(x: int): nat
  {
    if x < 0 then -x else x
  }

  /** The `listAssignments` query: the caller's bookings, of the named status when there is one. */
  predicate Listed(b: Booking, caller: Id, status: Option<string>)
  {
    b.photographerId == Some(caller) && (status.None? || status.value == "" || StatusName(b.status) == status.value)
  }

  function ListQuery(caller: Id, status: Option<string>): Booking -> bool
  {
    (b: Booking) => Listed(b, caller, status)
  }

  /** `listAssignments`: the caller's bookings, narrowed to a status when the query names one (an
      unknown status string matches none), earliest event first. A limit keeps that many of the
      earliest: every booking it drops is no earlier than every booking it keeps. */
  function ListAssignments(store: Store, caller: Id, status: Option<string>, limit: Option<int>): (r: Store)
    ensures var found := Seqs.Filter(store, ListQuery(caller, status));
            && multiset(r) <= multiset(found)
            && |r| == LimitCount(limit, |found|)
            && (forall b, c :: b in r && c in found && c !in r ==> b.eventDate <= c.eventDate)
            && (limit.None? ==> multiset(r) == multiset(found))
    ensures forall b :: b in r ==> b in store && b.photographerId == Some(caller)
    ensures status.Some? && status.value != "" ==> forall b :: b in r ==> StatusName(b.status) == status.value
    ensures forall i, j :: 0 <= i < j < |r| ==> r[i].eventDate <= r[j].eventDate
  {
    var found := Seqs.Filter(store, ListQuery(caller, status));
    Sorting.SortSameElements(ByEventDate(), found);
    var sorted := Sorting.Sort(ByEventDate(), found);
    var n := LimitCount(limit, |sorted|);
    DateSortedPrefix(sorted, n);
    sorted[..n]
  }

  /** What `.limit(n)` keeps of a date-ordered list: its first n entries, date-ordered, drawn from
      it, and no later than anything it drops. */
  lemma DateSortedPrefix(sorted: Store, n: nat)
    requires Sorting.SortedBy(ByEventDate(), sorted) && n <= |sorted|
    ensures forall i, j :: 0 <= i < j < n ==> sorted[..n][i].eventDate <= sorted[..n][j].eventDate
    ensures multiset(sorted[..n]) <= multiset(sorted)
    ensures forall b :: b in sorted[..n] ==> b in sorted
    ensures forall b, c :: b in sorted[..n] && c in sorted && c !in sorted[..n] ==> b.eventDate <= c.eventDate
    ensures n == |sorted| ==> sorted[..n] == sorted
  {
    var kept := sorted[..n];
    Sorting.PrefixLeads(ByEventDate(), sorted, n);
    forall i, j | 0 <= i < j < n ensures kept[i].eventDate <= kept[j].eventDate {
      assert ByEventDate()(sorted[i], sorted[j]);
    }
    forall b, c | b in kept && c in sorted && c !in kept ensures b.eventDate <= c.eventDate {
      assert ByEventDate()(b, c);
    }
  }

  /** `getDashboardStats`' three counts: all the caller's bookings, the pending ones, the completed ones. */
  datatype Dashboard = Dashboard(total: nat, pending: nat, completed: nat)

  /** The `countDocuments` filters of the dashboard: the caller's bookings, optionally of one status. */
  function Holds(caller: Id, status: Option<Status>): Booking -> bool
  {
    (b: Booking) => b.photographerId == Some(caller) && (status.None? || b.status == status.value)
  }

  /** Each count is the number of bookings its query finds. */
  function DashboardCounts(store: Store, caller: Id): (d: Dashboard)
    ensures d.total == |Seqs.Filter(store, Holds(caller, None))|
    ensures d.pending == |Seqs.Filter(store, Holds(caller, Some(Pending)))|
    ensures d.completed == |Seqs.Filter(store, Holds(caller, Some(Completed)))|
    ensures d.pending + d.completed <= d.total
    ensures d.total == 0 <==> forall i :: 0 <= i < |store| ==> store[i].photographerId != Some(caller)
  {
    Seqs.CountDisjointSum(store, Holds(caller, Some(Pending)), Holds(caller, Some(Completed)), Holds(caller, None));
    Seqs.CountIsFilterLength(store, Holds(caller, None));
    Seqs.CountIsFilterLength(store, Holds(caller, Some(Pending)));
    Seqs.CountIsFilterLength(store, Holds(caller, Some(Completed)));
    Dashboard(Seqs.Count(store, Holds(caller, None)), Seqs.Count(store, Holds(caller, Some(Pending))),
              Seqs.Count(store, Holds(caller, Some(Completed))))
  }

  /** The dashboard agrees with the assignment list: the total is the length of the unfiltered,
      unlimited list, and the pending and completed counts the lengths of the lists for those statuses. */
  lemma DashboardMatchesListing(store: Store, caller: Id)
    ensures DashboardCounts(store, caller).total == |ListAssignments(store, caller, None, None)|
    ensures DashboardCounts(store, caller).pending == |ListAssignments(store, caller, Some("pending"), None)|
    ensures DashboardCounts(store, caller).completed == |ListAssignments(store, caller, Some("completed"), None)|
  {
    Seqs.FilterSamePredicate(store, ListQuery(caller, None), Holds(caller, None));
    forall b: Booking ensures ListQuery(caller, Some("pending"))(b) == Holds(caller, Some(Pending))(b) {
      StatusNamesRoundTrip(b.status, "pending");
    }
    Seqs.FilterSamePredicate(store, ListQuery(caller, Some("pending")), Holds(caller, Some(Pending)));
    forall b: Booking ensures ListQuery(caller, Some("completed"))(b) == Holds(caller, Some(Completed))(b) {
      StatusNamesRoundTrip(b.status, "completed");
    }
    Seqs.FilterSamePredicate(store, ListQuery(caller, Some("completed")), Holds(caller, Some(Completed)));
  }
}
