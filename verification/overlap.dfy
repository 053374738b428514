/** Double-booking prevention: the `checkOverlap` query and scan, and the `pre('save')` guard that
    re-runs it whenever a booking's date or times change. */
module Overlap {
  import opened Wrappers
  import opened BookingModel
  import TimeOfDay
  import Calendar
  import Seqs

  /** The statuses that occupy a photographer's time. Declined and cancelled bookings do not. */
  predicate OccupiesSlot(s: Status)
  {
    s == Pending || s == Confirmed || s == InProgress || s == Completed
  }

  /** `startTime < b.endTime && endTime > b.startTime`, with JavaScript string comparison:
      the requested `[start, end)` meets the booked `[otherStart, otherEnd)`. */
  predicate Overlaps(start: string, end: string, otherStart: string, otherEnd: string)
  {
    TimeOfDay.Less(start, otherEnd) && TimeOfDay.Less(otherStart, end)
  }

  /** The query `checkOverlap` sends: same photographer (an absent one matches absent ones), an
      event date inside `[midnight, midnight + 24h)` of `date`, a slot-occupying status, and not the
      excluded booking. */
  predicate IsCandidate(b: Booking, photographerId: Option<Id>, date: int, exclude: Option<Id>)
  {
    && b.photographerId == photographerId
    && Calendar.DayStart(date) <= b.eventDate < Calendar.DayStart(date) + Calendar.MsPerDay
    && OccupiesSlot(b.status)
    && (exclude.Some? ==> b.id != exclude.value)
  }

  /** The bookings the query returns, in store order. */
  function Candidates(store: Store, photographerId: Option<Id>, date: int, exclude: Option<Id>): (r: seq<Booking>)
    ensures forall b :: b in r <==> b in store && IsCandidate(b, photographerId, date, exclude)
  {
    Seqs.Filter(store, (b: Booking) => IsCandidate(b, photographerId, date, exclude))
  }

  /** Whether some returned booking overlaps the requested range. */
  function AnyOverlaps(found: seq<Booking>, start: string, end: string): (r: bool)
    ensures r <==> exists i :: 0 <= i < |found| && Overlaps(start, end, found[i].startTime, found[i].endTime)
    decreases |found|
  {
    if |found| == 0 then false
    else if Overlaps(start, end, found[0].startTime, found[0].endTime) then true
    else
      var rest := AnyOverlaps(found[1..], start, end);
      assert forall i :: 1 <= i < |found| ==> found[i] == found[1..][i - 1];
      rest
  }

  /** `Booking.checkOverlap(photographerId, date, startTime, endTime, excludeBookingId)`. */
  function CheckOverlap(store: Store, photographerId: Option<Id>, date: int, start: string, end: string, exclude: Option<Id>): (r: bool)
    ensures r <==> exists b :: b in store && IsCandidate(b, photographerId, date, exclude)
                                         && Overlaps(start, end, b.startTime, b.endTime)
  {
    var found := Candidates(store, photographerId, date, exclude);
    var r := AnyOverlaps(found, start, end);
    assert r ==> exists b :: b in store && IsCandidate(b, photographerId, date, exclude)
                                       && Overlaps(start, end, b.startTime, b.endTime) by {
      if r {
        var i :| 0 <= i < |found| && Overlaps(start, end, found[i].startTime, found[i].endTime);
        assert found[i] in found;
      }
    }
    assert (exists b :: b in store && IsCandidate(b, photographerId, date, exclude)
                                   && Overlaps(start, end, b.startTime, b.endTime)) ==> r by {
      if exists b :: b in store && IsCandidate(b, photographerId, date, exclude) && Overlaps(start, end, b.startTime, b.endTime) {
        var b :| b in store && IsCandidate(b, photographerId, date, exclude) && Overlaps(start, end, b.startTime, b.endTime);
        assert b in found;
        var i :| 0 <= i < |found| && found[i] == b;
      }
    }
    r
  }

  /** The scan loop of `checkOverlap`, returning on the first overlapping booking. */
  method ScanForOverlap(found: seq<Booking>, start: string, end: string) returns (conflict: bool)
    ensures conflict <==> exists i :: 0 <= i < |found| && Overlaps(start, end, found[i].startTime, found[i].endTime)
  {
    for k := 0 to |found|
      invariant forall i :: 0 <= i < k ==> !Overlaps(start, end, found[i].startTime, found[i].endTime)
    {
      if Overlaps(start, end, found[k].startTime, found[k].endTime) {
        return true;
      }
    }
    return false;
  }

  /** The overlap test is symmetric: requested and booked ranges can swap roles. */
  lemma OverlapsSymmetric(s1: string, e1: string, s2: string, e2: string)
    ensures Overlaps(s1, e1, s2, e2) <==> Overlaps(s2, e2, s1, e1)
  {
  }

  /** Both comparisons are strict, so a range ending exactly where another starts does not overlap it. */
  lemma TouchingRangesDoNotOverlap(s1: string, boundary: string, e2: string)
    ensures !Overlaps(s1, boundary, boundary, e2)
    ensures !Overlaps(boundary, e2, s1, boundary)
  {
    TimeOfDay.LessIrreflexive(boundary);
  }

  /** A booking is a candidate exactly when it has the photographer, falls on the same calendar day,
      occupies its slot and is not the excluded one; declined and cancelled bookings never are. */
  lemma CandidateIff(b: Booking, photographerId: Option<Id>, date: int, exclude: Option<Id>)
    ensures IsCandidate(b, photographerId, date, exclude) <==>
              && b.photographerId == photographerId
              && Calendar.SameDay(date, b.eventDate)
              && b.status in {Pending, Confirmed, InProgress, Completed}
              && (exclude.Some? ==> b.id != exclude.value)
    ensures b.status == Declined || b.status == Cancelled ==> !IsCandidate(b, photographerId, date, exclude)
  {
    Calendar.DayWindowIsSameDay(date, b.eventDate);
  }

  /** The excluded booking is never a candidate, so a booking is never checked against itself. */
  lemma ExcludedNeverCandidate(store: Store, b: Booking, photographerId: Option<Id>, date: int)
    ensures b !in Candidates(store, photographerId, date, Some(b.id))
  {
  }

  /** With no candidates there is no conflict, whatever the requested range. */
  lemma NoCandidatesNoConflict(store: Store, photographerId: Option<Id>, date: int, start: string, end: string, exclude: Option<Id>)
    requires Candidates(store, photographerId, date, exclude) == []
    ensures !CheckOverlap(store, photographerId, date, start, end, exclude)
  {
  }

  /** Text of the error the save hook throws. */
  const SlotTakenMessage: string := "Photographer is already booked for this time slot."

  /** `booking.save()` with its `pre('save')` hook: when a temporal field was modified the overlap
      check runs with the booking's own id excluded; a conflict rejects the save and nothing is written. */
  function Save(store: Store, b: Booking, temporalModified: bool): (r: Result<Store, string>)
    ensures r.Failure? <==> temporalModified && CheckOverlap(store, b.photographerId, b.eventDate, b.startTime, b.endTime, Some(b.id))
    ensures r.Failure? ==> r.error == SlotTakenMessage
    ensures r.Success? ==> b in r.value
    ensures r.Success? ==> forall x :: x in r.value ==> x == b || (x in store && x.id != b.id)
    ensures r.Success? ==> forall x :: x in store && x.id != b.id ==> x in r.value
    ensures r.Success? && FindById(store, b.id).None? ==> r.value == store + [b]
  {
    if temporalModified && CheckOverlap(store, b.photographerId, b.eventDate, b.startTime, b.endTime, Some(b.id)) then
      Failure(SlotTakenMessage)
    else
      Success(Upsert(store, b))
  }

  /** Two distinct bookings double-book a photographer: same photographer, same day, both occupying
      their slot, overlapping ranges. */
  predicate Clash(a: Booking, b: Booking)
  {
    && a.photographerId == b.photographerId
    && Calendar.SameDay(a.eventDate, b.eventDate)
    && OccupiesSlot(a.status) && OccupiesSlot(b.status)
    && Overlaps(a.startTime, a.endTime, b.startTime, b.endTime)
  }

  /** No two bookings with different ids clash. */
  predicate NoDoubleBooking(store: Store)
  {
    forall a, b :: a in store && b in store && a.id != b.id ==> !Clash(a, b)
  }

  /** A clash with an existing booking is exactly what the guard detects. */
  lemma ClashIsDetected(store: Store, b: Booking, x: Booking)
    requires x in store && x.id != b.id
    requires Clash(b, x) || Clash(x, b)
    ensures CheckOverlap(store, b.photographerId, b.eventDate, b.startTime, b.endTime, Some(b.id))
  {
    Calendar.DayWindowIsSameDay(b.eventDate, x.eventDate);
    assert IsCandidate(x, b.photographerId, b.eventDate, Some(b.id));
  }

  /** A save the guard lets through never introduces a double booking. */
  lemma SaveKeepsNoDoubleBooking(store: Store, b: Booking)
    requires NoDoubleBooking(store)
    requires Save(store, b, true).Success?
    ensures NoDoubleBooking(Save(store, b, true).value)
  {
    var r := Save(store, b, true).value;
    forall x, y | x in r && y in r && x.id != y.id
      ensures !Clash(x, y)
    {
      if x == b {
        if Clash(x, y) { ClashIsDetected(store, b, y); }
      } else if y == b {
        if Clash(x, y) { ClashIsDetected(store, b, x); }
      }
    }
  }

  /** Every booking after one element is rewritten is the rewritten one or was stored before. */
  lemma RewrittenFromStore(store: Store, i: nat, v: Booking, x: Booking)
    requires i < |store| && x in store[i := v] && x != v
    ensures x in store
  {
    var j :| 0 <= j < |store| && store[i := v][j] == x;
    assert store[j] == x;
  }

  /** A released booking adds no conflict: whatever an overlap query finds afterwards it found before. */
  lemma ReleaseAddsNoConflict(store: Store, i: nat, s: Status, photographerId: Option<Id>, date: int,
                              start: string, end: string, exclude: Option<Id>)
    requires i < |store| && !OccupiesSlot(s)
    ensures CheckOverlap(store[i := store[i].(status := s)], photographerId, date, start, end, exclude)
            ==> CheckOverlap(store, photographerId, date, start, end, exclude)
  {
    var after := store[i := store[i].(status := s)];
    if CheckOverlap(after, photographerId, date, start, end, exclude) {
      var x :| x in after && IsCandidate(x, photographerId, date, exclude) && Overlaps(start, end, x.startTime, x.endTime);
      RewrittenFromStore(store, i, store[i].(status := s), x);
    }
  }

  /** A released booking creates no double booking. */
  lemma ReleaseKeepsNoDoubleBooking(store: Store, i: nat, s: Status)
    requires i < |store| && !OccupiesSlot(s) && NoDoubleBooking(store)
    ensures NoDoubleBooking(store[i := store[i].(status := s)])
  {
    var v := store[i].(status := s);
    var after := store[i := v];
    forall x, y | x in after && y in after && x.id != y.id ensures !Clash(x, y) {
      if x != v && y != v {
        RewrittenFromStore(store, i, v, x);
        RewrittenFromStore(store, i, v, y);
      }
    }
  }

  /** Writing a status that holds no slot into a stored booking frees its slot: the booking no
      longer answers any overlap query, no query finds a conflict it did not find before, and no
      double booking appears. */
  lemma ReleaseFreesSlot(store: Store, i: nat, s: Status, photographerId: Option<Id>, date: int,
                         start: string, end: string, exclude: Option<Id>)
    requires i < |store| && !OccupiesSlot(s)
    ensures var after := store[i := store[i].(status := s)];
            && !IsCandidate(after[i], photographerId, date, exclude)
            && (CheckOverlap(after, photographerId, date, start, end, exclude) ==> CheckOverlap(store, photographerId, date, start, end, exclude))
            && (NoDoubleBooking(store) ==> NoDoubleBooking(after))
  {
    ReleaseAddsNoConflict(store, i, s, photographerId, date, start, end, exclude);
    if NoDoubleBooking(store) {
      ReleaseKeepsNoDoubleBooking(store, i, s);
    }
  }

  /** Re-saving a stored, slot-occupying booking of a double-booking-free store always passes the
      guard: the only booking it could meet is itself, and that one is excluded. */
  lemma ResaveNeverConflicts(store: Store, b: Booking)
    requires NoDoubleBooking(store)
    requires b in store && OccupiesSlot(b.status)
    ensures Save(store, b, true).Success?
  {
    if CheckOverlap(store, b.photographerId, b.eventDate, b.startTime, b.endTime, Some(b.id)) {
      var x :| x in store && IsCandidate(x, b.photographerId, b.eventDate, Some(b.id))
                          && Overlaps(b.startTime, b.endTime, x.startTime, x.endTime);
      Calendar.DayWindowIsSameDay(b.eventDate, x.eventDate);
      assert Clash(b, x);
    }
  }

  /** A confirmed booking of photographer P on day D from 10:00 to 14:00 rejects 13:00-16:00 for P,
      admits 14:00-16:00 for P (the boundary is shared), and admits 13:00-16:00 for another photographer. */
  lemma HalfOpenScenario(p: Id, q: Id, day: int, existing: Booking)
    requires p != q
    requires existing.photographerId == Some(p) && existing.eventDate == day && existing.status == Confirmed
    requires existing.startTime == "10:00" && existing.endTime == "14:00"
    ensures CheckOverlap([existing], Some(p), day, "13:00", "16:00", None)
    ensures !CheckOverlap([existing], Some(p), day, "14:00", "16:00", None)
    ensures !CheckOverlap([existing], Some(q), day, "13:00", "16:00", None)
  {
    assert IsCandidate(existing, Some(p), day, None);
    assert TimeOfDay.Less("13:00", "14:00") by { assert "13:00"[1..] == "3:00"; }
    assert TimeOfDay.Less("10:00", "16:00") by { assert "10:00"[1..] == "0:00"; }
    assert Overlaps("13:00", "16:00", existing.startTime, existing.endTime);
    TouchingRangesDoNotOverlap("14:00", "14:00", "16:00");
    assert !Overlaps("14:00", "16:00", existing.startTime, existing.endTime) by {
      TimeOfDay.LessIrreflexive("14:00");
    }
  }

  /** With the colon left out the scan misses a real overlap: 09:50-09:58 written as "0950"-"0958"
      passes validation yet is not reported against a booking of 09:00-09:55. */
  lemma MixedFormsMissOverlap()
    ensures TimeOfDay.ValidTime("0950") && TimeOfDay.ValidTime("0958")
    ensures TimeOfDay.MinuteOfDay("0950") < TimeOfDay.MinuteOfDay("09:55")
    ensures TimeOfDay.MinuteOfDay("09:00") < TimeOfDay.MinuteOfDay("0958")
    ensures !Overlaps("0950", "0958", "09:00", "09:55")
  {
    assert !TimeOfDay.Less("09:00", "0958") by {
      assert "09:00"[1..] == "9:00" && "0958"[1..] == "958";
      assert "9:00"[1..] == ":00" && "958"[1..] == "58";
    }
  }
}
