/** The admin conflict report: assigned pending/confirmed bookings sorted by (eventDate, startTime),
    then every pair i < j with the same photographer on the same calendar day, whether or not
    their times overlap. */
module ConflictReport {
  import opened Wrappers
  import opened BookingModel
  import Seqs
  import Sorting
  import TimeOfDay
  import Calendar
  import Overlap

  /** The report's query: assigned and pending or confirmed. */
  predicate Reportable(b: Booking)
  {
    b.photographerId.Some? && (b.status == Pending || b.status == Confirmed)
  }

  /** `(eventDate, startTime)` ascending, `startTime` compared as strings. */
  predicate DateThenStart(a: Booking, b: Booking)
  {
    a.eventDate < b.eventDate || (a.eventDate == b.eventDate && !TimeOfDay.Less(b.startTime, a.startTime))
  }

  function ByDateThenStart(): (le: (Booking, Booking) -> bool)
    ensures forall a, b :: le(a, b) == DateThenStart(a, b)
    ensures Sorting.TotalPreorder(le)
  {
    var le := (a: Booking, b: Booking) => DateThenStart(a, b);
    forall a: Booking, b: Booking ensures le(a, b) || le(b, a) {
      TimeOfDay.LessAsymmetric(a.startTime, b.startTime);
    }
    forall a: Booking, b: Booking, c: Booking | le(a, b) && le(b, c) ensures le(a, c) {
      if a.eventDate == b.eventDate == c.eventDate && TimeOfDay.Less(c.startTime, a.startTime) {
        TimeOfDay.LessTotal(b.startTime, c.startTime);
        if b.startTime != c.startTime {
          TimeOfDay.LessTransitive(b.startTime, c.startTime, a.startTime);
        }
      }
    }
    le
  }

  /** The bookings the report scans, in scan order. */
  function Scanned(store: Store): (bs: Store)
    ensures forall b :: b in bs <==> b in store && Reportable(b)
    ensures multiset(bs) == multiset(Seqs.Filter(store, Reportable))
    ensures forall i, j :: 0 <= i < j < |bs| ==> DateThenStart(bs[i], bs[j])
  {
    var found := Seqs.Filter(store, Reportable);
    Sorting.SortSameElements(ByDateThenStart(), found);
    Sorting.Sort(ByDateThenStart(), found)
  }

  /** `photographerId?._id.toString()` after `populate`: the id when the photographer's user exists,
      nothing when the reference dangles (`nameOf` is the populated user's name). */
  function Key(b: Booking, nameOf: Id -> Option<string>): Option<Id>
  {
    if PhotographerName(b, nameOf).Some? then b.photographerId else None
  }

  /** The populated photographer's name, if the booking has a photographer who still exists. */
  function PhotographerName(b: Booking, nameOf: Id -> Option<string>): Option<string>
  {
    if b.photographerId.Some? then nameOf(b.photographerId.value) else None
  }

  /** The scan's test: equal keys and the same calendar day. */
  predicate Paired(a: Booking, b: Booking, nameOf: Id -> Option<string>)
  {
    Key(a, nameOf) == Key(b, nameOf) && Calendar.SameDay(a.eventDate, b.eventDate)
  }

  /** Index pairs in the order the nested loops visit them. */
  predicate PairBefore(p: (nat, nat), q: (nat, nat))
  {
    p.0 < q.0 || (p.0 == q.0 && p.1 < q.1)
  }

  /** The inner loop: `(i, k)` for each `k` from `j` on that pairs with `i`. */
  function InnerScan(bs: Store, i: nat, j: nat, nameOf: Id -> Option<string>): (r: seq<(nat, nat)>)
    requires i < j <= |bs|
    ensures forall p :: p in r ==> p.0 == i && j <= p.1 < |bs|
    decreases |bs| - j
  {
    if j == |bs| then []
    else (if Paired(bs[i], bs[j], nameOf) then [(i, j)] else []) + InnerScan(bs, i, j + 1, nameOf)
  }

  /** The outer loop from `i` on: each `i <= a` followed by its inner loop. */
  function OuterScan(bs: Store, i: nat, nameOf: Id -> Option<string>): (r: seq<(nat, nat)>)
    requires i <= |bs|
    ensures forall p :: p in r ==> i <= p.0 < p.1 < |bs|
    decreases |bs| - i
  {
    if i == |bs| then []
    else InnerScan(bs, i, i + 1, nameOf) + OuterScan(bs, i + 1, nameOf)
  }

  /** The inner loop finds exactly the later bookings that pair with `i`, in increasing order. */
  lemma InnerScanSpec(bs: Store, i: nat, j: nat, nameOf: Id -> Option<string>)
    requires i < j <= |bs|
    ensures var r := InnerScan(bs, i, j, nameOf);
            && (forall p :: p in r ==> Paired(bs[i], bs[p.1], nameOf))
            && (forall k :: j <= k < |bs| && Paired(bs[i], bs[k], nameOf) ==> (i, k) in r)
            && (forall x, y :: 0 <= x < y < |r| ==> r[x].1 < r[y].1)
  {
    InnerScanSound(bs, i, j, nameOf);
    InnerScanComplete(bs, i, j, nameOf);
    InnerScanIncreasing(bs, i, j, nameOf);
    assert SecondIncreasing(InnerScan(bs, i, j, nameOf));
  }

  /** Every pair the inner loop emits pairs up. */
  lemma {:induction false} InnerScanSound(bs: Store, i: nat, j: nat, nameOf: Id -> Option<string>)
    requires i < j <= |bs|
    ensures forall p :: p in InnerScan(bs, i, j, nameOf) ==> Paired(bs[i], bs[p.1], nameOf)
    decreases |bs| - j
  {
    if j < |bs| {
      InnerScanSound(bs, i, j + 1, nameOf);
    }
  }

  /** Every later booking that pairs with `i` is emitted. */
  lemma {:induction false} InnerScanComplete(bs: Store, i: nat, j: nat, nameOf: Id -> Option<string>)
    requires i < j <= |bs|
    ensures forall k :: j <= k < |bs| && Paired(bs[i], bs[k], nameOf) ==> (i, k) in InnerScan(bs, i, j, nameOf)
    decreases |bs| - j
  {
    if j < |bs| {
      InnerScanComplete(bs, i, j + 1, nameOf);
    }
  }

  /** Pairs in strictly increasing order of their second index. */
  predicate SecondIncreasing(r: seq<(nat, nat)>)
  {
    forall x, y :: 0 <= x < y < |r| ==> r[x].1 < r[y].1
  }

  /** The inner loop emits its pairs in increasing order of the second index. */
  lemma {:induction false} InnerScanIncreasing(bs: Store, i: nat, j: nat, nameOf: Id -> Option<string>)
    requires i < j <= |bs|
    ensures SecondIncreasing(InnerScan(bs, i, j, nameOf))
    decreases |bs| - j
  {
    if j < |bs| {
      InnerScanIncreasing(bs, i, j + 1, nameOf);
      var rest := InnerScan(bs, i, j + 1, nameOf);
      var head: seq<(nat, nat)> := if Paired(bs[i], bs[j], nameOf) then [(i, j)] else [];
      assert InnerScan(bs, i, j, nameOf) == head + rest;
      assert forall y :: 0 <= y < |rest| ==> rest[y] in rest;
    }
  }

  /** The outer loop finds exactly the pairs `a < b` from `i` on that pair up, in visiting order. */
  lemma OuterScanSpec(bs: Store, i: nat, nameOf: Id -> Option<string>)
    requires i <= |bs|
    ensures var r := OuterScan(bs, i, nameOf);
            && (forall p :: p in r ==> Paired(bs[p.0], bs[p.1], nameOf))
            && (forall a, b :: i <= a < b < |bs| && Paired(bs[a], bs[b], nameOf) ==> (a, b) in r)
            && (forall x, y :: 0 <= x < y < |r| ==> PairBefore(r[x], r[y]))
  {
    OuterScanSound(bs, i, nameOf);
    OuterScanComplete(bs, i, nameOf);
    OuterScanOrdered(bs, i, nameOf);
    assert VisitOrder(OuterScan(bs, i, nameOf));
  }

  /** Every pair the nested loops emit pairs up. */
  lemma {:induction false} OuterScanSound(bs: Store, i: nat, nameOf: Id -> Option<string>)
    requires i <= |bs|
    ensures forall p :: p in OuterScan(bs, i, nameOf) ==> Paired(bs[p.0], bs[p.1], nameOf)
    decreases |bs| - i
  {
    if i < |bs| {
      InnerScanSound(bs, i, i + 1, nameOf);
      OuterScanSound(bs, i + 1, nameOf);
      var here := InnerScan(bs, i, i + 1, nameOf);
      var rest := OuterScan(bs, i + 1, nameOf);
      assert OuterScan(bs, i, nameOf) == here + rest;
      forall p: (nat, nat) | p in here + rest ensures Paired(bs[p.0], bs[p.1], nameOf) {
        if p in here { assert p.0 == i; }
      }
    }
  }

  /** Every pair `a < b` from `i` on that pairs up is emitted. */
  lemma {:induction false} OuterScanComplete(bs: Store, i: nat, nameOf: Id -> Option<string>)
    requires i <= |bs|
    ensures forall a, b :: i <= a < b < |bs| && Paired(bs[a], bs[b], nameOf) ==> (a, b) in OuterScan(bs, i, nameOf)
    decreases |bs| - i
  {
    if i < |bs| {
      InnerScanComplete(bs, i, i + 1, nameOf);
      OuterScanComplete(bs, i + 1, nameOf);
      var here := InnerScan(bs, i, i + 1, nameOf);
      var rest := OuterScan(bs, i + 1, nameOf);
      assert OuterScan(bs, i, nameOf) == here + rest;
      forall a, b | i <= a < b < |bs| && Paired(bs[a], bs[b], nameOf) ensures (a, b) in here + rest {
        if a == i { assert (a, b) in here; } else { assert (a, b) in rest; }
      }
    }
  }

  /** Pairs in strictly increasing visiting order. */
  predicate VisitOrder(r: seq<(nat, nat)>)
  {
    forall x, y :: 0 <= x < y < |r| ==> PairBefore(r[x], r[y])
  }

  /** The nested loops emit their pairs in visiting order. */
  lemma {:induction false} OuterScanOrdered(bs: Store, i: nat, nameOf: Id -> Option<string>)
    requires i <= |bs|
    ensures VisitOrder(OuterScan(bs, i, nameOf))
    decreases |bs| - i
  {
    if i < |bs| {
      InnerScanIncreasing(bs, i, i + 1, nameOf);
      OuterScanOrdered(bs, i + 1, nameOf);
      var here := InnerScan(bs, i, i + 1, nameOf);
      var rest := OuterScan(bs, i + 1, nameOf);
      assert OuterScan(bs, i, nameOf) == here + rest;
      ConcatVisitOrder(here, rest, i);
    }
  }

  /** One outer step keeps visiting order: the pairs of row `i`, increasing in their second index,
      followed by pairs of later rows already in visiting order. */
  lemma ConcatVisitOrder(here: seq<(nat, nat)>, rest: seq<(nat, nat)>, i: nat)
    requires forall p :: p in here ==> p.0 == i
    requires SecondIncreasing(here)
    requires forall q :: q in rest ==> q.0 > i
    requires VisitOrder(rest)
    ensures VisitOrder(here + rest)
  {
    var r := here + rest;
    forall x, y | 0 <= x < y < |r| ensures PairBefore(r[x], r[y]) {
      if y < |here| {
        assert r[x] == here[x] && r[y] == here[y];
        assert here[x] in here && here[y] in here;
      } else if x < |here| {
        assert r[x] == here[x] && here[x] in here;
        assert r[y] == rest[y - |here|] && rest[y - |here|] in rest;
      } else {
        assert r[x] == rest[x - |here|] && r[y] == rest[y - |here|];
      }
    }
  }

  /** One side of a record: id, client name, event type and "start - end". */
  datatype Side = Side(id: Id, client: Option<string>, eventType: string, time: string)

  datatype Conflict = Conflict(photographer: string, date: int, bookingA: Side, bookingB: Side)

  function SideOf(b: Booking, nameOf: Id -> Option<string>): Side
  {
    Side(b.id, nameOf(b.clientId), b.eventType, b.startTime + " - " + b.endTime)
  }

  /** A pair whose photographer reference dangles on both sides: reading its name throws. */
  predicate Dangling(bs: Store, p: (nat, nat), nameOf: Id -> Option<string>)
  {
    p.0 < |bs| && PhotographerName(bs[p.0], nameOf).None?
  }

  predicate AnyDangling(bs: Store, pairs: seq<(nat, nat)>, nameOf: Id -> Option<string>)
  {
    exists k :: 0 <= k < |pairs| && Dangling(bs, pairs[k], nameOf)
  }

  /** The record pushed for the pair `(a, b)` when `a`'s photographer is named `name`. */
  function Record(bs: Store, p: (nat, nat), name: string, nameOf: Id -> Option<string>): Conflict
    requires p.0 < |bs| && p.1 < |bs|
  {
    Conflict(name, bs[p.0].eventDate, SideOf(bs[p.0], nameOf), SideOf(bs[p.1], nameOf))
  }

  /** The pairs' records can be built: both indices are in range and the first booking's
      photographer is named. */
  predicate Nameable(bs: Store, pairs: seq<(nat, nat)>, nameOf: Id -> Option<string>)
  {
    forall k :: 0 <= k < |pairs| ==> pairs[k].0 < |bs| && pairs[k].1 < |bs| && PhotographerName(bs[pairs[k].0], nameOf).Some?
  }

  /** The records for the pairs, in order, when none dangles. */
  function Records(bs: Store, pairs: seq<(nat, nat)>, nameOf: Id -> Option<string>): (r: seq<Conflict>)
    requires Nameable(bs, pairs, nameOf)
    ensures |r| == |pairs|
    ensures forall k :: 0 <= k < |pairs| ==>
              r[k] == Record(bs, pairs[k], PhotographerName(bs[pairs[k].0], nameOf).value, nameOf)
  {
    seq(|pairs|, k requires 0 <= k < |pairs| => Record(bs, pairs[k], PhotographerName(bs[pairs[k].0], nameOf).value, nameOf))
  }

  /** A booking whose photographer no longer exists: `populate` leaves `null` in its place. */
  predicate Orphaned(b: Booking, nameOf: Id -> Option<string>)
  {
    PhotographerName(b, nameOf).None?
  }

  /** Same photographer, same calendar day: what the report calls a conflict. */
  predicate Together(a: Booking, b: Booking)
  {
    a.photographerId == b.photographerId && Calendar.SameDay(a.eventDate, b.eventDate)
  }

  /** The record for bookings `a` and `b` of `bs`, named after `a`'s photographer. */
  function RecordOf(bs: Store, a: nat, b: nat, nameOf: Id -> Option<string>): Conflict
    requires a < |bs| && b < |bs| && !Orphaned(bs[a], nameOf)
  {
    Record(bs, (a, b), PhotographerName(bs[a], nameOf).value, nameOf)
  }

  /** The scan's test in the bookings' terms: two orphaned bookings on one day pair up (both keys are
      `undefined`), and otherwise a pair is a same-photographer, same-day pair. */
  lemma PairedIff(a: Booking, b: Booking, nameOf: Id -> Option<string>)
    ensures Paired(a, b, nameOf) <==>
              || (Orphaned(a, nameOf) && Orphaned(b, nameOf) && Calendar.SameDay(a.eventDate, b.eventDate))
              || (!Orphaned(a, nameOf) && Together(a, b))
    ensures Together(a, b) ==> Paired(a, b, nameOf)
  {
  }

  /** Two bookings of `bs` on one day both reference photographers that no longer exist. */
  predicate OrphanClash(bs: Store, nameOf: Id -> Option<string>)
  {
    exists a, b :: 0 <= a < b < |bs| && Orphaned(bs[a], nameOf) && Orphaned(bs[b], nameOf)
                   && Calendar.SameDay(bs[a].eventDate, bs[b].eventDate)
  }

  /** Every record in `recs` is that of a same-photographer, same-day pair `a < b` of `bs`. */
  predicate OnlyConflicts(bs: Store, recs: seq<Conflict>, nameOf: Id -> Option<string>)
  {
    forall c :: c in recs ==>
      exists a, b :: 0 <= a < b < |bs| && !Orphaned(bs[a], nameOf) && Together(bs[a], bs[b])
                     && c == RecordOf(bs, a, b, nameOf)
  }

  /** Every same-photographer, same-day pair `a < b` of `bs` has its record in `recs`. */
  predicate EveryConflict(bs: Store, recs: seq<Conflict>, nameOf: Id -> Option<string>)
  {
    forall a, b :: 0 <= a < b < |bs| && Together(bs[a], bs[b]) ==>
      !Orphaned(bs[a], nameOf) && RecordOf(bs, a, b, nameOf) in recs
  }

  /** A dangling pair the scan reaches is a pair of orphaned bookings on one day. */
  lemma DanglingClashes(bs: Store, nameOf: Id -> Option<string>)
    requires AnyDangling(bs, OuterScan(bs, 0, nameOf), nameOf)
    ensures OrphanClash(bs, nameOf)
  {
    var pairs := OuterScan(bs, 0, nameOf);
    var k :| 0 <= k < |pairs| && Dangling(bs, pairs[k], nameOf);
    assert pairs[k] in pairs;
    OuterScanSound(bs, 0, nameOf);
    var a, b := pairs[k].0, pairs[k].1;
    PairedIff(bs[a], bs[b], nameOf);
  }

  /** Two orphaned bookings on one day pair up, so the scan reaches a dangling pair. */
  lemma ClashDangles(bs: Store, nameOf: Id -> Option<string>)
    requires OrphanClash(bs, nameOf)
    ensures AnyDangling(bs, OuterScan(bs, 0, nameOf), nameOf)
  {
    var pairs := OuterScan(bs, 0, nameOf);
    var a, b :| 0 <= a < b < |bs| && Orphaned(bs[a], nameOf) && Orphaned(bs[b], nameOf)
                && Calendar.SameDay(bs[a].eventDate, bs[b].eventDate);
    PairedIff(bs[a], bs[b], nameOf);
    OuterScanComplete(bs, 0, nameOf);
    assert (a, b) in pairs;
    var k :| 0 <= k < |pairs| && pairs[k] == (a, b);
    assert Dangling(bs, pairs[k], nameOf);
  }

  /** The scan reaches a dangling pair exactly when two bookings on one day are both orphaned. */
  lemma DanglingIff(bs: Store, nameOf: Id -> Option<string>)
    ensures AnyDangling(bs, OuterScan(bs, 0, nameOf), nameOf) <==> OrphanClash(bs, nameOf)
  {
    if AnyDangling(bs, OuterScan(bs, 0, nameOf), nameOf) {
      DanglingClashes(bs, nameOf);
    }
    if OrphanClash(bs, nameOf) {
      ClashDangles(bs, nameOf);
    }
  }

  /** When no found pair dangles, every record can be built. */
  lemma ScanNameable(bs: Store, nameOf: Id -> Option<string>)
    requires !AnyDangling(bs, OuterScan(bs, 0, nameOf), nameOf)
    ensures Nameable(bs, OuterScan(bs, 0, nameOf), nameOf)
  {
    var pairs := OuterScan(bs, 0, nameOf);
    forall k | 0 <= k < |pairs| ensures pairs[k].0 < |bs| && pairs[k].1 < |bs| && PhotographerName(bs[pairs[k].0], nameOf).Some? {
      assert pairs[k] in pairs;
      assert !Dangling(bs, pairs[k], nameOf);
    }
  }

  /** Every record is that of a same-photographer, same-day pair `a < b`. */
  lemma RecordsSound(bs: Store, nameOf: Id -> Option<string>)
    requires !AnyDangling(bs, OuterScan(bs, 0, nameOf), nameOf)
    requires Nameable(bs, OuterScan(bs, 0, nameOf), nameOf)
    ensures OnlyConflicts(bs, Records(bs, OuterScan(bs, 0, nameOf), nameOf), nameOf)
  {
    var pairs := OuterScan(bs, 0, nameOf);
    var recs := Records(bs, pairs, nameOf);
    OuterScanSound(bs, 0, nameOf);
    forall c | c in recs
      ensures exists a, b :: 0 <= a < b < |bs| && !Orphaned(bs[a], nameOf) && Together(bs[a], bs[b])
                             && c == RecordOf(bs, a, b, nameOf)
    {
      var k :| 0 <= k < |recs| && recs[k] == c;
      assert pairs[k] in pairs;
      var a, b := pairs[k].0, pairs[k].1;
      PairedIff(bs[a], bs[b], nameOf);
      assert c == RecordOf(bs, a, b, nameOf);
    }
  }

  /** One same-photographer, same-day pair `a < b` has its record. */
  lemma PairRecorded(bs: Store, nameOf: Id -> Option<string>, a: nat, b: nat)
    requires !AnyDangling(bs, OuterScan(bs, 0, nameOf), nameOf)
    requires Nameable(bs, OuterScan(bs, 0, nameOf), nameOf)
    requires a < b < |bs| && Together(bs[a], bs[b])
    ensures !Orphaned(bs[a], nameOf) && RecordOf(bs, a, b, nameOf) in Records(bs, OuterScan(bs, 0, nameOf), nameOf)
  {
    var pairs := OuterScan(bs, 0, nameOf);
    PairedIff(bs[a], bs[b], nameOf);
    OuterScanComplete(bs, 0, nameOf);
    assert (a, b) in pairs;
    var k :| 0 <= k < |pairs| && pairs[k] == (a, b);
    assert !Dangling(bs, pairs[k], nameOf);
    assert Records(bs, pairs, nameOf)[k] == RecordOf(bs, a, b, nameOf);
  }

  /** Every same-photographer, same-day pair `a < b` has its record, and `a` is not orphaned. */
  lemma RecordsComplete(bs: Store, nameOf: Id -> Option<string>)
    requires !AnyDangling(bs, OuterScan(bs, 0, nameOf), nameOf)
    requires Nameable(bs, OuterScan(bs, 0, nameOf), nameOf)
    ensures EveryConflict(bs, Records(bs, OuterScan(bs, 0, nameOf), nameOf), nameOf)
  {
    forall a, b | 0 <= a < b < |bs| && Together(bs[a], bs[b])
      ensures !Orphaned(bs[a], nameOf) && RecordOf(bs, a, b, nameOf) in Records(bs, OuterScan(bs, 0, nameOf), nameOf)
    {
      PairRecorded(bs, nameOf, a, b);
    }
  }

  /** Every photographer the scanned bookings reference still exists. */
  predicate AllResolved(store: Store, nameOf: Id -> Option<string>)
  {
    forall b :: b in store && Reportable(b) ==> nameOf(b.photographerId.value).Some?
  }

  /** `getBookingConflicts` over the scanned bookings `bs` (sorted by date, then start time). It
      answers 500 exactly when two bookings on one day both reference photographers that no longer
      exist, which is never the case when every photographer exists. Otherwise it answers one record
      per pair the nested loops find: each record is that of a pair `a < b` with one photographer on
      one day, and every such pair has its record. */
  function Report(store: Store, nameOf: Id -> Option<string>): (r: Result<seq<Conflict>, string>)
    ensures r.Failure? <==> OrphanClash(Scanned(store), nameOf)
    ensures AllResolved(store, nameOf) ==> r.Success?
    ensures r.Success? ==> OnlyConflicts(Scanned(store), r.value, nameOf)
    ensures r.Success? ==> EveryConflict(Scanned(store), r.value, nameOf)
    ensures r.Success? ==> |r.value| == |OuterScan(Scanned(store), 0, nameOf)|
  {
    var bs := Scanned(store);
    var pairs := OuterScan(bs, 0, nameOf);
    DanglingIff(bs, nameOf);
    assert AllResolved(store, nameOf) ==> forall a :: 0 <= a < |bs| ==> !Orphaned(bs[a], nameOf) by {
      if AllResolved(store, nameOf) {
        forall a | 0 <= a < |bs| ensures !Orphaned(bs[a], nameOf) {
          assert bs[a] in bs;
        }
      }
    }
    if AnyDangling(bs, pairs, nameOf) then
      Failure("Cannot read properties of null (reading 'name')")
    else
      ScanNameable(bs, nameOf);
      RecordsSound(bs, nameOf);
      RecordsComplete(bs, nameOf);
      Success(Records(bs, pairs, nameOf))
  }

  /** Each unordered pair is visited once: the pair list is strictly increasing, so free of repeats. */
  lemma PairsDistinct(bs: Store, nameOf: Id -> Option<string>)
    ensures var pairs := OuterScan(bs, 0, nameOf);
            forall x, y :: 0 <= x < |pairs| && 0 <= y < |pairs| && x != y ==> pairs[x] != pairs[y]
  {
    var pairs := OuterScan(bs, 0, nameOf);
    OuterScanSpec(bs, 0, nameOf);
    forall x, y | 0 <= x < |pairs| && 0 <= y < |pairs| && x != y ensures pairs[x] != pairs[y] {
      if x < y { assert PairBefore(pairs[x], pairs[y]); } else { assert PairBefore(pairs[y], pairs[x]); }
    }
  }

  /** Every two bookings of the sequence pair up. */
  predicate AllPaired(bs: Store, nameOf: Id -> Option<string>)
  {
    forall a, b :: 0 <= a < b < |bs| ==> Paired(bs[a], bs[b], nameOf)
  }

  /** Within one group of mutually paired bookings, the inner loop from `j` finds every later one. */
  lemma {:induction false} InnerScanGroup(bs: Store, i: nat, j: nat, nameOf: Id -> Option<string>)
    requires i < j <= |bs|
    requires AllPaired(bs, nameOf)
    ensures |InnerScan(bs, i, j, nameOf)| == |bs| - j
    decreases |bs| - j
  {
    if j < |bs| {
      assert Paired(bs[i], bs[j], nameOf);
      InnerScanGroup(bs, i, j + 1, nameOf);
      assert InnerScan(bs, i, j, nameOf) == [(i, j)] + InnerScan(bs, i, j + 1, nameOf);
    }
  }

  /** The number of unordered pairs among n items, counted the way the nested loops visit them. */
  function Choose2(n: nat): nat
  {
    if n == 0 then 0 else (n - 1) + Choose2(n - 1)
  }

  /** The loop count in closed form: n(n-1)/2. */
  lemma {:induction false} Choose2Closed(n: nat)
    ensures 2 * Choose2(n) == n * (n - 1)
  {
    if n > 0 {
      Choose2Closed(n - 1);
    }
  }

  /** A group of mutually paired bookings yields one pair per unordered pair from the outer loop at `i`. */
  lemma {:induction false} OuterScanGroup(bs: Store, i: nat, nameOf: Id -> Option<string>)
    requires i <= |bs|
    requires AllPaired(bs, nameOf)
    ensures |OuterScan(bs, i, nameOf)| == Choose2(|bs| - i)
    decreases |bs| - i
  {
    if i < |bs| {
      InnerScanGroup(bs, i, i + 1, nameOf);
      OuterScanGroup(bs, i + 1, nameOf);
      assert OuterScan(bs, i, nameOf) == InnerScan(bs, i, i + 1, nameOf) + OuterScan(bs, i + 1, nameOf);
      assert Choose2(|bs| - i) == (|bs| - i - 1) + Choose2(|bs| - (i + 1));
    }
  }

  /** k scanned bookings of one photographer on one day, all resolved, give k(k-1)/2 records. */
  lemma GroupCount(store: Store, nameOf: Id -> Option<string>)
    requires AllResolved(store, nameOf)
    requires forall a, b :: 0 <= a < b < |Scanned(store)| ==>
               Scanned(store)[a].photographerId == Scanned(store)[b].photographerId
               && Calendar.SameDay(Scanned(store)[a].eventDate, Scanned(store)[b].eventDate)
    ensures Report(store, nameOf).Success?
    ensures 2 * |Report(store, nameOf).value| == |Scanned(store)| * (|Scanned(store)| - 1)
  {
    var bs := Scanned(store);
    forall a, b | 0 <= a < b < |bs| ensures Paired(bs[a], bs[b], nameOf) {
      assert bs[a] in bs && bs[b] in bs;
    }
    assert AllPaired(bs, nameOf);
    OuterScanGroup(bs, 0, nameOf);
    Choose2Closed(|bs|);
  }

  /** When every reportable booking shares one photographer and one day, so does every scanned pair. */
  lemma ScannedSameGroup(store: Store)
    requires forall x, y :: x in store && y in store ==> x.photographerId == y.photographerId && Calendar.SameDay(x.eventDate, y.eventDate)
    ensures forall a, b :: 0 <= a < b < |Scanned(store)| ==>
              Scanned(store)[a].photographerId == Scanned(store)[b].photographerId
              && Calendar.SameDay(Scanned(store)[a].eventDate, Scanned(store)[b].eventDate)
  {
    var bs := Scanned(store);
    forall a, b | 0 <= a < b < |bs|
      ensures bs[a].photographerId == bs[b].photographerId && Calendar.SameDay(bs[a].eventDate, bs[b].eventDate)
    {
      assert bs[a] in bs && bs[b] in bs;
    }
  }

  /** Reportable bookings of one resolved photographer, all on one day: every pair among them is a
      conflict, so `n` bookings give n(n-1)/2 records. */
  lemma GroupReport(store: Store, nameOf: Id -> Option<string>)
    requires forall x :: x in store ==> Reportable(x) && nameOf(x.photographerId.value).Some?
    requires forall x, y :: x in store && y in store ==> x.photographerId == y.photographerId && Calendar.SameDay(x.eventDate, y.eventDate)
    ensures Report(store, nameOf).Success?
    ensures 2 * |Report(store, nameOf).value| == |store| * (|store| - 1)
  {
    ScannedKeepsAll(store);
    ScannedSameGroup(store);
    assert AllResolved(store, nameOf) by {
      forall x | x in store && Reportable(x) ensures nameOf(x.photographerId.value).Some? { }
    }
    GroupCount(store, nameOf);
  }

  /** When every booking is reportable, the scan keeps them all. */
  lemma ScannedKeepsAll(store: Store)
    requires forall x :: x in store ==> Reportable(x)
    ensures |Scanned(store)| == |store|
  {
    forall i | 0 <= i < |store| ensures Reportable(store[i]) {
      assert store[i] in store;
    }
    Seqs.FilterKeepsAll(store, Reportable);
    assert multiset(Scanned(store)) == multiset(store);
  }

  /** Two reportable bookings of one resolved photographer on one day give exactly one record. */
  lemma PairReportedOnce(a: Booking, b: Booking, nameOf: Id -> Option<string>)
    requires Reportable(a) && Reportable(b)
    requires a.photographerId == b.photographerId && Calendar.SameDay(a.eventDate, b.eventDate)
    requires nameOf(a.photographerId.value).Some?
    ensures Report([a, b], nameOf).Success?
    ensures |Report([a, b], nameOf).value| == 1
  {
    GroupReport([a, b], nameOf);
  }

  /** Two same-day bookings of one photographer whose times do not overlap are still a conflict. */
  lemma ReportedWithoutOverlap(p: Id, day: int, nameOf: Id -> Option<string>)
    requires nameOf(p).Some?
    ensures var a := Booking("a", "c1", Some(p), day, "10:00", "12:00", "Wedding", None, None, "gold", None, None, Unpaid, Confirmed, 0);
            var b := Booking("b", "c2", Some(p), day, "14:00", "16:00", "Reception", None, None, "gold", None, None, Unpaid, Pending, 0);
            && !Overlap.Overlaps(a.startTime, a.endTime, b.startTime, b.endTime)
            && Report([a, b], nameOf).Success?
            && |Report([a, b], nameOf).value| == 1
  {
    var a := Booking("a", "c1", Some(p), day, "10:00", "12:00", "Wedding", None, None, "gold", None, None, Unpaid, Confirmed, 0);
    var b := Booking("b", "c2", Some(p), day, "14:00", "16:00", "Reception", None, None, "gold", None, None, Unpaid, Pending, 0);
    assert !TimeOfDay.Less("14:00", "12:00") by {
      TimeOfDay.LessHead("14:00", "12:00");
    }
    PairReportedOnce(a, b, nameOf);
  }
}
