/** The admin endpoints that write: booking assignment and status by id, the user account flags,
    and the activity log that merges recent bookings and users. */
module AdminDesk {
  import opened Wrappers
  import opened BookingModel
  import UserModel
  import Seqs
  import Sorting
  import Overlap
  import TimeOfDay
  import Calendar

  const BookingNotFound: string := "Booking not found"

  /** `findByIdAndUpdate(id, update)` on bookings: the first booking with the id is rewritten, or 404. */
  function UpdateBookingById(store: Store, id: Id, update: Booking -> Booking): (r: (Reply<Booking>, Store))
    ensures r.0.Fail? <==> forall i :: 0 <= i < |store| ==> store[i].id != id
    ensures r.0.Fail? ==> r.0 == Fail(404, BookingNotFound) && r.1 == store
    ensures r.0.Ok? ==> r.0.status == 200
    ensures r.0.Ok? ==> exists i :: 0 <= i < |store| && store[i].id == id
                                   && (forall j :: 0 <= j < i ==> store[j].id != id)
                                   && r.0.body == update(store[i]) && r.1 == store[i := update(store[i])]
  {
    var (found, next) := Seqs.UpdateFirst(store, (b: Booking) => b.id == id, update);
    if found.None? then (Fail(404, BookingNotFound), store) else (Ok(200, found.value), next)
  }

  /** `assignPhotographer`: the given photographer (an absent one leaves the field alone) and status
      reset to "pending"; no overlap check runs. */
  function Assign(store: Store, id: Id, photographerId: Option<Id>): (r: (Reply<Booking>, Store))
    ensures r.0.Fail? <==> forall i :: 0 <= i < |store| ==> store[i].id != id
    ensures r.0.Fail? ==> r.0 == Fail(404, BookingNotFound) && r.1 == store
    ensures r.0.Ok? ==> r.0.status == 200
    ensures r.0.Ok? ==> exists i :: 0 <= i < |store| && store[i].id == id
                                   && (forall j :: 0 <= j < i ==> store[j].id != id)
                                   && r.0.body.status == Pending
                                   && r.0.body.photographerId == (if photographerId.Some? then photographerId else store[i].photographerId)
                                   && r.0.body.(status := store[i].status, photographerId := store[i].photographerId) == store[i]
                                   && r.1 == store[i := r.0.body]
  {
    UpdateBookingById(store, id, (b: Booking) =>
      b.(photographerId := if photographerId.Some? then photographerId else b.photographerId, status := Pending))
  }

  /** The `$set` of `reassignPhotographer`: the given photographer, or the booking's own. */
  function Repoint(photographerId: Option<Id>): Booking -> Booking
  {
    (b: Booking) => b.(photographerId := if photographerId.Some? then photographerId else b.photographerId)
  }

  /** `reassignPhotographer`: only the photographer changes; the status is kept. */
  function Reassign(store: Store, id: Id, photographerId: Option<Id>): (r: (Reply<Booking>, Store))
    ensures r.0.Fail? <==> forall i :: 0 <= i < |store| ==> store[i].id != id
    ensures r.0.Fail? ==> r.0 == Fail(404, BookingNotFound) && r.1 == store
    ensures r.0.Ok? ==> r.0.status == 200
    ensures r.0.Ok? ==> exists i :: 0 <= i < |store| && store[i].id == id
                                   && (forall j :: 0 <= j < i ==> store[j].id != id)
                                   && r.0.body.photographerId == (if photographerId.Some? then photographerId else store[i].photographerId)
                                   && r.0.body.(photographerId := store[i].photographerId) == store[i]
                                   && r.1 == store[i := r.0.body]
  {
    UpdateBookingById(store, id, Repoint(photographerId))
  }

  /** `updateBookingStatus`: any status, no transition check; an absent status changes nothing. */
  function SetStatus(store: Store, id: Id, status: Option<Status>): (r: (Reply<Booking>, Store))
    ensures r.0.Fail? <==> forall i :: 0 <= i < |store| ==> store[i].id != id
    ensures r.0.Fail? ==> r.0 == Fail(404, BookingNotFound) && r.1 == store
    ensures r.0.Ok? ==> r.0.status == 200
    ensures r.0.Ok? ==> exists i :: 0 <= i < |store| && store[i].id == id
                                   && (forall j :: 0 <= j < i ==> store[j].id != id)
                                   && r.0.body == (if status.Some? then store[i].(status := status.value) else store[i])
                                   && r.1 == store[i := r.0.body]
  {
    UpdateBookingById(store, id, (b: Booking) => if status.Some? then b.(status := status.value) else b)
  }

  /** Once the booking is known to exist, the update's outcome is fixed: the first booking with
      the id is rewritten and returned. */
  lemma UpdateBookingByIdAt(store: Store, id: Id, update: Booking -> Booking)
    requires FindById(store, id).Some?
    ensures var i := FindById(store, id).value;
            UpdateBookingById(store, id, update) == (Ok(200, update(store[i])), store[i := update(store[i])])
  {
    var i := FindById(store, id).value;
    var r := UpdateBookingById(store, id, update);
    var k :| 0 <= k < |store| && store[k].id == id && (forall j :: 0 <= j < k ==> store[j].id != id)
             && r.0.body == update(store[k]) && r.1 == store[k := update(store[k])];
    assert k == i;
  }

  /** Reassigning twice is reassigning once to the second photographer. */
  lemma ReassignTwice(store: Store, id: Id, p: Id, q: Id)
    requires Reassign(store, id, Some(p)).0.Ok?
    ensures Reassign(Reassign(store, id, Some(p)).1, id, Some(q)) == Reassign(store, id, Some(q))
  {
    var i := FindById(store, id).value;
    UpdateBookingByIdAt(store, id, Repoint(Some(p)));
    var once := store[i := Repoint(Some(p))(store[i])];
    assert FindById(once, id) == Some(i) by {
      assert once[i].id == id;
      assert forall j :: 0 <= j < i ==> once[j] == store[j];
    }
    UpdateBookingByIdAt(once, id, Repoint(Some(q)));
    UpdateBookingByIdAt(store, id, Repoint(Some(q)));
    assert once[i := Repoint(Some(q))(once[i])] == store[i := Repoint(Some(q))(store[i])];
  }

  /** Reassigning back to the photographer the booking had restores the store. */
  lemma ReassignBack(store: Store, id: Id, p: Id, q: Id)
    requires Reassign(store, id, Some(p)).0.Ok?
    requires FindById(store, id).Some? && store[FindById(store, id).value].photographerId == Some(q)
    ensures Reassign(Reassign(store, id, Some(p)).1, id, Some(q)).1 == store
  {
    ReassignTwice(store, id, p, q);
    var i := FindById(store, id).value;
    UpdateBookingByIdAt(store, id, Repoint(Some(q)));
    assert store[i := Repoint(Some(q))(store[i])] == store;
  }

  /** A status that holds no slot (declined, cancelled) frees the booking: it answers no overlap
      query, no conflict appears that was not there before, and a double-booking-free store stays so. */
  lemma SetStatusFreesSlot(store: Store, id: Id, s: Status, photographerId: Option<Id>, date: int, start: string, end: string, exclude: Option<Id>)
    requires SetStatus(store, id, Some(s)).0.Ok? && !Overlap.OccupiesSlot(s)
    ensures var r := SetStatus(store, id, Some(s));
            && r.0.body.status == s
            && !Overlap.IsCandidate(r.0.body, photographerId, date, exclude)
            && (Overlap.CheckOverlap(r.1, photographerId, date, start, end, exclude) ==> Overlap.CheckOverlap(store, photographerId, date, start, end, exclude))
            && (Overlap.NoDoubleBooking(store) ==> Overlap.NoDoubleBooking(r.1))
  {
    var r := SetStatus(store, id, Some(s));
    var i :| 0 <= i < |store| && store[i].id == id && r.0.body == store[i].(status := s) && r.1 == store[i := r.0.body];
    Overlap.ReleaseFreesSlot(store, i, s, photographerId, date, start, end, exclude);
  }

  /** Assignment bypasses the save guard: assigning a photographer to an unassigned booking that
      overlaps one they already hold double-books them. */
  lemma AssignCanDoubleBook(p: Id, day: int)
    ensures var held := Booking("a", "c1", Some(p), day, "10:00", "14:00", "Wedding", None, None, "gold", None, None, Unpaid, Confirmed, 0);
            var open := Booking("b", "c2", None, day, "12:00", "16:00", "Reception", None, None, "gold", None, None, Unpaid, Pending, 0);
            && Overlap.NoDoubleBooking([held, open])
            && Assign([held, open], "b", Some(p)).0.Ok?
            && !Overlap.NoDoubleBooking(Assign([held, open], "b", Some(p)).1)
  {
    var held := Booking("a", "c1", Some(p), day, "10:00", "14:00", "Wedding", None, None, "gold", None, None, Unpaid, Confirmed, 0);
    var open := Booking("b", "c2", None, day, "12:00", "16:00", "Reception", None, None, "gold", None, None, Unpaid, Pending, 0);
    assert TimeOfDay.Less("10:00", "16:00") by { assert "10:00"[1..] == "0:00"; }
    assert TimeOfDay.Less("12:00", "14:00") by { assert "12:00"[1..] == "2:00"; }
    AssignCreatesClash(held, open, p);
  }

  /** Assigning the photographer of a held booking to an unassigned one that overlaps it on the same
      day succeeds and leaves the two clashing, though they did not clash before. */
  lemma AssignCreatesClash(held: Booking, open: Booking, p: Id)
    requires held.id != open.id && held.photographerId == Some(p) && open.photographerId.None?
    requires Calendar.SameDay(held.eventDate, open.eventDate) && Overlap.OccupiesSlot(held.status)
    requires Overlap.Overlaps(held.startTime, held.endTime, open.startTime, open.endTime)
    ensures Overlap.NoDoubleBooking([held, open])
    ensures Assign([held, open], open.id, Some(p)).0.Ok?
    ensures !Overlap.NoDoubleBooking(Assign([held, open], open.id, Some(p)).1)
  {
    var after := Assign([held, open], open.id, Some(p)).1;
    var claimed := open.(photographerId := Some(p), status := Pending);
    assert after == [held, claimed];
    assert Overlap.Clash(after[0], after[1]);
  }

  const UserNotFound: string := "User not found"
  const PhotographerNotFound: string := "Photographer not found"

  /** The account flags an admin action writes, by `findByIdAndUpdate` without validators: approval
      (if the action sets it) and activity. The email is untouched, so the unique index never refuses.
      The reply is the updated document without its password hash. */
  function SetFlags(users: seq<UserModel.User>, id: Id, approved: Option<bool>, active: bool, notFound: string)
    : (r: (Reply<UserModel.User>, seq<UserModel.User>))
    ensures r.0.Fail? <==> forall i :: 0 <= i < |users| ==> users[i].id != id
    ensures r.0.Fail? ==> r.0 == Fail(404, notFound) && r.1 == users
    ensures r.0.Ok? ==> r.0.status == 200 && r.0.body.passwordHash == ""
    ensures r.0.Ok? ==> exists i :: 0 <= i < |users| && users[i].id == id
                                   && (forall j :: 0 <= j < i ==> users[j].id != id)
                                   && r.1 == users[i := users[i].(isApproved := if approved.Some? then approved.value else users[i].isApproved,
                                                                  isActive := active)]
                                   && r.0.body == UserModel.Redact(r.1[i])
  {
    var update := (u: UserModel.User) => u.(isApproved := if approved.Some? then approved.value else u.isApproved, isActive := active);
    UserModel.UpdateKeepingEmailSucceeds(users, id, update);
    match UserModel.UpdateById(users, id, update, [])
    case Failure(_) => (Fail(500, "E11000 duplicate key error"), users)
    case Success((None, _)) => (Fail(404, notFound), users)
    case Success((Some(u), next)) => (Ok(200, UserModel.Redact(u)), next)
  }

  /** `blockUser`: the first user with the id, of any role, becomes inactive; nothing else changes. */
  function BlockUser(users: seq<UserModel.User>, id: Id): (r: (Reply<UserModel.User>, seq<UserModel.User>))
    ensures r.0.Fail? <==> forall i :: 0 <= i < |users| ==> users[i].id != id
    ensures r.0.Fail? ==> r.0 == Fail(404, UserNotFound) && r.1 == users
    ensures r.0.Ok? ==> exists i :: 0 <= i < |users| && users[i].id == id
                                   && r.1 == users[i := users[i].(isActive := false)]
                                   && r.0.body == UserModel.Redact(r.1[i])
  {
    SetFlags(users, id, None, false, UserNotFound)
  }

  /** `unblockUser`: the user becomes active; nothing else changes. */
  function UnblockUser(users: seq<UserModel.User>, id: Id): (r: (Reply<UserModel.User>, seq<UserModel.User>))
    ensures r.0.Fail? <==> forall i :: 0 <= i < |users| ==> users[i].id != id
    ensures r.0.Fail? ==> r.0 == Fail(404, UserNotFound) && r.1 == users
    ensures r.0.Ok? ==> exists i :: 0 <= i < |users| && users[i].id == id
                                   && r.1 == users[i := users[i].(isActive := true)]
                                   && r.0.body == UserModel.Redact(r.1[i])
  {
    SetFlags(users, id, None, true, UserNotFound)
  }

  /** `approvePhotographer`: approved and active. The filter is the id alone, so any role qualifies. */
  function Approve(users: seq<UserModel.User>, id: Id): (r: (Reply<UserModel.User>, seq<UserModel.User>))
    ensures r.0.Fail? <==> forall i :: 0 <= i < |users| ==> users[i].id != id
    ensures r.0.Fail? ==> r.0 == Fail(404, PhotographerNotFound) && r.1 == users
    ensures r.0.Ok? ==> exists i :: 0 <= i < |users| && users[i].id == id
                                   && r.1 == users[i := users[i].(isApproved := true, isActive := true)]
                                   && r.0.body == UserModel.Redact(r.1[i])
  {
    SetFlags(users, id, Some(true), true, PhotographerNotFound)
  }

  /** `rejectPhotographer`: neither approved nor active. */
  function Reject(users: seq<UserModel.User>, id: Id): (r: (Reply<UserModel.User>, seq<UserModel.User>))
    ensures r.0.Fail? <==> forall i :: 0 <= i < |users| ==> users[i].id != id
    ensures r.0.Fail? ==> r.0 == Fail(404, PhotographerNotFound) && r.1 == users
    ensures r.0.Ok? ==> exists i :: 0 <= i < |users| && users[i].id == id
                                   && r.1 == users[i := users[i].(isApproved := false, isActive := false)]
                                   && r.0.body == UserModel.Redact(r.1[i])
  {
    SetFlags(users, id, Some(false), false, PhotographerNotFound)
  }

  /** `blockPhotographer`: activity only; approval is kept. */
  function BlockPhotographer(users: seq<UserModel.User>, id: Id): (r: (Reply<UserModel.User>, seq<UserModel.User>))
    ensures r.0.Fail? <==> forall i :: 0 <= i < |users| ==> users[i].id != id
    ensures r.0.Fail? ==> r.0 == Fail(404, PhotographerNotFound) && r.1 == users
    ensures r.0.Ok? ==> exists i :: 0 <= i < |users| && users[i].id == id
                                   && r.1 == users[i := users[i].(isActive := false)]
                                   && r.0.body == UserModel.Redact(r.1[i])
                                   && r.0.body.isApproved == users[i].isApproved
  {
    SetFlags(users, id, None, false, PhotographerNotFound)
  }

  /** `unblockPhotographer`: activity only; approval is kept. */
  function UnblockPhotographer(users: seq<UserModel.User>, id: Id): (r: (Reply<UserModel.User>, seq<UserModel.User>))
    ensures r.0.Fail? <==> forall i :: 0 <= i < |users| ==> users[i].id != id
    ensures r.0.Fail? ==> r.0 == Fail(404, PhotographerNotFound) && r.1 == users
    ensures r.0.Ok? ==> exists i :: 0 <= i < |users| && users[i].id == id
                                   && r.1 == users[i := users[i].(isActive := true)]
                                   && r.0.body == UserModel.Redact(r.1[i])
                                   && r.0.body.isApproved == users[i].isApproved
  {
    SetFlags(users, id, None, true, PhotographerNotFound)
  }

  /** Blocking then unblocking restores the user as it was when it was active. */
  lemma BlockUnblockRestores(users: seq<UserModel.User>, id: Id)
    requires UserModel.FindById(users, id).Some? && users[UserModel.FindById(users, id).value].isActive
    ensures UnblockUser(BlockUser(users, id).1, id).1 == users
  {
    var i := UserModel.FindById(users, id).value;
    var blocked := users[i := users[i].(isActive := false)];
    assert BlockUser(users, id).1 == blocked;
    assert UserModel.FindById(blocked, id) == Some(i) by {
      assert forall j :: 0 <= j < i ==> blocked[j] == users[j];
    }
    assert blocked[i := blocked[i].(isActive := true)] == users;
  }

  /** One entry of the activity log. */
  datatype ActivityKind = BookingCreated | UserRegistered

  datatype Activity = Activity(kind: ActivityKind, title: string, subject: Id, timestamp: int)

  const FeedSize: nat := 20

  /** How many entries `.limit(20)` keeps of `n`. */
  function Capped(n: nat): nat
  {
    if n < FeedSize then n else FeedSize
  }

  function NewestFirst<T(!new)>(createdAt: T -> int): (le: (T, T) -> bool)
    ensures forall a, b :: le(a, b) == (createdAt(a) >= createdAt(b))
  {
    (a: T, b: T) => createdAt(a) >= createdAt(b)
  }

  lemma NewestFirstIsPreorder<T(!new)>(createdAt: T -> int)
    ensures Sorting.TotalPreorder(NewestFirst(createdAt))
  {
  }

  /** `.sort({ createdAt: -1 }).limit(20)`: the 20 newest (all of them when there are fewer), newest
      first; whatever is left out is no newer than anything kept. */
  function Recent<T(!new)>(xs: seq<T>, createdAt: T -> int): (r: seq<T>)
    ensures |r| == Capped(|xs|)
    ensures multiset(r) <= multiset(xs)
    ensures forall x :: x in r ==> x in xs
    ensures forall i, j :: 0 <= i < j < |r| ==> createdAt(r[i]) >= createdAt(r[j])
    ensures forall x, y :: x in xs && x !in r && y in r ==> createdAt(y) >= createdAt(x)
  {
    NewestFirstIsPreorder(createdAt);
    var sorted := Sorting.Sort(NewestFirst(createdAt), xs);
    Sorting.SortSameElements(NewestFirst(createdAt), xs);
    var r := sorted[..Capped(|xs|)];
    Sorting.PrefixLeads(NewestFirst(createdAt), sorted, Capped(|xs|));
    assert forall x :: x in r ==> x in multiset(r);
    r
  }

  function BookingActivity(b: Booking): Activity
  {
    Activity(BookingCreated, "New Booking Created", b.id, b.createdAt)
  }

  function UserActivity(u: UserModel.User): Activity
  {
    Activity(UserRegistered, "New User Registration", u.id, u.createdAt)
  }

  /** Each element as a log entry, in order. */
  function Entries<T>(xs: seq<T>, f: T -> Activity): (r: seq<Activity>)
    ensures |r| == |xs|
    ensures forall a :: a in r ==> exists x :: x in xs && a == f(x)
    ensures forall x :: x in xs ==> f(x) in r
  {
    var r := seq(|xs|, i requires 0 <= i < |xs| => f(xs[i]));
    assert forall a :: a in r ==> exists x :: x in xs && a == f(x) by {
      forall a | a in r ensures exists x :: x in xs && a == f(x) {
        var k :| 0 <= k < |r| && r[k] == a;
        assert xs[k] in xs;
      }
    }
    assert forall x :: x in xs ==> f(x) in r by {
      forall x | x in xs ensures f(x) in r {
        var k :| 0 <= k < |xs| && xs[k] == x;
        assert r[k] == f(x);
      }
    }
    r
  }

  function BookingTime(b: Booking): int
  {
    b.createdAt
  }

  function UserTime(u: UserModel.User): int
  {
    u.createdAt
  }

  /** The entries of the newest elements: an element whose entry is not kept is no newer than any
      entry that is. */
  lemma RecentEntriesNewest<T(!new)>(xs: seq<T>, createdAt: T -> int, f: T -> Activity)
    requires forall x :: f(x).timestamp == createdAt(x)
    ensures var kept := Entries(Recent(xs, createdAt), f);
            forall x, a :: x in xs && f(x) !in kept && a in kept ==> a.timestamp >= createdAt(x)
  {
    var r := Recent(xs, createdAt);
    var kept := Entries(r, f);
    forall x, a | x in xs && f(x) !in kept && a in kept ensures a.timestamp >= createdAt(x) {
      var y :| y in r && a == f(y);
    }
  }

  /** In booking entries followed by user entries, each kind comes from its own half. */
  lemma FeedHalves(bs: seq<Activity>, us: seq<Activity>)
    requires forall a :: a in bs ==> a.kind == BookingCreated
    requires forall a :: a in us ==> a.kind == UserRegistered
    ensures forall a :: a in bs + us && a.kind == BookingCreated ==> a in bs
    ensures forall a :: a in bs + us && a.kind == UserRegistered ==> a in us
  {
  }

  /** The two feeds before the final sort: the 20 newest bookings' entries, then the 20 newest
      users'. Every entry comes from a stored booking or user and carries its creation time; a
      booking or user left out is no newer than any entry of its kind that is kept. */
  function Feeds(store: Store, users: seq<UserModel.User>): (r: seq<Activity>)
    ensures |r| == Capped(|store|) + Capped(|users|)
    ensures forall a :: a in r ==>
              || (a.kind == BookingCreated && exists b :: b in store && a == BookingActivity(b))
              || (a.kind == UserRegistered && exists u :: u in users && a == UserActivity(u))
    ensures forall b, a :: b in store && BookingActivity(b) !in r && a in r && a.kind == BookingCreated ==>
              a.timestamp >= b.createdAt
    ensures forall u, a :: u in users && UserActivity(u) !in r && a in r && a.kind == UserRegistered ==>
              a.timestamp >= u.createdAt
  {
    var fromBookings := Entries(Recent(store, BookingTime), BookingActivity);
    var fromUsers := Entries(Recent(users, UserTime), UserActivity);
    RecentEntriesNewest(store, BookingTime, BookingActivity);
    RecentEntriesNewest(users, UserTime, UserActivity);
    assert forall a :: a in fromBookings ==> a.kind == BookingCreated;
    assert forall a :: a in fromUsers ==> a.kind == UserRegistered;
    FeedHalves(fromBookings, fromUsers);
    fromBookings + fromUsers
  }

  /** `getActivityLogs`: both feeds merged, newest first. */
  function ActivityLog(store: Store, users: seq<UserModel.User>): (r: seq<Activity>)
    ensures multiset(r) == multiset(Feeds(store, users))
    ensures |r| == Capped(|store|) + Capped(|users|)
    ensures forall i, j :: 0 <= i < j < |r| ==> r[i].timestamp >= r[j].timestamp
  {
    NewestFirstIsPreorder((a: Activity) => a.timestamp);
    Sorting.Sort(NewestFirst((a: Activity) => a.timestamp), Feeds(store, users))
  }

  /** Every log entry comes from a stored booking or user, carrying its creation time. */
  lemma ActivityFromSources(store: Store, users: seq<UserModel.User>, a: Activity)
    requires a in ActivityLog(store, users)
    ensures (a.kind == BookingCreated && exists b :: b in store && a == BookingActivity(b))
         || (a.kind == UserRegistered && exists u :: u in users && a == UserActivity(u))
  {
    assert a in multiset(ActivityLog(store, users));
    assert a in Feeds(store, users);
  }
}
