/** The unauthenticated catalogue: approved, active photographers, the search filters, a
    photographer's busy slots and availability. */
module PublicCatalog {
  import opened Wrappers
  import opened UserModel
  import BookingModel
  import Overlap
  import Seqs

  /** A photographer the public may see. */
  predicate Listed(u: User)
  {
    u.role == Photographer && u.isApproved && u.isActive
  }

  function RedactAll(us: seq<User>): (r: seq<User>)
    ensures |r| == |us|
    ensures forall i :: 0 <= i < |r| ==> r[i] == Redact(us[i])
  {
    seq(|us|, i requires 0 <= i < |us| => Redact(us[i]))
  }

  /** `listPhotographers`: exactly the listed photographers, in store order, without hashes. */
  function ListPhotographers(users: seq<User>): (r: seq<User>)
    ensures forall v :: v in r <==> exists u :: u in users && Listed(u) && v == Redact(u)
  {
    RedactedFilter(users, Listed);
    RedactAll(Seqs.Filter(users, Listed))
  }

  /** Redaction works document by document, so it distributes over concatenation. */
  lemma RedactAllConcat(a: seq<User>, b: seq<User>)
    ensures RedactAll(a + b) == RedactAll(a) + RedactAll(b)
  {
    assert forall i :: 0 <= i < |a + b| ==> RedactAll(a + b)[i] == (RedactAll(a) + RedactAll(b))[i];
  }

  /** The listing keeps store order: a store split in two lists the first part's photographers,
      then the second's, and a single document is listed exactly when it is approved and active. */
  lemma ListPhotographersKeepsOrder(front: seq<User>, back: seq<User>, u: User)
    ensures ListPhotographers(front + back) == ListPhotographers(front) + ListPhotographers(back)
    ensures ListPhotographers([u]) == if Listed(u) then [Redact(u)] else []
  {
    Seqs.FilterConcat(front, back, Listed);
    RedactAllConcat(Seqs.Filter(front, Listed), Seqs.Filter(back, Listed));
    assert [u][1..] == [];
    assert Seqs.Filter([u], Listed) == if Listed(u) then [u] else [];
  }

  /** The redacted results of a query are exactly the redacted documents it matches. */
  lemma RedactedFilter(users: seq<User>, p: User -> bool)
    ensures forall v :: v in RedactAll(Seqs.Filter(users, p)) <==> exists u :: u in users && p(u) && v == Redact(u)
  {
    var found := Seqs.Filter(users, p);
    var r := RedactAll(found);
    forall v | v in r ensures exists u :: u in users && p(u) && v == Redact(u) {
      var i :| 0 <= i < |r| && r[i] == v;
      assert found[i] in found;
    }
    forall u | u in users && p(u) ensures Redact(u) in r {
      var i :| 0 <= i < |found| && found[i] == u;
      assert r[i] == Redact(u);
    }
  }

  const PhotographerNotFound: string := "Photographer not found"

  /** `viewPhotographer`: the user with this id, provided it is a listed photographer. */
  function ViewPhotographer(users: seq<User>, id: Id): (r: Reply<User>)
    ensures r.Fail? <==> forall i :: 0 <= i < |users| ==> !(users[i].id == id && Listed(users[i]))
    ensures r.Fail? ==> r == Fail(404, PhotographerNotFound)
    ensures r.Ok? ==> r.status == 200 && exists u :: u in users && u.id == id && Listed(u) && r.body == Redact(u)
  {
    match Seqs.FirstIndex(users, (u: User) => u.id == id && Listed(u))
    case None => Fail(404, PhotographerNotFound)
    case Some(i) =>
      assert users[i] in users;
      Ok(200, Redact(users[i]))
  }

  /** A requested price band; both bounds are given. */
  datatype PriceRange = PriceRange(min: int, max: int)

  /** `profile.pricing.min <= max` and `profile.pricing.max >= min`. */
  predicate PriceMatches(p: Pricing, range: PriceRange)
  {
    p.min <= range.max && p.max >= range.min
  }

  /** `x` is a price both in the photographer's band and in the requested one. */
  predicate CommonPrice(p: Pricing, range: PriceRange, x: int)
  {
    p.min <= x <= p.max && range.min <= x <= range.max
  }

  /** For well-formed bands the price filter is exactly "the two closed intervals share a price". */
  lemma PriceMatchesIffIntersect(p: Pricing, range: PriceRange)
    ensures (exists x :: CommonPrice(p, range, x)) ==> PriceMatches(p, range)
    ensures p.min <= p.max && range.min <= range.max && PriceMatches(p, range) ==> exists x :: CommonPrice(p, range, x)
  {
    if p.min <= p.max && range.min <= range.max && PriceMatches(p, range) {
      var x := if p.min < range.min then range.min else p.min;
      assert CommonPrice(p, range, x);
    }
  }

  /** The search criteria of the request body; an absent or empty string adds no condition. */
  datatype Criteria = Criteria(location: Option<string>, priceRange: Option<PriceRange>, specialization: Option<string>)

  predicate Given(s: Option<string>)
  {
    s.Some? && s.value != ""
  }

  /** The conditions the given criteria add. `matches(pattern, text)` is the case-insensitive regular
      expression test of `location`. */
  predicate MeetsCriteria(u: User, c: Criteria, matches: (string, string) -> bool)
  {
    && (Given(c.location) ==>
          u.profile.Some? && u.profile.value.location.Some? && matches(c.location.value, u.profile.value.location.value))
    && (Given(c.specialization) ==>
          u.profile.Some? && u.profile.value.specialization == c.specialization)
    && (c.priceRange.Some? ==>
          u.profile.Some? && u.profile.value.pricing.Some? && PriceMatches(u.profile.value.pricing.value, c.priceRange.value))
  }

  /** `searchPhotographers`: the listed photographers that meet every given criterion. */
  function Search(users: seq<User>, c: Criteria, matches: (string, string) -> bool): (r: seq<User>)
    ensures forall v :: v in r <==> exists u :: u in users && Listed(u) && MeetsCriteria(u, c, matches) && v == Redact(u)
  {
    var p := (u: User) => Listed(u) && MeetsCriteria(u, c, matches);
    RedactedFilter(users, p);
    RedactAll(Seqs.Filter(users, p))
  }

  /** With no criteria the search lists every photographer the catalogue lists. */
  lemma NoCriteriaIsList(users: seq<User>, matches: (string, string) -> bool)
    ensures Search(users, Criteria(None, None, None), matches) == ListPhotographers(users)
  {
    var p := (u: User) => Listed(u) && MeetsCriteria(u, Criteria(None, None, None), matches);
    Seqs.FilterSamePredicate(users, p, Listed);
  }

  /** Criteria only narrow: every search result is listed, and adding a criterion keeps a subset. */
  lemma CriteriaNarrow(users: seq<User>, c: Criteria, d: Criteria, matches: (string, string) -> bool)
    requires Given(c.location) ==> c.location == d.location
    requires Given(c.specialization) ==> c.specialization == d.specialization
    requires c.priceRange.Some? ==> c.priceRange == d.priceRange
    ensures forall v :: v in Search(users, d, matches) ==> v in Search(users, c, matches)
    ensures forall v :: v in Search(users, c, matches) ==> v in ListPhotographers(users)
  {
  }

  /** A booked time range, as `.select('eventDate startTime endTime')` returns it. */
  datatype Slot = Slot(id: BookingModel.Id, eventDate: int, startTime: string, endTime: string)

  predicate Busy(b: BookingModel.Booking, photographer: Id)
  {
    b.photographerId == Some(photographer) && (b.status == BookingModel.Confirmed || b.status == BookingModel.Pending)
  }

  function SlotOf(b: BookingModel.Booking): Slot
  {
    Slot(b.id, b.eventDate, b.startTime, b.endTime)
  }

  /** `getBusySlots`: the time ranges of the photographer's pending and confirmed bookings. */
  function BusySlots(store: BookingModel.Store, photographer: Id): (r: seq<Slot>)
    ensures forall s :: s in r <==> exists b :: b in store && Busy(b, photographer) && s == SlotOf(b)
  {
    var found := Seqs.Filter(store, (b: BookingModel.Booking) => Busy(b, photographer));
    var r := seq(|found|, i requires 0 <= i < |found| => SlotOf(found[i]));
    assert forall s :: s in r ==> exists b :: b in store && Busy(b, photographer) && s == SlotOf(b) by {
      forall s | s in r ensures exists b :: b in store && Busy(b, photographer) && s == SlotOf(b) {
        var i :| 0 <= i < |r| && r[i] == s;
        assert found[i] in found;
      }
    }
    assert forall b :: b in store && Busy(b, photographer) ==> SlotOf(b) in r by {
      forall b | b in store && Busy(b, photographer) ensures SlotOf(b) in r {
        var i :| 0 <= i < |found| && found[i] == b;
        assert r[i] == SlotOf(b);
      }
    }
    r
  }

  /** The busy slots are narrower than what the overlap guard treats as taken: an in-progress or
      completed booking still blocks a new booking but is not shown as busy. */
  lemma BusyNarrowerThanOccupied(b: BookingModel.Booking, photographer: Id)
    ensures Busy(b, photographer) ==> Overlap.OccupiesSlot(b.status)
    ensures b.status == BookingModel.InProgress || b.status == BookingModel.Completed ==>
              Overlap.OccupiesSlot(b.status) && !Busy(b, photographer)
  {
  }

  /** An entry of a photographer's availability list. */
  datatype Availability = Availability(date: int, timeSlots: seq<string>)

  /** `getAvailability`: any user with the id (role and flags are not checked) answers with its
      availability list; the user schema declares none, so that list is always empty. */
  function GetAvailability(users: seq<User>, id: Id): (r: Reply<seq<Availability>>)
    ensures r.Fail? <==> FindById(users, id).None?
    ensures r.Fail? ==> r == Fail(404, PhotographerNotFound)
    ensures r.Ok? ==> r.status == 200 && r.body == []
  {
    match FindById(users, id)
    case None => Fail(404, PhotographerNotFound)
    case Some(_) => Ok(200, [])
  }
}
