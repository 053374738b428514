/** Reviews: who may review which booking, the review document's constraints and the one-review-per-booking index. */
module Reviews {
  import opened Wrappers
  import opened BookingModel
  import Utf16

  datatype Review = Review(id: Id, booking: Id, photographerId: Option<Id>, clientId: Id, rating: Option<real>, comment: Option<string>)

  const MaxCommentLength: nat := 300

  /** The schema's constraints: photographer and client present, rating present and within [1, 5],
      comment at most 300 characters. */
  predicate ReviewValid(r: Review)
  {
    && r.photographerId.Some?
    && r.clientId != ""
    && r.rating.Some? && 1.0 <= r.rating.value <= 5.0
    && (r.comment.Some? ==> Utf16.Length(r.comment.value) <= MaxCommentLength)
  }

  /** The rating is a `Number`: a fraction inside [1, 5] is stored and one outside is refused. */
  lemma FractionalRatings(id: Id, booking: Id, photographerId: Id, clientId: Id)
    requires clientId != ""
    ensures ReviewValid(Review(id, booking, Some(photographerId), clientId, Some(4.5), None))
    ensures !ReviewValid(Review(id, booking, Some(photographerId), clientId, Some(0.5), None))
    ensures !ReviewValid(Review(id, booking, Some(photographerId), clientId, Some(5.5), None))
  {
  }

  /** The unique index on `booking`. */
  predicate OneReviewPerBooking(reviews: seq<Review>)
  {
    forall i, j :: 0 <= i < |reviews| && 0 <= j < |reviews| && reviews[i].booking == reviews[j].booking ==> i == j
  }

  predicate Reviewed(reviews: seq<Review>, booking: Id)
  {
    exists i :: 0 <= i < |reviews| && reviews[i].booking == booking
  }

  /** `review.save()`: a validation error or a duplicate booking refuses the write. */
  function SaveReview(reviews: seq<Review>, r: Review): (res: Result<seq<Review>, string>)
    ensures res.Success? <==> ReviewValid(r) && !Reviewed(reviews, r.booking)
    ensures res.Success? ==> res.value == reviews + [r]
  {
    if !ReviewValid(r) then Failure("Review validation failed")
    else if Reviewed(reviews, r.booking) then Failure("E11000 duplicate key error collection: reviews index: booking_1 dup key")
    else Success(reviews + [r])
  }

  lemma SaveKeepsOneReviewPerBooking(reviews: seq<Review>, r: Review)
    requires OneReviewPerBooking(reviews)
    requires SaveReview(reviews, r).Success?
    ensures OneReviewPerBooking(SaveReview(reviews, r).value)
  {
  }

  const NotYours: string := "You can only review your own bookings"
  const NotCompleted: string := "You can only review completed bookings"

  /** The controller's three checks pass: the booking exists, is the caller's and is completed. */
  predicate Reviewable(store: Store, caller: Id, bookingId: Option<Id>)
  {
    && bookingId.Some? && FindById(store, bookingId.value).Some?
    && var b := store[FindById(store, bookingId.value).value];
       b.clientId == caller && b.status == Completed
  }

  /** `reviewController.create`: the booking must exist (404), be the caller's (403) and be completed
      (400), in that order; the review then copies the booking's id and photographer and names the
      caller as client. A save failure is a 500 with its message. */
  function Create(store: Store, reviews: seq<Review>, caller: Id, bookingId: Option<Id>, rating: Option<real>,
                  comment: Option<string>, newId: Id): (r: (Reply<Review>, seq<Review>))
    ensures r.0.Fail? ==> r.1 == reviews
    ensures bookingId.None? || FindById(store, bookingId.value).None? ==> r.0 == Fail(404, "Booking not found")
    ensures bookingId.Some? && FindById(store, bookingId.value).Some? ==>
              var b := store[FindById(store, bookingId.value).value];
              && (b.clientId != caller ==> r.0 == Fail(403, NotYours))
              && (b.clientId == caller && b.status != Completed ==> r.0 == Fail(400, NotCompleted))
    ensures r.0.Ok? ==> && r.0.status == 201
                        && bookingId.Some? && FindById(store, bookingId.value).Some?
                        && var b := store[FindById(store, bookingId.value).value];
                        && b.clientId == caller && b.status == Completed
                        && r.0.body == Review(newId, b.id, b.photographerId, caller, rating, comment)
                        && ReviewValid(r.0.body)
                        && !Reviewed(reviews, b.id)
                        && r.1 == reviews + [r.0.body]
    ensures r.0.Ok? ==> Reviewable(store, caller, bookingId)
    ensures Reviewable(store, caller, bookingId) ==>
              var b := store[FindById(store, bookingId.value).value];
              var review := Review(newId, b.id, b.photographerId, caller, rating, comment);
              && (r.0.Ok? <==> ReviewValid(review) && !Reviewed(reviews, b.id))
              && (SaveReview(reviews, review).Failure? ==> r.0 == Fail(500, SaveReview(reviews, review).error))
  {
    if bookingId.None? then (Fail(404, "Booking not found"), reviews)
    else
      match FindById(store, bookingId.value)
      case None => (Fail(404, "Booking not found"), reviews)
      case Some(i) =>
        var b := store[i];
        if b.clientId != caller then (Fail(403, NotYours), reviews)
        else if b.status != Completed then (Fail(400, NotCompleted), reviews)
        else
          var review := Review(newId, b.id, b.photographerId, caller, rating, comment);
          match SaveReview(reviews, review)
          case Failure(message) => (Fail(500, message), reviews)
          case Success(next) => (Ok(201, review), next)
  }

  /** Creating reviews never gives a booking a second review. */
  lemma CreateKeepsOneReviewPerBooking(store: Store, reviews: seq<Review>, caller: Id, bookingId: Option<Id>,
                                       rating: Option<real>, comment: Option<string>, newId: Id)
    requires OneReviewPerBooking(reviews)
    ensures OneReviewPerBooking(Create(store, reviews, caller, bookingId, rating, comment, newId).1)
  {
    var r := Create(store, reviews, caller, bookingId, rating, comment, newId);
    if r.0.Ok? {
      SaveKeepsOneReviewPerBooking(reviews, r.0.body);
    }
  }

  /** A second review of the same booking is refused, and the refusal is a 500. */
  lemma SecondReviewRefused(store: Store, reviews: seq<Review>, caller: Id, bookingId: Option<Id>,
                            rating: Option<real>, comment: Option<string>, newId: Id, otherId: Id)
    requires Create(store, reviews, caller, bookingId, rating, comment, newId).0.Ok?
    ensures var after := Create(store, reviews, caller, bookingId, rating, comment, newId).1;
            var again := Create(store, after, caller, bookingId, rating, comment, otherId);
            again.0.Fail? && again.0.status == 500 && again.1 == after
  {
    var first := Create(store, reviews, caller, bookingId, rating, comment, newId);
    var after := first.1;
    assert after[|after| - 1] == first.0.body;
  }

  /** A completed booking whose photographer was cleared cannot be reviewed: the save fails. */
  lemma UnassignedBookingNotReviewable(store: Store, reviews: seq<Review>, caller: Id, bookingId: Id,
                                       rating: Option<real>, comment: Option<string>, newId: Id)
    requires FindById(store, bookingId).Some?
    requires store[FindById(store, bookingId).value].photographerId.None?
    ensures Create(store, reviews, caller, Some(bookingId), rating, comment, newId).0.Fail?
  {
  }
}
