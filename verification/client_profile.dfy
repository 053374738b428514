/** The client's profile and bookmark endpoints. */
module ClientProfile {
  import opened Wrappers
  import opened UserModel
  import Utf16
  import Seqs

  /** The request's `name`, `email`, `phone` and `address`, each present or absent. `address` is not
      a path of the user schema, so the write drops it. */
  datatype ProfileRequest = ProfileRequest(name: Option<string>, email: Option<string>, phone: Option<string>, address: Option<string>)

  /** The contact fields copied from the request; everything else is kept. */
  function ApplyProfile(u: User, req: ProfileRequest): (r: User)
    ensures r.name == (if req.name.Some? then req.name.value else u.name)
    ensures r.email == (if req.email.Some? then req.email.value else u.email)
    ensures r.phone == (if req.phone.Some? then req.phone else u.phone)
    ensures r.(name := u.name, email := u.email, phone := u.phone) == u
  {
    u.(name := if req.name.Some? then req.name.value else u.name,
       email := if req.email.Some? then req.email.value else u.email,
       phone := if req.phone.Some? then req.phone else u.phone)
  }

  const ProfileRefused: string := "Validation failed"

  /** What the update validators find on the request: only `name` and `email` of the copied
      fields carry constraints, and only when given. */
  function RequestIssues(req: ProfileRequest): (r: seq<Issue>)
    ensures r == [] <==> (req.name.Some? ==> NameFits(req.name.value)) && (req.email.Some? ==> req.email.value != "")
  {
    ContactIssues(req.name, req.email)
  }

  /** `updateProfile`: `findByIdAndUpdate` with validators on the allowed fields. The validators
      run before the lookup, so a request with a bad name or an empty email is a 500 even when the
      caller's document is gone; so is an email another user holds. A valid request from a caller
      whose document is gone gets 200, with no user. The reply shows the updated document without
      its password hash. */
  function UpdateProfile(users: seq<User>, caller: Id, req: ProfileRequest): (r: (Reply<Option<User>>, seq<User>))
    ensures RequestIssues(req) != [] ==> r == (Fail(500, ProfileRefused), users)
    ensures r.0.Fail? ==> r.0.status == 500 && r.1 == users
    ensures r.0.Fail? && RequestIssues(req) == [] ==>
              exists i :: 0 <= i < |users| && users[i].id == caller
                        && ApplyProfile(users[i], req).email != users[i].email
                        && EmailTakenByOther(users, ApplyProfile(users[i], req).email, users[i].id)
    ensures r.0.Ok? ==> r.0.status == 200 && RequestIssues(req) == []
    ensures r.0.Ok? && r.0.body.None? ==> r.1 == users && forall i :: 0 <= i < |users| ==> users[i].id != caller
    ensures r.0.Ok? && r.0.body.Some? ==>
              && r.0.body.value.passwordHash == ""
              && exists i :: 0 <= i < |users| && users[i].id == caller
                           && (forall j :: 0 <= j < i ==> users[j].id != caller)
                           && r.0.body.value == Redact(ApplyProfile(users[i], req))
                           && r.1 == users[i := ApplyProfile(users[i], req)]
  {
    match UpdateById(users, caller, (u: User) => ApplyProfile(u, req), RequestIssues(req))
    case Failure(_) => (Fail(500, ProfileRefused), users)
    case Success((found, next)) =>
      (Ok(200, if found.Some? then Some(Redact(found.value)) else None), next)
  }

  /** With the schema's validators down, a caller with no document who sends a two-letter name is
      refused rather than answered with an empty 200. */
  lemma GoneCallerShortNameRefused(caller: Id)
    ensures UpdateProfile([], caller, ProfileRequest(Some("ab"), None, None, None)) == (Fail(500, ProfileRefused), [])
    ensures UpdateProfile([], caller, ProfileRequest(None, Some(""), None, None)) == (Fail(500, ProfileRefused), [])
    ensures UpdateProfile([], caller, ProfileRequest(Some("abc"), None, None, None)) == (Ok(200, None), [])
  {
    assert Utf16.Length("ab") == 2 by { assert "ab"[1..] == "b"; assert "b"[1..] == ""; }
    assert Utf16.Length("abc") == 3 by { assert "abc"[1..] == "bc"; assert "bc"[1..] == "c"; assert "c"[1..] == ""; }
  }

  /** A profile update keeps every field other than name, email and phone, for every user, and keeps
      the collection consistent. */
  lemma UpdateProfileTouchesOnlyContact(users: seq<User>, caller: Id, req: ProfileRequest)
    requires Consistent(users)
    ensures var r := UpdateProfile(users, caller, req).1;
            && |r| == |users|
            && (forall i :: 0 <= i < |r| ==> r[i].(name := users[i].name, email := users[i].email, phone := users[i].phone) == users[i])
            && Consistent(r)
  {
    var res := UpdateProfile(users, caller, req);
    var r := res.1;
    if res.0.Ok? && res.0.body.Some? {
      var i :| 0 <= i < |users| && users[i].id == caller && r == users[i := ApplyProfile(users[i], req)];
      forall j | 0 <= j < |r| ensures r[j].(name := users[j].name, email := users[j].email, phone := users[j].phone) == users[j] {
        if j == i {
          assert r[j] == ApplyProfile(users[j], req);
        }
      }
    }
    UpdateProfileKeepsConsistent(users, caller, req);
  }

  /** A request the validators pass keeps a valid document valid: the copied fields are exactly the
      constrained ones the validators looked at. */
  lemma ValidRequestKeepsFields(u: User, req: ProfileRequest)
    requires FieldsValid(u) && RequestIssues(req) == []
    ensures FieldsValid(ApplyProfile(u, req))
  {
  }

  lemma UpdateProfileKeepsConsistent(users: seq<User>, caller: Id, req: ProfileRequest)
    requires Consistent(users)
    ensures Consistent(UpdateProfile(users, caller, req).1)
  {
    var update := (u: User) => ApplyProfile(u, req);
    match UpdateById(users, caller, update, RequestIssues(req))
    case Failure(_) =>
    case Success(_) =>
      forall k | 0 <= k < |users| && users[k].id == caller ensures update(users[k]).id == caller && FieldsValid(update(users[k])) {
        ValidRequestKeepsFields(users[k], req);
      }
      UpdateKeepsConsistent(users, caller, update, RequestIssues(req));
  }

  const DuplicateBookmark: string := "Already bookmarked"

  /** Whether some bookmark has this image URL; an absent URL matches an entry without one. */
  predicate Bookmarked(favorites: seq<Favorite>, imageUrl: Option<string>)
  {
    exists i :: 0 <= i < |favorites| && favorites[i].imageUrl == imageUrl
  }

  /** `addFavorite`: a missing caller document is a 500; an image URL already bookmarked is a 400
      and changes nothing; otherwise one entry is appended and the document saved. */
  function AddFavorite(users: seq<User>, caller: Id, photographerId: Option<Id>, imageUrl: Option<string>,
                       category: Option<string>, favoriteId: Id, now: int): (r: (Reply<seq<Favorite>>, seq<User>))
    ensures r.0.Fail? ==> r.1 == users
    ensures (forall i :: 0 <= i < |users| ==> users[i].id != caller) ==> r.0.Fail? && r.0.status == 500
    ensures FindById(users, caller).Some? && Bookmarked(users[FindById(users, caller).value].favorites, imageUrl)
            ==> r.0 == Fail(400, DuplicateBookmark)
    ensures r.0.Ok? ==> r.0.status == 200
    ensures r.0.Ok? ==> exists i :: 0 <= i < |users| && users[i].id == caller
                                   && (forall j :: 0 <= j < i ==> users[j].id != caller)
                                   && !Bookmarked(users[i].favorites, imageUrl)
                                   && r.0.body == users[i].favorites + [Favorite(favoriteId, photographerId, imageUrl, category, now)]
                                   && Save(users, users[i].(favorites := r.0.body)) == Success(r.1)
    ensures FindById(users, caller).Some? ==>
              var u := users[FindById(users, caller).value];
              var added := u.favorites + [Favorite(favoriteId, photographerId, imageUrl, category, now)];
              && (!Bookmarked(u.favorites, imageUrl) && Save(users, u.(favorites := added)).Success?
                  ==> r == (Ok(200, added), Save(users, u.(favorites := added)).value))
              && (!Bookmarked(u.favorites, imageUrl) && Save(users, u.(favorites := added)).Failure?
                  ==> r == (Fail(500, "Validation failed"), users))
  {
    match FindById(users, caller)
    case None => (Fail(500, "Cannot read properties of null (reading 'favorites')"), users)
    case Some(i) =>
      var u := users[i];
      if Bookmarked(u.favorites, imageUrl) then (Fail(400, DuplicateBookmark), users)
      else
        var favorites := u.favorites + [Favorite(favoriteId, photographerId, imageUrl, category, now)];
        match Save(users, u.(favorites := favorites))
        case Failure(_) => (Fail(500, "Validation failed"), users)
        case Success(next) => (Ok(200, favorites), next)
  }

  /** The bookmarks left after removing `favoriteId`: all others, in order. */
  function WithoutFavorite(favorites: seq<Favorite>, favoriteId: Id): (r: seq<Favorite>)
    ensures forall f :: f in r <==> f in favorites && f.id != favoriteId
    ensures |r| <= |favorites|
  {
    Seqs.Filter(favorites, (f: Favorite) => f.id != favoriteId)
  }

  /** Removing a bookmark twice leaves what removing it once does, and removing an id no bookmark
      has changes nothing. */
  lemma RemoveFavoriteIdempotent(favorites: seq<Favorite>, favoriteId: Id)
    ensures WithoutFavorite(WithoutFavorite(favorites, favoriteId), favoriteId) == WithoutFavorite(favorites, favoriteId)
    ensures (forall i :: 0 <= i < |favorites| ==> favorites[i].id != favoriteId) ==> WithoutFavorite(favorites, favoriteId) == favorites
  {
    Seqs.FilterIdempotent(favorites, (f: Favorite) => f.id != favoriteId);
    if forall i :: 0 <= i < |favorites| ==> favorites[i].id != favoriteId {
      Seqs.FilterKeepsAll(favorites, (f: Favorite) => f.id != favoriteId);
    }
  }

  /** Removal works element by element and keeps the survivors in their order: a single bookmark
      stays exactly when its id differs, and removing from a concatenation concatenates the removals. */
  lemma RemoveFavoriteKeepsOrder(front: seq<Favorite>, back: seq<Favorite>, favoriteId: Id, f: Favorite)
    ensures WithoutFavorite(front + back, favoriteId) == WithoutFavorite(front, favoriteId) + WithoutFavorite(back, favoriteId)
    ensures WithoutFavorite([f], favoriteId) == if f.id == favoriteId then [] else [f]
  {
    Seqs.FilterConcat(front, back, (x: Favorite) => x.id != favoriteId);
    assert [f][1..] == [];
  }

  /** `removeFavorite`: a missing caller document is a 500; otherwise the bookmarks with that id are
      dropped and the document saved. */
  function RemoveFavorite(users: seq<User>, caller: Id, favoriteId: Id): (r: (Reply<seq<Favorite>>, seq<User>))
    ensures r.0.Fail? ==> r.1 == users
    ensures (forall i :: 0 <= i < |users| ==> users[i].id != caller) ==> r.0.Fail? && r.0.status == 500
    ensures r.0.Ok? ==> r.0.status == 200
    ensures r.0.Ok? ==> exists i :: 0 <= i < |users| && users[i].id == caller
                                   && (forall j :: 0 <= j < i ==> users[j].id != caller)
                                   && r.0.body == WithoutFavorite(users[i].favorites, favoriteId)
                                   && Save(users, users[i].(favorites := r.0.body)) == Success(r.1)
  {
    match FindById(users, caller)
    case None => (Fail(500, "Cannot read properties of null (reading 'favorites')"), users)
    case Some(i) =>
      var favorites := WithoutFavorite(users[i].favorites, favoriteId);
      match Save(users, users[i].(favorites := favorites))
      case Failure(_) => (Fail(500, "Validation failed"), users)
      case Success(next) => (Ok(200, favorites), next)
  }

  /** After a successful save of `u`, the caller's document is `u`, wherever the lookup finds it. */
  lemma SavedIsFound(users: seq<User>, u: User, after: seq<User>)
    requires Save(users, u) == Success(after)
    ensures FindById(after, u.id).Some? && after[FindById(after, u.id).value] == u
  {
    assert u in after;
  }

  /** Bookmarking the same image twice: the second request is a 400 and changes nothing. */
  lemma AddFavoriteTwiceRefused(users: seq<User>, caller: Id, photographerId: Option<Id>, imageUrl: Option<string>,
                                category: Option<string>, favoriteId: Id, now: int,
                                otherPhotographer: Option<Id>, otherCategory: Option<string>, otherId: Id, later: int)
    requires AddFavorite(users, caller, photographerId, imageUrl, category, favoriteId, now).0.Ok?
    ensures var after := AddFavorite(users, caller, photographerId, imageUrl, category, favoriteId, now).1;
            AddFavorite(after, caller, otherPhotographer, imageUrl, otherCategory, otherId, later) == (Fail(400, DuplicateBookmark), after)
  {
    var r := AddFavorite(users, caller, photographerId, imageUrl, category, favoriteId, now);
    var i :| 0 <= i < |users| && users[i].id == caller && r.0.body == users[i].favorites + [Favorite(favoriteId, photographerId, imageUrl, category, now)]
             && Save(users, users[i].(favorites := r.0.body)) == Success(r.1);
    var u := users[i].(favorites := r.0.body);
    SavedIsFound(users, u, r.1);
    assert u.favorites[|u.favorites| - 1].imageUrl == imageUrl;
  }

  /** Removing the id of a bookmark just appended, when no earlier bookmark has it, leaves the earlier ones. */
  lemma RemoveAppended(before: seq<Favorite>, added: Favorite)
    requires forall f :: f in before ==> f.id != added.id
    ensures WithoutFavorite(before + [added], added.id) == before
  {
    RemoveFavoriteKeepsOrder(before, [added], added.id, added);
    RemoveFavoriteIdempotent(before, added.id);
  }

  /** A document that was saved may be saved again with the same id, e-mail and valid fields. */
  lemma ResaveSucceeds(users: seq<User>, u: User, after: seq<User>, v: User)
    requires Save(users, u) == Success(after)
    requires v.id == u.id && v.email == u.email && FieldsValid(v)
    ensures Save(after, v).Success?
  {
  }

  /** The outcome of `removeFavorite` when the caller's document is found and the save succeeds. */
  lemma RemoveFavoriteAt(users: seq<User>, caller: Id, favoriteId: Id)
    requires FindById(users, caller).Some?
    requires var u := users[FindById(users, caller).value];
             Save(users, u.(favorites := WithoutFavorite(u.favorites, favoriteId))).Success?
    ensures RemoveFavorite(users, caller, favoriteId).0 == Ok(200, WithoutFavorite(users[FindById(users, caller).value].favorites, favoriteId))
  {
  }

  /** Bookmarking with a fresh id and then removing that id gives back the bookmarks the caller had. */
  lemma AddThenRemoveRestores(users: seq<User>, caller: Id, photographerId: Option<Id>, imageUrl: Option<string>,
                              category: Option<string>, favoriteId: Id, now: int)
    requires AddFavorite(users, caller, photographerId, imageUrl, category, favoriteId, now).0.Ok?
    requires FindById(users, caller).Some?
    requires forall f :: f in users[FindById(users, caller).value].favorites ==> f.id != favoriteId
    ensures var after := AddFavorite(users, caller, photographerId, imageUrl, category, favoriteId, now).1;
            RemoveFavorite(after, caller, favoriteId).0 == Ok(200, users[FindById(users, caller).value].favorites)
  {
    var r := AddFavorite(users, caller, photographerId, imageUrl, category, favoriteId, now);
    var i :| 0 <= i < |users| && users[i].id == caller && (forall j :: 0 <= j < i ==> users[j].id != caller)
             && r.0.body == users[i].favorites + [Favorite(favoriteId, photographerId, imageUrl, category, now)]
             && Save(users, users[i].(favorites := r.0.body)) == Success(r.1);
    assert i == FindById(users, caller).value;
    var before := users[i].favorites;
    var u := users[i].(favorites := r.0.body);
    SavedIsFound(users, u, r.1);
    RemoveAppended(before, Favorite(favoriteId, photographerId, imageUrl, category, now));
    ResaveSucceeds(users, u, r.1, u.(favorites := before));
    RemoveFavoriteAt(r.1, caller, favoriteId);
  }
}
