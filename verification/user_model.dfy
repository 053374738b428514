/** The user document: identity, credentials, the photographer profile fields, role and the two
    account flags, favourites; the field constraints Mongoose enforces on write and the unique email. */
module UserModel {
  import opened Wrappers
  import Seqs
  import Utf16

  type Id = string

  datatype Role = Photographer | Client | Admin

  const RoleNames: seq<string> := ["photographer", "client", "admin"]

  function RoleName(r: Role): string
  {
    match r
    case Photographer => "photographer"
    case Client => "client"
    case Admin => "admin"
  }

  function ParseRole(name: string): Option<Role>
  {
    if name == "photographer" then Some(Photographer)
    else if name == "client" then Some(Client)
    else if name == "admin" then Some(Admin)
    else None
  }

  /** The role enum: names and roles correspond one to one and the enum list holds exactly the names. */
  lemma RoleNamesRoundTrip(r: Role, name: string)
    ensures ParseRole(RoleName(r)) == Some(r)
    ensures ParseRole(name) == Some(r) ==> name == RoleName(r)
    ensures ParseRole(name).Some? <==> name in RoleNames
  {
  }

  /** A bookmarked portfolio image; every field of the request is optional. */
  datatype Favorite = Favorite(id: Id, photographerId: Option<Id>, imageUrl: Option<string>, category: Option<string>, savedAt: int)

  datatype Pricing = Pricing(min: int, max: int)

  /** The `profile` sub-document the public search filters on (see README: the schema does not declare it). */
  datatype Profile = Profile(location: Option<string>, specialization: Option<string>, pricing: Option<Pricing>)

  datatype User = User(
    id: Id,
    name: string,
    email: string,
    passwordHash: string,
    phone: Option<string>,
    bio: Option<string>,
    skills: Option<seq<string>>,
    experience: Option<int>,
    pricePerDay: int,
    services: Option<seq<string>>,
    role: Role,
    isApproved: bool,
    isActive: bool,
    favorites: seq<Favorite>,
    profile: Option<Profile>,
    createdAt: int)

  const MinNameLength: nat := 3
  const MaxNameLength: nat := 50
  const MaxBioLength: nat := 500

  /** `name`'s `minlength` and `maxlength`, in UTF-16 code units. */
  predicate NameFits(name: string)
  {
    MinNameLength <= Utf16.Length(name) <= MaxNameLength
  }

  /** The schema's constraints on one document: `required` strings are non-empty, `name` length
      within [3, 50], `bio` at most 500, `experience` not negative. */
  predicate FieldsValid(u: User)
  {
    && NameFits(u.name)
    && u.email != ""
    && u.passwordHash != ""
    && (u.bio.Some? ==> Utf16.Length(u.bio.value) <= MaxBioLength)
    && (u.experience.Some? ==> u.experience.value >= 0)
  }

  datatype Issue = NameRequired | NameTooShort | NameTooLong | EmailRequired | PasswordRequired | BioTooLong | ExperienceNegative

  /** Every constraint the document breaks, in schema order, as Mongoose's validation error collects them. */
  function Issues(u: User): (r: seq<Issue>)
    ensures r == [] <==> FieldsValid(u)
    ensures Utf16.Length(u.name) > MaxNameLength ==> NameTooLong in r
    ensures 0 < Utf16.Length(u.name) < MinNameLength ==> NameTooShort in r
  {
    NameIssues(u.name)
    + (if u.email == "" then [EmailRequired] else [])
    + (if u.passwordHash == "" then [PasswordRequired] else [])
    + (if u.bio.Some? && Utf16.Length(u.bio.value) > MaxBioLength then [BioTooLong] else [])
    + (if u.experience.Some? && u.experience.value < 0 then [ExperienceNegative] else [])
  }

  /** The first failing validator of the `name` path: `required`, then `minlength`, then `maxlength`. */
  function NameIssues(name: string): (r: seq<Issue>)
    ensures r == [] <==> NameFits(name)
    ensures |r| <= 1
  {
    if name == "" then [NameRequired] else if Utf16.Length(name) < MinNameLength then [NameTooShort]
    else if Utf16.Length(name) > MaxNameLength then [NameTooLong] else []
  }

  /** What the update validators find on a `$set` of the contact paths. Only the paths the update
      names are validated, so an absent name or e-mail is not checked. */
  function ContactIssues(name: Option<string>, email: Option<string>): (r: seq<Issue>)
    ensures r == [] <==> (name.Some? ==> NameFits(name.value)) && (email.Some? ==> email.value != "")
  {
    (if name.Some? then NameIssues(name.value) else [])
    + (if email.Some? && email.value == "" then [EmailRequired] else [])
  }

  /** Why a write is refused: a validation error, or the unique index on `email`. */
  datatype Fault = Invalid(issues: seq<Issue>) | DuplicateEmail

  /** Some user other than `id` already has this email. */
  predicate EmailTakenByOther(users: seq<User>, email: string, id: Id)
  {
    exists i :: 0 <= i < |users| && users[i].email == email && users[i].id != id
  }

  /** No two users with different ids share an email. */
  predicate UniqueEmails(users: seq<User>)
  {
    forall i, j :: 0 <= i < |users| && 0 <= j < |users| && users[i].id != users[j].id ==> users[i].email != users[j].email
  }

  /** Every stored user satisfies the schema and emails are unique. */
  predicate Consistent(users: seq<User>)
  {
    && (forall i :: 0 <= i < |users| ==> FieldsValid(users[i]))
    && UniqueEmails(users)
  }

  /** A new document with the schema defaults: not approved, active, price 0, no favourites. */
  function NewUser(id: Id, name: string, email: string, passwordHash: string, role: Role, phone: Option<string>, createdAt: int): (u: User)
    ensures !u.isApproved && u.isActive && u.pricePerDay == 0 && u.favorites == []
    ensures u.id == id && u.email == email && u.role == role
  {
    User(id, name, email, passwordHash, phone, None, None, None, 0, None, role, false, true, [], None, createdAt)
  }

  /** `.select('-passwordHash')`: the document as a reply shows it, without its password hash. */
  function Redact(u: User): (v: User)
    ensures v.passwordHash == "" && v.(passwordHash := u.passwordHash) == u
  {
    u.(passwordHash := "")
  }

  /** `findById`: the first user with this id. */
  function FindById(users: seq<User>, id: Id): (r: Option<nat>)
    ensures r.Some? ==> r.value < |users| && users[r.value].id == id
    ensures r.Some? ==> forall j :: 0 <= j < r.value ==> users[j].id != id
    ensures r.None? <==> forall i :: 0 <= i < |users| ==> users[i].id != id
  {
    Seqs.FirstIndex(users, (u: User) => u.id == id)
  }

  /** `save()`/`create()`: validate the whole document, enforce the unique email, then write it by id. */
  function Save(users: seq<User>, u: User): (r: Result<seq<User>, Fault>)
    ensures r.Failure? <==> !FieldsValid(u) || EmailTakenByOther(users, u.email, u.id)
    ensures r.Failure? && !FieldsValid(u) ==> r.error == Invalid(Issues(u))
    ensures r.Success? ==> && u in r.value
                           && (forall x :: x in r.value ==> x == u || (x in users && x.id != u.id))
                           && (forall x :: x in users && x.id != u.id ==> x in r.value)
  {
    var issues := Issues(u);
    if issues != [] then Failure(Invalid(issues))
    else if EmailTakenByOther(users, u.email, u.id) then Failure(DuplicateEmail)
    else Success(Seqs.Upsert(users, u, (x: User) => x.id))
  }

  /** A successful save keeps the collection consistent. */
  lemma SaveKeepsConsistent(users: seq<User>, u: User)
    requires Consistent(users)
    requires Save(users, u).Success?
    ensures Consistent(Save(users, u).value)
  {
    var r := Save(users, u).value;
    forall i, j | 0 <= i < |r| && 0 <= j < |r| && r[i].id != r[j].id
      ensures r[i].email != r[j].email
    {
      assert r[i] in r && r[j] in r;
      if r[i] != u && r[j] != u {
        var a :| 0 <= a < |users| && users[a] == r[i];
        var b :| 0 <= b < |users| && users[b] == r[j];
      } else if r[i] == u {
        var b :| 0 <= b < |users| && users[b] == r[j];
      } else {
        var a :| 0 <= a < |users| && users[a] == r[i];
      }
    }
    forall i | 0 <= i < |r| ensures FieldsValid(r[i]) {
      assert r[i] in r;
      if r[i] != u {
        var a :| 0 <= a < |users| && users[a] == r[i];
      }
    }
  }

  /** `findByIdAndUpdate(id, update, { new: true, runValidators })`. `pathIssues` is what the update
      validators find on the update's own paths (nothing when `runValidators` is off). They run
      before the query, so a non-empty finding refuses the write whether or not the id exists.
      Otherwise a missing id changes nothing and returns no document, and the first user with the
      id is rewritten, subject to the unique index when the e-mail changes. */
  function UpdateById(users: seq<User>, id: Id, update: User -> User, pathIssues: seq<Issue>): (r: Result<(Option<User>, seq<User>), Fault>)
    ensures pathIssues != [] ==> r == Failure(Invalid(pathIssues))
    ensures pathIssues == [] && (forall i :: 0 <= i < |users| ==> users[i].id != id) ==> r == Success((None, users))
    ensures r.Success? && r.value.0.Some? ==>
              exists i :: 0 <= i < |users| && users[i].id == id
                        && (forall j :: 0 <= j < i ==> users[j].id != id)
                        && r.value.0.value == update(users[i])
                        && r.value.1 == users[i := update(users[i])]
                        && (update(users[i]).email != users[i].email ==> !EmailTakenByOther(users, update(users[i]).email, users[i].id))
    ensures r.Failure? && pathIssues == [] ==>
              && r.error == DuplicateEmail
              && exists i :: 0 <= i < |users| && users[i].id == id
                             && (forall j :: 0 <= j < i ==> users[j].id != id)
                             && update(users[i]).email != users[i].email
                             && EmailTakenByOther(users, update(users[i]).email, users[i].id)
    ensures r.Success? ==> pathIssues == []
    ensures r.Success? && r.value.0.None? ==> r.value.1 == users && forall i :: 0 <= i < |users| ==> users[i].id != id
  {
    if pathIssues != [] then Failure(Invalid(pathIssues))
    else
      match FindById(users, id)
      case None => Success((None, users))
      case Some(i) =>
        var u := update(users[i]);
        if u.email != users[i].email && EmailTakenByOther(users, u.email, users[i].id) then Failure(DuplicateEmail)
        else Success((Some(u), users[i := u]))
  }

  /** An update whose paths pass the validators and that leaves the email alone is never refused. */
  lemma UpdateKeepingEmailSucceeds(users: seq<User>, id: Id, update: User -> User)
    requires forall u :: update(u).email == u.email
    ensures UpdateById(users, id, update, []).Success?
  {
  }

  /** An update that keeps a user's id and validity keeps the collection consistent; the unique
      email is enforced by the write itself. */
  lemma UpdateKeepsConsistent(users: seq<User>, id: Id, update: User -> User, pathIssues: seq<Issue>)
    requires Consistent(users)
    requires forall k :: 0 <= k < |users| && users[k].id == id ==>
               update(users[k]).id == id && FieldsValid(update(users[k]))
    requires UpdateById(users, id, update, pathIssues).Success?
    ensures Consistent(UpdateById(users, id, update, pathIssues).value.1)
  {
    match FindById(users, id)
    case None =>
    case Some(i) =>
      var u := update(users[i]);
      var after := users[i := u];
      assert UpdateById(users, id, update, pathIssues).value.1 == after;
      assert FieldsValid(u);
      forall a | 0 <= a < |after| ensures FieldsValid(after[a]) {
      }
      forall a, b | 0 <= a < |after| && 0 <= b < |after| && after[a].id != after[b].id
        ensures after[a].email != after[b].email
      {
        if a == i {
          assert users[b].id != users[i].id;
        } else if b == i {
          assert users[a].id != users[i].id;
        }
      }
  }
}
