/** Registration and login: validation, the e-mail and password checks in their order, the stored
    user, and the token payload. Hashing, hash comparison and token signing are collaborators. */
module Auth {
  import opened Wrappers
  import opened Joi
  import opened UserModel
  import UserValidation
  import Seqs
  import Utf16

  /** The token payload: exactly the user id and role. */
  datatype Claims = Claims(userId: Id, role: Role)

  /** The user summary both endpoints answer with. */
  datatype UserView = UserView(id: Id, name: string, email: string, role: Role, isApproved: bool)

  datatype Session = Session(token: string, user: UserView)

  const SomethingWentWrong: string := "Something went wrong"
  const EmailAlreadyRegistered: string := "Email already registered"
  const InvalidCredentials: string := "Invalid email or password"
  const Deactivated: string := "Your account has been deactivated. Please contact support."

  function SessionOf(sign: Claims -> string, u: User): (s: Session)
    ensures s.token == sign(Claims(u.id, u.role))
    ensures s.user.id == u.id && s.user.role == u.role && s.user.isApproved == u.isApproved
  {
    Session(sign(Claims(u.id, u.role)), UserView(u.id, u.name, u.email, u.role, u.isApproved))
  }

  /** `findOne({ email })`: the first user with this email. */
  function FindByEmail(users: seq<User>, email: string): (r: Option<nat>)
    ensures r.Some? ==> r.value < |users| && users[r.value].email == email
    ensures r.Some? ==> forall j :: 0 <= j < r.value ==> users[j].email != email
    ensures r.None? <==> forall i :: 0 <= i < |users| ==> users[i].email != email
  {
    Seqs.FirstIndex(users, (u: User) => u.email == email)
  }

  /** The role named by an accepted register body. */
  lemma RegisterRoleParses(name: string)
    requires name in UserValidation.RegisterRoles
    ensures ParseRole(name).Some? && RoleName(ParseRole(name).value) == name
  {
  }

  /** The document an accepted register body produces: the request's name, e-mail and role, the
      hashed password, and both flags set. */
  function RegisteredUser(env: Env, body: Body, hash: string -> string, newId: Id, now: int): (u: User)
    requires Accepts(env, UserValidation.AuthRegisterSchema, body)
    ensures u.id == newId && u.isApproved && u.isActive
    ensures u.name == TextField(body, "name") && u.email == TextField(body, "email")
    ensures u.passwordHash == hash(TextField(body, "password"))
    ensures RoleName(u.role) == TextField(body, "role")
  {
    UserValidation.AuthRegisterIff(env, body);
    RegisterRoleParses(TextField(body, "role"));
    NewUser(newId, TextField(body, "name"), TextField(body, "email"), hash(TextField(body, "password")),
            ParseRole(TextField(body, "role")).value, None, now).(isApproved := true)
  }

  /** `register`: all validation messages joined by "; " (400); an e-mail already in use (400);
      otherwise the user is written, and a write the schema or the store refuses is a 500. */
  function Register(env: Env, users: seq<User>, body: Body, hash: string -> string, sign: Claims -> string,
                    newId: Id): (r: (Reply<Session>, seq<User>))
    ensures r.0.Fail? ==> r.1 == users
    ensures !Accepts(env, UserValidation.AuthRegisterSchema, body) ==>
              r.0 == Fail(400, JoinedMessages(Validate(env, UserValidation.AuthRegisterSchema, body)))
    ensures Accepts(env, UserValidation.AuthRegisterSchema, body) && FindByEmail(users, TextField(body, "email")).Some? ==>
              r.0 == Fail(400, EmailAlreadyRegistered)
    ensures r.0.Ok? <==> && Accepts(env, UserValidation.AuthRegisterSchema, body)
                         && FindByEmail(users, TextField(body, "email")).None?
                         && FindById(users, newId).None?
                         && FieldsValid(RegisteredUser(env, body, hash, newId, env.now))
    ensures r.0.Ok? ==> && r.0.status == 201
                        && r.1 == users + [RegisteredUser(env, body, hash, newId, env.now)]
                        && r.0.body == SessionOf(sign, RegisteredUser(env, body, hash, newId, env.now))
    ensures (r.0.Fail? && Accepts(env, UserValidation.AuthRegisterSchema, body)
             && FindByEmail(users, TextField(body, "email")).None?) ==> r.0 == Fail(500, SomethingWentWrong)
  {
    var vs := Validate(env, UserValidation.AuthRegisterSchema, body);
    if vs != [] then (Fail(400, JoinedMessages(vs)), users)
    else
      var email := TextField(body, "email");
      if FindByEmail(users, email).Some? then (Fail(400, EmailAlreadyRegistered), users)
      else if FindById(users, newId).Some? then (Fail(500, SomethingWentWrong), users)
      else
        var u := RegisteredUser(env, body, hash, newId, env.now);
        match Save(users, u)
        case Failure(_) => (Fail(500, SomethingWentWrong), users)
        case Success(next) =>
          assert Seqs.Upsert(users, u, (x: User) => x.id) == users + [u];
          (Ok(201, SessionOf(sign, u)), next)
  }

  /** Registration keeps the stored users valid and their e-mails unique. */
  lemma RegisterKeepsConsistent(env: Env, users: seq<User>, body: Body, hash: string -> string, sign: Claims -> string, newId: Id)
    requires Consistent(users)
    ensures Consistent(Register(env, users, body, hash, sign, newId).1)
  {
    var r := Register(env, users, body, hash, sign, newId);
    if r.0.Ok? {
      SaveKeepsConsistent(users, RegisteredUser(env, body, hash, newId, env.now));
    }
  }

  /** Joi lets a one- or two-character name through, the user schema does not: such a registration
      fails as a 500 after passing validation. */
  lemma ShortNameFailsOnSave(env: Env, users: seq<User>, body: Body, hash: string -> string, sign: Claims -> string, newId: Id)
    requires Accepts(env, UserValidation.AuthRegisterSchema, body)
    requires FindByEmail(users, TextField(body, "email")).None?
    requires Utf16.Length(TextField(body, "name")) < MinNameLength
    ensures Register(env, users, body, hash, sign, newId).0 == Fail(500, SomethingWentWrong)
  {
  }

  /** Registering the same e-mail a second time is refused and stores nothing. */
  lemma SecondRegistrationRefused(env: Env, users: seq<User>, body: Body, hash: string -> string, sign: Claims -> string,
                                  newId: Id, otherId: Id)
    requires Register(env, users, body, hash, sign, newId).0.Ok?
    ensures var after := Register(env, users, body, hash, sign, newId).1;
            Register(env, after, body, hash, sign, otherId) == (Fail(400, EmailAlreadyRegistered), after)
  {
    var after := Register(env, users, body, hash, sign, newId).1;
    var u := RegisteredUser(env, body, hash, newId, env.now);
    assert after[|users|] == u;
    assert FindByEmail(after, TextField(body, "email")).Some?;
  }

  /** `login`: validation messages joined by "; " (400); an unknown e-mail and a wrong password give
      the same 401; an inactive account is refused with 403 only once the password matched. Approval
      is not consulted. */
  function Login(env: Env, users: seq<User>, body: Body, compare: (string, string) -> bool, sign: Claims -> string): (r: Reply<Session>)
    ensures !Accepts(env, UserValidation.LoginSchema, body) ==>
              r == Fail(400, JoinedMessages(Validate(env, UserValidation.LoginSchema, body)))
    ensures Accepts(env, UserValidation.LoginSchema, body) ==>
              var found := FindByEmail(users, TextField(body, "email"));
              && (found.None? ==> r == Fail(401, InvalidCredentials))
              && (found.Some? && !compare(TextField(body, "password"), users[found.value].passwordHash) ==>
                    r == Fail(401, InvalidCredentials))
              && ((found.Some? && compare(TextField(body, "password"), users[found.value].passwordHash)
                   && !users[found.value].isActive) ==> r == Fail(403, Deactivated))
              && (r.Ok? <==> found.Some? && compare(TextField(body, "password"), users[found.value].passwordHash)
                             && users[found.value].isActive)
              && (r.Ok? ==> r == Ok(200, SessionOf(sign, users[found.value])))
    ensures r.Ok? ==> Accepts(env, UserValidation.LoginSchema, body)
  {
    var vs := Validate(env, UserValidation.LoginSchema, body);
    if vs != [] then Fail(400, JoinedMessages(vs))
    else
      UserValidation.LoginIff(env, body);
      match FindByEmail(users, TextField(body, "email"))
      case None => Fail(401, InvalidCredentials)
      case Some(i) =>
        var u := users[i];
        if !compare(TextField(body, "password"), u.passwordHash) then Fail(401, InvalidCredentials)
        else if !u.isActive then Fail(403, Deactivated)
        else Ok(200, SessionOf(sign, u))
  }

  /** An inactive account with a wrong password still gets the generic 401, so the 403 reveals the
      deactivation only to someone who knows the password. */
  lemma InactiveWrongPasswordIs401(env: Env, users: seq<User>, body: Body, compare: (string, string) -> bool, sign: Claims -> string)
    requires Accepts(env, UserValidation.LoginSchema, body)
    requires FindByEmail(users, TextField(body, "email")).Some?
    requires !users[FindByEmail(users, TextField(body, "email")).value].isActive
    requires !compare(TextField(body, "password"), users[FindByEmail(users, TextField(body, "email")).value].passwordHash)
    ensures Login(env, users, body, compare, sign) == Fail(401, InvalidCredentials)
  {
  }

  /** Approval does not gate login: flipping a user's approval leaves every login answer's status
      as it was. */
  lemma ApprovalIrrelevantToLogin(env: Env, users: seq<User>, i: nat, approved: bool, body: Body,
                                  compare: (string, string) -> bool, sign: Claims -> string)
    requires i < |users|
    ensures var flipped := users[i := users[i].(isApproved := approved)];
            Login(env, flipped, body, compare, sign).Ok? == Login(env, users, body, compare, sign).Ok?
            && (Login(env, users, body, compare, sign).Fail? ==>
                  Login(env, flipped, body, compare, sign) == Login(env, users, body, compare, sign))
  {
    var flipped := users[i := users[i].(isApproved := approved)];
    if Accepts(env, UserValidation.LoginSchema, body) {
      var email := TextField(body, "email");
      forall j | 0 <= j < |users| ensures flipped[j].email == users[j].email { }
      SameEmailsSameFind(users, flipped, email);
      var found := FindByEmail(users, email);
      if found.Some? {
        var k := found.value;
        assert flipped[k].passwordHash == users[k].passwordHash && flipped[k].isActive == users[k].isActive;
      }
    }
  }

  lemma SameEmailsSameFind(a: seq<User>, b: seq<User>, email: string)
    requires |a| == |b|
    requires forall i :: 0 <= i < |a| ==> a[i].email == b[i].email
    ensures FindByEmail(a, email) == FindByEmail(b, email)
  {
    match FindByEmail(a, email)
    case None =>
    case Some(k) =>
      assert b[k].email == email;
  }
}
