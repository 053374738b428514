/** The Joi schemas for user requests: the three registration forms, login and the photographer
    profile update. */
module UserValidation {
  import opened Wrappers
  import opened Joi
  import Seqs
  import Utf16

  /** `Joi.string().email()` */
  const EmailText: Rule := Text(false, false, None, None, false, true, [])

  /** `Joi.string().min(n)` */
  function MinText(n: nat): Rule
  {
    Text(false, false, None, Some(n), false, false, [])
  }

  /** `Joi.string().valid(...names)` */
  function OneOf(names: seq<string>): Rule
  {
    Text(false, false, None, None, false, false, names)
  }

  /** The roles the auth register schema lists, in its order. */
  const RegisterRoles: seq<string> := ["client", "photographer", "admin"]

  /** `photographerRegisterValidationSchema` */
  const PhotographerRegisterSchema: Schema := [
    KeySpec("name", true, PlainText(), []),
    KeySpec("email", true, EmailText, []),
    KeySpec("password", true, MinText(8), []),
    KeySpec("role", true, OneOf(["photographer"]), []),
    KeySpec("phone", true, PlainText(), []),
    KeySpec("pricePerDay", true, Number(None), []),
    KeySpec("isApproved", false, Boolean, [])
  ]

  /** `clientRegisterValidationSchema` */
  const ClientRegisterSchema: Schema := [
    KeySpec("name", true, PlainText(), []),
    KeySpec("email", true, EmailText, []),
    KeySpec("password", true, MinText(8), []),
    KeySpec("role", true, OneOf(["client"]), []),
    KeySpec("phone", false, PlainText(), [])
  ]

  /** `authRegisterValidationSchema` */
  const AuthRegisterSchema: Schema := [
    KeySpec("name", true, PlainText(), []),
    KeySpec("email", true, EmailText, []),
    KeySpec("password", true, MinText(6), []),
    KeySpec("role", true, OneOf(RegisterRoles), [])
  ]

  /** `userLoginValidationSchema` */
  const LoginSchema: Schema := [
    KeySpec("email", true, EmailText, []),
    KeySpec("password", true, PlainText(), [])
  ]

  /** `updatePhotographerProfileSchema` */
  const UpdateProfileSchema: Schema := [
    KeySpec("name", false, PlainText(), []),
    KeySpec("bio", false, PlainText(), []),
    KeySpec("skills", false, TextList, []),
    KeySpec("services", false, TextList, [])
  ]

  /** A non-empty string under `key`. */
  predicate HasText(body: Body, key: string)
  {
    TextOf(body, key).Some? && TextOf(body, key).value != ""
  }

  /** An e-mail address under `key`. */
  predicate HasEmail(env: Env, body: Body, key: string)
  {
    HasText(body, key) && env.isEmail(TextOf(body, key).value)
  }

  /** A string of at least `n` UTF-16 code units under `key`. */
  predicate HasLongText(body: Body, key: string, n: nat)
  {
    HasText(body, key) && Utf16.Length(TextOf(body, key).value) >= n
  }

  /** A string from `names` under `key`. */
  predicate HasOneOf(body: Body, key: string, names: seq<string>)
  {
    TextOf(body, key).Some? && TextOf(body, key).value in names
  }

  /** The body carries only the given keys. */
  predicate OnlyKeys(body: Body, names: set<string>)
  {
    forall i :: 0 <= i < |body| ==> body[i].0 in names
  }

  /** An absent key, or a non-empty string. */
  predicate OptionalText(body: Body, key: string)
  {
    Lookup(body, key).None? || HasText(body, key)
  }

  /** An absent key, or an array of non-empty strings. */
  predicate OptionalTextList(body: Body, key: string)
  {
    match Lookup(body, key)
    case None => true
    case Some(v) => v.Arr? && forall i :: 0 <= i < |v.items| ==> v.items[i].Str? && v.items[i].s != ""
  }

  /** A required text key with no allowed-value list is satisfied exactly by a non-empty string
      passing its rules. */
  lemma RequiredTextAccepted(env: Env, body: Body, spec: KeySpec)
    requires spec.required && spec.rule.Text? && |spec.rule.oneOf| == 0 && !spec.rule.allowEmpty
    ensures KeyAccepted(env, spec, Lookup(body, spec.key)) <==>
              HasText(body, spec.key) && TextRulesHold(env, spec.rule, TextOf(body, spec.key).value)
  {
  }

  /** An optional text key is satisfied by its absence or by a non-empty string. */
  lemma OptionalTextAccepted(env: Env, body: Body, spec: KeySpec)
    requires !spec.required && spec.rule == PlainText()
    ensures KeyAccepted(env, spec, Lookup(body, spec.key)) <==> OptionalText(body, spec.key)
  {
  }

  /** A required number key without a minimum is satisfied exactly by a number. */
  lemma RequiredNumberAccepted(env: Env, body: Body, spec: KeySpec)
    requires spec.required && spec.rule == Number(None)
    ensures KeyAccepted(env, spec, Lookup(body, spec.key)) <==> NumberOf(body, spec.key).Some?
  {
  }

  /** An optional boolean key is satisfied by its absence or by a boolean. */
  lemma OptionalBooleanAccepted(env: Env, body: Body, spec: KeySpec)
    requires !spec.required && spec.rule == Boolean
    ensures KeyAccepted(env, spec, Lookup(body, spec.key)) <==>
              (Lookup(body, spec.key).Some? ==> Lookup(body, spec.key).value.Bool?)
  {
  }

  /** An optional string-array key is satisfied by its absence or by an array of non-empty strings. */
  lemma OptionalTextListAccepted(env: Env, body: Body, spec: KeySpec)
    requires !spec.required && spec.rule == TextList
    ensures KeyAccepted(env, spec, Lookup(body, spec.key)) <==> OptionalTextList(body, spec.key)
  {
  }

  /** A required key with an allowed-value list is satisfied exactly by one of the listed strings. */
  lemma OneOfAccepted(env: Env, body: Body, spec: KeySpec)
    requires spec.required && spec.rule.Text? && |spec.rule.oneOf| > 0 && !spec.rule.allowEmpty
    ensures KeyAccepted(env, spec, Lookup(body, spec.key)) <==> HasOneOf(body, spec.key, spec.rule.oneOf)
  {
  }

  /** The keys `AuthRegisterSchema` declares. */
  lemma AuthRegisterKeyNames()
    ensures Keys(AuthRegisterSchema) == {"name", "email", "password", "role"}
  {
    var s := AuthRegisterSchema;
    assert s[0].key == "name" && s[1].key == "email" && s[2].key == "password" && s[3].key == "role";
  }

  /** The auth register schema accepts exactly a name, an e-mail, a password of at least six
      characters and one of the three roles, and no other key. */
  lemma AuthRegisterIff(env: Env, body: Body)
    ensures Accepts(env, AuthRegisterSchema, body) <==>
              && OnlyKeys(body, {"name", "email", "password", "role"})
              && HasText(body, "name") && HasEmail(env, body, "email")
              && HasLongText(body, "password", 6) && HasOneOf(body, "role", RegisterRoles)
  {
    var s := AuthRegisterSchema;
    AuthRegisterKeyNames();
    assert s[0].key == "name" && s[1].key == "email" && s[2].key == "password" && s[3].key == "role";
    assert s[1].rule == EmailText && s[2].rule == MinText(6) && s[3].rule.oneOf == RegisterRoles;
    AuthRegisterKeys(env, body, s);
  }

  /** The four key checks of a schema shaped as the auth register schema. */
  lemma AuthRegisterKeys(env: Env, body: Body, s: Schema)
    requires |s| == 4
    requires s[0].required && s[0].rule == PlainText() && s[1].required && s[1].rule == EmailText
    requires s[2].required && s[2].rule == MinText(6) && s[3].required && s[3].rule == OneOf(RegisterRoles)
    ensures Accepts(env, s, body) <==>
              && OnlyKeys(body, Keys(s))
              && HasText(body, s[0].key) && HasEmail(env, body, s[1].key)
              && HasLongText(body, s[2].key, 6) && HasOneOf(body, s[3].key, RegisterRoles)
  {
    Seqs.AllOfFour(s, (k: KeySpec) => KeyAccepted(env, k, Lookup(body, k.key)));
    RequiredTextAccepted(env, body, s[0]);
    RequiredTextAccepted(env, body, s[1]);
    RequiredTextAccepted(env, body, s[2]);
    OneOfAccepted(env, body, s[3]);
  }

  /** The keys `PhotographerRegisterSchema` declares. */
  lemma PhotographerRegisterKeyNames()
    ensures Keys(PhotographerRegisterSchema) == {"name", "email", "password", "role", "phone", "pricePerDay", "isApproved"}
  {
    var s := PhotographerRegisterSchema;
    assert s[0].key == "name" && s[1].key == "email" && s[2].key == "password" && s[3].key == "role" && s[4].key == "phone" && s[5].key == "pricePerDay" && s[6].key == "isApproved";
  }

  /** Photographer registration accepts exactly a name, an e-mail, a password of at least eight
      characters, the role "photographer", a phone, a numeric day price and optionally a boolean
      approval flag, and no other key. */
  lemma PhotographerRegisterIff(env: Env, body: Body)
    ensures Accepts(env, PhotographerRegisterSchema, body) <==>
              && OnlyKeys(body, {"name", "email", "password", "role", "phone", "pricePerDay", "isApproved"})
              && HasText(body, "name") && HasEmail(env, body, "email")
              && HasLongText(body, "password", 8) && HasOneOf(body, "role", ["photographer"])
              && HasText(body, "phone") && NumberOf(body, "pricePerDay").Some?
              && (Lookup(body, "isApproved").Some? ==> Lookup(body, "isApproved").value.Bool?)
  {
    var s := PhotographerRegisterSchema;
    PhotographerRegisterKeyNames();
    assert s[0].key == "name" && s[1].key == "email" && s[2].key == "password" && s[3].key == "role" && s[4].key == "phone" && s[5].key == "pricePerDay" && s[6].key == "isApproved";
    assert s[1].rule == EmailText && s[2].rule == MinText(8) && s[3].rule.oneOf == ["photographer"];
    PhotographerRegisterKeys(env, body, s);
  }

  /** The seven key checks of a schema shaped as the photographer registration schema. */
  lemma PhotographerRegisterKeys(env: Env, body: Body, s: Schema)
    requires |s| == 7
    requires s[0].required && s[0].rule == PlainText() && s[1].required && s[1].rule == EmailText
    requires s[2].required && s[2].rule == MinText(8) && s[3].required && s[3].rule == OneOf(["photographer"])
    requires s[4].required && s[4].rule == PlainText() && s[5].required && s[5].rule == Number(None)
    requires !s[6].required && s[6].rule == Boolean
    ensures Accepts(env, s, body) <==>
              && OnlyKeys(body, Keys(s))
              && HasText(body, s[0].key) && HasEmail(env, body, s[1].key)
              && HasLongText(body, s[2].key, 8) && HasOneOf(body, s[3].key, ["photographer"])
              && HasText(body, s[4].key) && NumberOf(body, s[5].key).Some?
              && (Lookup(body, s[6].key).Some? ==> Lookup(body, s[6].key).value.Bool?)
  {
    Seqs.AllOfSeven(s, (k: KeySpec) => KeyAccepted(env, k, Lookup(body, k.key)));
    RequiredTextAccepted(env, body, s[0]);
    RequiredTextAccepted(env, body, s[1]);
    RequiredTextAccepted(env, body, s[2]);
    OneOfAccepted(env, body, s[3]);
    RequiredTextAccepted(env, body, s[4]);
    RequiredNumberAccepted(env, body, s[5]);
    OptionalBooleanAccepted(env, body, s[6]);
  }

  /** The keys `ClientRegisterSchema` declares. */
  lemma ClientRegisterKeyNames()
    ensures Keys(ClientRegisterSchema) == {"name", "email", "password", "role", "phone"}
  {
    var s := ClientRegisterSchema;
    assert s[0].key == "name" && s[1].key == "email" && s[2].key == "password" && s[3].key == "role" && s[4].key == "phone";
  }

  /** Client registration accepts exactly a name, an e-mail, a password of at least eight characters,
      the role "client" and optionally a phone, and no other key. */
  lemma ClientRegisterIff(env: Env, body: Body)
    ensures Accepts(env, ClientRegisterSchema, body) <==>
              && OnlyKeys(body, {"name", "email", "password", "role", "phone"})
              && HasText(body, "name") && HasEmail(env, body, "email")
              && HasLongText(body, "password", 8) && HasOneOf(body, "role", ["client"])
              && OptionalText(body, "phone")
  {
    var s := ClientRegisterSchema;
    ClientRegisterKeyNames();
    assert s[0].key == "name" && s[1].key == "email" && s[2].key == "password" && s[3].key == "role" && s[4].key == "phone";
    assert s[1].rule == EmailText && s[2].rule == MinText(8) && s[3].rule.oneOf == ["client"];
    ClientRegisterKeys(env, body, s);
  }

  /** The five key checks of a schema shaped as the client registration schema. */
  lemma ClientRegisterKeys(env: Env, body: Body, s: Schema)
    requires |s| == 5
    requires s[0].required && s[0].rule == PlainText() && s[1].required && s[1].rule == EmailText
    requires s[2].required && s[2].rule == MinText(8) && s[3].required && s[3].rule == OneOf(["client"])
    requires !s[4].required && s[4].rule == PlainText()
    ensures Accepts(env, s, body) <==>
              && OnlyKeys(body, Keys(s))
              && HasText(body, s[0].key) && HasEmail(env, body, s[1].key)
              && HasLongText(body, s[2].key, 8) && HasOneOf(body, s[3].key, ["client"])
              && OptionalText(body, s[4].key)
  {
    Seqs.AllOfFive(s, (k: KeySpec) => KeyAccepted(env, k, Lookup(body, k.key)));
    RequiredTextAccepted(env, body, s[0]);
    RequiredTextAccepted(env, body, s[1]);
    RequiredTextAccepted(env, body, s[2]);
    OneOfAccepted(env, body, s[3]);
    OptionalTextAccepted(env, body, s[4]);
  }

  /** The keys `LoginSchema` declares. */
  lemma LoginKeyNames()
    ensures Keys(LoginSchema) == {"email", "password"}
  {
    var s := LoginSchema;
    assert s[0].key == "email" && s[1].key == "password";
  }

  /** Login accepts exactly an e-mail and a non-empty password, and no other key. */
  lemma LoginIff(env: Env, body: Body)
    ensures Accepts(env, LoginSchema, body) <==>
              OnlyKeys(body, {"email", "password"}) && HasEmail(env, body, "email") && HasText(body, "password")
  {
    var s := LoginSchema;
    LoginKeyNames();
    assert s[0].key == "email" && s[1].key == "password" && s[0].rule == EmailText;
    LoginKeys(env, body, s);
  }

  /** The two key checks of a schema shaped as the login schema. */
  lemma LoginKeys(env: Env, body: Body, s: Schema)
    requires |s| == 2
    requires s[0].required && s[0].rule == EmailText && s[1].required && s[1].rule == PlainText()
    ensures Accepts(env, s, body) <==> OnlyKeys(body, Keys(s)) && HasEmail(env, body, s[0].key) && HasText(body, s[1].key)
  {
    assert (forall i :: 0 <= i < |s| ==> KeyAccepted(env, s[i], Lookup(body, s[i].key))) <==>
             KeyAccepted(env, s[0], Lookup(body, s[0].key)) && KeyAccepted(env, s[1], Lookup(body, s[1].key));
    RequiredTextAccepted(env, body, s[0]);
    RequiredTextAccepted(env, body, s[1]);
  }

  /** The keys `UpdateProfileSchema` declares. */
  lemma UpdateProfileKeyNames()
    ensures Keys(UpdateProfileSchema) == {"name", "bio", "skills", "services"}
  {
    var s := UpdateProfileSchema;
    assert s[0].key == "name" && s[1].key == "bio" && s[2].key == "skills" && s[3].key == "services";
  }

  /** Every key of a profile update is optional; skills and services are arrays of non-empty strings;
      no other key is allowed. */
  lemma UpdateProfileIff(env: Env, body: Body)
    ensures Accepts(env, UpdateProfileSchema, body) <==>
              && OnlyKeys(body, {"name", "bio", "skills", "services"})
              && OptionalText(body, "name") && OptionalText(body, "bio")
              && OptionalTextList(body, "skills") && OptionalTextList(body, "services")
  {
    var s := UpdateProfileSchema;
    UpdateProfileKeyNames();
    assert s[0].key == "name" && s[1].key == "bio" && s[2].key == "skills" && s[3].key == "services";
    UpdateProfileKeys(env, body, s);
  }

  /** The four key checks of a schema shaped as the profile update schema. */
  lemma UpdateProfileKeys(env: Env, body: Body, s: Schema)
    requires |s| == 4
    requires !s[0].required && s[0].rule == PlainText() && !s[1].required && s[1].rule == PlainText()
    requires !s[2].required && s[2].rule == TextList && !s[3].required && s[3].rule == TextList
    ensures Accepts(env, s, body) <==>
              && OnlyKeys(body, Keys(s))
              && OptionalText(body, s[0].key) && OptionalText(body, s[1].key)
              && OptionalTextList(body, s[2].key) && OptionalTextList(body, s[3].key)
  {
    Seqs.AllOfFour(s, (k: KeySpec) => KeyAccepted(env, k, Lookup(body, k.key)));
    OptionalTextAccepted(env, body, s[0]);
    OptionalTextAccepted(env, body, s[1]);
    OptionalTextListAccepted(env, body, s[2]);
    OptionalTextListAccepted(env, body, s[3]);
  }
}
