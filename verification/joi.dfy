/** The slice of Joi object validation the request schemas use: per-key presence, type, emptiness
    and rule checks in Joi's order, rejection of unknown keys, and Joi's default error texts with
    per-schema overrides. Numbers are integers; e-mail syntax and date parsing are collaborators. */
module Joi {
  import opened Wrappers
  import Seqs
  import TimeOfDay
  import Utf16

  /** A JSON value of a request body. */
  datatype Value = Null | Bool(b: bool) | Num(n: int) | Str(s: string) | Arr(items: seq<Value>)

  /** A parsed JSON object: its keys in order with their values. */
  type Body = seq<(string, Value)>

  /** What validation consults but does not define: the clock, Joi's e-mail check and its date parser. */
  datatype Env = Env(now: int, isEmail: string -> bool, parseDate: string -> Option<int>)

  datatype Rule =
    | Text(allowEmpty: bool, hex: bool, length: Option<nat>, minLength: Option<nat>,
           timePattern: bool, email: bool, oneOf: seq<string>)
    | Number(min: Option<nat>)
    | Date(notBeforeNow: bool)
    | Boolean
    | TextList

  /** One key of an object schema; `overrides` maps an error code to a custom message. */
  datatype KeySpec = KeySpec(key: string, required: bool, rule: Rule, overrides: seq<(string, string)>)

  type Schema = seq<KeySpec>

  datatype Code =
    | Required | StringBase | StringEmpty | StringHex | StringLength(n: nat) | StringMin(n: nat)
    | StringPattern(value: string) | StringEmail | AnyOnly(allowed: seq<string>)
    | NumberBase | NumberMin(n: nat) | DateBase | DateMin | BooleanBase | ArrayBase | Unknown

  /** One entry of Joi's `error.details`: the offending path, the failure and its message. */
  datatype Violation = Violation(path: string, code: Code, message: string)

  /** A plain string `s`, no text rules attached. */
  function PlainText(): Rule
  {
    Text(false, false, None, None, false, false, [])
  }

  function CodeName(c: Code): string
  {
    match c
    case Required => "any.required"
    case StringBase => "string.base"
    case StringEmpty => "string.empty"
    case StringHex => "string.hex"
    case StringLength(_) => "string.length"
    case StringMin(_) => "string.min"
    case StringPattern(_) => "string.pattern.base"
    case StringEmail => "string.email"
    case AnyOnly(_) => "any.only"
    case NumberBase => "number.base"
    case NumberMin(_) => "number.min"
    case DateBase => "date.base"
    case DateMin => "date.min"
    case BooleanBase => "boolean.base"
    case ArrayBase => "array.base"
    case Unknown => "object.unknown"
  }

  /** Joi's default message text for a failure at `path`. */
  function DefaultMessage(path: string, c: Code): string
  {
    var quoted := "\"" + path + "\"";
    match c
    case Required => quoted + " is required"
    case StringBase => quoted + " must be a string"
    case StringEmpty => quoted + " is not allowed to be empty"
    case StringHex => quoted + " must only contain hexadecimal characters"
    case StringLength(n) => quoted + " length must be " + Seqs.NatToString(n) + " characters long"
    case StringMin(n) => quoted + " length must be at least " + Seqs.NatToString(n) + " characters long"
    case StringPattern(v) =>
      quoted + " with value \"" + v + "\" fails to match the required pattern: /^([01]\\d|2[0-3]):?([0-5]\\d)$/"
    case StringEmail => quoted + " must be a valid email"
    case AnyOnly(allowed) =>
      quoted + (if |allowed| == 1 then " must be [" else " must be one of [") + Seqs.Join(allowed, ", ") + "]"
    case NumberBase => quoted + " must be a number"
    case NumberMin(n) => quoted + " must be greater than or equal to " + Seqs.NatToString(n)
    case DateBase => quoted + " must be a valid date"
    case DateMin => quoted + " must be greater than or equal to \"now\""
    case BooleanBase => quoted + " must be a boolean"
    case ArrayBase => quoted + " must be an array"
    case Unknown => quoted + " is not allowed"
  }

  /** The custom message registered for `code`, if any. */
  function Override(overrides: seq<(string, string)>, code: string): Option<string>
    decreases |overrides|
  {
    if |overrides| == 0 then None
    else if overrides[0].0 == code then Some(overrides[0].1)
    else Override(overrides[1..], code)
  }

  function Violate(path: string, c: Code, overrides: seq<(string, string)>): (v: Violation)
    ensures v.path == path && v.code == c
  {
    var message := match Override(overrides, CodeName(c))
                   case Some(m) => m
                   case None => DefaultMessage(path, c);
    Violation(path, c, message)
  }

  /** The value of the first occurrence of `key` in the body. */
  function Lookup(body: Body, key: string): (r: Option<Value>)
    ensures r.None? <==> forall i :: 0 <= i < |body| ==> body[i].0 != key
    ensures r.Some? ==> exists i :: 0 <= i < |body| && body[i] == (key, r.value)
    decreases |body|
  {
    if |body| == 0 then None
    else if body[0].0 == key then Some(body[0].1)
    else Lookup(body[1..], key)
  }

  predicate IsHexChar(c: char)
  {
    ('0' <= c <= '9') || ('a' <= c <= 'f') || ('A' <= c <= 'F')
  }

  predicate AllHex(s: string)
  {
    forall i :: 0 <= i < |s| ==> IsHexChar(s[i])
  }

  /** The text rules of a key, in the order they are declared in the schemas (hex before length). */
  function TextRuleViolations(env: Env, spec: KeySpec, s: string): (r: seq<Violation>)
    requires spec.rule.Text?
    ensures r == [] <==> TextRulesHold(env, spec.rule, s)
  {
    var r := spec.rule;
    var o := spec.overrides;
    (if r.hex && !AllHex(s) then [Violate(spec.key, StringHex, o)] else [])
    + (if r.length.Some? && Utf16.Length(s) != r.length.value then [Violate(spec.key, StringLength(r.length.value), o)] else [])
    + (if r.minLength.Some? && Utf16.Length(s) < r.minLength.value then [Violate(spec.key, StringMin(r.minLength.value), o)] else [])
    + (if r.timePattern && !TimeOfDay.ValidTime(s) then [Violate(spec.key, StringPattern(s), o)] else [])
    + (if r.email && !env.isEmail(s) then [Violate(spec.key, StringEmail, o)] else [])
  }

  /** A text rule holds of `s` exactly when none of its rule checks fails. */
  predicate TextRulesHold(env: Env, r: Rule, s: string)
    requires r.Text?
  {
    && (r.hex ==> AllHex(s))
    && (r.length.Some? ==> Utf16.Length(s) == r.length.value)
    && (r.minLength.Some? ==> Utf16.Length(s) >= r.minLength.value)
    && (r.timePattern ==> TimeOfDay.ValidTime(s))
    && (r.email ==> env.isEmail(s))
  }

  /** Failures of the items of a string array, each reported at `key[i]`. */
  function ItemViolations(key: string, items: seq<Value>, from: nat): (r: seq<Violation>)
    ensures r == [] <==> forall i :: 0 <= i < |items| ==> items[i].Str? && items[i].s != ""
    decreases |items|
  {
    if |items| == 0 then []
    else
      var path := key + "[" + Seqs.NatToString(from) + "]";
      (if !items[0].Str? then [Violate(path, StringBase, [])]
       else if items[0].s == "" then [Violate(path, StringEmpty, [])]
       else [])
      + ItemViolations(key, items[1..], from + 1)
  }

  /** The timestamp Joi's `date()` reads from a value, if any. */
  function DateOf(env: Env, v: Value): Option<int>
  {
    match v
    case Num(n) => Some(n)
    case Str(s) => env.parseDate(s)
    case _ => None
  }

  /** Failures of a present value against its key's rule, in Joi's order: a value on the allowed
      list (`valid`, or `allow("")`) passes at once; otherwise a `valid` list reports `any.only`
      and validation goes on, to the base type, then emptiness (either of which ends it), then the
      rules. */
  function ValueViolations(env: Env, spec: KeySpec, v: Value): seq<Violation>
  {
    var o := spec.overrides;
    match spec.rule
    case Text(allowEmpty, _, _, _, _, _, oneOf) =>
      if (v.Str? && v.s in oneOf) || (allowEmpty && v == Str("")) then []
      else
        (if |oneOf| > 0 then [Violate(spec.key, AnyOnly(oneOf), o)] else [])
        + (if !v.Str? then [Violate(spec.key, StringBase, o)]
           else if v.s == "" then [Violate(spec.key, StringEmpty, o)]
           else TextRuleViolations(env, spec, v.s))
    case Number(min) =>
      if !v.Num? then [Violate(spec.key, NumberBase, o)]
      else if min.Some? && v.n < min.value then [Violate(spec.key, NumberMin(min.value), o)]
      else []
    case Date(notBeforeNow) =>
      (match DateOf(env, v)
       case None => [Violate(spec.key, DateBase, o)]
       case Some(t) => if notBeforeNow && t < env.now then [Violate(spec.key, DateMin, o)] else [])
    case Boolean =>
      if v.Bool? then [] else [Violate(spec.key, BooleanBase, o)]
    case TextList =>
      if v.Arr? then ItemViolations(spec.key, v.items, 0) else [Violate(spec.key, ArrayBase, o)]
  }

  /** What a key's rule accepts, stated without the error list. */
  predicate ValueAccepted(env: Env, r: Rule, v: Value)
  {
    match r
    case Text(allowEmpty, _, _, _, _, _, oneOf) =>
      || (v.Str? && v.s in oneOf)
      || (allowEmpty && v == Str(""))
      || (|oneOf| == 0 && v.Str? && v.s != "" && TextRulesHold(env, r, v.s))
    case Number(min) => v.Num? && (min.Some? ==> v.n >= min.value)
    case Date(notBeforeNow) => DateOf(env, v).Some? && (notBeforeNow ==> DateOf(env, v).value >= env.now)
    case Boolean => v.Bool?
    case TextList => v.Arr? && forall i :: 0 <= i < |v.items| ==> v.items[i].Str? && v.items[i].s != ""
  }

  /** A present value draws no failure exactly when its rule accepts it. */
  lemma ValueViolationsEmptyIff(env: Env, spec: KeySpec, v: Value)
    ensures ValueViolations(env, spec, v) == [] <==> ValueAccepted(env, spec.rule, v)
  {
  }

  /** A value outside a `valid` list draws `any.only` first, and then, when it is not a string or
      is the empty string, also Joi's base-type or emptiness failure. */
  lemma OutsideListViolations(env: Env, spec: KeySpec, v: Value)
    requires spec.rule.Text? && |spec.rule.oneOf| > 0 && !spec.rule.allowEmpty
    requires !(v.Str? && v.s in spec.rule.oneOf)
    ensures var vs := ValueViolations(env, spec, v);
            && |vs| >= 1 && vs[0].code == AnyOnly(spec.rule.oneOf)
            && (!v.Str? ==> |vs| == 2 && vs[1].code == StringBase)
            && (v == Str("") ==> |vs| == 2 && vs[1].code == StringEmpty)
  {
  }

  function KeyViolations(env: Env, spec: KeySpec, v: Option<Value>): seq<Violation>
  {
    match v
    case None => if spec.required then [Violate(spec.key, Required, spec.overrides)] else []
    case Some(x) => ValueViolations(env, spec, x)
  }

  /** A key is satisfied when it is present and accepted, or absent and optional. */
  predicate KeyAccepted(env: Env, spec: KeySpec, v: Option<Value>)
  {
    match v
    case None => !spec.required
    case Some(x) => ValueAccepted(env, spec.rule, x)
  }

  lemma KeyViolationsEmptyIff(env: Env, spec: KeySpec, v: Option<Value>)
    ensures KeyViolations(env, spec, v) == [] <==> KeyAccepted(env, spec, v)
  {
    if v.Some? {
      ValueViolationsEmptyIff(env, spec, v.value);
    }
  }

  function Keys(schema: Schema): set<string>
  {
    set i | 0 <= i < |schema| :: schema[i].key
  }

  /** Failures of the schema's keys, in schema order. */
  function SchemaViolations(env: Env, schema: Schema, body: Body): (r: seq<Violation>)
    ensures r == [] <==> forall i :: 0 <= i < |schema| ==> KeyAccepted(env, schema[i], Lookup(body, schema[i].key))
    decreases |schema|
  {
    if |schema| == 0 then []
    else
      KeyViolationsEmptyIff(env, schema[0], Lookup(body, schema[0].key));
      var r := KeyViolations(env, schema[0], Lookup(body, schema[0].key)) + SchemaViolations(env, schema[1..], body);
      assert forall i :: 1 <= i < |schema| ==> schema[i] == schema[1..][i - 1];
      r
  }

  /** One `"key" is not allowed` failure per body key the schema does not declare. */
  function UnknownViolations(known: set<string>, body: Body): (r: seq<Violation>)
    ensures r == [] <==> forall i :: 0 <= i < |body| ==> body[i].0 in known
    decreases |body|
  {
    if |body| == 0 then []
    else
      (if body[0].0 in known then [] else [Violate(body[0].0, Unknown, [])])
      + UnknownViolations(known, body[1..])
  }

  /** All failures, as `validate(body, { abortEarly: false })` reports them: the keys in schema order, then unknown keys. */
  function Validate(env: Env, schema: Schema, body: Body): (r: seq<Violation>)
    ensures r == [] <==> Accepts(env, schema, body)
  {
    SchemaViolations(env, schema, body) + UnknownViolations(Keys(schema), body)
  }

  /** The body is valid: every key is satisfied and no undeclared key is present. */
  predicate Accepts(env: Env, schema: Schema, body: Body)
  {
    && (forall i :: 0 <= i < |schema| ==> KeyAccepted(env, schema[i], Lookup(body, schema[i].key)))
    && (forall i :: 0 <= i < |body| ==> body[i].0 in Keys(schema))
  }

  /** The single failure `validate(body)` reports when it stops at the first one. */
  function FirstViolation(env: Env, schema: Schema, body: Body): (r: Option<Violation>)
    ensures r.None? <==> Accepts(env, schema, body)
    ensures r.Some? ==> r.value in Validate(env, schema, body)
  {
    var all := Validate(env, schema, body);
    if |all| == 0 then None else Some(all[0])
  }

  /** The messages of all failures joined by "; ", as the auth controller reports them. */
  function JoinedMessages(vs: seq<Violation>): string
  {
    Seqs.Join(seq(|vs|, i requires 0 <= i < |vs| => vs[i].message), "; ")
  }

  /** The string stored under an accepted text key. */
  function TextOf(body: Body, key: string): Option<string>
  {
    match Lookup(body, key)
    case Some(Str(s)) => Some(s)
    case _ => None
  }

  /** The string under `key`, or the empty string when there is none. */
  function TextField(body: Body, key: string): (s: string)
    ensures TextOf(body, key).Some? ==> s == TextOf(body, key).value
    ensures TextOf(body, key).None? ==> s == ""
  {
    match TextOf(body, key)
    case Some(s) => s
    case None => ""
  }

  /** The integer stored under an accepted number key. */
  function NumberOf(body: Body, key: string): Option<int>
  {
    match Lookup(body, key)
    case Some(Num(n)) => Some(n)
    case _ => None
  }
}
