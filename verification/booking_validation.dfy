/** The Joi schemas for booking requests: creating a booking, setting a status, assigning a photographer. */
module BookingValidation {
  import opened Wrappers
  import opened Joi
  import TimeOfDay
  import BookingModel

  /** `Joi.string().hex().length(24)` */
  const HexId: Rule := Text(false, true, Some(24), None, false, false, [])

  /** `Joi.string().regex(/^([01]\d|2[0-3]):?([0-5]\d)$/)` */
  const TimeText: Rule := Text(false, false, None, None, true, false, [])

  const EventTypes: seq<string> := ["Wedding", "Engagement", "Pre-Wedding", "Reception", "Other"]

  const Packages: seq<string> := ["silver", "gold", "platinum"]

  /** `createBookingValidationSchema` */
  const CreateBookingSchema: Schema := [
    KeySpec("photographerId", true, HexId, [("string.length", "Invalid Photographer ID")]),
    KeySpec("eventDate", true, Date(true), [("date.min", "Event date cannot be in the past")]),
    KeySpec("startTime", true, TimeText, [("string.pattern.base", "Start time must be in HH:mm format")]),
    KeySpec("endTime", true, TimeText, [("string.pattern.base", "End time must be in HH:mm format")]),
    KeySpec("eventType", true, Text(false, false, None, None, false, false, EventTypes), []),
    KeySpec("location", true, PlainText(), []),
    KeySpec("latitude", false, Number(None), []),
    KeySpec("longitude", false, Number(None), []),
    KeySpec("package", false, Text(false, false, None, None, false, false, Packages), []),
    KeySpec("notes", false, Text(true, false, None, None, false, false, []), [])
  ]

  /** `updateBookingStatusSchema` */
  const UpdateBookingStatusSchema: Schema := [
    KeySpec("status", true, Text(false, false, None, None, false, false, BookingModel.StatusNames), [])
  ]

  /** `assignPhotographerSchema` */
  const AssignPhotographerSchema: Schema := [
    KeySpec("photographerId", true, HexId, [])
  ]

  /** A 24-character string of hexadecimal digits: an ObjectId in text form. */
  predicate IsObjectIdText(s: string)
  {
    |s| == 24 && AllHex(s)
  }

  /** An id key accepts a value exactly when it is a 24-character hexadecimal string. */
  lemma HexIdIff(env: Env, spec: KeySpec, v: Value)
    requires spec.rule == HexId
    ensures KeyAccepted(env, spec, Some(v)) <==> v.Str? && IsObjectIdText(v.s)
  {
  }

  /** Optional key present with the wrong shape, or required key missing, in domain terms. */
  predicate OptionalText(body: Body, key: string, allowed: seq<string>)
  {
    Lookup(body, key).None? || (Lookup(body, key).value.Str? && Lookup(body, key).value.s in allowed)
  }

  /** The keys a create request may carry. */
  const CreateKeyNames: set<string> := {"photographerId", "eventDate", "startTime", "endTime", "eventType",
                                        "location", "latitude", "longitude", "package", "notes"}

  /** What a valid create request is, stated field by field (see `CreateFieldOk`). */
  predicate WellFormedCreateRequest(env: Env, body: Body)
  {
    && (forall i :: 0 <= i < |body| ==> body[i].0 in CreateKeyNames)
    && (forall i: nat :: i < 10 ==> CreateFieldOk(env, body, i))
  }

  lemma CreateBookingKeys()
    ensures Keys(CreateBookingSchema) == CreateKeyNames
  {
    var s := CreateBookingSchema;
    assert s[0].key == "photographerId" && s[1].key == "eventDate" && s[2].key == "startTime";
    assert s[3].key == "endTime" && s[4].key == "eventType" && s[5].key == "location";
    assert s[6].key == "latitude" && s[7].key == "longitude" && s[8].key == "package" && s[9].key == "notes";
  }

  /** The i-th key of the create schema is satisfied by the body. */
  predicate CreateKeyOk(env: Env, body: Body, i: nat)
    requires i < |CreateBookingSchema|
  {
    KeyAccepted(env, CreateBookingSchema[i], Lookup(body, CreateBookingSchema[i].key))
  }

  /** The domain reading of the i-th key of the create schema. */
  predicate CreateFieldOk(env: Env, body: Body, i: nat)
  {
    if i == 0 then TextOf(body, "photographerId").Some? && IsObjectIdText(TextOf(body, "photographerId").value)
    else if i == 1 then
      && Lookup(body, "eventDate").Some? && DateOf(env, Lookup(body, "eventDate").value).Some?
      && DateOf(env, Lookup(body, "eventDate").value).value >= env.now
    else if i == 2 then TextOf(body, "startTime").Some? && TimeOfDay.ValidTime(TextOf(body, "startTime").value)
    else if i == 3 then TextOf(body, "endTime").Some? && TimeOfDay.ValidTime(TextOf(body, "endTime").value)
    else if i == 4 then TextOf(body, "eventType").Some? && TextOf(body, "eventType").value in EventTypes
    else if i == 5 then TextOf(body, "location").Some? && TextOf(body, "location").value != ""
    else if i == 6 then Lookup(body, "latitude").Some? ==> Lookup(body, "latitude").value.Num?
    else if i == 7 then Lookup(body, "longitude").Some? ==> Lookup(body, "longitude").value.Num?
    else if i == 8 then OptionalText(body, "package", Packages)
    else Lookup(body, "notes").Some? ==> Lookup(body, "notes").value.Str?
  }

  lemma CreateKeyOkIff(env: Env, body: Body, i: nat)
    requires i < |CreateBookingSchema|
    ensures CreateKeyOk(env, body, i) <==> CreateFieldOk(env, body, i)
  {
    var spec := CreateBookingSchema[i];
    if i == 0 {
      assert spec == KeySpec("photographerId", true, HexId, [("string.length", "Invalid Photographer ID")]);
    } else if i == 1 {
      assert spec == KeySpec("eventDate", true, Date(true), [("date.min", "Event date cannot be in the past")]);
    } else if i == 2 {
      assert spec.key == "startTime" && spec.rule == TimeText && spec.required;
    } else if i == 3 {
      assert spec.key == "endTime" && spec.rule == TimeText && spec.required;
    } else if i == 4 {
      assert spec == KeySpec("eventType", true, Text(false, false, None, None, false, false, EventTypes), []);
    } else if i == 5 {
      assert spec == KeySpec("location", true, PlainText(), []);
    } else if i == 6 {
      assert spec == KeySpec("latitude", false, Number(None), []);
    } else if i == 7 {
      assert spec == KeySpec("longitude", false, Number(None), []);
    } else if i == 8 {
      assert spec == KeySpec("package", false, Text(false, false, None, None, false, false, Packages), []);
    } else {
      assert spec == KeySpec("notes", false, Text(true, false, None, None, false, false, []), []);
    }
  }

  /** The schema accepts exactly the well-formed create requests: a 24-hex photographer id, a date
      not before now, two times matching the pattern (in no particular order), an event type and
      package from their lists, a non-empty location, and nothing else. */
  lemma CreateBookingSchemaIff(env: Env, body: Body)
    ensures Accepts(env, CreateBookingSchema, body) <==> WellFormedCreateRequest(env, body)
  {
    if Accepts(env, CreateBookingSchema, body) {
      AcceptedIsWellFormed(env, body);
    }
    if WellFormedCreateRequest(env, body) {
      WellFormedIsAccepted(env, body);
    }
  }

  lemma AcceptedIsWellFormed(env: Env, body: Body)
    requires Accepts(env, CreateBookingSchema, body)
    ensures WellFormedCreateRequest(env, body)
  {
    CreateBookingKeys();
    CreateKeysIffFields(env, body);
    assert forall i :: 0 <= i < |CreateBookingSchema| ==> CreateKeyOk(env, body, i);
  }

  lemma WellFormedIsAccepted(env: Env, body: Body)
    requires WellFormedCreateRequest(env, body)
    ensures Accepts(env, CreateBookingSchema, body)
  {
    CreateBookingKeys();
    CreateKeysIffFields(env, body);
    var s := CreateBookingSchema;
    forall i | 0 <= i < |s| ensures KeyAccepted(env, s[i], Lookup(body, s[i].key)) {
      assert CreateKeyOk(env, body, i);
    }
    forall i | 0 <= i < |body| ensures body[i].0 in Keys(s) {
      assert body[i].0 in CreateKeyNames;
    }
  }

  lemma CreateKeysIffFields(env: Env, body: Body)
    ensures (forall i :: 0 <= i < |CreateBookingSchema| ==> CreateKeyOk(env, body, i))
        <==> (forall i: nat :: i < 10 ==> CreateFieldOk(env, body, i))
  {
    assert |CreateBookingSchema| == 10;
    forall i: nat | i < 10 ensures CreateKeyOk(env, body, i) <==> CreateFieldOk(env, body, i) {
      CreateKeyOkIff(env, body, i);
    }
  }

  /** The schema relates the two times in no way: a request from 18:00 to 09:00 of the same day passes. */
  lemma ReversedTimesAccepted(env: Env, body: Body)
    requires WellFormedCreateRequest(env, body)
    requires TextOf(body, "startTime") == Some("18:00") && TextOf(body, "endTime") == Some("09:00")
    ensures Accepts(env, CreateBookingSchema, body)
    ensures TimeOfDay.Less(TextOf(body, "endTime").value, TextOf(body, "startTime").value)
  {
    CreateBookingSchemaIff(env, body);
  }

  /** An event date before the validation clock is rejected with the schema's custom message. */
  lemma PastDateRejected(env: Env, body: Body)
    requires Lookup(body, "eventDate").Some? && DateOf(env, Lookup(body, "eventDate").value).Some?
    requires DateOf(env, Lookup(body, "eventDate").value).value < env.now
    ensures !Accepts(env, CreateBookingSchema, body)
  {
    CreateBookingSchemaIff(env, body);
    assert !CreateFieldOk(env, body, 1);
  }

  /** The status schema accepts exactly a body `{ status }` naming one of the six booking statuses. */
  lemma StatusSchemaIff(env: Env, v: Value)
    ensures Accepts(env, UpdateBookingStatusSchema, [("status", v)]) <==> v.Str? && BookingModel.ParseStatus(v.s).Some?
  {
    var s := UpdateBookingStatusSchema;
    assert Keys(s) == {"status"} by { assert s[0].key == "status"; }
    assert Lookup([("status", v)], "status") == Some(v);
    if v.Str? {
      BookingModel.StatusNamesRoundTrip(BookingModel.Pending, v.s);
    }
  }

  /** The assignment schema accepts exactly a body `{ photographerId }` holding a 24-hex id. */
  lemma AssignSchemaIff(env: Env, v: Value)
    ensures Accepts(env, AssignPhotographerSchema, [("photographerId", v)]) <==> v.Str? && IsObjectIdText(v.s)
  {
    var s := AssignPhotographerSchema;
    assert Keys(s) == {"photographerId"} by { assert s[0].key == "photographerId"; }
    assert Lookup([("photographerId", v)], "photographerId") == Some(v);
  }

  /** The fields an accepted create request is guaranteed to carry, in the shape the controller reads them. */
  lemma AcceptedFields(env: Env, body: Body)
    requires Accepts(env, CreateBookingSchema, body)
    ensures TextOf(body, "photographerId").Some? && IsObjectIdText(TextOf(body, "photographerId").value)
    ensures Lookup(body, "eventDate").Some? && DateOf(env, Lookup(body, "eventDate").value).Some?
    ensures DateOf(env, Lookup(body, "eventDate").value).value >= env.now
    ensures TextOf(body, "startTime").Some? && TimeOfDay.ValidTime(TextOf(body, "startTime").value)
    ensures TextOf(body, "endTime").Some? && TimeOfDay.ValidTime(TextOf(body, "endTime").value)
    ensures TextOf(body, "eventType").Some? && TextOf(body, "eventType").value in EventTypes
    ensures TextOf(body, "location").Some? && TextOf(body, "location").value != ""
    ensures TextOf(body, "package").Some? ==> TextOf(body, "package").value in Packages
    ensures Lookup(body, "package").Some? ==> TextOf(body, "package").Some?
    ensures Lookup(body, "notes").Some? ==> TextOf(body, "notes").Some?
  {
    CreateBookingSchemaIff(env, body);
    assert CreateFieldOk(env, body, 0) && CreateFieldOk(env, body, 1) && CreateFieldOk(env, body, 2);
    assert CreateFieldOk(env, body, 3) && CreateFieldOk(env, body, 4) && CreateFieldOk(env, body, 5);
    assert CreateFieldOk(env, body, 8) && CreateFieldOk(env, body, 9);
  }

  /** The validated fields of a create request, as the controller destructures `value`. */
  datatype CreateRequest = CreateRequest(
    photographerId: string, eventDate: int, startTime: string, endTime: string,
    eventType: string, location: string, package: Option<string>, notes: Option<string>)

  /** Each field of `q` is the value the body holds under its key; the optional fields are absent
      exactly when their keys are. */
  predicate Carries(env: Env, body: Body, q: CreateRequest)
  {
    && Lookup(body, "photographerId") == Some(Str(q.photographerId))
    && Lookup(body, "eventDate").Some?
    && DateOf(env, Lookup(body, "eventDate").value) == Some(q.eventDate)
    && Lookup(body, "startTime") == Some(Str(q.startTime))
    && Lookup(body, "endTime") == Some(Str(q.endTime))
    && Lookup(body, "eventType") == Some(Str(q.eventType))
    && Lookup(body, "location") == Some(Str(q.location))
    && (q.package.None? <==> Lookup(body, "package").None?)
    && (q.package.Some? ==> Lookup(body, "package") == Some(Str(q.package.value)))
    && (q.notes.None? <==> Lookup(body, "notes").None?)
    && (q.notes.Some? ==> Lookup(body, "notes") == Some(Str(q.notes.value)))
  }

  /** The fields of an accepted body, as the controller destructures `value`. */
  function RequestOf(env: Env, body: Body): (q: CreateRequest)
    requires Accepts(env, CreateBookingSchema, body)
    ensures Carries(env, body, q)
    ensures && IsObjectIdText(q.photographerId)
            && q.eventDate >= env.now
            && TimeOfDay.ValidTime(q.startTime)
            && TimeOfDay.ValidTime(q.endTime)
            && q.eventType in EventTypes
            && q.location != ""
            && (q.package.Some? ==> q.package.value in Packages)
  {
    AcceptedFields(env, body);
    CreateRequest(
      TextOf(body, "photographerId").value,
      DateOf(env, Lookup(body, "eventDate").value).value,
      TextOf(body, "startTime").value,
      TextOf(body, "endTime").value,
      TextOf(body, "eventType").value,
      TextOf(body, "location").value,
      TextOf(body, "package"),
      TextOf(body, "notes"))
  }

  /** `createBookingValidationSchema.validate(req.body)`: the first failure's message, or the validated fields. */
  function ValidateCreateBooking(env: Env, body: Body): (r: Result<CreateRequest, string>)
    ensures r.Failure? <==> !Accepts(env, CreateBookingSchema, body)
    ensures r.Failure? ==> (FirstViolation(env, CreateBookingSchema, body).Some? &&
                            r.error == FirstViolation(env, CreateBookingSchema, body).value.message)
    ensures r.Success? ==> (&& IsObjectIdText(r.value.photographerId)
                            && r.value.eventDate >= env.now
                            && TimeOfDay.ValidTime(r.value.startTime)
                            && TimeOfDay.ValidTime(r.value.endTime)
                            && r.value.eventType in EventTypes
                            && r.value.location != ""
                            && (r.value.package.Some? ==> r.value.package.value in Packages))
    ensures r.Success? ==> Carries(env, body, r.value)
  {
    match FirstViolation(env, CreateBookingSchema, body)
    case Some(v) => Failure(v.message)
    case None => Success(RequestOf(env, body))
  }
}
