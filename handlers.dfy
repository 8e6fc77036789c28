/** The decision rules of the `login`, `put_observation`,
    `patch_observation` and `delete_observation` handlers of `routes.py`.
    The observation table is a map from id to row held by a store object;
    the schema's validation of a request body enters as its outcome. */
module Handlers {
  import opened Wrappers
  import opened Calendar
  import opened Models
  import opened Http
  import opened Utils
  import Auth
  import Filters

  // ---------------------------------------------------------------------
  // Login

  /** The user name and password of an HTTP Basic `Authorization` header. */
  datatype Credentials = Credentials(username: string, password: string)

  const DemoUser := "DEMO_USERNAME"
  const DemoPassword := "DEMO_PASSWORD"

  const MissingCredentials := Response(401, Message("Missing credentials"))
  const InvalidCredentials := Response(401, Message("Invalid credentials"))

  /** `login`: the settings are read from `config` one at a time and only when
      needed (a setting that is absent is a `KeyError`); the token is
      whatever `encode` makes of the user name and the secret key. */
  function Login(auth: Option<Credentials>, config: map<string, string>,
                 encode: (string, string) -> string): (r: Response)
    ensures r == MissingCredentials <==> auth.None?
    ensures r.status == 200 <==>
              && auth.Some? && DemoUser in config && DemoPassword in config && Auth.SecretKey in config
              && auth.value.username == config[DemoUser] && auth.value.password == config[DemoPassword]
    ensures r.status == 200 ==> r.body == TokenIssued(encode(auth.value.username, config[Auth.SecretKey]))
    ensures r == InvalidCredentials <==>
              && auth.Some? && DemoUser in config
              && (auth.value.username != config[DemoUser]
                  || (DemoPassword in config && auth.value.password != config[DemoPassword]))
    ensures r == ServerError(KeyError) <==>
              && auth.Some?
              && (|| DemoUser !in config
                  || (&& auth.value.username == config[DemoUser]
                      && (|| DemoPassword !in config
                          || (auth.value.password == config[DemoPassword] && Auth.SecretKey !in config))))
    ensures r.status in {200, 401} || r == ServerError(KeyError)
  {
    match auth
    case None => MissingCredentials
    case Some(c) =>
      if DemoUser !in config then ServerError(KeyError)
      else if c.username != config[DemoUser] then InvalidCredentials
      else if DemoPassword !in config then ServerError(KeyError)
      else if c.password != config[DemoPassword] then InvalidCredentials
      else if Auth.SecretKey !in config then ServerError(KeyError)
      else Response(200, TokenIssued(encode(c.username, config[Auth.SecretKey])))
  }

  /** A wrong user name is refused before the password setting is even
      looked up. */
  lemma WrongUserNeedsNoPassword(c: Credentials, config: map<string, string>,
                                 encode: (string, string) -> string)
    requires DemoUser in config && c.username != config[DemoUser]
    ensures Login(Some(c), config, encode) == InvalidCredentials
    ensures Login(Some(c), config - {DemoPassword, Auth.SecretKey}, encode) == InvalidCredentials
  {
  }

  // ---------------------------------------------------------------------
  // Python's `in` on a request body

  /** The left operands of `in` that the handlers use: a string, such as
      the key `"id"`, or a builtin function, such as `id`. Both are
      hashable, and neither equals a JSON value of another kind. */
  datatype PyValue = PyString(s: string) | BuiltinFunction(name: string)

  /** `x in body` for a parsed JSON body: a key test on an object, a member
      test on an array, a substring test on a string (which wants a string
      on the left); any other body is not a container. */
  function Contains(x: PyValue, body: Json): (r: Result<bool, Exception>)
    ensures r.Ok? <==> body.JObject? || body.JArray? || (body.JString? && x.PyString?)
    ensures r.Err? ==> r.error == TypeError
    ensures r == Ok(true) <==>
              || (body.JObject? && x.PyString? && x.s in body.fields)
              || (body.JArray? && x.PyString? && JString(x.s) in body.items)
              || (body.JString? && x.PyString? && Text.Occurs(x.s, body.s))
  {
    match body
    case JObject(fields) => Ok(x.PyString? && x.s in fields)
    case JArray(items) => Ok(x.PyString? && JString(x.s) in items)
    case JString(s) =>
      if x.PyString? then Ok(Text.Occurs(x.s, s)) else Err(TypeError)
    case _ => Err(TypeError)
  }

  /** The test `id in data` as `routes.py` writes it: the left operand is the
      builtin function `id`. */
  const BuiltinId := BuiltinFunction("id")

  /** `data["id"] != observation_id` on a body that has the key. */
  predicate BodyIdDiffers(data: Json, observationId: int)
  {
    data.JObject? && "id" in data.fields && data.fields["id"] != JNumber(observationId)
  }

  /** As written, the body-id check never fires: `id` is never a key of an
      object nor an element of an array, and any other body raises. */
  lemma BuiltinIdNeverFound(data: Json)
    ensures Contains(BuiltinId, data) != Ok(true)
    ensures Contains(BuiltinId, data) == Ok(false) <==> data.JObject? || data.JArray?
  {
  }

  /** The check the handler evidently intends: the body names an id other
      than the one in the URL. */
  predicate IntendedIdMismatch(data: Json, observationId: int)
  {
    Contains(PyString("id"), data) == Ok(true) && BodyIdDiffers(data, observationId)
  }

  /** The intended check refuses exactly the object bodies whose `id`
      differs from the URL's, where the written one lets every one through. */
  lemma IntendedIdCheck(data: Json, observationId: int)
    requires data.JObject?
    ensures IntendedIdMismatch(data, observationId)
        <==> "id" in data.fields && data.fields["id"] != JNumber(observationId)
    ensures !(Contains(BuiltinId, data) == Ok(true) && BodyIdDiffers(data, observationId))
  {
  }

  // ---------------------------------------------------------------------
  // The store and its update rules

  /** What `ObservationSchema().load(data, instance=observation)` yields: the
      updated row, or the messages of its `ValidationError`. */
  datatype LoadOutcome = Loaded(row: Observation) | Invalid(messages: string)

  /** The schema only yields rows with a real date and time. */
  predicate LoadWellFormed(load: LoadOutcome)
  {
    load.Loaded? ==> WellFormed(load.row)
  }

  /** The schema loads only a JSON object: without `many=True`, any other
      input is refused as an invalid input type. */
  predicate LoadFitsBody(data: Json, load: LoadOutcome)
  {
    load.Loaded? ==> data.JObject?
  }

  /** Every row is well formed and is stored under its own id. */
  predicate RowsValid(rows: map<int, Observation>)
  {
    forall id | id in rows :: WellFormed(rows[id]) && rows[id].id == id
  }

  /** The loaded row as it is committed: it stays under the URL's id. */
  function Stored(row: Observation, observationId: int): (s: Observation)
    ensures s.id == observationId
  {
    row.(id := observationId)
  }

  const NotFound := Response(404, Error("Observation not found"))
  const OtherQuarter := Response(400, Error("Can only edit observations in this quarter"))
  const EmptyPatch := Response(400, Error("At least one property is required"))
  const IdMismatch := Response(400, Error("ID in request body does not match URL"))

  /** A response and the table after it. */
  datatype Outcome = Outcome(response: Response, rows: map<int, Observation>)

  /** The common tail of PUT and PATCH once the row is found and editable:
      the body-id check, the schema's load and the commit. */
  function UpdateOutcome(rows: map<int, Observation>, observationId: int, data: Json,
                         load: LoadOutcome): (o: Outcome)
    requires observationId in rows
    ensures o.response.status != 200 ==> o.rows == rows
    ensures o.response.status == 200 <==> (data.JObject? || data.JArray?) && load.Loaded?
    ensures o.response.status == 200 ==>
              && o.rows == rows[observationId := Stored(load.row, observationId)]
              && o.response.body == Record(Stored(load.row, observationId))
    ensures !(data.JObject? || data.JArray?) ==> o.response == ServerError(TypeError)
    ensures (data.JObject? || data.JArray?) && load.Invalid? ==>
              o == Outcome(Response(400, ValidationMessages(load.messages)), rows)
  {
    BuiltinIdNeverFound(data);
    match Contains(BuiltinId, data)
    case Err(e) => Outcome(ServerError(e), rows)
    case Ok(present) =>
      if present && BodyIdDiffers(data, observationId) then Outcome(IdMismatch, rows)
      else
        match load
        case Invalid(messages) => Outcome(Response(400, ValidationMessages(messages)), rows)
        case Loaded(row) =>
          var stored := Stored(row, observationId);
          Outcome(Response(200, Record(stored)), rows[observationId := stored])
  }

  /** `put_observation`: unknown id, then the quarter lock (evaluated with
      the base date), then the body. */
  function PutOutcome(rows: map<int, Observation>, baseDate: Date, observationId: int,
                      data: Json, load: LoadOutcome): (o: Outcome)
    requires RowsValid(rows) && ValidDate(baseDate)
    ensures observationId !in rows ==> o == Outcome(NotFound, rows)
    ensures o.response.status != 200 ==> o.rows == rows
    ensures o.response.status == 200 <==>
              && observationId in rows && IsSameQuarter(rows[observationId], baseDate) == Ok(true)
              && (data.JObject? || data.JArray?) && load.Loaded?
    ensures o.response.status == 200 ==> o.rows == rows[observationId := Stored(load.row, observationId)]
    ensures observationId in rows && IsSameQuarter(rows[observationId], baseDate) == Ok(true) ==>
              && (!(data.JObject? || data.JArray?) ==> o == Outcome(ServerError(TypeError), rows))
              && ((data.JObject? || data.JArray?) && load.Invalid? ==>
                    o == Outcome(Response(400, ValidationMessages(load.messages)), rows))
  {
    if observationId !in rows then Outcome(NotFound, rows)
    else
      match IsSameQuarter(rows[observationId], baseDate)
      case Err(e) => Outcome(ServerError(e), rows)
      case Ok(same) =>
        if !same then Outcome(OtherQuarter, rows)
        else UpdateOutcome(rows, observationId, data, load)
  }

  /** `patch_observation`: as PUT, with an empty (falsy) body refused after
      the quarter lock and before the body-id check. */
  function PatchOutcome(rows: map<int, Observation>, baseDate: Date, observationId: int,
                        data: Json, load: LoadOutcome): (o: Outcome)
    requires RowsValid(rows) && ValidDate(baseDate)
    ensures observationId !in rows ==> o == Outcome(NotFound, rows)
    ensures o.response.status != 200 ==> o.rows == rows
    ensures o.response.status == 200 <==>
              && observationId in rows && IsSameQuarter(rows[observationId], baseDate) == Ok(true)
              && Truthy(data) && (data.JObject? || data.JArray?) && load.Loaded?
    ensures o.response.status == 200 ==> o.rows == rows[observationId := Stored(load.row, observationId)]
    ensures && observationId in rows && IsSameQuarter(rows[observationId], baseDate) == Ok(true)
            && Truthy(data) && (data.JObject? || data.JArray?) && load.Invalid? ==>
              o == Outcome(Response(400, ValidationMessages(load.messages)), rows)
  {
    if observationId !in rows then Outcome(NotFound, rows)
    else
      match IsSameQuarter(rows[observationId], baseDate)
      case Err(e) => Outcome(ServerError(e), rows)
      case Ok(same) =>
        if !same then Outcome(OtherQuarter, rows)
        else if !Truthy(data) then Outcome(EmptyPatch, rows)
        else UpdateOutcome(rows, observationId, data, load)
  }

  /** `delete_observation`: unknown id, or the row is removed. */
  function DeleteOutcome(rows: map<int, Observation>, observationId: int): (o: Outcome)
    ensures observationId !in rows ==> o == Outcome(NotFound, rows)
    ensures observationId in rows ==> o.response == Response(204, Empty)
    ensures observationId !in o.rows
    ensures forall k | k in rows && k != observationId :: k in o.rows && o.rows[k] == rows[k]
    ensures forall k | k in o.rows :: k in rows
  {
    if observationId !in rows then Outcome(NotFound, rows)
    else Outcome(Response(204, Empty), rows - {observationId})
  }

  /** The table of observations, and the base date that the quarter lock
      compares with. `base_date` is a default argument of `is_same_quarter`,
      so it is the moment the module was loaded and does not move after. */
  class ObservationStore {
    var rows: map<int, Observation>
    const baseDate: Date

    ghost predicate Valid()
      reads this
    {
      RowsValid(rows) && ValidDate(baseDate)
    }

    constructor (initial: map<int, Observation>, loadedAt: Date)
      requires RowsValid(initial) && ValidDate(loadedAt)
      ensures Valid()
      ensures rows == initial && baseDate == loadedAt
    {
      rows := initial;
      baseDate := loadedAt;
    }

    /** The body-id check, the load and the commit, shared by PUT and PATCH. */
    method Update(observationId: int, data: Json, load: LoadOutcome) returns (r: Response)
      requires Valid() && LoadWellFormed(load) && LoadFitsBody(data, load) && observationId in rows
      modifies this
      ensures Valid()
      ensures Outcome(r, rows) == UpdateOutcome(old(rows), observationId, data, load)
    {
      var present := Contains(BuiltinId, data);
      if present.Err? {
        return ServerError(present.error);
      }
      if present.value && BodyIdDiffers(data, observationId) {
        return IdMismatch;
      }
      if load.Invalid? {
        return Response(400, ValidationMessages(load.messages));
      }
      var stored := Stored(load.row, observationId);
      rows := rows[observationId := stored];
      r := Response(200, Record(stored));
    }

    /** `put_observation(observation_id)` with request body `data`. */
    method Put(observationId: int, data: Json, load: LoadOutcome) returns (r: Response)
      requires Valid() && LoadWellFormed(load) && LoadFitsBody(data, load)
      modifies this
      ensures Valid()
      ensures Outcome(r, rows) == PutOutcome(old(rows), baseDate, observationId, data, load)
    {
      if observationId !in rows {
        return NotFound;
      }
      var same := IsSameQuarter(rows[observationId], baseDate);
      if same.Err? {
        return ServerError(same.error);
      }
      if !same.value {
        return OtherQuarter;
      }
      r := Update(observationId, data, load);
    }

    /** `patch_observation(observation_id)` with request body `data`. */
    method Patch(observationId: int, data: Json, load: LoadOutcome) returns (r: Response)
      requires Valid() && LoadWellFormed(load) && LoadFitsBody(data, load)
      modifies this
      ensures Valid()
      ensures Outcome(r, rows) == PatchOutcome(old(rows), baseDate, observationId, data, load)
    {
      if observationId !in rows {
        return NotFound;
      }
      var same := IsSameQuarter(rows[observationId], baseDate);
      if same.Err? {
        return ServerError(same.error);
      }
      if !same.value {
        return OtherQuarter;
      }
      if !Truthy(data) {
        return EmptyPatch;
      }
      r := Update(observationId, data, load);
    }

    /** `put_observation` behind `token_required`: a refused request gets the
        guard's refusal and the handler does not run, so nothing is
        committed. */
    method GuardedPut(header: Option<string>, config: map<string, string>,
                      decode: (string, string) -> Auth.DecodeOutcome,
                      observationId: int, data: Json, load: LoadOutcome) returns (r: Response)
      requires Valid() && LoadWellFormed(load) && LoadFitsBody(data, load)
      modifies this
      ensures Valid()
      ensures Auth.Guard(header, config, decode).Some? ==>
                r == Auth.Guard(header, config, decode).value && rows == old(rows)
      ensures Auth.Guard(header, config, decode).None? ==>
                Outcome(r, rows) == PutOutcome(old(rows), baseDate, observationId, data, load)
    {
      var refusal := Auth.Guard(header, config, decode);
      if refusal.Some? {
        return refusal.value;
      }
      r := Put(observationId, data, load);
    }

    /** `patch_observation` behind `token_required`. */
    method GuardedPatch(header: Option<string>, config: map<string, string>,
                        decode: (string, string) -> Auth.DecodeOutcome,
                        observationId: int, data: Json, load: LoadOutcome) returns (r: Response)
      requires Valid() && LoadWellFormed(load) && LoadFitsBody(data, load)
      modifies this
      ensures Valid()
      ensures Auth.Guard(header, config, decode).Some? ==>
                r == Auth.Guard(header, config, decode).value && rows == old(rows)
      ensures Auth.Guard(header, config, decode).None? ==>
                Outcome(r, rows) == PatchOutcome(old(rows), baseDate, observationId, data, load)
    {
      var refusal := Auth.Guard(header, config, decode);
      if refusal.Some? {
        return refusal.value;
      }
      r := Patch(observationId, data, load);
    }

    /** `delete_observation` behind `token_required`. */
    method GuardedDelete(header: Option<string>, config: map<string, string>,
                         decode: (string, string) -> Auth.DecodeOutcome,
                         observationId: int) returns (r: Response)
      requires Valid()
      modifies this
      ensures Valid()
      ensures Auth.Guard(header, config, decode).Some? ==>
                r == Auth.Guard(header, config, decode).value && rows == old(rows)
      ensures Auth.Guard(header, config, decode).None? ==>
                Outcome(r, rows) == DeleteOutcome(old(rows), observationId)
    {
      var refusal := Auth.Guard(header, config, decode);
      if refusal.Some? {
        return refusal.value;
      }
      r := Delete(observationId);
    }

    /** `delete_observation(observation_id)`. */
    method Delete(observationId: int) returns (r: Response)
      requires Valid()
      modifies this
      ensures Valid()
      ensures Outcome(r, rows) == DeleteOutcome(old(rows), observationId)
    {
      if observationId !in rows {
        return NotFound;
      }
      rows := rows - {observationId};
      r := Response(204, Empty);
    }
  }

  // ---------------------------------------------------------------------
  // Properties of the update rules

  /** An update keeps every row well formed and under its own id. */
  lemma UpdateKeepsRowsValid(rows: map<int, Observation>, baseDate: Date, observationId: int,
                             data: Json, load: LoadOutcome)
    requires RowsValid(rows) && ValidDate(baseDate) && LoadWellFormed(load)
    ensures RowsValid(PutOutcome(rows, baseDate, observationId, data, load).rows)
    ensures RowsValid(PatchOutcome(rows, baseDate, observationId, data, load).rows)
    ensures RowsValid(DeleteOutcome(rows, observationId).rows)
  {
  }

  /** PUT and PATCH change at most the row they name; no row appears or
      disappears. */
  lemma UpdateTouchesOnlyItsRow(rows: map<int, Observation>, baseDate: Date, observationId: int,
                                data: Json, load: LoadOutcome)
    requires RowsValid(rows) && ValidDate(baseDate)
    ensures var o := PutOutcome(rows, baseDate, observationId, data, load);
      o.rows.Keys == rows.Keys && forall k | k in rows && k != observationId :: o.rows[k] == rows[k]
    ensures var o := PatchOutcome(rows, baseDate, observationId, data, load);
      o.rows.Keys == rows.Keys && forall k | k in rows && k != observationId :: o.rows[k] == rows[k]
  {
  }

  /** The quarter lock is applied before the body is read: a row outside
      the base date's quarter is refused whatever the body and its load. */
  lemma QuarterLockBeforeBody(rows: map<int, Observation>, baseDate: Date, observationId: int,
                              data: Json, load: LoadOutcome)
    requires RowsValid(rows) && ValidDate(baseDate)
    requires observationId in rows && IsSameQuarter(rows[observationId], baseDate) == Ok(false)
    ensures PutOutcome(rows, baseDate, observationId, data, load) == Outcome(OtherQuarter, rows)
    ensures PatchOutcome(rows, baseDate, observationId, data, load) == Outcome(OtherQuarter, rows)
  {
  }

  /** A quarter lock that cannot be evaluated is a server error, and nothing
      is committed. */
  lemma QuarterLockFailure(rows: map<int, Observation>, baseDate: Date, observationId: int,
                           data: Json, load: LoadOutcome)
    requires RowsValid(rows) && ValidDate(baseDate)
    requires observationId in rows && IsSameQuarter(rows[observationId], baseDate).Err?
    ensures var e := IsSameQuarter(rows[observationId], baseDate).error;
      && PutOutcome(rows, baseDate, observationId, data, load) == Outcome(ServerError(e), rows)
      && PatchOutcome(rows, baseDate, observationId, data, load) == Outcome(ServerError(e), rows)
  {
  }

  /** An editable row with an empty PATCH body is refused before the body
      is validated. */
  lemma EmptyPatchRefused(rows: map<int, Observation>, baseDate: Date, observationId: int,
                          data: Json, load: LoadOutcome)
    requires RowsValid(rows) && ValidDate(baseDate)
    requires observationId in rows && IsSameQuarter(rows[observationId], baseDate) == Ok(true)
    requires !Truthy(data)
    ensures PatchOutcome(rows, baseDate, observationId, data, load) == Outcome(EmptyPatch, rows)
  {
  }

  /** A body that is a non-empty string, a non-zero number or `true` gets
      past the empty-body check and then fails the `in` test. */
  lemma ScalarPatchFails(rows: map<int, Observation>, baseDate: Date, observationId: int,
                         data: Json, load: LoadOutcome)
    requires RowsValid(rows) && ValidDate(baseDate)
    requires observationId in rows && IsSameQuarter(rows[observationId], baseDate) == Ok(true)
    requires Truthy(data) && !data.JObject? && !data.JArray?
    ensures PatchOutcome(rows, baseDate, observationId, data, load) == Outcome(ServerError(TypeError), rows)
  {
  }

  /** An array body gets past the `in` test but never loads: an editable
      row answers 400 with the schema's messages, and nothing is
      committed. */
  lemma ArrayBodyRefused(rows: map<int, Observation>, baseDate: Date, observationId: int,
                         data: Json, load: LoadOutcome)
    requires RowsValid(rows) && ValidDate(baseDate) && LoadFitsBody(data, load)
    requires observationId in rows && IsSameQuarter(rows[observationId], baseDate) == Ok(true)
    requires data.JArray?
    ensures load.Invalid?
    ensures PutOutcome(rows, baseDate, observationId, data, load)
         == Outcome(Response(400, ValidationMessages(load.messages)), rows)
    ensures Truthy(data) ==>
              PatchOutcome(rows, baseDate, observationId, data, load)
                == Outcome(Response(400, ValidationMessages(load.messages)), rows)
  {
  }

  /** PATCH and PUT agree whenever the body is not empty. */
  lemma PatchIsPutOnNonEmptyBody(rows: map<int, Observation>, baseDate: Date, observationId: int,
                                 data: Json, load: LoadOutcome)
    requires RowsValid(rows) && ValidDate(baseDate) && Truthy(data)
    ensures PatchOutcome(rows, baseDate, observationId, data, load)
         == PutOutcome(rows, baseDate, observationId, data, load)
  {
  }

  /** Deleting a row and then asking for it again finds nothing, and the
      second delete changes nothing. */
  lemma DeleteThenDelete(rows: map<int, Observation>, observationId: int)
    ensures var once := DeleteOutcome(rows, observationId);
      DeleteOutcome(once.rows, observationId) == Outcome(NotFound, once.rows)
  {
  }

  /** After a DELETE, a listing of a table that holds the remaining rows
      never shows the deleted id, and still shows every other row within
      the query's bounds. */
  lemma DeletedNotListed(rows: map<int, Observation>, observationId: int,
                         table: seq<Observation>, q: Filters.Query)
    requires RowsValid(rows)
    requires forall o :: o in table <==>
               o.id in DeleteOutcome(rows, observationId).rows && DeleteOutcome(rows, observationId).rows[o.id] == o
    requires Filters.ListObservations(table, q).status == 200
    ensures forall o | o in Filters.ListObservations(table, q).body.data :: o.id != observationId
    ensures forall k | k in rows && k != observationId && Filters.WithinBounds(q, rows[k]) ::
              rows[k] in Filters.ListObservations(table, q).body.data
  {
    var remaining := DeleteOutcome(rows, observationId).rows;
    forall o | o in Filters.ListObservations(table, q).body.data
      ensures o.id != observationId
    {
      Filters.ListingWithinBounds(table, q, o);
      assert o in table;
    }
    forall k | k in rows && k != observationId && Filters.WithinBounds(q, rows[k])
      ensures rows[k] in Filters.ListObservations(table, q).body.data
    {
      Filters.ListingWithinBounds(table, q, rows[k]);
      assert rows[k].id == k && remaining[k] == rows[k];
    }
  }
}
