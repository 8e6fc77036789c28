/** The filtered listing `GET /observations` of `routes.py`: the query
    arguments become a conjunction of inclusive bounds on the observation
    table, and the matching rows are returned with their count. */
module Filters {
  import opened Wrappers
  import opened Calendar
  import opened Models
  import opened Http

  // ---------------------------------------------------------------------
  // Query arguments

  /** The query arguments as the handler reads them. Latitude and longitude
      are converted with `type=float` and the numeric bounds with
      `type=int`; an argument that does not convert reads as absent, so
      `numeric` holds the converted numeric arguments by name. */
  datatype Query = Query(
    dateFrom: Option<string>,
    dateTo: Option<string>,
    minLatitude: Option<real>,
    maxLatitude: Option<real>,
    minLongitude: Option<real>,
    maxLongitude: Option<real>,
    numeric: map<string, int>)

  const NoArguments: Query := Query(None, None, None, None, None, None, map[])

  /** The fields that get a `min_`/`max_` pair, in the order of the
      handler's `filters` dictionary. */
  const NumericFields: seq<string> :=
    ["water_temp", "air_temp", "wind_speed", "humidity", "haze_percent", "precipitation_mm", "radiation_bq"]

  /** The number of keys of the `filters` dictionary: a `min_` and a
      `max_` key for each numeric field. */
  const KeyCount := 2 * |NumericFields|

  /** The `i`-th key of the `filters` dictionary: `min_<field>` then
      `max_<field>` for each numeric field in turn. */
  function NumericKey(i: nat): (key: string)
    requires i < KeyCount
  {
    (if i % 2 == 0 then "min_" else "max_") + NumericFields[i / 2]
  }

  /** The `i`-th key is its operator, a separator, and its field. */
  lemma NumericKeyShape(i: nat)
    requires i < KeyCount
    ensures NumericKey(i) == (if i % 2 == 0 then "min" else "max") + ['_'] + NumericFields[i / 2]
  {
    assert "min_" == "min" + ['_'] && "max_" == "max" + ['_'];
  }

  /** The keys of the `filters` dictionary, in its order. */
  function NumericKeys(): (keys: seq<string>)
    ensures |keys| == KeyCount && forall i :: 0 <= i < KeyCount ==> keys[i] == NumericKey(i)
  {
    seq(KeyCount, i requires 0 <= i < KeyCount => NumericKey(i))
  }

  // ---------------------------------------------------------------------
  // Columns and filters

  /** The numeric columns of the `observation` table. */
  datatype Column =
    | Id | Latitude | Longitude | WaterTemp | AirTemp | WindSpeed | WindDirection
    | Humidity | HazePercent | PrecipitationMm | RadiationBq | Device

  /** `getattr(Observation, name)` for the column attributes. Attributes
      that are not columns are not modelled; no key reaches them. */
  function ColumnOf(name: string): (c: Option<Column>)
    ensures c.Some? ==> name != "min" && name != "max"
  {
    match name
    case "id" => Some(Id)
    case "latitude" => Some(Latitude)
    case "longitude" => Some(Longitude)
    case "water_temp" => Some(WaterTemp)
    case "air_temp" => Some(AirTemp)
    case "wind_speed" => Some(WindSpeed)
    case "wind_direction" => Some(WindDirection)
    case "humidity" => Some(Humidity)
    case "haze_percent" => Some(HazePercent)
    case "precipitation_mm" => Some(PrecipitationMm)
    case "radiation_bq" => Some(RadiationBq)
    case "device" => Some(Device)
    case _ => None
  }

  function ColumnValue(o: Observation, c: Column): real
  {
    match c
    case Id => o.id as real
    case Latitude => o.latitude
    case Longitude => o.longitude
    case WaterTemp => o.waterTemp as real
    case AirTemp => o.airTemp as real
    case WindSpeed => o.windSpeed as real
    case WindDirection => o.windDirection as real
    case Humidity => o.humidity as real
    case HazePercent => o.hazePercent as real
    case PrecipitationMm => o.precipitationMm as real
    case RadiationBq => o.radiationBq as real
    case Device => o.device as real
  }

  /** One `query.filter(...)`: `date_logged >= text` (or `<=`), or an
      inclusive bound on a numeric column. `lower` is `>=`. */
  datatype Filter =
    | DateBound(lower: bool, text: string)
    | Bound(column: Column, lower: bool, limit: real)

  /** The row satisfies the filter. The database reads a date bound's text
      as an ISO date. */
  predicate Admits(f: Filter, o: Observation)
  {
    match f
    case DateBound(lower, text) =>
      (match ParseIsoDate(text)
       case None => false
       case Some(d) => if lower then DateLeq(d, o.dateLogged) else DateLeq(o.dateLogged, d))
    case Bound(c, lower, limit) =>
      if lower then ColumnValue(o, c) >= limit else ColumnValue(o, c) <= limit
  }

  predicate AdmitsAll(fs: seq<Filter>, o: Observation)
  {
    forall f :: f in fs ==> Admits(f, o)
  }

  /** Every date bound's text reads as a date, so the query can run. */
  predicate DatesRead(fs: seq<Filter>)
  {
    forall f :: f in fs && f.DateBound? ==> ParseIsoDate(f.text).Some?
  }

  /** `query.all()`: the rows that pass every filter, in table order. */
  function Selected(table: seq<Observation>, fs: seq<Filter>): (r: seq<Observation>)
    ensures |r| <= |table|
    ensures forall o :: o in r ==> o in table && AdmitsAll(fs, o)
    ensures forall o :: o in table && AdmitsAll(fs, o) ==> o in r
  {
    if table == [] then []
    else (if AdmitsAll(fs, table[0]) then [table[0]] else []) + Selected(table[1..], fs)
  }

  /** With no filter that refuses a row, every row comes back in order. */
  lemma {:induction false} SelectedEverything(table: seq<Observation>, fs: seq<Filter>)
    requires forall o :: o in table ==> AdmitsAll(fs, o)
    ensures Selected(table, fs) == table
  {
    if table != [] {
      SelectedEverything(table[1..], fs);
    }
  }

  /** More filters select from what fewer filters select: adding bounds
      only narrows the result, and order is kept. */
  lemma {:induction false} SelectedNarrows(table: seq<Observation>, fs: seq<Filter>, gs: seq<Filter>)
    ensures Selected(table, fs + gs) == Selected(Selected(table, fs), gs)
  {
    if table != [] {
      var o, t := table[0], table[1..];
      assert AdmitsAll(fs + gs, o) <==> AdmitsAll(fs, o) && AdmitsAll(gs, o) by {
        assert forall f :: f in fs + gs <==> f in fs || f in gs;
      }
      var rest := Selected(t, fs);
      SelectedNarrows(t, fs, gs);
      var head := if AdmitsAll(fs + gs, o) then [o] else [];
      assert Selected(table, fs + gs) == head + Selected(rest, gs);
      if AdmitsAll(fs, o) {
        var once := [o] + rest;
        assert Selected(table, fs) == once;
        assert once[0] == o && once[1..] == rest;
        assert Selected(once, gs) == (if AdmitsAll(gs, o) then [o] else []) + Selected(rest, gs);
      } else {
        assert Selected(table, fs) == [] + rest == rest;
        assert head == [];
      }
    }
  }

  // ---------------------------------------------------------------------
  // Building the query

  /** The date and coordinate filters, in the order the handler adds them:
      a date bound only for a non-empty text, a coordinate bound for any
      value given. */
  function FixedFilters(q: Query): seq<Filter>
  {
    DateFilter(q.dateFrom, true) + DateFilter(q.dateTo, false)
    + CoordinateFilter(q.minLatitude, Latitude, true)
    + CoordinateFilter(q.maxLatitude, Latitude, false)
    + CoordinateFilter(q.minLongitude, Longitude, true)
    + CoordinateFilter(q.maxLongitude, Longitude, false)
  }

  /** `if date_from:` — a date bound only for a non-empty text. */
  function DateFilter(text: Option<string>, lower: bool): (fs: seq<Filter>)
    ensures forall g :: g in fs <==> text.Some? && text.value != "" && g == DateBound(lower, text.value)
  {
    if text.Some? && text.value != "" then [DateBound(lower, text.value)] else []
  }

  /** `if min_latitude is not None:` — a bound for any value given. */
  function CoordinateFilter(limit: Option<real>, c: Column, lower: bool): (fs: seq<Filter>)
    ensures forall g :: g in fs <==> limit.Some? && g == Bound(c, lower, limit.value)
  {
    if limit.Some? then [Bound(c, lower, limit.value)] else []
  }

  /** `s.split(c)`: the pieces between the separators, empty ones
      included. */
  function Split(s: string, c: char): (parts: seq<string>)
    ensures |parts| >= 1
  {
    if s == [] then [""]
    else if s[0] == c then [""] + Split(s[1..], c)
    else
      var rest := Split(s[1..], c);
      [[s[0]] + rest[0]] + rest[1..]
  }

  /** A string without the separator is one piece. */
  lemma {:induction false} SplitWithout(s: string, c: char)
    requires c !in s
    ensures Split(s, c) == [s]
  {
    if s != [] {
      assert c !in s[1..];
      SplitWithout(s[1..], c);
      assert [s[0]] + s[1..] == s;
    }
  }

  /** A string with the separator has two pieces or more. */
  lemma {:induction false} SplitWith(s: string, c: char)
    requires c in s
    ensures |Split(s, c)| >= 2
  {
    if s[0] != c {
      assert c in s[1..];
      SplitWith(s[1..], c);
    }
  }

  /** The first piece ends at the first separator. */
  lemma {:induction false} SplitAfter(a: string, c: char, b: string)
    requires c !in a
    ensures Split(a + [c] + b, c) == [a] + Split(b, c)
  {
    if a == [] {
      assert a + [c] + b == [c] + b;
      assert ([c] + b)[1..] == b;
    } else {
      var s := a + [c] + b;
      assert s[0] == a[0] && s[1..] == a[1..] + [c] + b;
      assert c !in a[1..];
      SplitAfter(a[1..], c, b);
      assert [a[0]] + a[1..] == a;
    }
  }

  /** One turn of the handler's loop for a supplied `key` and `value`, as
      written: `field_name, op = key.split('_')` wants exactly two pieces
      (`ValueError` otherwise), `getattr` wants a column (`AttributeError`
      otherwise), and an `op` that is neither `min` nor `max` adds
      nothing. */
  function NumericStep(key: string, value: int): (r: Result<seq<Filter>, Exception>)
    ensures r.Err? ==> r.error == ValueError || r.error == AttributeError
    ensures r.Ok? ==> |r.value| <= 1
  {
    var parts := Split(key, '_');
    if |parts| != 2 then Err(ValueError)
    else
      match ColumnOf(parts[0])
      case None => Err(AttributeError)
      case Some(c) =>
        if parts[1] == "min" then Ok([Bound(c, true, value as real)])
        else if parts[1] == "max" then Ok([Bound(c, false, value as real)])
        else Ok([])
  }

  /** The loop over the dictionary keys `keys` from position `i` on,
      having built `fs` so far: absent values are skipped, the first
      failing step stops the handler. */
  function NumericSteps(fs: seq<Filter>, q: Query, keys: seq<string>, i: nat): (r: Result<seq<Filter>, Exception>)
    requires i <= |keys|
    decreases |keys| - i
  {
    if i == |keys| then Ok(fs)
    else
      var key := keys[i];
      if key !in q.numeric then NumericSteps(fs, q, keys, i + 1)
      else
        match NumericStep(key, q.numeric[key])
        case Err(e) => Err(e)
        case Ok(more) => NumericSteps(fs + more, q, keys, i + 1)
  }

  /** The filters of a query, or the exception that building it raises. */
  function BuildQuery(q: Query): Result<seq<Filter>, Exception>
  {
    NumericSteps(FixedFilters(q), q, NumericKeys(), 0)
  }

  /** What the handler answers: `{"data": rows, "total": len(rows)}`, or
      the server error of an exception. */
  function ListObservations(table: seq<Observation>, q: Query): Response
  {
    match BuildQuery(q)
    case Err(e) => ServerError(e)
    case Ok(fs) =>
      if !DatesRead(fs) then ServerError(DatabaseError)
      else Response(200, Listing(Selected(table, fs), |Selected(table, fs)|))
  }

  /** One turn of `NumericSteps`. */
  lemma NumericStepsUnfold(fs: seq<Filter>, q: Query, keys: seq<string>, i: nat)
    requires i < |keys|
    ensures NumericSteps(fs, q, keys, i)
         == if keys[i] !in q.numeric then NumericSteps(fs, q, keys, i + 1)
            else match NumericStep(keys[i], q.numeric[keys[i]])
                 case Err(e) => Err(e)
                 case Ok(more) => NumericSteps(fs + more, q, keys, i + 1)
  {
  }

  /** The handler's loop over the `filters` dictionary, on the filters
      built so far. */
  method ApplyNumericFilters(fixed: seq<Filter>, q: Query, keys: seq<string>) returns (r: Result<seq<Filter>, Exception>)
    ensures r == NumericSteps(fixed, q, keys, 0)
  {
    var filters := fixed;
    var i := 0;
    while i < |keys|
      invariant 0 <= i <= |keys|
      invariant NumericSteps(filters, q, keys, i) == NumericSteps(fixed, q, keys, 0)
    {
      var key := keys[i];
      NumericStepsUnfold(filters, q, keys, i);
      if key in q.numeric {
        var step := NumericStep(key, q.numeric[key]);
        if step.Err? {
          return Err(step.error);
        }
        filters := filters + step.value;
      }
      i := i + 1;
    }
    r := Ok(filters);
  }

  /** The handler's `if` chain over the date and coordinate arguments. */
  method DateAndCoordinateFilters(q: Query) returns (filters: seq<Filter>)
    ensures filters == FixedFilters(q)
  {
    filters := [];
    if q.dateFrom.Some? && q.dateFrom.value != "" {
      filters := filters + [DateBound(true, q.dateFrom.value)];
    }
    assert filters == DateFilter(q.dateFrom, true);
    var fs := filters;
    if q.dateTo.Some? && q.dateTo.value != "" {
      filters := filters + [DateBound(false, q.dateTo.value)];
    }
    assert filters == fs + DateFilter(q.dateTo, false);
    fs := filters;
    if q.minLatitude.Some? {
      filters := filters + [Bound(Latitude, true, q.minLatitude.value)];
    }
    assert filters == fs + CoordinateFilter(q.minLatitude, Latitude, true);
    fs := filters;
    if q.maxLatitude.Some? {
      filters := filters + [Bound(Latitude, false, q.maxLatitude.value)];
    }
    assert filters == fs + CoordinateFilter(q.maxLatitude, Latitude, false);
    fs := filters;
    if q.minLongitude.Some? {
      filters := filters + [Bound(Longitude, true, q.minLongitude.value)];
    }
    assert filters == fs + CoordinateFilter(q.minLongitude, Longitude, true);
    fs := filters;
    if q.maxLongitude.Some? {
      filters := filters + [Bound(Longitude, false, q.maxLongitude.value)];
    }
    assert filters == fs + CoordinateFilter(q.maxLongitude, Longitude, false);
  }

  /** `get_observations()` over the rows of the table. */
  method GetObservations(table: seq<Observation>, q: Query) returns (r: Response)
    ensures r == ListObservations(table, q)
  {
    var filters := DateAndCoordinateFilters(q);
    var built := ApplyNumericFilters(filters, q, NumericKeys());
    if built.Err? {
      return ServerError(built.error);
    }
    filters := built.value;
    if !DatesRead(filters) {
      return ServerError(DatabaseError);
    }
    var rows := Selected(table, filters);
    r := Response(200, Listing(rows, |rows|));
  }

  // ---------------------------------------------------------------------
  // Properties of the listing

  /** Every key of the dictionary fails as written: `min_<field>` with an
      underscore in the field splits into three pieces or more
      (`ValueError`), and `min_humidity` splits into `min` and `humidity`,
      and `min` is no column (`AttributeError`). */
  lemma NumericStepAsWritten(i: int, value: int)
    requires 0 <= i < KeyCount
    ensures NumericStep(NumericKey(i), value)
         == Err(if '_' in NumericFields[i / 2] then ValueError else AttributeError)
  {
    var op := if i % 2 == 0 then "min" else "max";
    NumericKeyShape(i);
    var field := NumericFields[i / 2];
    assert '_' !in op;
    SplitAfter(op, '_', field);
    if '_' in field {
      SplitWith(field, '_');
    } else {
      SplitWithout(field, '_');
      assert ColumnOf(op) == None;
    }
  }

  /** Over keys whose every step fails, the loop skips absent keys and
      fails at the first present one. */
  lemma {:induction false} NumericStepsFail(fs: seq<Filter>, q: Query, keys: seq<string>, i: nat)
    requires i <= |keys|
    requires forall j, value :: 0 <= j < |keys| ==> NumericStep(keys[j], value).Err?
    ensures NumericSteps(fs, q, keys, i).Err? <==> exists j :: i <= j < |keys| && keys[j] in q.numeric
    ensures NumericSteps(fs, q, keys, i).Ok? ==> NumericSteps(fs, q, keys, i) == Ok(fs)
    ensures NumericSteps(fs, q, keys, i).Err? ==>
              NumericSteps(fs, q, keys, i).error == ValueError || NumericSteps(fs, q, keys, i).error == AttributeError
    decreases |keys| - i
  {
    if i < |keys| {
      NumericStepsUnfold(fs, q, keys, i);
      var key := keys[i];
      if key in q.numeric {
        assert NumericStep(key, q.numeric[key]).Err?;
      } else {
        NumericStepsFail(fs, q, keys, i + 1);
        assert forall j :: i <= j < |keys| && keys[j] in q.numeric ==> i + 1 <= j;
      }
    }
  }

  /** Every key of the dictionary fails as written, whatever its value. */
  lemma EveryKeyFails()
    ensures forall j, value :: 0 <= j < |NumericKeys()| ==> NumericStep(NumericKeys()[j], value).Err?
  {
    forall j, value | 0 <= j < |NumericKeys()|
      ensures NumericStep(NumericKeys()[j], value).Err?
    {
      NumericStepAsWritten(j, value);
    }
  }

  /** A numeric bound in the query: any of the `min_`/`max_` keys. */
  predicate HasNumericBound(q: Query)
  {
    exists j :: 0 <= j < KeyCount && NumericKey(j) in q.numeric
  }

  /** As written, the listing answers 200 exactly when no numeric bound is
      given and the date texts read as dates; any numeric bound is a server
      error. */
  lemma ListingSucceeds(table: seq<Observation>, q: Query)
    ensures ListObservations(table, q).status == 200
        <==> !HasNumericBound(q) && DatesRead(FixedFilters(q))
    ensures HasNumericBound(q) ==>
              ListObservations(table, q) in {ServerError(ValueError), ServerError(AttributeError)}
    ensures ListObservations(table, q).status == 200 ==>
              ListObservations(table, q).body == Listing(Selected(table, FixedFilters(q)), |Selected(table, FixedFilters(q))|)
  {
    EveryKeyFails();
    NumericStepsFail(FixedFilters(q), q, NumericKeys(), 0);
    var keys := NumericKeys();
    assert HasNumericBound(q) <==> exists j :: 0 <= j < |keys| && keys[j] in q.numeric;
  }

  /** Without arguments every row is listed, with the total count. */
  lemma NoArgumentsListsAll(table: seq<Observation>)
    ensures ListObservations(table, NoArguments) == Response(200, Listing(table, |table|))
  {
    ListingSucceeds(table, NoArguments);
    assert FixedFilters(NoArguments) == [];
    SelectedEverything(table, []);
  }

  /** The loop reads only the numeric arguments. */
  lemma {:induction false} NumericStepsReadNumeric(fs: seq<Filter>, q1: Query, q2: Query, keys: seq<string>, i: nat)
    requires i <= |keys| && q1.numeric == q2.numeric
    ensures NumericSteps(fs, q1, keys, i) == NumericSteps(fs, q2, keys, i)
    decreases |keys| - i
  {
    if i < |keys| {
      NumericStepsUnfold(fs, q1, keys, i);
      NumericStepsUnfold(fs, q2, keys, i);
      var key := keys[i];
      if key !in q1.numeric {
        NumericStepsReadNumeric(fs, q1, q2, keys, i + 1);
      } else if NumericStep(key, q1.numeric[key]).Ok? {
        NumericStepsReadNumeric(fs + NumericStep(key, q1.numeric[key]).value, q1, q2, keys, i + 1);
      }
    }
  }

  /** Queries with the same filters and the same numeric arguments answer
      alike. */
  lemma SameFiltersSameListing(table: seq<Observation>, q1: Query, q2: Query)
    requires FixedFilters(q1) == FixedFilters(q2) && q1.numeric == q2.numeric
    ensures ListObservations(table, q1) == ListObservations(table, q2)
  {
    NumericStepsReadNumeric(FixedFilters(q1), q1, q2, NumericKeys(), 0);
  }

  /** An empty date text is ignored: it answers as if it were absent. */
  lemma EmptyDateIgnored(table: seq<Observation>, q: Query)
    ensures ListObservations(table, q.(dateFrom := Some(""))) == ListObservations(table, q.(dateFrom := None))
    ensures ListObservations(table, q.(dateTo := Some(""))) == ListObservations(table, q.(dateTo := None))
  {
    SameFiltersSameListing(table, q.(dateFrom := Some("")), q.(dateFrom := None));
    SameFiltersSameListing(table, q.(dateTo := Some("")), q.(dateTo := None));
  }

  /** The row lies within every bound the query gives, bounds included:
      on or after `date_from`, on or before `date_to`, and between the
      coordinate limits. A date text must read as a date. */
  predicate WithinBounds(q: Query, o: Observation)
  {
    && (q.dateFrom.Some? && q.dateFrom.value != "" ==>
          ParseIsoDate(q.dateFrom.value).Some? && DateLeq(ParseIsoDate(q.dateFrom.value).value, o.dateLogged))
    && (q.dateTo.Some? && q.dateTo.value != "" ==>
          ParseIsoDate(q.dateTo.value).Some? && DateLeq(o.dateLogged, ParseIsoDate(q.dateTo.value).value))
    && (q.minLatitude.Some? ==> o.latitude >= q.minLatitude.value)
    && (q.maxLatitude.Some? ==> o.latitude <= q.maxLatitude.value)
    && (q.minLongitude.Some? ==> o.longitude >= q.minLongitude.value)
    && (q.maxLongitude.Some? ==> o.longitude <= q.maxLongitude.value)
  }

  lemma AdmitsAllConcat(a: seq<Filter>, b: seq<Filter>, o: Observation)
    ensures AdmitsAll(a + b, o) <==> AdmitsAll(a, o) && AdmitsAll(b, o)
  {
    assert forall f :: f in a + b <==> f in a || f in b;
  }

  /** The date and coordinate filters of a query admit exactly the rows
      within its bounds. */
  lemma FixedFiltersMeaning(q: Query, o: Observation)
    ensures AdmitsAll(FixedFilters(q), o) <==> WithinBounds(q, o)
  {
    var d1, d2 := DateFilter(q.dateFrom, true), DateFilter(q.dateTo, false);
    var c1, c2 := CoordinateFilter(q.minLatitude, Latitude, true), CoordinateFilter(q.maxLatitude, Latitude, false);
    var c3, c4 := CoordinateFilter(q.minLongitude, Longitude, true), CoordinateFilter(q.maxLongitude, Longitude, false);
    AdmitsAllConcat(d1, d2, o);
    AdmitsAllConcat(d1 + d2, c1, o);
    AdmitsAllConcat(d1 + d2 + c1, c2, o);
    AdmitsAllConcat(d1 + d2 + c1 + c2, c3, o);
    AdmitsAllConcat(d1 + d2 + c1 + c2 + c3, c4, o);
    DateFilterMeaning(q.dateFrom, true, o);
    DateFilterMeaning(q.dateTo, false, o);
    CoordinateFilterMeaning(q.minLatitude, Latitude, true, o);
    CoordinateFilterMeaning(q.maxLatitude, Latitude, false, o);
    CoordinateFilterMeaning(q.minLongitude, Longitude, true, o);
    CoordinateFilterMeaning(q.maxLongitude, Longitude, false, o);
  }

  lemma DateFilterMeaning(text: Option<string>, lower: bool, o: Observation)
    ensures AdmitsAll(DateFilter(text, lower), o)
        <==> (text.Some? && text.value != "" ==> Admits(DateBound(lower, text.value), o))
  {
    if text.Some? && text.value != "" {
      assert DateFilter(text, lower) == [DateBound(lower, text.value)];
    }
  }

  lemma CoordinateFilterMeaning(limit: Option<real>, c: Column, lower: bool, o: Observation)
    ensures AdmitsAll(CoordinateFilter(limit, c, lower), o)
        <==> (limit.Some? ==> Admits(Bound(c, lower, limit.value), o))
  {
    if limit.Some? {
      assert CoordinateFilter(limit, c, lower) == [Bound(c, lower, limit.value)];
    }
  }

  /** What a successful listing means: the rows of the table within every
      bound given, and no others. */
  lemma ListingWithinBounds(table: seq<Observation>, q: Query, o: Observation)
    requires ListObservations(table, q).status == 200
    ensures o in ListObservations(table, q).body.data <==> o in table && WithinBounds(q, o)
  {
    ListingSucceeds(table, q);
    FixedFiltersMeaning(q, o);
  }

  /** A latitude bound of `0.0` is applied: it is tested with `is not
      None`, not for truth. */
  lemma ZeroLatitudeApplies(table: seq<Observation>, q: Query, o: Observation)
    requires q.minLatitude == Some(0.0)
    requires ListObservations(table, q).status == 200
    requires o in ListObservations(table, q).body.data
    ensures o.latitude >= 0.0
  {
    ListingWithinBounds(table, q, o);
  }

  /** `q2` gives every argument `q` gives, with the same value, and maybe
      more. */
  predicate Extends(q2: Query, q: Query)
  {
    && (q.dateFrom.Some? ==> q2.dateFrom == q.dateFrom)
    && (q.dateTo.Some? ==> q2.dateTo == q.dateTo)
    && (q.minLatitude.Some? ==> q2.minLatitude == q.minLatitude)
    && (q.maxLatitude.Some? ==> q2.maxLatitude == q.maxLatitude)
    && (q.minLongitude.Some? ==> q2.minLongitude == q.minLongitude)
    && (q.maxLongitude.Some? ==> q2.maxLongitude == q.maxLongitude)
    && q.numeric.Keys <= q2.numeric.Keys
  }

  /** Adding arguments never enlarges the listing. */
  lemma MoreArgumentsFewerRows(table: seq<Observation>, q: Query, q2: Query, o: Observation)
    requires Extends(q2, q)
    requires ListObservations(table, q2).status == 200
    requires o in ListObservations(table, q2).body.data
    ensures ListObservations(table, q).status == 200
    ensures o in ListObservations(table, q).body.data
  {
    ListingSucceeds(table, q2);
    ListingSucceeds(table, q);
    var fs, fs2 := FixedFilters(q), FixedFilters(q2);
    assert forall f :: f in fs ==> f in fs2;
    assert DatesRead(fs);
    ListingWithinBounds(table, q2, o);
    ListingWithinBounds(table, q, o);
  }

  /** The total is the number of rows listed. */
  lemma TotalCountsRows(table: seq<Observation>, q: Query)
    requires ListObservations(table, q).status == 200
    ensures ListObservations(table, q).body.total == |ListObservations(table, q).body.data|
    ensures |ListObservations(table, q).body.data| <= |table|
  {
  }

  // ---------------------------------------------------------------------
  // The evidently intended numeric step

  /** `key.split('_', 1)`: the text before the first separator and the
      rest, or `None` without a separator. */
  function SplitOnce(s: string, c: char): (r: Option<(string, string)>)
    ensures r.None? <==> c !in s
    ensures r.Some? ==> r.value.0 + [c] + r.value.1 == s && c !in r.value.0
  {
    if s == [] then None
    else if s[0] == c then Some(([], s[1..]))
    else
      match SplitOnce(s[1..], c)
      case None => None
      case Some((a, b)) => Some(([s[0]] + a, b))
  }

  /** The numeric step with the operator split off at the first separator
      only, so that the rest names the column. */
  function IntendedNumericStep(key: string, value: int): (r: Result<seq<Filter>, Exception>)
  {
    match SplitOnce(key, '_')
    case None => Err(ValueError)
    case Some((op, field)) =>
      match ColumnOf(field)
      case None => Err(AttributeError)
      case Some(c) =>
        if op == "min" then Ok([Bound(c, true, value as real)])
        else if op == "max" then Ok([Bound(c, false, value as real)])
        else Ok([])
  }

  /** The column of each numeric field. */
  const NumericColumns: seq<Column> :=
    [WaterTemp, AirTemp, WindSpeed, Humidity, HazePercent, PrecipitationMm, RadiationBq]

  /** Read that way, every key of the dictionary is an inclusive bound on
      its own column: a lower one for `min_`, an upper one for `max_`. */
  lemma IntendedNumericBounds(i: int, value: int)
    requires 0 <= i < KeyCount
    ensures IntendedNumericStep(NumericKey(i), value)
         == Ok([Bound(NumericColumns[i / 2], i % 2 == 0, value as real)])
  {
    var op := if i % 2 == 0 then "min" else "max";
    NumericKeyShape(i);
    var field := NumericFields[i / 2];
    var parts := SplitOnce(NumericKey(i), '_');
    assert parts.value.0 == op && parts.value.1 == field by {
      SplitOnceFirst(op, '_', field);
    }
    NumericFieldColumn(i / 2);
  }

  lemma {:induction false} SplitOnceFirst(a: string, c: char, b: string)
    requires c !in a
    ensures SplitOnce(a + [c] + b, c) == Some((a, b))
  {
    var s := a + [c] + b;
    if a == [] {
      assert s == [c] + b && s[1..] == b;
    } else {
      assert s[0] == a[0] && s[1..] == a[1..] + [c] + b;
      assert c !in a[1..];
      SplitOnceFirst(a[1..], c, b);
      assert [a[0]] + a[1..] == a;
    }
  }

  /** `getattr` finds the column of each numeric field. */
  lemma NumericFieldColumn(j: int)
    requires 0 <= j < |NumericFields|
    ensures ColumnOf(NumericFields[j]) == Some(NumericColumns[j])
  {
    if j == 0 {
    } else if j == 1 {
    } else if j == 2 {
    } else if j == 3 {
    } else if j == 4 {
    } else if j == 5 {
    } else {
    }
  }
}
