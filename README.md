# CleanSMRs API: quarter lock, filtered listing, handler rules and token guard

This project models the decision logic of the CleanSMRs observation API in
Dafny and proves properties of it. The API stores environmental sensor
observations.

- **Quarter lock** (`utils.py`). An observation may be edited only while it
  lies in the same calendar quarter as a base date. `is_same_quarter`:
  1. removes every `UTC` from the stored offset text;
  2. reads the logged date, time and offset with
     `strptime("%Y-%m-%d %H:%M:%S%z")`;
  3. converts the result to UTC, which can cross a day, month or year
     boundary, or overflow past year 1 or year 9999;
  4. compares quarter numbers.

  The Python calendar that this relies on is modelled in `calendar.dfy`:
  leap years, day ordinals, the previous and next day, and ISO text.
- **Filtered listing** (`routes.py`, `get_observations`). The query
  arguments become a conjunction of inclusive bounds. The matching rows come
  back as `{"data": rows, "total": n}`. The handler's `if` chains and its
  loop over the numeric-bound dictionary are methods. They are proved
  against the functions `FixedFilters`, `NumericSteps` and
  `ListObservations`.
- **Handler rules** (`routes.py`, `login`, `put_observation`,
  `patch_observation`, `delete_observation`).
  - `login` is a function.
  - The observation table is the `rows` map of a class, `ObservationStore`.
    Its `Put`, `Patch` and `Delete` methods are proved against the outcome
    functions `PutOutcome`, `PatchOutcome` and `DeleteOutcome`.
  - The store's `baseDate` is a constant. `base_date` is a default argument,
    so it is evaluated once, when `utils.py` is loaded.
- **Token guard** (`auth.py`, `token_required`). The guard checks, in order:
  missing token, then the `SECRET_KEY` setting, then expired signature,
  then invalid token, then passes the request through.

Foreign calls enter as parameters:
- JWT decoding enters as its outcome for the token and the key.
- JWT encoding enters as a function of the user name and the key.
- Schema validation enters as its outcome (`LoadOutcome`).
- The settings enter as a map.

Exceptions that no handler catches are `ServerError` responses with status
500.

Points of the code that the model follows as written:
- **Login settings.** `config.py` reads `WEBSITE_USER` and
  `WEBSITE_PASSWORD` (config.py:13-14), but `login` compares with
  `DEMO_USERNAME` and `DEMO_PASSWORD` from `.env` (routes.py:36-37). An
  absent setting is a `KeyError`.
- **Listing response.** The listing answers an object with the keys `data`
  and `total` (routes.py:271).
- **Numeric bounds.** The numeric bounds never filter anything: every one
  of them raises (see Findings).
- **Body-id check.** The body-id check never fires (see Findings).

## Model

| member | source | states |
|---|---|---|
| Utils.GetQuarter | utils.py:31-45 | For a valid date, the quarter is 1 to 4 and equals (month - 1) / 3 + 1, so months 1-3 give 1, 4-6 give 2, 7-9 give 3 and 10-12 give 4. This covers the tests of 2024-01-01 (1) and 2024-05-01 (2). |
| Utils.GetQuarterByMonth | utils.py:37-45 | Dates in the same month have the same quarter, whatever their year and day. |
| Text.RemoveAll | utils.py:21 | `s.replace(pat, "")` deletes non-overlapping occurrences from left to right, and the result is never longer than the input. |
| Text.RemoveAllIdentity | utils.py:21 | Removing `pat` leaves the text unchanged exactly when `pat` does not occur in it. |
| Text.RemoveAllLeading | utils.py:21 | A leading occurrence is deleted, and the rest is processed as if it stood alone. |
| Text.RemoveAllKeepsPlain | auth.py:21 | A stretch with no character that can start `pat` is kept, and removal continues after it. |
| Utils.ParseOffset | utils.py:24-25 | `%z` reads `Z` as 0. It also reads a sign followed by `HHMM`, `HH:MM`, `HHMMSS` or `HH:MM:SS` (colons throughout or not at all), with minutes and seconds from 00 to 59. The offset must be under a day. The sign of the result follows the sign character. Every failure is a `ValueError`. |
| Utils.ParseOffsetText | utils.py:24-25 | Each of the four layouts `±HHMM`, `±HH:MM`, `±HHMMSS` and `±HH:MM:SS` reads back as the signed offset of its fields. |
| Utils.ParsedOffsetLayout | utils.py:24-25 | Conversely, every text other than `Z` that `%z` accepts is a sign followed by one of the four layouts of the offset it reads as. Any other text, mixed colons included, is refused. |
| Utils.ParseFormatOffset | utils.py:24-25 | Every offset under a day reads back from its `±HH:MM[:SS]` text and from its `±HHMM[SS]` text (round trip). |
| Utils.ParseUtcNamedOffset | utils.py:21-25 | A `UTC±HH:MM` or `UTC±HHMM` name reads as its offset once `UTC` is removed. |
| Utils.Strptime | utils.py:24-25 | A text that reads gives a valid date-time and an offset under a day. Any failure is a `ValueError`. |
| Utils.StrptimeRoundTrip | utils.py:24-25 | `f"{date} {time}{offset}"` reads back as that date and time. The result then depends only on how the offset part reads. |
| Utils.ToUtc | utils.py:26 | On success, the result is the one valid date-time at the local instant minus the offset. Otherwise the error is `OverflowError`, and no valid date-time is at that instant. |
| Utils.ToUtcRoundTrip | utils.py:26 | Converting with an offset and then with its negation gives back the original date-time. |
| Utils.ToUtcZero | utils.py:26 | With a zero offset, the UTC date-time is the logged one. |
| Utils.IsSameQuarter | utils.py:8-28 | The only errors are `ValueError` (strptime) and `OverflowError` (astimezone). |
| Utils.IsSameQuarterUtc | utils.py:17-28 | Let `off` be what the offset text reads as after `UTC` is removed. If it does not read, the result is `ValueError`. Otherwise an error means `OverflowError`, and no date-time is `off` seconds before the local one. A boolean answer says whether the UTC date-time `off` seconds before the local one is in the base date's quarter. |
| Utils.UtcQuarterMatches | utils.py:26-28 | An error is `OverflowError`, and no date-time is at the shifted second. An answer says whether the date-time at that second is in the base date's quarter. |
| Utils.OffsetQuarter | utils.py:24-28 | An offset that does not read gives `ValueError`. Otherwise the answer is that of `UtcQuarterMatches` at the offset read. |
| Utils.IsSameQuarterOfOffset | utils.py:20-28 | Once the logged date and time read back, only the offset text decides between an error and a UTC conversion. |
| Utils.IsSameQuarterUtcPrefix | utils.py:20-21 | Putting `UTC` in front of the offset text changes nothing, so `UTC+0000` and `+0000` agree. |
| Utils.IsSameQuarterZeroOffset | utils.py:21-28 | With an offset that reads as zero, the answer compares the logged date's own quarter with the base date's quarter. |
| Utils.IsSameQuarterBaseQuarter | utils.py:28 | Base dates in the same quarter give the same answer. Years are never compared, so a 2023 Q1 observation matches any 2024 Q1 base. |
| Utils.NoonNewYearExample | test_utils.py:36-87 | 2024-01-01 12:00:00 with `UTC+0000` gives true against base 2024-01-01 and false against base 2024-04-01. |
| Utils.EastOfUtcExample | utils.py:21-28 | 2024-04-01 02:00 at `+05:00` is 2024-03-31 in UTC. It is in the first quarter, not the second. |
| Utils.FirstDayOverflowExample | utils.py:24-26 | 0001-01-01 00:30 at `+01:00` lies before year 1 in UTC: `OverflowError`. |
| Utils.BareUtcExample | utils.py:21-25 | An offset text of just `UTC` leaves nothing for `%z`: `ValueError`. |
| Calendar.DaysInMonth | utils.py:24-26 | A month has 28 to 31 days. It has 29 exactly in February of a leap year. |
| Calendar.NextDayOrdinal | utils.py:26 | The next day of a valid date other than 9999-12-31 is valid, and its ordinal is one more. |
| Calendar.PrevDayOrdinal | utils.py:26 | The previous day of a valid date other than 0001-01-01 is valid, and its ordinal is one less. |
| Calendar.PrevNextDay | utils.py:26 | Stepping a day forward and then back returns to the same date. |
| Calendar.NextPrevDay | utils.py:26 | Stepping a day back and then forward returns to the same date. |
| Calendar.OrdinalOrder | utils.py:26 | Chronological order of valid dates is the order of their ordinals. |
| Calendar.ParseIsoDateRoundTrip | utils.py:25 | `str(date)` reads back as the same date. |
| Calendar.IsoDateOfParsed | utils.py:24-25 | Conversely, a text that reads as a date is exactly that date's `str(date)`. |
| Calendar.ParseIsoTimeRoundTrip | utils.py:25 | `str(time)` reads back as the same time. |
| Calendar.InstantUnique | utils.py:26 | At most one valid date-time is at any given second. |
| Calendar.InstantRange | utils.py:26 | Every valid date-time lies between the first second of year 1 and the last second of year 9999. |
| Auth.Token | auth.py:17-21 | There is no token without the header. Otherwise the token is the header with every `Bearer ` removed, and it is never longer than the header. |
| Auth.Guard | auth.py:17-31 | A refusal is one of the three 401 messages or a `KeyError`. "Token is missing" comes exactly when there is no token or it is empty. The `KeyError` comes exactly when there is a token and no `SECRET_KEY` setting. The request passes exactly when there is a non-empty token that decodes with the configured key. |
| Auth.TokenRequired | auth.py:23-33 | The wrapped handler's response is returned unchanged when the guard passes. Otherwise the answer is the guard's refusal, unchanged: one of the 401 messages or the `KeyError` server error. |
| Auth.NoHeaderRefused | auth.py:17-24 | Without an `Authorization` header the answer is "Token is missing", whatever the decoder and handler are. |
| Auth.BareBearerRefused | auth.py:21-24 | A header of exactly `Bearer ` gives "Token is missing". |
| Auth.EveryBearerRemoved | auth.py:21 | In `Bearer <a>Bearer <b>` the second `Bearer ` is removed too. |
| Auth.PlainHeaderIsToken | auth.py:20-21 | A header without `Bearer ` is the token as it is. |
| Auth.ExpiredBeforeInvalid | auth.py:28-31 | An expired signature is an invalid-token error too, yet it gets "Token has expired". |
| Auth.BadTokenRefused | auth.py:30-31 | Any other decoding failure gets "Token is invalid". |
| Auth.ClaimsIgnored | auth.py:27 | Any token that decodes is admitted, whatever user its claims name. |
| Auth.OnlyTokenDecoded | auth.py:26-27 | The answer depends on the decoder only through its verdict on the token. |
| Handlers.Login | routes.py:32-53 | The response is 401 "Missing credentials" exactly when there are no credentials. The status is 200 exactly when the user name and password match the demo settings and all three settings are present, and the body is then the token encoded for that user with the secret key. The response is 401 "Invalid credentials" exactly when the user name does not match, or it matches and the password does not. It is a `KeyError` exactly when there are credentials and a setting that the short-circuit reaches is absent: `DEMO_USERNAME`; `DEMO_PASSWORD` after a matching user name; `SECRET_KEY` after a matching password. There is no other response. |
| Handlers.WrongUserNeedsNoPassword | routes.py:35-38 | A wrong user name is refused before the password and key settings are read. |
| Handlers.Contains | routes.py:126 | For the left operands the handlers use, a string or the builtin `id`: Python's `in` on a JSON body succeeds on objects, arrays, and strings with a string on the left, and anything else is a `TypeError`. It is true exactly for a string that is a key of the object, an element of the array or a substring of the string. |
| Handlers.BuiltinIdNeverFound | routes.py:126 | As written, `id in data` is never true. It is false exactly for object and array bodies. |
| Handlers.IntendedIdCheck | routes.py:126-127 | The check with the key `"id"` refuses exactly the object bodies whose `id` differs from the URL's, which the written check never does. |
| Handlers.Stored | routes.py:131-132 | The committed row keeps the URL's id. |
| Handlers.UpdateOutcome | routes.py:124-136 | An error changes no row. The status is 200 exactly when the body is an object or array and the schema load succeeds, and the loaded row is then committed under the URL's id. Any other body is a `TypeError`. A load that fails answers 400 with its validation messages and changes nothing. |
| Handlers.PutOutcome | routes.py:117-136 | An unknown id gives 404 with nothing changed, and no error commits. The status is 200 exactly when the row exists, is in the base date's quarter, the body is an object or array and it loads. For an editable row, any other body is a `TypeError`, and a load that fails answers 400 with its validation messages. |
| Handlers.PatchOutcome | routes.py:151-176 | As `PutOutcome`, and a 200 also needs a non-empty body. For an editable row and a non-empty object or array body, a load that fails answers 400 with its validation messages. |
| Handlers.DeleteOutcome | routes.py:191-199 | An unknown id gives 404 with the table unchanged. Otherwise the answer is 204 with an empty body, exactly that row is gone, and every other row is unchanged. |
| Handlers.ObservationStore.Update | routes.py:124-136 | For a load that loads only an object body, the response and new table are those of `UpdateOutcome`, and the store stays valid. |
| Handlers.ObservationStore.Put | routes.py:105-136 | For a load that loads only an object body, the response and new table are those of `PutOutcome` with the store's base date, and the store stays valid. |
| Handlers.ObservationStore.Patch | routes.py:139-176 | For a load that loads only an object body, the response and new table are those of `PatchOutcome`, and the store stays valid. |
| Handlers.ObservationStore.GuardedPut | auth.py:23-33 | Behind the token guard, a refused PUT gets the guard's refusal and the table is unchanged. An admitted one is `PutOutcome` of the old table. |
| Handlers.ObservationStore.GuardedPatch | auth.py:23-33 | Behind the token guard, a refused PATCH gets the guard's refusal and the table is unchanged. An admitted one is `PatchOutcome` of the old table. |
| Handlers.ObservationStore.GuardedDelete | auth.py:23-33 | Behind the token guard, a refused DELETE gets the guard's refusal and the table is unchanged. An admitted one is `DeleteOutcome` of the old table. |
| Handlers.ObservationStore.Delete | routes.py:179-199 | Response and new table are those of `DeleteOutcome`, and the store stays valid. |
| Handlers.UpdateKeepsRowsValid | routes.py:131-132 | PUT, PATCH and DELETE keep every row well formed and under its own id. |
| Handlers.UpdateTouchesOnlyItsRow | routes.py:117-134 | PUT and PATCH keep the set of ids, and every other row is unchanged. |
| Handlers.QuarterLockBeforeBody | routes.py:121-122 | A row outside the base date's quarter gets 400 "Can only edit observations in this quarter", whatever the body. |
| Handlers.QuarterLockFailure | routes.py:121 | A quarter check that raises is a server error and commits nothing. |
| Handlers.EmptyPatchRefused | routes.py:161-162 | An editable row with a falsy PATCH body gets 400 "At least one property is required". |
| Handlers.ScalarPatchFails | routes.py:161-165 | A truthy string, number or `true` body passes the empty check and then fails `id in data` with a `TypeError`. |
| Handlers.ArrayBodyRefused | routes.py:124-136 | For an editable row, an array body passes `id in data` but does not load. PUT, and PATCH when the array is non-empty, answer 400 with the schema's messages and commit nothing. |
| Handlers.PatchIsPutOnNonEmptyBody | routes.py:117-176 | Given the same load outcome, PATCH and PUT answer alike on a non-empty body. |
| Handlers.DeleteThenDelete | routes.py:191-199 | A second delete of the same id gives 404 and changes nothing. |
| Handlers.DeletedNotListed | routes.py:191-199 | After a delete, a successful listing of a table holding the remaining rows never shows the deleted id. It still shows every other row within the query's bounds. |
| Filters.NumericKeyShape | routes.py:219-234 | Key `i` of the `filters` dictionary is `min` (even `i`) or `max` (odd `i`), then `_`, then the `i / 2`-th numeric field. The fields are in the dictionary's order. |
| Filters.Selected | routes.py:266 | `query.all()` returns only table rows that pass every filter, every such row, and no more rows than the table has. |
| Filters.SelectedEverything | routes.py:237 | With nothing refusing a row, the whole table comes back in order. |
| Filters.SelectedNarrows | routes.py:240-263 | Filtering by `fs + gs` is filtering by `fs` and then by `gs`, so adding a filter never enlarges the result. |
| Filters.DateFilter | routes.py:240-243 | A date bound is added exactly for a non-empty text. |
| Filters.CoordinateFilter | routes.py:246-253 | A coordinate bound is added for any value given, 0.0 included. |
| Filters.Split | routes.py:258 | `key.split('_')` has at least one piece. |
| Filters.SplitAfter | routes.py:258 | The first piece ends at the first separator. |
| Filters.NumericStep | routes.py:258-263 | One turn of the loop fails only with `ValueError` or `AttributeError`, and otherwise adds at most one filter. |
| Filters.NumericStepAsWritten | routes.py:258-259 | Every key fails as written. A field with `_` gives three pieces and a `ValueError`; `min_humidity` gives the field name `min` and an `AttributeError`. |
| Filters.NumericStepsFail | routes.py:256-263 | Over keys whose every step fails, the loop fails exactly when some key is supplied, always with one of those two errors. Otherwise it adds nothing. |
| Filters.EveryKeyFails | routes.py:219-234 | Every key of the `filters` dictionary fails its step, whatever its value. |
| Filters.ApplyNumericFilters | routes.py:256-263 | For any key sequence, the loop's result is `NumericSteps` from the first key. |
| Filters.DateAndCoordinateFilters | routes.py:240-253 | The `if` chain builds `FixedFilters`. |
| Filters.GetObservations | routes.py:201-271 | The handler answers `ListObservations`. |
| Filters.ListingSucceeds | routes.py:240-271 | The listing is 200 exactly when no numeric bound is given and the date texts read. With a numeric bound it is a `ValueError` or `AttributeError` server error. On success the rows are those the date and coordinate filters select. |
| Filters.NoArgumentsListsAll | routes.py:237-271 | With no arguments, every row is listed with its count. |
| Filters.NumericStepsReadNumeric | routes.py:256-263 | The loop reads only the numeric arguments. |
| Filters.SameFiltersSameListing | routes.py:237-271 | Queries with the same filters and numeric arguments answer alike. |
| Filters.EmptyDateIgnored | routes.py:240-243 | An empty `date_from` or `date_to` answers as if it were absent. |
| Filters.FixedFiltersMeaning | routes.py:240-253 | The date and coordinate filters admit exactly the rows within the given bounds, bounds included. |
| Filters.ListingWithinBounds | routes.py:240-271 | A row is listed exactly when it is in the table and within every bound given (`>=` for from/min, `<=` for to/max). |
| Filters.ZeroLatitudeApplies | routes.py:246-247 | A `min_latitude` of 0.0 is applied. |
| Filters.MoreArgumentsFewerRows | routes.py:240-266 | If a query with more arguments succeeds, a query with a subset of them succeeds too and lists every row the larger one lists. |
| Filters.TotalCountsRows | routes.py:269-271 | `total` is the number of rows listed, at most the size of the table. |
| Filters.SplitOnce | routes.py:258 | `key.split('_', 1)`: text before the first separator, and the rest. |
| Filters.IntendedNumericBounds | routes.py:256-263 | Split once, every key of the dictionary is an inclusive bound on its own column: lower for `min_`, upper for `max_`. |

## Left out

- JWT encoding and decoding, HS256 signing and the token's `iss`, `iat` and `exp` claims are not modelled. They are library calls and the wall clock. The decoder's verdict and the encoder are parameters.
- Flask routing, `request`, `jsonify` and the reading of a JSON body are not modelled. A body that is not JSON is outside the model, and the body enters already parsed (`Json`).
- Marshmallow validation and loading (`schemas.py`) is not modelled. Its outcome is a parameter (`LoadOutcome`), and a loaded row is assumed well formed.
- Handlers.UpdateOutcome: the function accepts any load outcome for an object or array body. The schema, loaded without `many=True`, refuses every input that is not an object as an invalid input type, so an array body never loads. The store methods require this of their load outcome (`LoadFitsBody`), and `ArrayBodyRefused` states the consequence.
- Handlers.UpdateOutcome: the model assumes that `load(data, instance=observation)` writes the loaded values into the row, so the commit stores them. The schema's `Meta` (schemas.py:13-31) sets neither `load_instance` nor `model`, so the load may instead return a plain dict and leave the row as it was; the model does not capture that.
- Handlers.PatchIsPutOnNonEmptyBody: PUT loads the body in full and PATCH with `partial=True` (routes.py:131, routes.py:169-171), so the two load outcomes can differ. The load outcome is a parameter, and the lemma compares the two handlers only for the same outcome.
- The model does not capture a load that changes the primary key through the body. The committed row is stored under the URL's id.
- SQLAlchemy sessions and queries are not modelled: `query.all()` is `Selected` over a sequence of rows.
- Filters.Admits: the date bounds pass the `date_from`/`date_to` text to a `Date` column comparison (routes.py:205-213), and how it binds depends on the backend. `app.py:16` takes the database URI from the settings. The only backend named is SQLite (utils/seed_data.py:19), whose `Date` type accepts only `date` objects, so there every non-empty date text, well-formed or not, fails when the query runs and the listing answers 500. `Admits`, `DateFilter`, `FixedFiltersMeaning` and `ListingWithinBounds` describe a backend that casts ISO text to a date: the text is compared as the date it reads as, and a text that does not read is a `DatabaseError`.
- The create handlers (routes.py:56-102) are not modelled. `create_observation` answers a validation error with status 400 (routes.py:83). The bulk create returns `jsonify(error.messages, 400)` (routes.py:102), which puts 400 in the body with status 200.
- Handlers.Contains: only the left operands the handlers use are modelled, a string and a builtin function. Unhashable operands and Python's equality across kinds, where `True == 1`, are not modelled.
- The gap between the quarter check and the commit is not modelled, because it is a concurrency matter.
- Latitude and longitude are stored as floats but modelled as reals: only comparisons are made on them.
- Werkzeug's `type=float` and `type=int` conversion of query text is not modelled. An argument that does not convert reads as absent, so the query holds the converted values.
- Utils.IsSameQuarter: the `TypeError` raised for a non-`Observation` or a non-date argument is not modelled, because Dafny's types exclude those arguments.
- Utils.Strptime: reads only the texts `is_same_quarter` builds. Microseconds, fractional seconds in an offset, and non-ASCII digits are not modelled; they are treated as parse errors.
- Handlers.ObservationStore: the base date is fixed when the store is created, which is when `utils.py` loads. The clock is not modelled.
- `utils/seed_data.py`, `config.py`, `app.py` and `models.py` are not modelled. They hold wiring, random seeding and column declarations; models.py:8-25 only shapes `Observation`.

## Findings

| source | as written | input that shows it | evidently intended | confidence | as-written member | corrected member |
|---|---|---|---|---|---|---|
| routes.py:258-259 | `field_name, op = key.split('_')` then `getattr(Observation, field_name)` | `GET /observations?min_water_temp=5` raises `ValueError`, and `?min_humidity=5` raises `AttributeError` (field `min`); both give 500 | `op, field_name = key.split('_', 1)`: an inclusive bound on the named column | high, not executed | Filters.NumericStepAsWritten | Filters.IntendedNumericBounds |
| routes.py:126, routes.py:164 | `if id in data` tests the builtin function `id` | PUT or PATCH `/observations/3` with body `{"id": 4}` is not refused | `if "id" in data and data["id"] != observation_id` | high, not executed | Handlers.BuiltinIdNeverFound | Handlers.IntendedIdCheck |

The handler models (`GetObservations`, `ObservationStore.Put` and
`ObservationStore.Patch`) keep the code's behaviour as written. The
corrected members state what the code evidently intends, and the table
shows how the two differ.
