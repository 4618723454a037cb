# google-trends-api: query normalisation and request shaping

This project is a Dafny model of `src/utilities.js` from the Node.js client
`google-trends-api`, with proofs about it. That file turns a caller's query into the two HTTPS requests
Google Trends needs. The first is an *explore* request. It answers with
widgets, and its `req` describes the query. The second is a *data* request.
Its path, widget position and optional resolution depend on the analysis type. It echoes
the chosen widget's request with a few fields overwritten, and it carries
the widget's token.

Modules follow the functions of the file:

- `UtcCalendar`: the UTC fields that `getUTCFullYear`, `getUTCMonth`,
  `getUTCDate`, `getUTCHours` and `getUTCMinutes` return for a time value.
  They are computed by integer civil-from-days arithmetic. That arithmetic is
  proved to invert a reference day count, and the day count is proved equal
  to ECMAScript's `DayFromYear` on every January 1.
- `Numerals`: `Number.prototype.toString` on integers, with a reader that
  parses it back.
- `JsValues`: JavaScript values, truthiness, property reads and strict-mode
  property writes. It also holds the faults the core can raise, and the
  heap object (`JsObject`) standing for the caller's query or a new `Error`.
- `DateRange`: `isLessThan7Days`, `convertDateToString` and `formatTime`.
- `Query`: `constructObj`.
- `Resolution`: `formatResolution`.
- `Keywords`: `formatKeywords`.
- `Payload`: the guard-prefix stripping in `parseResults` and in the last
  step of `getResults`.
- `Orchestrator`: `getResults`.

Dates are integers: milliseconds since 1970-01-01T00:00:00Z, or
`InvalidDate` for a `Date` whose time value is NaN. The current time
(`new Date()`) is a parameter `now`. `JSON.parse`, `JSON.stringify`,
`encodeURIComponent` and the transport `request` are function parameters:

- `parse` returns `None` where `JSON.parse` would throw;
- `encode` returns `None` where `encodeURIComponent` would throw a URIError;
- the transport returns `Failure(cause)` for a rejected request.

`getResults` is modelled as a method. It returns the outcome the promise
settles to, together with the list of requests handed to the transport.

Some of what the code does is easy to miss. The model keeps it:

- **A range can come out reversed.** `formatTime` swaps the bounds only when both are supplied. The
  defaults (`endTime = now`, `startTime = 2004-01-01`) are applied after the
  swap. So a supplied `startTime` later than `now` with no `endTime` leaves
  start after end.
  `DateRange.DefaultedRangeCanBeReversed` proves this. The code has no
  comment promising an order; start and end come out ordered only when both
  bounds are supplied (`DateRange.SuppliedBoundsAreOrdered`).
- **An Invalid Date is accepted.** It passes the `instanceof Date` check and renders as `NaN-NaN-NaN`; it
  is not rejected (`DateRange.InvalidDateText`).
- **The data request has no `proxy`.** Only the explore request carries one.
- **`hl` is replaced whenever it is falsy**, not only when it is missing. The
  same holds for `category`, which then becomes `0`.
- **A rejected query still gets defaults.** `constructObj` gives the new `Error` `hl`, `category` and a date
  range. An accepted query gets `hl` and `category` written on the
  caller's object before `formatTime` validates its bounds.

## Model

| member | source | states |
|---|---|---|
| UtcCalendar.UtcFieldsOf | src/utilities.js:7-13 | the UTC month is 1..12, the day 1..31, the hour 0..23 and the minute 0..59 |
| UtcCalendar.CivilFromDaysIsValid | src/utilities.js:7-11 | the date of every day number exists: its day lies within its month, and February 29 falls only in Gregorian leap years |
| UtcCalendar.CivilFromDaysRoundTrip | src/utilities.js:7-11 | the calendar date computed for any day number maps back to that day number under the reference day count |
| UtcCalendar.DaysFromCivilRoundTrip | src/utilities.js:7-11 | every valid date is the date computed for its own day number, so no two valid dates share a day number |
| UtcCalendar.UtcFieldsAreValid | src/utilities.js:7-11 | the UTC year, month and day of any time value form a date that exists |
| UtcCalendar.UtcDateIsUnique | src/utilities.js:7-11 | the UTC date of a time value is the one valid date whose day number is the day of that time value |
| UtcCalendar.UtcFieldsRoundTrip | src/utilities.js:7-13 | year, month, day, hour and minute of any time value recompose it exactly, up to the dropped seconds and milliseconds |
| UtcCalendar.DaysFromCivilIsDayFromYear | src/utilities.js:11 | the reference day count of January 1 of any year equals ECMAScript's DayFromYear |
| UtcCalendar.DayFromYearStep | src/utilities.js:7-11 | a year has 366 days exactly when it is a Gregorian leap year, else 365 |
| UtcCalendar.NextDateCount | src/utilities.js:7-11 | the day after a valid date (next day of the month, first of the next month, or January 1 of the next year) is valid and has the next day number |
| UtcCalendar.NextDateIsNextDay | src/utilities.js:7-11 | the date computed for the day number after a valid date's is the day after that date |
| DateRange.IsLessThan7Days | src/utilities.js:2-4 | true exactly when both dates are valid and their difference is strictly between minus and plus 604800000 ms; false with an Invalid Date |
| DateRange.SevenDayThreshold | src/utilities.js:2-4 | dates exactly seven days apart are not "less than 7 days" and one millisecond less apart are, in either order |
| DateRange.DateText | src/utilities.js:6-20 | an Invalid Date renders as `NaN-NaN-NaN`, with `TNaN\:NaN\:00` when time of day is included; no rendering contains a space |
| DateRange.MonthIsTwoDigits | src/utilities.js:7-9 | the padded month is exactly two digits and reads back as the month |
| DateRange.DateTextRoundTrip | src/utilities.js:6-20 | reading a rendered valid date gives its UTC year, month and day, plus hour and minute exactly when time of day was asked for; the reader refuses leading zeros outside the month, so the rendering is unpadded |
| DateRange.ReadDateTextCanonical | src/utilities.js:6-20 | any text the date reader accepts is exactly the rendering of the fields it reads: signed year, month padded to two digits, unpadded day, and unpadded hour and minute when a time part is present |
| DateRange.PaddedDayIsRefused | src/utilities.js:10 | a text whose day is zero-padded (such as `2004-01-05`) is not a rendering and reads as nothing |
| DateRange.MonthTextCanonical | src/utilities.js:7-9 | two digits read as a month are the padded text of their value |
| DateRange.ReadClockCanonical | src/utilities.js:12-16 | any time part the reader accepts is `T` with the unpadded hour and minute, each followed by a backslash and a colon, then `00` |
| Numerals.ReadNatText | src/utilities.js:10 | the decimal text of a natural number, followed by a non-digit, reads back as that number |
| Numerals.ReadNatCanonical | src/utilities.js:10 | whatever run of digits the reader accepts is the decimal text of its value, with no leading zero |
| Numerals.ReadIntCanonical | src/utilities.js:11 | whatever the signed reader accepts is the `String` text of its value; `-0` is refused |
| DateRange.UnpaddedFieldsExample | src/utilities.js:10-19 | 2004-01-05T01:07Z renders as `2004-01-5T1\:7\:00` or `2004-01-5`: only the month is padded |
| DateRange.InvalidDateText | src/utilities.js:2-20 | an Invalid Date renders as `NaN-NaN-NaN` (with `TNaN\:NaN\:00` when time is included) and is never within 7 days of anything |
| DateRange.RangeText | src/utilities.js:40-45 | the first space of the `time` text ends the start's rendering, and the rest is the end's rendering, both under the one shared decision whether to include time of day |
| DateRange.RangeTextRoundTrip | src/utilities.js:40-45 | the `time` text of two valid bounds reads back as both bounds, each with time of day exactly when they are under 7 days apart |
| DateRange.NormalizeBounds | src/utilities.js:23-38 | fails exactly when a bound is truthy and not a Date, with the start message first; two Dates are swapped exactly when start is later; a missing end becomes now and a missing start 2004-01-01 |
| DateRange.SuppliedBoundsAreOrdered | src/utilities.js:30-35 | with both bounds valid Dates the result is ordered and holds the same two instants |
| DateRange.DefaultedRangeCanBeReversed | src/utilities.js:30-38 | a start after `now` with no end gives a reversed range |
| DateRange.DefaultStartIsNewYear2004 | src/utilities.js:38 | the default start is 2004-01-01T00:00Z |
| DateRange.SettleBounds | src/utilities.js:23-38 | on a bad bound, returns its message and leaves the query unchanged; otherwise writes exactly the normalised bounds on the query |
| DateRange.FormatTime | src/utilities.js:22-47 | on a bad bound, returns a new Error with that message and leaves the query unchanged; otherwise returns the query itself with normalised bounds and `time` set |
| Query.ConstructError | src/utilities.js:50-58 | the callback error exactly when the callback (the query itself when that is a function) is truthy and not a function; otherwise "Must supply an object" exactly for non-objects, arrays and functions; otherwise the keyword error exactly when `keyword` is falsy |
| Query.WithDefaults | src/utilities.js:60-61 | adds `hl` and `category` and keeps every other property; a truthy value is kept, a falsy `hl` becomes `'en-US'` and a falsy `category` becomes `0` |
| Query.WithDefaultsSettles | src/utilities.js:60-61 | after the defaults `hl` is truthy and `category` is truthy or `0`, and applying them again changes nothing |
| Query.ErrorHasNoBounds | src/utilities.js:53-61 | a new Error gets exactly `hl: 'en-US'` and `category: 0`, and no bounds of its own |
| Query.ChooseTarget | src/utilities.js:50-58 | a function query becomes the callback; the result is a new Error carrying the message the checks choose, or the caller's object when they pass |
| Query.ApplyDefaults | src/utilities.js:60-61 | the object's properties become their defaulted version |
| Query.ConstructObj | src/utilities.js:49-76 | callback and result for every argument: a rejected query gives a new Error with defaults and the default range and leaves the caller's object alone; an accepted one keeps the defaults on the caller's object and then follows `formatTime` |
| Resolution.FormatResolution | src/utilities.js:78-86 | `undefined` gives `''`; a string gives its upper case exactly when that is COUNTRY, REGION, CITY or DMA, else `''`; any other value throws a TypeError |
| Resolution.FormatResolutionIdempotent | src/utilities.js:78-86 | feeding the output back in gives the same output |
| Resolution.CaseInsensitiveExamples | src/utilities.js:79-84 | "city", "City" and "cıty" (with a dotless i) all give CITY, and "dma" gives DMA |
| Resolution.RejectedExamples | src/utilities.js:78-86 | "planet" and the default argument give `''`, and a number throws |
| Payload.ParseResults | src/utilities.js:94-105 | parses the text after the four-character guard; fails, carrying the unmodified input, exactly when parsing fails or the payload is null; otherwise gives its `widgets` |
| Payload.ParseResultsRoundTrip | src/utilities.js:97 | for any four-character guard in front of a serialised `{widgets}` object, the widgets come back |
| Payload.ParseFailureKeepsBody | src/utilities.js:98-104 | a parse failure or a null payload raises an error whose request body is the whole input |
| Payload.DataBody | src/utilities.js:199-208 | the re-serialisation of what the text after the five-character guard parses to, or the whole answer unaltered when it does not parse |
| Payload.DataBodyRoundTrip | src/utilities.js:199-204 | for any five-character guard in front of a serialised value, the data step gives back that serialisation |
| Payload.DataBodyFallback | src/utilities.js:205-207 | when the text after the guard does not parse, the answer is passed through unaltered |
| Keywords.Expand | src/utilities.js:118-123 | one item per keyword, in order; item i is the query with `keyword` replaced by keyword i |
| Keywords.ComparisonItems | src/utilities.js:112-128 | for an array keyword, one item per element; otherwise the query alone |
| Keywords.FormatKeywords | src/utilities.js:112-128 | the loop's items are exactly the comparison items of the query, and the query is not modified |
| Keywords.ItemCopiesQuery | src/utilities.js:120 | item i has exactly the query's keys, keyword i, and every other field of the query |
| Keywords.ExpandAppend | src/utilities.js:118-123 | expanding a concatenation of keyword lists concatenates the expansions |
| Orchestrator.Table | src/utilities.js:132-154 | the table is built eagerly: it fails with a URIError when the keyword cannot be encoded, else with a TypeError when the resolution is not a string; it names exactly the five analysis types, and only "interest by region" has a resolution |
| Orchestrator.TableEntries | src/utilities.js:133-153 | the widget positions are 0, 0, 1, 2, 3, and the data paths are as listed |
| Orchestrator.Plan | src/utilities.js:172 | table errors come first; then an unknown analysis type fails, and a known one gives its entry |
| Orchestrator.EagerTableRejectsBadResolution | src/utilities.js:144 | a numeric resolution makes every analysis type fail with a TypeError |
| Orchestrator.ExploreOptions | src/utilities.js:156-170 | GET to `/trends/api/explore` on trends.google.com with the query's proxy; the query string has exactly `hl` (the query's), `tz` 300 and `req`, the serialisation of the comparison items with the query's category and an empty property |
| Orchestrator.Overridden | src/utilities.js:179-181 | succeeds exactly when the request is an object whose `requestOptions` is an object, array, Date or function; sets `resolution` only when non-empty; overwrites `requestOptions.category` and sets `.property` to `''`; changes nothing else |
| Orchestrator.EchoedRequestFields | src/utilities.js:177-181 | for every analysis type the echoed `requestOptions` has the query's category and an empty property; `resolution` changes only for "interest by region" with a valid resolution |
| Orchestrator.DataRequest | src/utilities.js:177-195 | succeeds exactly when the widget at the table's position exists, has a `request`, and that request can be overridden; then GET to the table's path on trends.google.com, with no proxy, and the query carries exactly `hl` (the query's), `req` (the override serialised), `token` (the widget's) and `tz` 300; otherwise a TypeError |
| Orchestrator.PrepareDataRequest | src/utilities.js:175-198 | the step-by-step override of the widget's request gives exactly the data request of the specification function |
| Orchestrator.GetResults | src/utilities.js:130-211 | a table or lookup failure sends nothing; otherwise the explore request goes first, a data request is sent only after a usable explore answer, and the outcome is the data step's re-serialisation of the second answer, or the first error met |
| Orchestrator.CatsInterestOverTime | src/utilities.js:130-198 | for "cats" over time: the first widget of the multiline path is chosen, the explore request carries the query as its only comparison item, and a bare widget request and token give a data request echoing the query's category with an empty property |
| Orchestrator.CatsPlan | src/utilities.js:132-172 | "interest over time" for "cats" is widget 0 of the multiline path, with no resolution |
| Orchestrator.CatsExplore | src/utilities.js:156-170 | the explore request for "cats", field by field |
| Orchestrator.CatsDataRequest | src/utilities.js:177-195 | the data request built from a bare widget request and a token, field by field |
| JsValues.SetNestedMemberEffect | src/utilities.js:180-181 | a nested assignment succeeds exactly when the outer value is an object whose inner value is an object, array, Date or function, and changes only that inner property |

## Left out

- `src/request.js` is not part of this model. It holds the HTTPS transport, proxy agent and promise plumbing. The transport is a parameter here, and it is deterministic: the same options give the same answer.
- Asynchrony. The promise chain is two sequential calls. A synchronous throw (table, lookup) and a rejected promise both become a `Failure` outcome; `sent` tells them apart.
- The default callback closure of lines 63-68 is the value `Func`. Its behaviour is not modelled.
- The real `JSON.parse`, `JSON.stringify` and `encodeURIComponent` are not modelled. JSON key order is not modelled either (objects are maps), and neither is `stringify` omitting `undefined` fields.
- `parseResults` rethrows the original SyntaxError or TypeError with `requestBody` added. The model keeps only the request body (`PayloadError`), not which of the two it was.
- Numbers are integers: NaN, infinities, fractions and `-0` are not modelled; integer `toString` stops matching above 10^21, where JavaScript switches to exponent notation. The time bound of `Date` (±8.64e15 ms) is not enforced.
- An analysis type naming an `Object.prototype` member (such as `"toString"`) looks up a prototype value rather than failing. The model treats every name outside the table as unknown.
- Strings are sequences of Unicode scalar values (Dafny's `char`), not of UTF-16 code units. `Payload.DropPrefix` therefore drops four or five characters where `slice(4)` and `slice(5)` drop four or five code units; the two differ when the guard holds a character outside the Basic Multilingual Plane.
- A model string cannot hold a lone surrogate. That is the only input on which `encodeURIComponent` throws, so the URIError of `Orchestrator.Table` is reached only through the `encode` parameter, which may fail on any value.
- Resolution.FormatResolution: `toUpperCase` is modelled only for ASCII letters and the dotless i. No other mapping of the Unicode case tables yields COUNTRY, REGION, CITY or DMA, so the result is the same.
- Extra properties written on arrays, Dates and functions are invisible to `JSON.stringify`, so the model drops them. Prototype getters are not modelled.
- `typeof` distinctions among primitives: every non-object first argument of `constructObj` is `null` in the model, since all of them give the same error.
