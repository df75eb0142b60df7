# Restaurant reservations back end: the controller chains

This project models the two Express controllers of a restaurant reservation back end:
`reservations.controller.js` and `tables.controller.js`. Each route is an ordered array of
middleware. Each middleware either calls `next()`, calls `next({status, message})`, or
throws. The first failure is the answer the client gets. After the checks, a handler
builds the record it hands to the store, or changes the store.

Modules:

- **`Js`**: the JavaScript semantics the checks rely on.
  - Truthiness and `.length`, and `Number.isInteger`, which does not coerce.
  - `Number(string)`: trimming, hex, octal and binary literals, signed decimals with a
    fraction and an exponent, `Infinity`, and NaN.
  - `<` / `>=` / `<=` between mixed strings and numbers. Two strings compare character
    by character; anything else compares as numbers, and NaN makes every comparison false.
- **`Calendar`**: the proleptic Gregorian calendar by integer arithmetic (days from
  1970-01-01, day of week, `getUTCDay`), and the two date strings the checks build: a
  bare `YYYY-MM-DD`, read as UTC midnight, and `YYYY-MM-DDTHH:MM[:SS]`, read as local
  time.
- **`Middleware`**: the request, `res.locals`, the `{status, message}` failure, a snapshot
  of the two relations, and the chain runner that stops at the first failure. The
  runner's lemmas:
  - `RunAppend`: running two chains in a row is running their concatenation.
  - `FirstFailureWins`: the first failing check is the one reported.
  - `RunSameSteps`: a chain depends only on what its checks read.
- **`Reservations`** and **`Tables`**: one function per middleware. Each contract gives
  the status and message the check fails with. All but two also give exactly when it
  passes. For `timeIsValid` the pass condition is stated in terms of `Number(...)` of the
  normalised string, and `ClockTimeIsValid` spells it out for clock-shaped times. For
  `isDuringOpenHours` it is stated by `OpenHoursRule`, for two-digit hours and minutes.
  The chains are sequences of check tags, in the order of `module.exports`.
- **`ReservationRules`** and **`TableRules`**: what whole chains promise.
  - The order in which failures are reported.
  - When a handler is reached.
  - Time normalisation, the open-hours rule and the Tuesday rule.
- **`Backend`**: the store, a class holding the two relations as maps. Its methods `Seat`,
  `Finish` and `SetStatus` run their chain and then write what the handler hands to the
  store.
  - The invariant `Consistent`: every row carries its own id, and every occupied table
    names an existing reservation whose party fits.
  - Lemmas show that seating, finishing and status changes keep the invariant.
  - A seated table can be finished and refuses further seating.
  - A finished table is free, and a second finish is refused with `not occupied`.

`res.locals` is threaded through each chain as a value. Each check returns the locals the
next one sees, so the writes of `timeIsValid`, `bodyHasReservationId`, `tableExists`,
`reservationIdExists` and `reservationExists` appear in the checks' contracts.

What the code does, as opposed to what its comments say, shows in several places. The
model follows the code.

- **Capacity.** `isValidCapacity` is described as accepting a positive integer. It refuses
  only 0 and non-integers, so a capacity of -2 is accepted (`TableRules.NegativeCapacityAccepted`).
- **Open hours.** The check is literally `hour >= 22 || (hour <= 10 && mins <= 30)`, on
  the hour and minute strings. So `09:45` counts as open (`ReservationRules.OpenHoursExamples`).
- **Future check.**
  - `timeIsValid` also accepts the compact form `HHMM`.
  - `dateIsInTheFuture` builds `${date}T${time}`. With `HHMM` that string is an Invalid
    Date.
  - An Invalid Date compares false with the current time, so such a reservation passes
    the future check on any date (`ReservationRules.CompactTimeSkipsFutureCheck`).
- **Update.** The `update` route runs every field check before the existence check, so an
  invalid body sent to an unknown id gets 400, not 404.
- **`people`.** The check on `people` admits only numbers. A numeric string such as `"4"`
  is refused.
- **Request-level sources.** "Now" is a field of the request, in local milliseconds since
  1970; local time has no offset here. The store is passed to the checks that read it.

## Model

| member | source | states |
|---|---|---|
| `Middleware.RunAppend` | back-end/src/reservations/reservations.controller.js:229-264 | a chain followed by another behaves as their concatenation: the second runs only from the locals the first passed on |
| `Middleware.FirstFailureWins` | back-end/src/reservations/reservations.controller.js:229-264 | when the checks before position i pass and check i fails, the whole chain answers with check i's failure |
| `Middleware.PassedEveryCheck` | back-end/src/tables/tables.controller.js:149-173 | a chain that passes passed every one of its checks, each from the locals its predecessors left |
| `Middleware.RunSameSteps` | back-end/src/tables/tables.controller.js:157-171 | two runners that agree on every check of a chain give the same outcome for it |
| `Middleware.KeyOf` | back-end/src/tables/tables.controller.js:103-111 | an id names a row exactly when it is an integral number, naming its own value, or a non-empty digit string, naming its decimal value; undefined, null and booleans name none |
| `Calendar.NextDayIsOneMore` | back-end/src/reservations/reservations.controller.js:121-131 | the day number of the next calendar day is one more, across month ends, leap Februaries and century years |
| `Calendar.WeekDayOfNextDay` | back-end/src/reservations/reservations.controller.js:121-131 | the weekday of the next calendar day is the next weekday |
| `Calendar.TimeClip` | back-end/src/reservations/reservations.controller.js:47-56 | a number of milliseconds is a valid date exactly when its magnitude is at most 8.64e15 |
| `Calendar.JanuarySecond2024IsTuesday` | back-end/src/reservations/reservations.controller.js:121-131 | `new Date("2024-01-02")` is day 19724 and its UTC weekday is 2 |
| `Js.DigitsCompare` | back-end/src/reservations/reservations.controller.js:134-143 | comparing a digit string with a number with `>=` or `<=` compares the string's decimal value |
| `Reservations.HasBodyData` | back-end/src/reservations/reservations.controller.js:8-16 | passes exactly when there is a body; otherwise 400 without a message, and the locals are unchanged |
| `Reservations.NameIsValid` | back-end/src/reservations/reservations.controller.js:19-32 | passes exactly when both names are non-empty strings; the first name is checked, and reported, before the last |
| `Reservations.MobileNumberIsValid` | back-end/src/reservations/reservations.controller.js:35-44 | passes exactly for a truthy mobile number (non-empty string, non-zero number, `true`); otherwise 400 `mobile_number` |
| `Reservations.DateIsValid` | back-end/src/reservations/reservations.controller.js:47-56 | passes exactly for a `YYYY-MM-DD` string, a non-zero time value within range, or `true`; otherwise 400 `reservation_date` |
| `Reservations.TimeIsValid` | back-end/src/reservations/reservations.controller.js:59-80 | passes exactly for a non-empty string whose normalised form converts to an integer; stores its first two and next two characters as hour and minutes; any string that fails, and any falsy time, is 400 `reservation_time`; a truthy non-string throws the `substring` TypeError |
| `Reservations.PeopleIsValid` | back-end/src/reservations/reservations.controller.js:83-92 | passes exactly for an integer number greater than 0; otherwise 400 `people` |
| `Reservations.ReservationExists` | back-end/src/reservations/reservations.controller.js:95-105 | passes exactly when the route id names a stored reservation, which it puts in the locals; otherwise 404 echoing the id |
| `Reservations.DateIsInTheFuture` | back-end/src/reservations/reservations.controller.js:108-118 | refuses, with 400 "Reservation must be in the future", exactly a valid date-time earlier than now; an Invalid Date passes |
| `Reservations.DateIsNotTuesday` | back-end/src/reservations/reservations.controller.js:121-131 | refuses, with 400 "Restaurant is closed on Tuesdays", exactly a valid date whose UTC weekday is 2 |
| `Reservations.IsDuringOpenHours` | back-end/src/reservations/reservations.controller.js:134-143 | fails only with 400 "We are not open at that time" and never changes the locals |
| `Reservations.NewStatusIsValid` | back-end/src/reservations/reservations.controller.js:146-160 | passes exactly for booked, seated, finished or cancelled; otherwise 400 echoing the value |
| `Reservations.IsNotFinished` | back-end/src/reservations/reservations.controller.js:163-171 | passes exactly when the loaded reservation is not `finished`; otherwise 400 `finished` |
| `Reservations.BookedRecord` | back-end/src/reservations/reservations.controller.js:188-198 | a client status `seated` or `finished` is refused with 400 echoing it; otherwise the status becomes `booked` and every other field is kept |
| `Reservations.Create` | back-end/src/reservations/reservations.controller.js:188-207 | a chain failure or throw is passed on unchanged. After a passing chain, a `seated` or `finished` status is 400 echoing it. Otherwise an unpersisted row is 500 "Failed to create reservation" and a persisted one succeeds. A created record has status `booked` and keeps every other body field |
| `Reservations.Read` | back-end/src/reservations/reservations.controller.js:210-212 | answers the stored reservation the route id names, or 404 echoing the id |
| `Reservations.Update` | back-end/src/reservations/reservations.controller.js:215-220 | the body is handed to the store exactly when the update chain passes; a chain failure or throw is passed on unchanged |
| `Reservations.StatusChange` | back-end/src/reservations/reservations.controller.js:223-227 | the change goes through exactly when the status chain passes, and carries the requested status; a chain failure is passed on unchanged |
| `ReservationRules.CreateReportsFirstFailure` | back-end/src/reservations/reservations.controller.js:230-241 | the create chain reports exactly its first failing check |
| `ReservationRules.FirstNameReportedFirst` | back-end/src/reservations/reservations.controller.js:19-32 | with an empty first name, create and update both answer 400 `first_name`, whatever else is wrong |
| `ReservationRules.TuesdayIsRefused` | back-end/src/reservations/reservations.controller.js:121-131 | once the earlier checks pass, a Tuesday date makes create answer "Restaurant is closed on Tuesdays" |
| `ReservationRules.JanuarySecond2024IsRefused` | back-end/src/reservations/reservations.controller.js:121-131 | 2024-01-02 is refused as a Tuesday |
| `ReservationRules.ValidationFailsWithBadRequest` | back-end/src/reservations/reservations.controller.js:229-264 | any chain without the existence check fails only with 400 |
| `ReservationRules.ValidationIgnoresStore` | back-end/src/reservations/reservations.controller.js:229-264 | any chain without the existence check gives the same answer whatever the store holds |
| `ReservationRules.UpdateValidatesBeforeLookup` | back-end/src/reservations/reservations.controller.js:244-256 | an invalid body gets the same answer from the update chain and the `update` route whether or not the reservation exists, and a refusal is 400, never 404 |
| `ReservationRules.UpdateNamesExistingReservation` | back-end/src/reservations/reservations.controller.js:244-256 | an update that goes through has a valid body and names a stored reservation |
| `Reservations.StatusLoadedPart` | back-end/src/reservations/reservations.controller.js:260-262 | on the loaded reservation, `finished` is refused before the new status is checked against the four |
| `Reservations.BodyCheckedFirst` | back-end/src/reservations/reservations.controller.js:8-16 | a chain headed by `hasBodyData` passes only with a body |
| `Reservations.StatusChainOutcome` | back-end/src/reservations/reservations.controller.js:257-263 | the status route answers, in order: no body 400, unknown id 404, `finished` 400, a status outside the four 400 echoing it |
| `ReservationRules.StatusChangeOnlyStatus` | back-end/src/reservations/reservations.controller.js:223-227 | a status change rewrites only the `status` of the stored row, to one of the four values, and never for a `finished` reservation |
| `ReservationRules.NormalisedClock` | back-end/src/reservations/reservations.controller.js:66-71 | `HH:MM`, `HH:MM:SS` and `HHMM` all normalise to the four digits `HHMM` |
| `ReservationRules.ClockDigits` | back-end/src/reservations/reservations.controller.js:66-75 | the normal form of a clock-shaped time is an integer literal whose first two and next two characters are the hour and minute digits |
| `ReservationRules.ClockTimeIsValid` | back-end/src/reservations/reservations.controller.js:59-80 | a time in one of those forms passes, leaving its hour digits and minute digits in the locals |
| `ReservationRules.EighteenHundred` | back-end/src/reservations/reservations.controller.js:59-80 | "18:00", "18:00:00" and "1800" all give hour "18" and minutes "00" |
| `ReservationRules.OpenHoursRule` | back-end/src/reservations/reservations.controller.js:134-143 | with two-digit hour and minutes, a time is refused exactly when hour >= 22, or hour <= 10 and minutes <= 30 |
| `ReservationRules.OpenHoursExamples` | back-end/src/reservations/reservations.controller.js:134-143 | 21:45, 10:31 and, by the literal rule, 09:45 are open |
| `ReservationRules.ClosedHoursExamples` | back-end/src/reservations/reservations.controller.js:134-143 | 22:00 and 10:00 are refused with "We are not open at that time" |
| `ReservationRules.ColonTimeIsChecked` | back-end/src/reservations/reservations.controller.js:108-118 | with an ISO date and an `HH:MM[:SS]` time, the check compares that local moment with now |
| `ReservationRules.CompactTimeSkipsFutureCheck` | back-end/src/reservations/reservations.controller.js:108-118 | with an `HHMM` time the date-time is invalid and the future check passes |
| `Tables.BodyHasData` | back-end/src/tables/tables.controller.js:6-15 | passes exactly when there is a body; otherwise 400 `body` |
| `Tables.BodyHasReservationId` | back-end/src/tables/tables.controller.js:18-28 | passes exactly for a truthy `reservation_id`, which it stores in the locals; otherwise 400 `reservation_id` |
| `Tables.HasCapacity` | back-end/src/tables/tables.controller.js:31-38 | passes exactly for a truthy capacity; otherwise 400 `capacity` |
| `Tables.IsValidCapacity` | back-end/src/tables/tables.controller.js:41-47 | passes exactly for a non-zero integer number, negative ones included; otherwise 400 `capacity` |
| `Tables.IsValidName` | back-end/src/tables/tables.controller.js:50-56 | passes exactly for a string of at least two characters; otherwise 400 `table_name` |
| `Tables.TableKey` | back-end/src/tables/tables.controller.js:60-61 | `Number(table_id)` names a row exactly when it is finite and integral |
| `Tables.TableExists` | back-end/src/tables/tables.controller.js:59-71 | passes exactly when `Number(table_id)` names a stored table, which it puts in the locals; otherwise 404 echoing the parameter |
| `Tables.ReservationIdExists` | back-end/src/tables/tables.controller.js:103-111 | passes exactly when the body's id names a stored reservation, which it puts in the locals; otherwise 404 with the id rendered as text |
| `Tables.IsTableBigEnough` | back-end/src/tables/tables.controller.js:74-82 | passes exactly when the loaded capacity is `>=` the loaded party size, as JavaScript compares; otherwise 400 `capacity` |
| `Tables.IsAvailable` | back-end/src/tables/tables.controller.js:85-91 | passes exactly when the loaded table's `reservation_id` is falsy; otherwise 400 `occupied` |
| `Tables.IsOccupied` | back-end/src/tables/tables.controller.js:94-100 | passes exactly when the loaded table's `reservation_id` is truthy; otherwise 400 `not occupied` |
| `Tables.IsReservationSeated` | back-end/src/tables/tables.controller.js:114-122 | passes exactly when the loaded reservation is not `seated`; otherwise 400 "reservation is already seated" |
| `Tables.BodyCheckedFirst` | back-end/src/tables/tables.controller.js:6-15 | a chain headed by `bodyHasData` passes only with a body |
| `Tables.Create` | back-end/src/tables/tables.controller.js:125-127 | the body is handed to the store exactly when the create chain passes; a chain failure or throw is passed on unchanged |
| `TableRules.CreateOutcome` | back-end/src/tables/tables.controller.js:150-156 | create answers, in order: no body 400 `body`, falsy capacity 400 `capacity`, short name 400 `table_name`, non-integer or zero capacity 400 `capacity` |
| `TableRules.CreateAccepts` | back-end/src/tables/tables.controller.js:31-56 | a table is created exactly from a name of two or more characters and a non-zero integer capacity; a refused body gets 400 and never throws |
| `TableRules.NegativeCapacityAccepted` | back-end/src/tables/tables.controller.js:41-47 | a capacity of -2 is accepted |
| `TableRules.SeatReservationPart` | back-end/src/tables/tables.controller.js:158-161 | the first four seat checks answer: no body, falsy id, unknown reservation 404, already `seated` 400 |
| `TableRules.SeatLoadedPart` | back-end/src/tables/tables.controller.js:163-164 | on the loaded rows, capacity is checked before occupancy |
| `TableRules.SeatTablePart` | back-end/src/tables/tables.controller.js:162-164 | the last three seat checks answer: unknown table 404, too small 400 `capacity`, occupied 400 `occupied` |
| `TableRules.SeatOutcome` | back-end/src/tables/tables.controller.js:157-166 | the seat route answers its seven failures in the order of the chain; otherwise the locals hold the id and both loaded rows |
| `TableRules.SeatReachedExactly` | back-end/src/tables/tables.controller.js:135-141 | the seat handler is reached exactly when the table is free, its capacity is at least the party and the reservation is not `seated` |
| `TableRules.LoadedChecksReadOnlyLocals` | back-end/src/tables/tables.controller.js:74-122 | after the lookups, the remaining seat and finish checks depend only on the loaded rows, not on the request or the store |
| `TableRules.FinishLoadedPart` | back-end/src/tables/tables.controller.js:169 | on the loaded table, finish passes exactly when the table seats someone, else 400 `not occupied` |
| `TableRules.FinishOutcome` | back-end/src/tables/tables.controller.js:167-171 | finish answers 404 echoing the parameter for an unknown table and 400 `not occupied` for a free one; otherwise the table is loaded |
| `TableRules.AvailableOrFinishable` | back-end/src/tables/tables.controller.js:84-100 | for a known table exactly one of `isAvailable` and `isOccupied` passes, and finish is reached exactly when `isAvailable` fails |
| `Backend.KeyOfOwnId` | back-end/src/tables/tables.controller.js:136-139 | a row's own integral id names that row |
| `Backend.SeatKeepsConsistent` | back-end/src/tables/tables.controller.js:135-141 | seating keeps every occupied table naming an existing reservation that fits it |
| `Backend.SeatedTableIsOccupied` | back-end/src/tables/tables.controller.js:157-171 | after seating, the table can be finished and any further seat request for it is refused |
| `Backend.FinishFreesTable` | back-end/src/tables/tables.controller.js:144-147 | finishing keeps the store consistent and frees the table; finishing it again answers 400 `not occupied` |
| `Backend.StatusChangeKeepsConsistent` | back-end/src/reservations/reservations.controller.js:223-227 | writing back a reservation with only its status changed keeps the store consistent |
| `Backend.Store.Seat` | back-end/src/tables/tables.controller.js:135-141 | answers as the seat chain does; on success only the loaded table's `reservation_id` changes, to the body's id; otherwise nothing changes; consistency is kept |
| `Backend.Store.Finish` | back-end/src/tables/tables.controller.js:144-147 | answers as the finish chain does; on success only the loaded table's `reservation_id` changes, to null; otherwise nothing changes; consistency is kept |
| `Backend.Store.SetStatus` | back-end/src/reservations/reservations.controller.js:223-227 | answers as the status route does; on success only that reservation's row is replaced, by itself with the new status; consistency is kept |

## Left out

- `list` in both controllers, the search by mobile number and list-by-date ordering: these are done by the persistence services, which are not part of this model.
- The services' own effects.
  - `tables.service.seat` and `tables.service.finish` are modelled only as writing the table row's `reservation_id`. Any status change they make to the reservation is not modelled.
  - `service.create` is not modelled, including how it assigns ids and stores rows. `Reservations.Create` and `Tables.Create` give the record handed to it, and `persisted` stands for whether it hands a row back.
  - The store write made by `update` is not modelled: which row `service.update(body)` writes depends on the service.
- How the database matches an id against its key column. `KeyOf` accepts an integral number or a digit string, and `Number(table_id)` must be finite and integral. Postgres coercions beyond that are not modelled.
- Concurrency: two seat requests for the same table can interleave between the checks and the write. Each request is modelled as one sequential run.
- Express plumbing.
  - `asyncErrorBoundary` and the error handler that turns a thrown TypeError into a 500 are not modelled; a throw is the `Thrown` outcome.
  - `hasBodyData`, `bodyHasData` and `isValidCapacity` call `next()` again after `next(error)`. The failure is still the answer, and the route's remaining middleware is already used up, so these are modelled as stopping at the failure.
- Body values that are arrays or objects: the body fields are primitives here. A truthy non-object body reads as an object with no fields.
- Number precision: numbers are exact reals, so double rounding and very large or tiny literals are not modelled. NaN appears only as the result of `Number(...)`.
- String lengths count characters, not UTF-16 code units.
- `Js.StringLess`: compares Dafny characters, while JavaScript compares UTF-16 code units. The two orders differ only for characters outside the Basic Multilingual Plane; the strings the checks compare are digit strings.
- `Reservations.IsDuringOpenHours`: its own contract states only how it fails. When it passes is stated by `ReservationRules.OpenHoursRule`, and only for two-digit hour and minute strings, which is what `timeIsValid` leaves for clock-shaped times.
- Falsy bodies other than `undefined`. `Request.data` is `None` for every falsy `data`, and each field check then throws. In JavaScript, destructuring `0`, `""` or `false` does not throw: the field reads `undefined`, so `nameIsValid` would answer 400 `first_name`. No chain reaches a field check with such a body, because the body check runs first and refuses it.
- `Date` parsing. Only the two forms the checks build are parsed.
  - `YYYY-MM-DD` is read as UTC midnight. A day past the end of its month (up to 31) runs on into the next month.
  - `YYYY-MM-DDTHH:MM[:SS]` is read as local time, with no fractional seconds and no offset.
  - Every other string is an Invalid Date.
  - Local time has no daylight-saving shifts.
- `Reservations.ReservationInstant`: a non-string date or time makes the combined date-time an Invalid Date, rather than being rendered into the template string and parsed.
