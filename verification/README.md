# Dietary settings: goal calculator and settings endpoints

This project models the backend's per-user dietary settings, which live in
`apps/backend/routes/users/dietarySettings.ts`. Each user has one row of five nutrition goals:
water, calories, protein, fat and carbs. The model covers three parts:

- **The goal calculator.** If a user has no row yet, default goals are derived. When weight,
  height or date of birth is missing (falsy), the defaults are fixed per sex. Otherwise the
  calorie goal is the Mifflin-St Jeor basal metabolic rate, using an age that subtracts calendar
  years only. That value is split 20 % fat, 20 % protein and 60 % carbs. The water goal is always
  2000 ml.
- **The read endpoint (`get`).** It authenticates the request, returns the stored row, and
  inserts the default row the first time.
- **The partial-update endpoint (`patch`).** It validates the body against a strict schema of
  five optional numeric fields, then authenticates. Finally it upserts on the user id: it
  overwrites only the supplied fields, or creates the row.

The database table is a `map<UserId, Settings>`. The table's unique user-id constraint becomes
the map key, and `SettingsStore.WellFormed` states that every row sits under its own user's key.
Each handler is a pure function. It takes the table, the session validator, the request's token
and body, and the environment, and it returns the response (status, error flag, payload) together
with the new table.

Collaborators and environment are parameters:

- **The session validator.** It is an arbitrary function from the (possibly absent) token to a
  possibly-null record. The record holds a possibly-null session and a possibly-null user.
- **The current calendar year.** It is passed to `get` as an integer.
- **The column defaults.** A row created by `patch` takes these for fields the body does not
  supply. The schema that defines them is not part of this model, so they are a `Goals`
  parameter.

Numbers are exact `real`s.

The modules, leaf first:

- `Wrappers`: `Option`, which stands for JavaScript's null and undefined.
- `Json`: the parsed request body.
- `DietaryRecords`: goals, rows, partial updates and the field-wise merge.
- `GoalCalculator`: the user profile, truthiness of the biometrics, the BMR and the split.
- `SettingsStore`: the table, lookup, insert and upsert.
- `UpdateSchema`: the strict update schema, as `Parse`, together with its inverse `Encode`.
- `DietarySettingsRoutes`: the two handlers.
- `RouteProperties`: properties that relate several requests.

Truthiness follows the field types the code implies. The weight is passed through `parseFloat`,
so it is a decimal string: it is falsy only when absent, and a stored "0" still takes the BMR
path. The height enters `6.25 * height` directly, so it is a number: a height of 0 is falsy and
selects the fallback. The token tested by `patch` is falsy when absent or empty.

## Model

| member | source | states |
|---|---|---|
| DietaryRecords.Merge | apps/backend/routes/users/dietarySettings.ts:111-118 | every supplied field takes the supplied value; every field not supplied keeps the existing value |
| DietaryRecords.MergeIdempotent | apps/backend/routes/users/dietarySettings.ts:114-117 | applying the same update twice gives the same goals as applying it once |
| DietaryRecords.MergeNoChange | apps/backend/routes/users/dietarySettings.ts:114-117 | an update that supplies no field leaves the goals unchanged |
| DietaryRecords.MergeOverwritesSupplied | apps/backend/routes/users/dietarySettings.ts:114-117 | the result depends on the old row only through the fields the update does not supply |
| GoalCalculator.HasBiometrics | apps/backend/routes/users/dietarySettings.ts:23-27 | biometrics are incomplete exactly when the weight is absent, the height is absent or 0, or the birth date is absent |
| GoalCalculator.Bmr | apps/backend/routes/users/dietarySettings.ts:54-63 | the Mifflin-St Jeor rate: 10·weight + 6.25·height − 5·age, plus 5 for sex "M" and minus 161 for any other sex value |
| GoalCalculator.Split | apps/backend/routes/users/dietarySettings.ts:64-73 | the calorie goal is the given budget, water is 2000, fat equals protein, carbs are three times fat, and fat + protein + carbs equals the calorie goal |
| GoalCalculator.DefaultGoals | apps/backend/routes/users/dietarySettings.ts:23-73 | on both paths water is 2000, fat = protein = one fifth of the calorie goal, and the three macros sum to the calorie goal |
| GoalCalculator.FallbackGoals | apps/backend/routes/users/dietarySettings.ts:23-47 | with weight, height or birth date missing, the goals are 2000/2000/400/400/1200 for sex "M" and 2000/1600/320/320/960 for any other sex value |
| GoalCalculator.BmrGoals | apps/backend/routes/users/dietarySettings.ts:51-73 | with complete biometrics the calorie goal is 10·weight + 6.25·height − 5·(currentYear − birthYear), plus 5 for "M" and minus 161 otherwise; fat and protein are 0.2 of it, carbs 0.6, water 2000 |
| GoalCalculator.SexOffset | apps/backend/routes/users/dietarySettings.ts:54-63 | for the same body the "M" calorie goal is 166 above any other sex value's, fat is 33.2 above and carbs 99.6 above |
| GoalCalculator.OneYearOlder | apps/backend/routes/users/dietarySettings.ts:51-59 | advancing the current year by one lowers the calorie goal by exactly 5 |
| GoalCalculator.ExampleMale | apps/backend/routes/users/dietarySettings.ts:51-73 | a male of 80 kg, 180 cm and 30 calendar years gets 2000 ml, 1780, 356, 356 and 1068 |
| GoalCalculator.ZeroHeightFallsBack | apps/backend/routes/users/dietarySettings.ts:23-27 | a height of 0 is falsy and selects the fallback calories; a weight of 0 still counts as present |
| SettingsStore.Find | apps/backend/routes/users/dietarySettings.ts:18-20 | on a well-formed table, a row is found exactly when some row carries that user id, and the found row carries it |
| SettingsStore.Insert | apps/backend/routes/users/dietarySettings.ts:28-31 | inserting a row for a user without one adds exactly that key, makes the row findable, keeps every existing row and keeps the table well-formed |
| SettingsStore.Upsert | apps/backend/routes/users/dietarySettings.ts:111-118 | the affected row is keyed by the user; supplied fields take the supplied values; other fields come from the existing row or from the column defaults; other rows are unchanged; the table stays well-formed |
| SettingsStore.UpsertIdempotent | apps/backend/routes/users/dietarySettings.ts:111-118 | repeating an upsert returns the same row and leaves the table as it was after the first |
| UpdateSchema.Conforms | apps/backend/routes/users/dietarySettings.ts:88-96 | a body conforms exactly when it is an object whose key set lies within the five goal names and whose values are all numbers |
| UpdateSchema.Parse | apps/backend/routes/users/dietarySettings.ts:88-100 | a body is accepted exactly when it is an object whose keys are all among the five goal names and whose values are all numbers; each field is supplied exactly when its key is present, with that number |
| UpdateSchema.Encode | apps/backend/routes/users/dietarySettings.ts:88-95 | the encoded body satisfies the schema and has a key exactly for each supplied field |
| UpdateSchema.ParseEncode | apps/backend/routes/users/dietarySettings.ts:88-100 | parsing the encoding of any update gives back that update |
| UpdateSchema.EncodeParse | apps/backend/routes/users/dietarySettings.ts:88-100 | every accepted body is the encoding of what it parses to, so nothing beyond the five numeric keys is accepted |
| UpdateSchema.UnknownKeyRejected | apps/backend/routes/users/dietarySettings.ts:88-96 | an object with a key outside the five goal names is rejected |
| DietarySettingsRoutes.Present | apps/backend/routes/users/dietarySettings.ts:102-105 | the token passes the falsiness test exactly when it is present and not the empty string |
| DietarySettingsRoutes.SessionUser | apps/backend/routes/users/dietarySettings.ts:106-113 | a user is authenticated exactly when the validator's record has both a session and a user |
| DietarySettingsRoutes.ReadOrCreate | apps/backend/routes/users/dietarySettings.ts:18-78 | answers 200 with the user's row; an existing row comes back with the table untouched; a missing row is created from the default goals and becomes findable; no other row changes |
| DietarySettingsRoutes.GetAsWritten | apps/backend/routes/users/dietarySettings.ts:10-82 | a null validator answer gives 401; a record whose user is null gives 500; any record with a user, even one with a null session, gives 200 with that user's row, which is then findable; any non-200 answer leaves the table unchanged; existing rows are never modified; the only key that can appear is the record user's; the table stays well-formed |
| DietarySettingsRoutes.Get | apps/backend/routes/users/dietarySettings.ts:10-82 | 401 exactly when there is no session with a user, and then the table is unchanged; otherwise 200 with a row; existing rows are never modified; the only key that can appear is the session user's; the table stays well-formed |
| DietarySettingsRoutes.UpsertResponse | apps/backend/routes/users/dietarySettings.ts:119-123 | no returned rows gives 404 "User not found"; otherwise 200 with `error: false` and the returned rows as data |
| DietarySettingsRoutes.Patch | apps/backend/routes/users/dietarySettings.ts:86-127 | a body the schema rejects gives 500 whatever the token; a falsy token gives 401; 200 exactly when body, token and session with user are all valid; every non-200 answer leaves the table unchanged; the table stays well-formed |
| RouteProperties.GetReturnsExistingRow | apps/backend/routes/users/dietarySettings.ts:18-22 | a user with a row gets exactly that row back, and the table is unchanged |
| RouteProperties.GetCreatesDefaultRow | apps/backend/routes/users/dietarySettings.ts:22-75 | a user without a row gets the default-goals row; the table gains exactly that one row |
| RouteProperties.GetIdempotent | apps/backend/routes/users/dietarySettings.ts:18-78 | a second read gives the same response and leaves the same table as the first, even in a later year |
| RouteProperties.GetAsWrittenIdempotent | apps/backend/routes/users/dietarySettings.ts:10-82 | for the read as written, a second read gives the same response and leaves the same table as the first, even in a later year |
| RouteProperties.GetAsWrittenNullSessionWithUser | apps/backend/routes/users/dietarySettings.ts:13-22 | a record with a user but a null session passes the read as written (200, creating the user's row if missing), while the corrected read answers 401 with the table unchanged |
| RouteProperties.GetAsWrittenAgrees | apps/backend/routes/users/dietarySettings.ts:10-22 | with a session and a user present, the read endpoint as written equals the corrected one |
| RouteProperties.GetWithoutSessionLeavesStore | apps/backend/routes/users/dietarySettings.ts:12-20 | with a null validator answer or a null user, neither version of the read changes the table, and the corrected one answers 401 |
| RouteProperties.GetAsWrittenInvalidSessionIs500 | apps/backend/routes/users/dietarySettings.ts:13-19 | for a record with null session and null user, the read as written answers 500 where the corrected one answers 401 |
| RouteProperties.PatchUpdatesExistingRow | apps/backend/routes/users/dietarySettings.ts:111-123 | an existing row gets exactly the supplied fields overwritten; the other fields and all other users' rows are untouched; no key is added; the answer is 200 with that row |
| RouteProperties.PatchCreatesRow | apps/backend/routes/users/dietarySettings.ts:111-123 | without a row, one is created under the session user's id from the supplied fields and the column defaults; existing rows are untouched |
| RouteProperties.PatchWaterOnly | apps/backend/routes/users/dietarySettings.ts:111-118 | updating only the water goal changes the stored row in that field alone |
| RouteProperties.PatchRejectsUnknownKey | apps/backend/routes/users/dietarySettings.ts:88-100 | a body with an unknown key gives 500 and the table unchanged, whatever the token and the validator |
| RouteProperties.PatchWithoutSession | apps/backend/routes/users/dietarySettings.ts:102-109 | with a valid body, a falsy token or a null session gives 401 and the table unchanged |
| RouteProperties.PatchIdempotent | apps/backend/routes/users/dietarySettings.ts:86-127 | sending the same update twice gives the same response and table as sending it once |
| RouteProperties.GetAfterPatch | apps/backend/routes/users/dietarySettings.ts:18-22 | after a successful update, a read returns the updated row and inserts nothing |
| RouteProperties.Replay | apps/backend/routes/users/dietarySettings.ts:10-127 | over any sequence of reads (as written) and updates, the table stays well-formed (one row per user, under that user's key), and no row is ever removed |

## Left out

- The Express request and response objects, and the Drizzle/PostgreSQL query builder, are replaced
  by the map table and the `Response` datatype. The type-only queries at lines 83-84 and 128-132
  are not modelled.
- Requests are served one at a time. Two concurrent first reads of `get` can both miss at the
  lookup (line 18) before either inserts (lines 28 and 64). The second insert would then violate
  the unique user-id constraint and answer 500. That interleaving is not modelled: `Insert`
  requires the user to have no row, and the replay of a request history is sequential.
- A failing database has no counterpart. The map cannot fail, so the generic 500 for an
  unavailable store is not reachable in the model. Only the thrown errors the code itself
  provokes (a schema error, a read from a null session or user) lead to 500.
- The 404 branch of `patch` is modelled by `UpsertResponse`. An upsert on a map always returns
  one row, so it is never taken.
- The internals of `validateSessionToken` are not part of this model. The validator is an
  arbitrary function of the token.
- JavaScript doubles, `parseFloat` and the `String(...)` conversion of goals to decimal strings
  are not modelled. Goals are exact reals, so rounding such as `bmr * 0.6` in floating point is
  not captured. An unparsable weight (NaN) or an invalid date is not modelled either.
- The wall clock (`new Date()`) is replaced by the current calendar year as a parameter. The
  time-zone dependence of `getFullYear` is not modelled.
- The water goal is a real like the other goals. The schema accepts any number for it, and how
  the integer column would coerce a fractional value is not modelled.
- Patch: an empty body `{}` is modelled as an update that changes nothing. What the query
  builder emits for an empty update set is not part of this model.
- The error detail of a 500 is one of two markers (validation error, null dereference). The
  schema library's issue list and the serialised exception are not modelled.
- The mobile HTTP client (retries, toasts, navigation, secure storage) and the build and tool
  configuration files are not modelled. They are library, user-interface or I/O behaviour.

## Findings

| source | as written | input that shows it | evidently intended | confidence | as-written member | corrected member |
|---|---|---|---|---|---|---|
| apps/backend/routes/users/dietarySettings.ts:13-19 | `get` treats only a null validator answer as unauthorised, then reads `session.user!.id` | a validator record with a null session and a null user, the shape `patch` tests at line 107 | answer 401 "Unauthorized" for every request without a session, as `patch` does | medium: depends on the validator returning such a record for an invalid token, which `patch`'s check implies; not executed | RouteProperties.GetAsWrittenInvalidSessionIs500 (on DietarySettingsRoutes.GetAsWritten) | DietarySettingsRoutes.Get |

The properties of reads are stated for the corrected `Get`. `RouteProperties.GetAsWrittenAgrees`
shows that `Get` and the code as written agree on every request that has both a session and a
user. So the single-request properties of an authenticated read also hold for the code as written.
The two differ on every other record. The corrected `Get` refuses a record with a null session,
which is the test `patch` applies at line 107. It also refuses a record with a null user, instead
of reading a property from it. The code as written instead lets a record with a user and a null
session through (`RouteProperties.GetAsWrittenNullSessionWithUser`). For that reason the
properties over whole request histories are proved for the read as written:
`RouteProperties.GetAsWrittenIdempotent` and `RouteProperties.Replay`, which serves reads with
`GetAsWritten`.
