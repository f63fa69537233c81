# Pickleball signup backend: a Dafny model

This project models the request handlers of a small signup backend and the
three tables they read and write:

- `time_slots`: bookable slots. An admin creates them one at a time or in
  bulk, and anyone can list them. The table keeps one invariant: no two rows
  share a `(date, start_time)`.
- `settings`: a key-value table that an admin upserts into.
- `signups`: the forms visitors submit. Only an admin can list them.

Each handler is modelled as one sequential step.
- The admin session check is a boolean `isAdmin`.
- Each request-body or query field is an `Option`; `None` stands for a field that is absent. For the `slots` field of a bulk create, `None` also stands for a value that is not an array.
- A text field passes a JavaScript `!x` check exactly when it is present and not `""` (`Request.Present`).
- Other JSON values use `Request.Truthy`.
- The SQL statements become operations on Dafny sequences and maps.
- Text columns are compared the way SQLite's BINARY collation compares them (`TextOrder.Le`).
- A failure is an `Http.Failure`, and `StatusCode()` gives its HTTP status (400, 401, 409, or 500).

Modules:
- `Request`: absent fields, JSON values, truthiness.
- `Http`: failures and their status codes, handler results, and the `catch` of the single-slot create handler.
- `TextOrder`: the order of text columns, proved to be a total order.
- `Sorting`: insertion sort, which gives `ORDER BY` its meaning. Sorting is proved to keep every row and to produce sorted output.
- `Slots`: the `time_slots` table as the class `SlotTable`.
  - `Create` models `POST /api/slots`.
  - `CreateBulk` models `POST /api/slots/bulk`. It is a loop proved against the function `Bulk`, and lemmas about `Bulk` state what a batch does.
- `SlotListing`: `GET /api/slots`, written as a pure filter followed by a sort.
- `Settings`: the `settings` table as the class `SettingsTable`, whose `Upsert` models `POST /api/settings`.
- `Signups`: the `signups` table as the class `SignupTable`.
  - `Submit` models `POST /api/signup`.
  - `ListSignups` models `GET /api/signups`.

The model follows what the handlers' code does:
- Slot rows hold `id`, `date`, `start_time`, `end_time` and `status`. The create handlers insert only those, so there is no claimant (`booked_by`) column.
- Signup rows hold what the submit handler writes: `name`, `email`, `phone`, `experience`, `availability` and `message`. The handler does no slot selection, no `location` check and no `experience` range check, so the model has none of these.
- Bulk create refuses a `slots` field that is missing, that is not an array, or that is an empty array.

## Model

| member | source | states |
|---|---|---|
| Http.Failure.StatusCode | server/api/slots/index.post.ts:7-9 | every failure a handler raises is an HTTP error status, between 400 and 599 |
| Http.Caught | server/api/slots/index.post.ts:43-49 | the `catch` passes an error that already has a status code (the 409) through with that code; a database error becomes 500 |
| TextOrder.LeReflexive | server/api/slots/index.get.ts:12-20 | every text value is `<=` itself |
| TextOrder.LeAntisymmetric | server/api/slots/index.get.ts:12-20 | two texts that are each `<=` the other are equal |
| TextOrder.LeTransitive | server/api/slots/index.get.ts:12-20 | text `<=` is transitive |
| TextOrder.LeTotal | server/api/slots/index.get.ts:30 | any two texts are comparable |
| TextOrder.Trichotomy | server/api/slots/index.get.ts:30 | exactly one of `a < b`, `a == b`, `b < a` holds |
| Sorting.Insert | server/api/slots/index.get.ts:30 | inserting into a sorted run adds exactly that one element |
| Sorting.Sort | server/api/signups.get.ts:16 | `ORDER BY` returns a permutation of its input: every row exactly as many times as it was stored |
| Sorting.InsertSorted | server/api/slots/index.get.ts:30 | inserting into a sorted sequence by a total preorder keeps it sorted |
| Sorting.SortSorted | server/api/signups.get.ts:16 | the output of `ORDER BY` is ordered by its key |
| Sorting.SortSameElements | server/api/slots/index.get.ts:30 | sorting neither adds nor drops a row |
| Slots.Complete | server/api/slots/bulk.post.ts:27 | definition: the `!date \|\| !start_time \|\| !end_time` test fails exactly when all three fields are present and non-empty; server/api/slots/index.post.ts:15 makes the same test |
| Slots.KeyTaken | server/api/slots/index.post.ts:24-29 | definition: the `SELECT id ... WHERE date = ? AND start_time = ?` lookup returns a row exactly when some row has that date and start time; server/api/slots/bulk.post.ts:33-38 makes the same lookup |
| Slots.Insert | server/api/slots/index.post.ts:36-40 | definition: appends one `available` row with the given date, start and end time and id `nextId`, and advances `nextId`; server/api/slots/bulk.post.ts:43-47 makes the same insert |
| Slots.InsertKeepsUnique | server/api/slots/index.post.ts:24-40 | inserting a `(date, start_time)` that the lookup did not find keeps keys unique |
| Slots.Step | server/api/slots/bulk.post.ts:26-48 | each loop iteration counts its spec exactly once, as created or as skipped |
| Slots.Bulk | server/api/slots/bulk.post.ts:23-49 | definition: both counters start at 0 and the loop body `Step` runs once per spec, in array order; its properties are stated by `BulkShape` and the lemmas after it |
| Slots.BulkShape | server/api/slots/bulk.post.ts:23-49 | `created + skipped` equals the number of specs; the table grows by exactly `created` rows; old rows are unchanged; every new row is `available`, and the k-th new row gets id `nextId + k` (counting from 0) |
| Slots.InsertKeepsIdsAscending | server/api/slots/index.post.ts:36-40 | if the ids ascend and lie below `nextId`, the inserted row's id belongs to no other row and ids keep ascending |
| Slots.BulkKeepsIdsAscending | server/api/slots/bulk.post.ts:43-48 | if the ids ascend and lie below `nextId` before a bulk create, they still do after it, so every new row has an id no other row has |
| Slots.BulkKeepsUnique | server/api/slots/bulk.post.ts:33-47 | if keys are unique before a bulk create, they are unique after it |
| Slots.BulkSkipsIncomplete | server/api/slots/bulk.post.ts:27-30 | a spec with a missing or empty date, start time or end time is counted as skipped and inserts nothing |
| Slots.BulkGrows | server/api/slots/bulk.post.ts:26-48 | rows are only appended during the loop: the table after fewer specs is a prefix of the table after more |
| Slots.KeyTakenGrows | server/api/slots/bulk.post.ts:33-38 | a key the lookup finds is still found after more rows are appended |
| Slots.BulkSkipsDuplicate | server/api/slots/bulk.post.ts:33-41 | a complete spec whose `(date, start_time)` is already in the table, or appears in an earlier complete spec of the same batch, is skipped and inserts nothing |
| Slots.TakenOnlyFrom | server/api/slots/bulk.post.ts:33-47 | a key the lookup finds during the batch was in the table at the start or came from an earlier complete spec |
| Slots.BulkCreatesFresh | server/api/slots/bulk.post.ts:33-48 | a complete spec whose key is in neither the table nor an earlier complete spec is inserted, as an `available` row, and counted as created |
| Slots.BulkExample | server/api/slots/bulk.post.ts:23-49 | five specs, two of them colliding with stored slots and one without an end time, give `created = 2`, `skipped = 3` |
| Slots.SlotTable.Create | server/api/slots/index.post.ts:5-44 | no session: 401. Missing date or time: 400. Taken `(date, start_time)`: 409, passed through the `catch`. Each failure leaves the table unchanged. Otherwise exactly one `available` row with the given fields and id `nextId` is appended and the other rows are unchanged. Key uniqueness and ascending ids are preserved |
| Slots.SlotTable.CreateBulk | server/api/slots/bulk.post.ts:5-51 | no session: 401, table unchanged. Missing or empty slot array: 400, table unchanged. Otherwise the counts and the new table are those of `Bulk`, `created + skipped` is the number of specs, the table grows by `created` rows with a prefix unchanged, and key uniqueness and ascending ids are preserved |
| SlotListing.Matches | server/api/slots/index.get.ts:12-28 | definition: a row meets the `WHERE` clause when `date >= start` if `start` is truthy, `date <= end` if `end` is truthy, and `status = 'available'` if `available_only` is exactly `'true'` |
| SlotListing.Filter | server/api/slots/index.get.ts:12-28 | keeps exactly the rows that meet every active condition, each as many times as it is stored, and drops the rest |
| SlotListing.Before | server/api/slots/index.get.ts:30 | definition: `ORDER BY date, start_time`: an earlier date comes first, and within a date a start time that is not later comes first |
| SlotListing.BeforeIsTotalPreorder | server/api/slots/index.get.ts:30 | ordering by `(date, start_time)` is total and transitive |
| SlotListing.ListSlots | server/api/slots/index.get.ts:8-33 | a row is listed iff it is in the table and meets every active condition. Active conditions: `date >= start` if `start` is truthy; `date <= end` if `end` is truthy; `status = 'available'` if `available_only === 'true'`. Each matching row is listed as often as it is stored, sorted by date and then start time |
| SlotListing.FilterKeepsAll | server/api/slots/index.get.ts:26-28 | with no active condition there is no `WHERE` clause and every row is kept, in table order |
| SlotListing.ListWithoutQueryIsWholeTable | server/api/slots/index.get.ts:26-32 | without parameters the listing holds every row of the table |
| SlotListing.FilterIgnoresFalsyStart | server/api/slots/index.get.ts:12-15 | a `start` that is absent or empty applies no lower bound, whatever the other parameters |
| SlotListing.FilterIgnoresFalsyEnd | server/api/slots/index.get.ts:17-20 | an `end` that is absent or empty applies no upper bound, whatever the other parameters |
| SlotListing.FilterIgnoresOtherAvailableOnly | server/api/slots/index.get.ts:22-24 | an `available_only` other than the exact string `'true'` applies no status filter |
| SlotListing.ListIgnoresOtherAvailableOnly | server/api/slots/index.get.ts:22-24 | the listing for any other `available_only` value is the listing without it |
| SlotListing.ListOrderedByDateThenStart | server/api/slots/index.get.ts:30 | the listing is ascending by `date`, and by `start_time` within a date |
| Settings.SettingsTable.Upsert | server/api/settings/index.post.ts:5-28 | no session: 401, settings unchanged. Missing or empty key, or undefined value: 400, settings unchanged. A present but falsy value is accepted. After success the key maps to the value. An existing key keeps the key set as it was; a new key adds exactly one entry. All other keys keep their values |
| Signups.Acceptable | server/api/signup.post.ts:5 | definition: the `!body.name \|\| !body.email` test fails exactly when both are present and non-empty |
| Signups.NewRecord | server/api/signup.post.ts:13-23 | definition: the inserted row has the given id and time, the submitted name and email, and `field \|\| null` for each optional field |
| Signups.OrNull | server/api/signup.post.ts:19-22 | a field is stored as given exactly when it is truthy, and as NULL otherwise |
| Signups.NewRecordFields | server/api/signup.post.ts:13-23 | the stored name and email are the submitted ones; phone, experience, availability and message are each the input if truthy, else NULL |
| Signups.ZeroExperienceStoredAsNull | server/api/signup.post.ts:20 | an `experience` of 0 is stored as NULL |
| Signups.SignupTable.Submit | server/api/signup.post.ts:1-26 | needs no session. Missing or empty name or email: 400 and nothing written. Otherwise exactly one record is appended and the earlier ones are unchanged |
| Signups.NewerOrSame | server/api/signups.get.ts:16 | definition: `ORDER BY created_at DESC`: a record comes before another when its `created_at` is not smaller |
| Signups.NewerOrSameIsTotalPreorder | server/api/signups.get.ts:16 | ordering by `created_at` descending is total and transitive |
| Signups.ListSignups | server/api/signups.get.ts:5-19 | no session: 401 and no rows. Otherwise every stored record exactly once, ordered by `created_at` from largest to smallest |

## Left out

- The admin session is only the boolean `isAdmin`. How the session is established is not part of this model: the login handler (server/api/login.post.ts) with its password check and cookie, and the client-side redirect (app/middleware/auth.global.ts).
- app/app.config.ts is UI theme configuration with no behaviour.
- The settings listing (server/api/settings/index.get.ts) only returns the whole table. In the model that table is the `entries` field of `SettingsTable`.
- Slot status updates and slot deletion (server/api/slots/[id].patch.ts, server/api/slots/[id].delete.ts) are not part of this model.
- Database failures are not modelled: the `catch` → 500 paths and their logging. `Http.Caught` models only the re-throw decision of the single-slot create handler. A bulk create that fails part-way, leaving a partial write, is left out for the same reason.
- Concurrency is left out: requests run strictly one after another. The race between the existence check and the insert is therefore not modelled.
- The SQL text built by the listing handler is not modelled; `ListSlots` gives its meaning.
- Row ids and `created_at`:
  - The table schemas are not part of this model.
  - Ids come from a `nextId` counter in each table.
  - `created_at` is the `now` parameter of `Submit`, standing for the database clock.
  - Only `created_at`'s ordering is recorded, as an integer.
- Query parameters are single strings. A parameter repeated in the URL, which arrives as an array, is not modelled.
- Request fields are not checked for type. A truthy value that is not a string is not modelled for the slot fields `date`, `start_time` and `end_time`, for the signup fields `name` and `email`, or for the settings `key`. The handlers accept such a value, but the model types these fields as `Option<string>`.
- An object or array given as the settings `value` or as an optional signup field (`phone`, `experience`, `availability`, `message`) is stored as `Request.Compound`, which has no contents: two different objects become the same stored value. How the database driver binds a non-scalar argument is not modelled.
- A request whose body is JSON `null`, or that has no body, is not modelled. The admin handlers check the session first, so without a session such a request gets 401, as the model answers for any body. With a session, the first body check reads a field off the body: `body.slots` (server/api/slots/bulk.post.ts:15), `body.date` (server/api/slots/index.post.ts:15) or `body.key` (server/api/settings/index.post.ts:15). The signup handler has no session check and reads `body.name` (server/api/signup.post.ts:5) before anything else. In each of these cases the read throws, and the request ends with a 500. A body whose fields are all absent is modelled, and gives 400.
- A `null` entry in the bulk array is not modelled: reading `slot.date` from it throws, and the handler answers 500. Any other non-object entry (a number, a string, a boolean, an array) has no `date`, so it is skipped; the model covers it as `SlotSpec(None, None, None)`.
- Numbers are reals, so `NaN` (falsy in JavaScript) is not modelled.
- Sorting.Sort: SQL leaves the order of rows with equal sort keys unspecified. The model returns one allowed order. With unique `(date, start_time)` keys the slot listing has no ties; signups with the same `created_at` may tie.
