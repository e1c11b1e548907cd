# city-list: a Dafny model of the State → District → Town store

city-list is a small CRUD API over three MongoDB collections: states,
districts and towns. A district embeds a snapshot of its state (`{name,
code}`) and a town embeds a snapshot of its district (`{name, state}`). Each
parent keeps a denormalized list of its children: `state.districts` holds
`{name, code}` entries and `district.towns` holds `{name, urbanStatus}`
entries. Nothing is ever removed; `remove` flips `status` from `"active"`
to `"deleted"`, and every read filters on `status: "active"`.

The model has these parts:

- `Documents` (documents.dfy): the stored records, the `required` checks a
  save performs, and the unique indexes of the district schema (`name`,
  `code`) and the town schema (`name`). The indexes have no status
  condition, so a soft-deleted document still holds its keys.
- `Store` (store.dfy): the generic adapter of `src/helpers/services/index.js`.
  - The read queries `find`, `findById`, `findByName` and `checkDuplicate`
    are functions over a snapshot of one collection.
  - The writes `create`, `updateExisting`, `update` and `removeById` are
    methods of the class `Collection`. It holds one model's documents and the
    next fresh id. Its invariant `Valid` says ids are strictly ascending, every
    body has the collection's shape, and the unique indexes hold.
  - A service's delegations (`findById`, `create`, …) are these members with
    the collection fixed to that service's model.
- `StateService`, `DistrictService`, `TownService`: the three list
  aggregations (`$match` → `$unwind` → `$project`) as pure flattening
  functions whose contracts give the row count, with lemmas for soundness,
  completeness and the position of every row.
- `StateController`, `DistrictController`, `TownController`: `get` as
  functions over the stored documents, `create` and `remove` as methods
  over the collections (the district controller has only `create`). The written
  `get` and `remove` of the state and town controllers throw before they
  reach the store (see Findings); the model states both what they do and
  what they evidently should do.
  - `create` runs the duplicate check, looks up the parent, builds the child
    with the parent's snapshot, stores it, appends the child's summary to the
    parent's list and saves the parent.
  - A thrown store error (a duplicate key or a failed validation) is the
    `Thrown` reply. It escapes the controller exactly as the exception does.
- `Hierarchy`: the invariants of the parent lists.
  - Every entry of a state's `districts` list names a stored district.
  - No list repeats a name.
  - `create` keeps these invariants.
- `CsvUtility`: the mimetype and size predicates and the row loop of
  `parseCSV`, over records that are already tokenized.

Three points where the model follows the code:

- **Duplicate check:** `checkDuplicate` applies `excludedId` when it is given
  (`_id: {$ne: excludedId}`, src/helpers/services/index.js:171-173).
- **District guard:** the guard before the push in the district controller
  (src/app/district/controller.js:72) compares the new district's name with
  each entry's `state` property. Entries carry only `name` and `code`, so the
  push always happens. `DistrictController.AppendDistrict` models the guard
  as written. `Hierarchy.DistrictCreateKeepsLists` shows that the
  unconditional push still never repeats a name in a state's list, because
  the district name index covers every stored district and every listed name
  is one of them.
- **Town controller's district save:** `updateExisting` either answers with
  an `{error}` object or throws. Only the `{error}` answer is logged and
  ignored. A throw, which is a failed validation of a district that an
  earlier `updateMany` left invalid, escapes `create` while the new town
  stays stored.

## Model

| member | source | states |
|---|---|---|
| Text.Lower | utils/csvUtility.js:71 | lower-casing keeps the length and lower-cases each character |
| Text.LowerIdempotent | utils/csvUtility.js:71 | lower-casing twice equals lower-casing once |
| Text.Contains | src/app/state/service.js:19-21 | the `.*q.*` match holds exactly when `q` occurs at some position of the name |
| Text.ContainsIgnoringCaseOfLower | src/app/district/service.js:19-21 | with option `i`, lower-casing the name or the query does not change the match |
| Documents.UniqueIndexAppend | src/app/town/model.js:20-24 | adding a document keeps the unique indexes exactly when no stored document, deleted ones included, shares an indexed key with it |
| Documents.DeletedKeysBlock | src/app/district/model.js:34-43 | a stored district or town of any status with the same name (or, for districts, the same code) blocks a new document |
| Documents.SameKeysKeepIndex | src/app/town/controller.js:100-104 | re-saving a document with its name and code unchanged keeps the unique indexes |
| Store.FirstMatch | src/helpers/services/index.js:176 | `findOne` yields the first matching document in store order, or none when nothing matches |
| Store.Select | src/helpers/services/index.js:37 | `find` before paging keeps exactly the matching documents, as many entries as there are matches |
| Store.SelectInStoreOrder | src/helpers/services/index.js:37 | each match appears at the position given by the number of matches before it, so the matches keep store order and none repeats |
| Store.MergeFilters | src/helpers/services/index.js:28-34 | the status filter is "active" unless the custom filters give a status; every other custom key is kept |
| Store.Page | src/helpers/services/index.js:39-40 | `skip` drops a prefix; `limit` 0 keeps everything and any other limit keeps at most its magnitude; the result is a window of consecutive entries starting at `skip` |
| Store.Find | src/helpers/services/index.js:19-53 | 200 with only documents that match the merged filter (only active ones without a custom status); the count is the matches minus `skip` (default 0), capped by `limit` (default 50); the page is a window of consecutive matches starting at `skip` |
| Store.FindById | src/helpers/services/index.js:63-100 | 200 with the document exactly when an active document has that id; otherwise 404, carrying `[{errKey: NOT_FOUND}]` exactly when `errKey` is truthy (given and not "") |
| Store.FindByName | src/helpers/services/index.js:110-148 | 200 with the first active document of that name exactly when one exists; otherwise the same 404, with `data` exactly when `errKey` is truthy |
| Store.CheckDuplicate | src/helpers/services/index.js:159-203 | `true` exactly when every active document with that name is the excluded one; otherwise a 409 carrying the first such document in store order and its id as `conflictKey` (with `data` only when `errKey` is truthy), or that raw first document when `autoFormat` is false |
| Store.ApplyPatch | src/helpers/services/index.js:239-241 | `set(data)`: each present key overwrites its field, absent keys leave theirs alone; id, shape and snapshots never change |
| Store.PatchIdempotent | src/helpers/services/index.js:239-241 | applying the same data twice equals applying it once |
| Store.UpdateAll | src/helpers/services/index.js:277 | `updateMany` patches every matching document and leaves the others as they were |
| Store.MatchCount | src/helpers/services/index.js:280 | `n` is at most the number of documents; when it is 0, no document matches |
| Store.MatchCountZero | src/helpers/services/index.js:280 | `n` is 0 exactly when no document matches |
| Store.ModifiedCount | src/helpers/services/index.js:290 | `nModified` is at most `n`; on a schema with timestamps (`updatedAt` is set on every match) it equals `n`; without, it is 0 exactly when the data changes no matching document |
| Store.SoftDelete | src/helpers/services/index.js:324-329 | the active document with that id gets status "deleted"; every other document and field is unchanged and nothing is removed |
| Store.RemovedIsInvisible | src/helpers/services/index.js:324-334 | after a soft delete the id is no longer active: `findById` gives 404, and `findByName` and `checkDuplicate` never yield that document |
| Store.DeleteModifiesEveryMatch | src/helpers/services/index.js:324-329 | the delete filter's matches are all changed by `{status: "deleted"}`, so `removeById` never meets the 422 |
| Store.KeysUntouchedKeepsIndex | src/helpers/services/index.js:325-329 | an update that sets neither name nor code keeps the unique indexes |
| Store.UpdateAllKeepsIdsAndShape | src/helpers/services/index.js:277 | `updateMany` keeps every id and every document's shape |
| Store.IdLocatesIndex | src/helpers/services/index.js:242 | the save of a loaded document writes to that document's own position |
| Store.Collection.Create | src/helpers/services/index.js:212-228 | a failed validation or a unique-key clash throws and stores nothing; otherwise 201 with the saved document (fresh id, status "active"), appended as the only change |
| Store.Collection.UpdateExisting | src/helpers/services/index.js:237-265 | patch (when data is given) and save over the stored document with that id: 404 when none, a throw on validation or unique-key failure, otherwise 200 with that position replaced |
| Store.Collection.Update | src/helpers/services/index.js:275-313 | 404 and no change when nothing matches; a throw when the result would break a unique index; otherwise the store is `updateMany`'s result and the reply is 200 when something changed, else 422; on the timestamped district and town collections a match never gives 422 |
| Store.Collection.RemoveById | src/helpers/services/index.js:322-346 | an active id is soft-deleted with 200 `DELETED`; a missing or already-deleted id is 404 and changes nothing |
| StateService.Find | src/app/state/service.js:11-53 | the number of rows is the sum over matching states of max(1, number of districts) |
| StateService.FindSound | src/app/state/service.js:15-39 | every row comes from an active state whose name passes `q`, with `district_code`/`district` from one of its entries, or both absent when its list is empty |
| StateService.FindComplete | src/app/state/service.js:26-31 | every matching state yields a row per `districts` entry, or the single row without district fields |
| StateService.FindInStoreOrder | src/app/state/service.js:15-39 | the `k`-th row of a matching state is its `k`-th unwound row, placed right after the rows of all states before it: one row per `districts` entry (a repeated entry gets one row each time), in list order, states in store order |
| DistrictService.Find | src/app/district/service.js:11-56 | the number of rows is the sum over matching districts of max(1, number of towns) |
| DistrictService.FindSound | src/app/district/service.js:15-41 | every row comes from an active district whose name passes `q`: state fields from its snapshot, district fields from itself, town fields from one entry or absent when it has none |
| DistrictService.FindComplete | src/app/district/service.js:26-31 | every matching district yields a row per `towns` entry, or the single row without town fields |
| DistrictService.FindInStoreOrder | src/app/district/service.js:15-41 | the `k`-th row of a matching district is its `k`-th unwound row, placed right after the rows of all districts before it: one row per `towns` entry (a repeated entry gets one row each time), in list order, districts in store order |
| TownService.Find | src/app/town/service.js:11-47 | exactly one row per matching town (there is no unwind) |
| TownService.FindExact | src/app/town/service.js:15-33 | the rows are exactly `{town, state, district}` of the active towns whose name passes `q` |
| TownService.FindInStoreOrder | src/app/town/service.js:15-33 | the row of a matching town is its projection, at the position given by the number of matching towns before it: one row per town, in store order |
| StateController.GetAsWritten | src/app/state/controller.js:13 | `validator.get` is undefined, so `get` throws a `TypeError` for every id before any lookup |
| StateController.RemoveAsWritten | src/app/state/controller.js:87 | `validator.remove` is undefined, so `remove` throws for every id and changes nothing |
| StateController.AsWrittenMissesActive | src/app/state/controller.js:11-24 | for an active id the intended `get` finds the state and the intended `remove` would soft-delete it, while the written ones throw |
| StateController.Get | src/app/state/controller.js:11-24 | as evidently intended: the active state with that id; an unknown or soft-deleted id is a 404 without data |
| StateController.Create | src/app/state/controller.js:50-78 | an active state with the name gives 409 (`body,name`) and stores nothing; only the name is checked; otherwise one new state with an empty list, 201; the parent-list invariants are kept |
| StateController.Remove | src/app/state/controller.js:85-98 | as evidently intended: soft delete with 200, or 404 with no change for an unknown or already-deleted id |
| DistrictController.NewDistrictValidates | src/app/district/model.js:32-56 | a validated body and a state with name and code give a district that passes every `required` check, with status "active" and no towns |
| DistrictController.AppendDistrict | src/app/district/controller.js:72-77 | the guard as written never fires: `{name, code}` is appended at the end |
| DistrictController.Create | src/app/district/controller.js:31-92 | 409 for a duplicate active name, else 404 (`body,state`) for a missing active state, with nothing changed; else the district with the state's `{name, code}` snapshot is stored (or the store throws), and the state's `districts` list, its only change, gets `{name, code}` at the end; the list invariants are kept |
| Hierarchy.DistrictCreateKeepsLists | src/app/district/controller.js:72-77 | the unconditional push keeps every state's list backed by stored districts and free of repeated names |
| TownController.NewTownValidates | src/app/town/model.js:4-37 | a validated body and a valid district give a town that passes every `required` check, with status "active" |
| TownController.AppendTown | src/app/town/controller.js:92-98 | the list is unchanged exactly when an entry has the name, else the summary is appended; afterwards the name is listed and distinct names stay distinct |
| TownController.GetAsWritten | src/app/town/controller.js:15 | `validator.get` is undefined, so `get` throws a `TypeError` for every id before any lookup |
| TownController.RemoveAsWritten | src/app/town/controller.js:122 | `validator.remove` is undefined, so `remove` throws for every id and changes nothing |
| TownController.AsWrittenMissesActive | src/app/town/controller.js:13-26 | for an active id the intended `get` finds the town and the intended `remove` would soft-delete it, while the written ones throw |
| TownController.Get | src/app/town/controller.js:13-26 | as evidently intended: the active town with that id; an unknown or soft-deleted id is a 404 without data |
| TownController.Create | src/app/town/controller.js:52-113 | 409 for a duplicate active name, else 404 (`body,district`) for a missing active district, with nothing changed; else the town with the `{name, state}` snapshot is stored (or the store throws); the district's `towns` list, its only change, gets the guarded append; a throw of that save escapes; town lists stay free of repeated names |
| TownController.Remove | src/app/town/controller.js:120-133 | as evidently intended: soft delete of the town only; the district and its `towns` list are untouched |
| CsvUtility.IsCsv | utils/csvUtility.js:10-15 | true exactly for the mimetype "text/csv" ("application/vnd.ms-excel" is rejected) |
| CsvUtility.CsvFileSizeCheck | utils/csvUtility.js:24-29 | true exactly when min ≤ size ≤ max, both bounds inclusive |
| CsvUtility.HeaderCheckIgnoresCase | utils/csvUtility.js:71 | the header comparison ignores the case of the expected header |
| CsvUtility.ParseCsv | utils/csvUtility.js:39-103 | a first record that differs from the header, ignoring case, gives "Header does not match." even when later events follow; otherwise a parser error gives "Invalid csv file.", no data rows give "Invalid/Empty csv file.", and success gives the data records in order, each joined with ",", one fewer than the records |

## Left out

- HTTP wiring, routing, `multer` uploads, configuration, logging and the error class are not modelled. They have no logic the model could state.
- The Joi validators are not modelled. A validated body is a precondition: a non-empty name, a code (kept as text) and the parent's name.
- `FilterErrorAndThrow` is not part of this model. Any reply with an error aborts the controller. Of the parallel checks, the duplicate check's error is the one reported.
- Concurrency is not modelled. The `Promise.all` reads are taken in sequence, and the lost update on a parent's list under concurrent creates is out of scope.
- The bulk import (`initDB`) and the hierarchy extraction are not part of this model. The route names them, but their source is not among the files modelled.
- src/app/state/model.js is not part of this model. State documents therefore get no unique index and no `required` checks. Because of that, the district controller's save of the state never throws in the model.
- The sample module is not part of this model. It is an unrouted template.
- `autoFormat: false` raw replies are modelled only for `checkDuplicate`. The controllers' `findByName(autoFormat: false)` and `updateExisting(autoFormat: false)` are modelled by their document and their error, which carry the same information.
- Store.Find: sort order is not modelled, because `parseSortBy` is not part of this model. The store order is kept. A negative `skip` is not modelled (`skip` is a `nat`).
- Store.FindById: ids are taken as well-formed ObjectIds (`Id` is a `nat`). A malformed id makes Mongoose's cast of `_id` throw a CastError in `findById`, `removeById` and the `$ne` of `checkDuplicate` (src/helpers/services/index.js:65-68, 172, 324); the model does not capture that throw.
- StateService.FindInStoreOrder: the aggregation has no `$sort` stage, so MongoDB promises no order across documents. The model takes the store's natural order for the documents. The order of the rows within one document, which follows its list, is what `$unwind` does.
- DistrictService.FindInStoreOrder: the same holds. The order across districts is the store's natural order, and within a district the rows follow its `towns` list.
- TownService.FindInStoreOrder: the same holds. The order across towns is the store's natural order.
- Store.Find: it models the adapter's `find`. The services' `list` uses the services' own aggregations instead (`StateService.Find` and its siblings), which apply no `skip` or `limit`.
- Text.Contains: `q` is matched as literal text. In the source it is pasted into a regular expression unescaped, so its metacharacters are live; the model does not capture that.
- Text.Lower: lower-casing covers ASCII letters only. `toLowerCase` and the `i` option also fold other scripts.
- Store.Collection.Update: when `updateMany` hits a duplicate key part-way through, the documents written before the error stay written. The model instead leaves the store unchanged on the throw.
- Store.Collection.UpdateExisting: Mongoose's `save()` of a loaded document sends only its modified paths (for the controllers' pushes, a `$push` onto the list). The model instead writes the whole patched document over the stored one by id. The two agree only because nothing writes to that document between its load and its save, which holds when operations run one at a time. A save whose document has vanished answers 404, as the code's `null` check reads.
- Store.ApplyPatch: a patch covers name, code, status, urbanStatus and the child lists. The embedded snapshots (`district.state`, `town.district`) cannot be set through it.
- Store.Collection.Update: `updateMany` runs no validators, so `Valid` does not include the `required` checks. Those checks are made on every save (`Create`, `UpdateExisting`).
- Mongoose's treatment of a `required` array (an empty `towns` list passes) follows Mongoose 5.
- CsvUtility.ParseCsv: tokenizing (`csv-parse`: trimming, `#` comments, blank lines, the delimiter) and the file stream are not modelled. The records arrive already split. A parser error is given as the number of records delivered before it. The `catch` branches are unreachable on that input.
- CsvUtility.ParseCsv: an error of the file read stream is not modelled. `.pipe` returns the parser, so the `error` handler listens on the parser only; a read-stream error is not forwarded through the pipe. The stream itself has no `error` listener, so Node raises the error as an uncaught exception, and no process-level handler catches it.
- Store.ModifiedCount: the `createdAt`/`updatedAt` values are not stored. Only their effect is modelled: on the district and town schemas every matched document counts as modified. The state schema is not part of this model and is taken as having no timestamps.
- StateController.Get: no route mounts it (the state routes mount only `create` and `list`), and as written it throws (see Findings). The member models the intended behaviour.
- StateController.Remove: no route mounts it, and as written it throws (see Findings). The member models the intended behaviour.
- TownController.Get: no route mounts it (the town routes mount only `create` and `list`), and as written it throws (see Findings). The member models the intended behaviour.
- TownController.Remove: no route mounts it, and as written it throws (see Findings). The member models the intended behaviour.

## Findings

| source | as written | input that shows it | evidently intended | confidence | as-written member | corrected member |
|---|---|---|---|---|---|---|
| src/app/state/controller.js:13 | `get` calls `validator.get.validate`, but the state validator defines only `list` and `create`; the call throws a `TypeError` | any id of an active state (`StateController.AsWrittenMissesActive`) | a `get` validator, so the active state is answered and other ids get 404 | high, not executed | StateController.GetAsWritten | StateController.Get |
| src/app/state/controller.js:87 | `remove` calls the undefined `validator.remove.validate` and throws before `removeById` | any id of an active state (`StateController.AsWrittenMissesActive`) | a `remove` validator, so the state is soft-deleted | high, not executed | StateController.RemoveAsWritten | StateController.Remove |
| src/app/town/controller.js:15 | `get` calls `validator.get.validate`, but the town validator defines only `list` and `create`; the call throws a `TypeError` | any id of an active town (`TownController.AsWrittenMissesActive`) | a `get` validator, so the active town is answered and other ids get 404 | high, not executed | TownController.GetAsWritten | TownController.Get |
| src/app/town/controller.js:122 | `remove` calls the undefined `validator.remove.validate` and throws before `removeById` | any id of an active town (`TownController.AsWrittenMissesActive`) | a `remove` validator, so the town is soft-deleted | high, not executed | TownController.RemoveAsWritten | TownController.Remove |
