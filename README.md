# Demo-data seeding and clearing engine

This project models the seeding engine of the BullshitDetector application. The engine exists in two implementations:

- `scripts/seed-demo-data.js` is a command-line seeder. It checks its two credentials. It then writes the records of four collections in order:
  - user profiles are upserted on `email`;
  - validation history is inserted;
  - sentiment history is inserted;
  - system settings are upserted on `key`.

  It counts successes and failures for each collection and collects error lines. The process exits with status 1 when the credentials are missing, when an exception reaches the outer handler, or when any error line was collected. Otherwise it exits with 0.
- `src/lib/seed-demo-data.ts` is the library version. `seedDemoData` runs the same four loops and returns a `SeederResult` with the fields `success`, `message`, `errors` and `counts`. The library adds two more functions:
  - `clearDemoData` selects the profiles marked `metadata.demo_data = true` and deletes them by `user_id`, one at a time;
  - `getDemoDataStats` reports how many records each array of the dataset holds.

The remote store is a value `Db`, a map from collection name to a sequence of rows, which the methods take and return.

- The reply to each client call is an input, one scripted `Reply` per call, in call order. A reply is one of:
  - `Ok`;
  - `Failed(message)`, for a returned `{ error }`;
  - `Threw(exc)`, for an exception.
- A failed call leaves the store unchanged.
- Upsert replaces, in place, the first row that has the same value in the conflict column, with the whole new row. A row with no such match is appended.
- Insert appends.
- A delete by `eq('user_id', v)` removes every row whose `user_id` is `v`. A null `v` matches nothing.

Both seeders use one shared write loop, `Writer.WriteAll`. The loop is parametrised by how a record's catch handler turns an exception into text:

- the script reads `err.message`, which itself throws when the thrown value is `null` or `undefined`;
- the library uses `String(err)`, which never throws for the values modelled (Error objects, `null` and `undefined`).

Modules, in dependency order:

- `Backend`: rows, the store, replies, and the effect of upsert, insert, select and delete.
- `StoreLaws`: the rows after a sequence of writes, and laws of upsert, insert and delete.
- `Writer`: the per-record verdict, the write loop, and the spec functions it is proved against.
- `Dataset`: the four record kinds, the collection names and policies, and the stored rows.
- `Decimal`: how `${n}` renders a count.
- `SeedLibrary`: `seedDemoData`, `clearDemoData` and `getDemoDataStats`.
- `SeedScript`: `seedData` and the exit status.

## Model

| member | source | states |
|---|---|---|
| Backend.JsString | src/lib/seed-demo-data.ts:54 | `String(err)` of an Error with a name and a message is `name: message`; `null` and `undefined` render as their names |
| Backend.FirstMatch | scripts/seed-demo-data.js:46-61 | the conflict search returns the first row matching the key, and returns past the end exactly when no row carries the key |
| Backend.Upserted | scripts/seed-demo-data.js:46-61 | after an upsert the row is stored; the collection grows by one exactly when the key was absent; rows without the same key stay where they were |
| Backend.Write | src/lib/seed-demo-data.ts:29-46 | a successful write changes only its own collection, which becomes the write policy applied to the old rows |
| Backend.Marked | src/lib/seed-demo-data.ts:185 | the marked rows are exactly the stored rows that carry the demo marker |
| Backend.SelectMarked | src/lib/seed-demo-data.ts:182-185 | the select returns one id per marked row, as many ids as marked rows; each id is a marked row's `user_id`; every marked row's `user_id` is among them |
| Backend.Without | src/lib/seed-demo-data.ts:189-192 | a delete keeps only old rows; no survivor matches the filter value; every non-matching row survives |
| Backend.DeleteWhere | src/lib/seed-demo-data.ts:189-192 | a delete changes only the collection it targets, whose rows become the survivors of the filter |
| StoreLaws.AppliedOnlyFromInputs | scripts/seed-demo-data.js:44-73 | after any sequence of writes, every stored row was there before or is one of the rows written |
| StoreLaws.AppliedInsert | scripts/seed-demo-data.js:78-112 | inserts append exactly the rows written, in order |
| StoreLaws.InsertRerunDuplicates | scripts/seed-demo-data.js:117-146 | seeding an insert collection twice with N records adds 2N rows |
| StoreLaws.UpsertSupersedes | scripts/seed-demo-data.js:151-173 | a later upsert with the same key fully replaces an earlier one |
| StoreLaws.UpsertIdempotent | scripts/seed-demo-data.js:151-173 | upserting the same keyed row twice equals upserting it once |
| StoreLaws.UpsertKeepsKeys | scripts/seed-demo-data.js:46-61 | an upsert never removes a key value that was present |
| StoreLaws.UpsertKeepsUnique | scripts/seed-demo-data.js:46-61 | an upsert preserves uniqueness of the conflict column |
| StoreLaws.AppliedUpsertUnique | src/lib/seed-demo-data.ts:27-56 | a whole upsert loop preserves uniqueness of the conflict column |
| StoreLaws.AppliedUpsertKeepsKeys | src/lib/seed-demo-data.ts:128-150 | a whole upsert loop keeps every key value that was present |
| StoreLaws.AppliedUpsertCovers | src/lib/seed-demo-data.ts:128-150 | after an upsert loop, the key value of every row written is stored |
| StoreLaws.UpsertPresentAddsNothing | src/lib/seed-demo-data.ts:27-56 | upserts whose keys are all present already add no row |
| StoreLaws.UpsertRerunAddsNothing | scripts/seed-demo-data.js:44-73 | running an upsert loop a second time with the same keyed records adds no row |
| StoreLaws.Unmarked | src/lib/seed-demo-data.ts:181 | the unmarked rows are exactly the stored rows without the marker |
| StoreLaws.MarkedUnmarkedCount | src/lib/seed-demo-data.ts:182-185 | every row is marked or unmarked, so the select returns one id for each row that is not unmarked |
| StoreLaws.KeptExactly | src/lib/seed-demo-data.ts:188-196 | after the deletes, a row survives exactly when it was stored and no delete id targets it |
| StoreLaws.UnmarkedWithout | src/lib/seed-demo-data.ts:189-192 | a delete that targets no unmarked row leaves the unmarked rows unchanged |
| StoreLaws.KeptSparesUnmarked | src/lib/seed-demo-data.ts:188-196 | deletes that target no unmarked row leave the unmarked rows, in order, unchanged |
| StoreLaws.SelectedSparesUnmarked | src/lib/seed-demo-data.ts:182-192 | with `user_id` unique, an id selected from a marked row targets no unmarked row |
| StoreLaws.ClearSparesUnmarked | src/lib/seed-demo-data.ts:181-196 | with `user_id` unique, deleting by selected ids leaves every unmarked row in place, in order |
| StoreLaws.ClearAllRemovesMarked | src/lib/seed-demo-data.ts:182-196 | deleting by every selected id leaves no marked row that has a `user_id` |
| Writer.JudgeLaws | scripts/seed-demo-data.js:63-72 | the verdict `Judge` gives one record: a record is a success exactly when its reply is Ok; each error line is the tag, then `: `, then the client message, `err.message` or `String(err)` |
| Writer.JudgeFatal | scripts/seed-demo-data.js:69-72 | a record's handler throws exactly when the script handler reads `.message` of a thrown `null` or `undefined`; the library handler never throws |
| Writer.OkRows | scripts/seed-demo-data.js:63-68 | the rows written are as many as the successful replies, and each one is a record's row |
| Writer.OkRowsCover | scripts/seed-demo-data.js:63-68 | every record whose write succeeded has its row among the rows written, whatever failed around it |
| Writer.LinesCount | scripts/seed-demo-data.js:63-72 | with no escaping exception, each record gives exactly one success or one error line |
| Writer.LinesEmptyIffAllOk | src/lib/seed-demo-data.ts:153 | the error log of a loop is empty exactly when every write succeeded |
| Writer.LinesTagged | src/lib/seed-demo-data.ts:49 | every error line starts with a record's tag followed by `: ` |
| Writer.FailureLine | src/lib/seed-demo-data.ts:48-55 | each failed record whose handler does not throw has its own error line, right after the lines of the records before it, headed by that record's tag and `: ` |
| Writer.OkRowsAllOk | scripts/seed-demo-data.js:44-73 | when every write succeeds, every record's row is written, in record order |
| Writer.StoreAfterRows | scripts/seed-demo-data.js:44-73 | a loop's writes leave its collection as its policy folded over the successful rows |
| Writer.StoreAfterFrame | scripts/seed-demo-data.js:44-73 | a loop's writes leave every other collection unchanged |
| Writer.TallyAfterCounts | scripts/seed-demo-data.js:63-72 | the loop's counters are the successful writes and the failures, with exactly one error line per failure |
| Writer.WriteAll | scripts/seed-demo-data.js:44-73 | the loop stops early exactly at the first record whose handler throws; its counters and store are the per-record steps folded over the records it processed (their meaning is `TallyAfterCounts`, `StoreAfterRows` and `StoreAfterFrame`) |
| Dataset.UserRow | scripts/seed-demo-data.js:47-59 | a profile row carries the demo marker; its `id` and `user_id` are the user's id, its `email` the user's email, and every other profile field is copied |
| Dataset.UserItemsMarked | scripts/seed-demo-data.js:58 | every profile the user loop writes carries `demo_data: true` |
| Decimal.NatToString | src/lib/seed-demo-data.ts:157 | a count renders as non-empty decimal digits with no leading zero |
| Decimal.ParseNatToString | src/lib/seed-demo-data.ts:157 | parsing a rendered count gives back the count |
| Decimal.NatToStringInjective | src/lib/seed-demo-data.ts:157 | distinct counts give distinct messages |
| SeedLibrary.GetDemoDataStats | src/lib/seed-demo-data.ts:218-225 | the stats are the lengths of the four dataset arrays |
| SeedLibrary.SeedCollection | src/lib/seed-demo-data.ts:27-56 | a library loop processes every record: its count is the successful writes, its lines are the loop's lines, and the store follows the policy |
| SeedLibrary.SeedDemoData | src/lib/seed-demo-data.ts:16-160 | the result is the seed outcome; the profiles and settings follow their upserts, the histories gain exactly their inserted rows, and no other collection changes |
| SeedLibrary.SeedOutcomeLaws | src/lib/seed-demo-data.ts:152-160 | of the result `SeedOutcome` builds: `success` holds exactly when `errors` is empty, and exactly when every write succeeded; the message is exactly `Demo data seeded successfully` or `Seeding completed with N errors`; each count plus its error lines equals the matching stat |
| SeedLibrary.CollectionLaws | src/lib/seed-demo-data.ts:27-56 | in a library loop, each record is one count or one error line, and no error line means every write succeeded |
| SeedLibrary.SeededProfilesMarked | src/lib/seed-demo-data.ts:43 | every profile row a seed run adds carries the demo marker |
| SeedLibrary.UntilThrow | src/lib/seed-demo-data.ts:188-196 | the delete loop ends at the first delete that throws, or after all ids |
| SeedLibrary.Deleted | src/lib/seed-demo-data.ts:194 | the ids deleted are as many as the successful deletes; each is a selected id; every id whose delete succeeded is among them |
| SeedLibrary.DeleteLines | src/lib/seed-demo-data.ts:195 | at most one error line per delete, each `Delete user: ` followed by the message of a failed delete |
| SeedLibrary.DeleteLinesCount | src/lib/seed-demo-data.ts:188-196 | each delete gives either `counts.users++` or one error line |
| SeedLibrary.DeletedAllOk | src/lib/seed-demo-data.ts:188-196 | when every delete succeeds, every selected id is deleted, in order |
| SeedLibrary.CaughtResult | src/lib/seed-demo-data.ts:208-214 | a caught exception gives `success = false`, `errors = [String(err)]` and the counts so far |
| SeedLibrary.DeleteEach | src/lib/seed-demo-data.ts:188-196 | the delete loop stops exactly at the first throwing delete; it counts the successful deletes, logs `Delete user: <message>` for each failure, and its store is the successful deletes folded over the old store |
| SeedLibrary.ClearedAfterRows | src/lib/seed-demo-data.ts:188-196 | after the deletes the profiles are the old profiles without those whose `user_id` was deleted |
| SeedLibrary.ClearedAfterFrame | src/lib/seed-demo-data.ts:188-196 | the deletes change no collection but `user_profiles` |
| SeedLibrary.ClearDemoData | src/lib/seed-demo-data.ts:171-216 | `success` iff no errors; only `user_profiles` changes and only loses rows, keeping every unmarked profile when `user_id` is unique; a failed or empty select deletes nothing and succeeds; a throw is caught with the counts so far; a finished run has `counts.users + errors.length` equal to the selected ids and the exact message |
| SeedLibrary.ClearTakesUnmarkedTwin | src/lib/seed-demo-data.ts:189-192 | when an unmarked profile shares its `user_id` with a marked one, the select finds only the marked one, yet the clear removes both |
| SeedLibrary.ClearLaws | src/lib/seed-demo-data.ts:181-196 | the profiles left by the deletes are a sub-collection; with unique `user_id` every unmarked profile is kept; when all deletes succeed no marked profile with a `user_id` remains |
| SeedScript.AllOkClean | scripts/seed-demo-data.js:69-72 | writes that all succeed trip no handler |
| SeedScript.SeedCollection | scripts/seed-demo-data.js:44-73 | a script loop completes exactly when no handler throws, and then has processed every record. Complete or not, it stops at the first throwing handler; its `success` counts the successful writes before it, its error lines are those records' lines, and its collection is the policy folded over their rows, with no other collection changed |
| SeedScript.SeedCollections | scripts/seed-demo-data.js:41-174 | the four loops complete exactly when no handler throws; a loop whose handler threw skips the later loops with zero counters; every loop's store and error lines stop where its counters say, and `errors.length` is the total of the failures |
| SeedScript.HaltedLeavesRest | scripts/seed-demo-data.js:41-174 | the collections after the one whose handler threw are left as they were |
| SeedScript.HaltedFrom | scripts/seed-demo-data.js:41-174 | the loop stages, with the loops after a crash skipped, make up the run's state, with `errors.length` equal to the total failures |
| SeedScript.HaltedClean | scripts/seed-demo-data.js:176-200 | when no handler throws, the four loops' state is the summary run and the store is the seeded store |
| SeedScript.StoppedClean | scripts/seed-demo-data.js:44-73 | a loop in which no handler throws processes every record and ends with the full tally |
| SeedScript.SummaryLaws | scripts/seed-demo-data.js:178-200 | a completed run, with totals summed by `Total`, has `errors.length == totalFailed` and `totalSuccess + totalFailed` equal to the number of records, and it exits 0 exactly when every write succeeded |
| SeedScript.CollectionLaws | scripts/seed-demo-data.js:63-72 | a clean script loop has `success + failed` equal to its records, and no error line exactly when every write succeeded |
| SeedScript.SeedData | scripts/seed-demo-data.js:10-204 | missing credentials stop the run before any write; with credentials the run completes exactly when no handler throws, and otherwise crashes with `errors.length` equal to its failures, each loop's counters, lines and store stopped at the first throwing handler, and the later collections untouched; a completed run is the summary of the four tallies and lines, and the store follows each policy |
| SeedScript.StoredAfter | scripts/seed-demo-data.js:43-173 | four loops, each confined to its own collection, leave each collection as its policy folded over its loop's successful rows, and no other collection changed |
| SeedScript.SeededAfter | scripts/seed-demo-data.js:43-173 | when every loop processed all its records, the profiles and settings are upserted and the two histories are extended by exactly their inserted rows |
| SeedScript.ExitStatus | scripts/seed-demo-data.js:200 | the exit status is 0 or 1, and 0 exactly when the run completed with no error line |
| SeedScript.ExitStatusRule | scripts/seed-demo-data.js:195-203 | the exit status is 0 exactly when both credentials are set and every write succeeded; otherwise it is 1 |

`SeedLibrary.ClearDemoData` states:

- `success` holds exactly when `errors` is empty, and the history and settings counts stay 0.
- Only `user_profiles` changes, and only by losing rows. With unique `user_id`, every unmarked profile is kept.
- A select that throws is caught.
- A select that fails or returns no data deletes nothing and succeeds.
- Otherwise the deleted profiles are exactly those whose ids were deleted.
- A delete that throws is caught, with the counts reached so far.
- A run that finishes has `counts.users + errors.length` equal to the selected ids, and the exact message.

`SeedScript.SeedData` states:

- Missing credentials stop the run before any write.
- With credentials set, the run completes when no handler throws, and crashes into the outer handler otherwise.
- A crashed run still has `errors.length` equal to the sum of its failures.
- In a crashed run, each loop up to the throwing one stopped at its first throwing handler, its counters, lines and store contents stop there, and the collections after it are unchanged.
- A completed run is the summary: each collection's counters and its error lines in order, and the totals as sums of the counters.
- The store follows each collection's policy, and no other collection changes.

## Left out

- The store client is not modelled as code. It is replaced by the abstract store `Db` and scripted replies, and a failed call is taken to change nothing.
- Row contents are not modelled. Records and rows are opaque column maps. The field-by-field projections of the dataset are not modelled, and neither is the content of `demo-data.json`.
- `dotenv`, `process.env`, the ANSI colour logging and the printed summary are I/O. They are not modelled. Only whether the credentials are set is kept, as JavaScript truthiness: unset or empty counts as missing. The exit status is kept as a value.
- `async`/`await` are not modelled. Every call is awaited in turn, so the model is sequential.
- The outer `catch` of `seedDemoData` (src/lib/seed-demo-data.ts:161-167) is not modelled. Every client call sits inside a handler that only uses `String(err)`, which never throws, so no model input reaches that branch.
- Values thrown other than Error objects, `null` and `undefined` are not modelled; neither are Error objects whose `name` is not a string. For these, `String` depends on the value's `toString`, which is foreign code.
- `Backend.JsString`: for an Error whose name or message is empty, the contract states nothing. The body follows Error.prototype.toString (section 20.5.3.4 of ECMA-262).
- The text of the TypeError raised when the script handler reads `err.message` of `null` or `undefined` is engine-specific. The model records only that the outer handler is reached and the run exits 1.
- The script's error lines for validation and sentiment records carry only the collection name (`Validation: <message>`), as in scripts/seed-demo-data.js:103 and 137.
- Backend.Upserted: the client's upsert updates only the columns of the payload in the matching row. The model replaces the whole row, so a column that the stored row has and the payload lacks is lost in the model where the client keeps it.
- SeedLibrary.ClearDemoData: keeping every unmarked profile is proved only when `user_id` is unique among the profiles. The delete (src/lib/seed-demo-data.ts:189-192) filters on `user_id` alone, so an unmarked profile sharing a `user_id` with a marked one is deleted too; `SeedLibrary.ClearTakesUnmarkedTwin` exhibits this.
- The pages, `ModelContext.tsx`, `smtp.ts` and `App.tsx` are UI and I/O and are not part of this model.
