# fast_contacts: the Android contact pipeline, modelled in Dafny

The Android side of the `fast_contacts` Flutter plugin answers a `getContacts`
call by reading the device's phone numbers and e-mail addresses on worker
threads. It groups each read's rows into one partial contact per contact id.
When every requested kind has been read, it merges the partial contacts into
one contact per id. A pair of latches makes sure the caller gets at most one
success and at most one error.

The model has four modules:

- `ContactModel` (`contact.dfy`) holds the shared values:
  - the `Contact` record;
  - the `TargetInfo` kinds and `TargetInfo.fromString`;
  - the decimal rendering of a contact id (`Long.toString`);
  - small sequence and set facts.
- `RowGrouping` (`grouping.dfy`) models `readPhonesInfo`, `readEmailsInfo` and the cursor loop of `readTargetInfo`.
  - The cursor is a sequence of rows.
  - Each row is a contact id, a display name that may be missing and a value that may be missing.
  - `Grouped` is the specification: a fold of the per-row step `OnRow`.
  - The lemmas prove what that fold contains:
    - one record per id seen;
    - the display name of the id's first row;
    - the id's values in row order;
    - a missing name or value turns into `""`;
    - one value in total per row.
- `ContactMerge` (`merge.dfy`) models `mergeContactsInfo` with its three nested loops.
  - `Contact.mergeInPlace` is a function parameter, `combine`.
  - `Merged` is the specification: one entry per id found in any input map, holding `combine` of that id's records in input order.
  - A ghost log of the `combine` calls shows several things:
    - each id is combined exactly once;
    - it is combined with exactly the records of the maps that hold it;
    - that list is never empty.
  - Two lemmas say what the reordering of `results.values` changes:
    - the input order decides only the order of each list handed to `combine`;
    - with an order-insensitive `combine`, the merge does not depend on that order at all.
- `ContactFetch` (`session.dfy`) models `getContacts` and its `withResultHandler` latch.
  - The class `FetchSession` has these fields:
    - the two latch fields;
    - the `results` map, plus the insertion order that `mutableMapOf` keeps;
    - the log of what was posted to the caller.
  - Its methods are the handler's pieces: `PutResult`, `SignalWhenReady`, `StoreResult`, `SignalError` and `WithResultHandler`.
  - Each method is tied to a pure step function (`Put`, `SignalIfReady`, `Store`, `Fail`, `Step`) on a `Latch` value.
  - `Run` folds `Step` over the completions in the order the workers finish.
  - The lemmas about `Run` state the at-most-once properties and what is handed over in terms of the completions alone:
    - the first failure's message when some read failed;
    - otherwise the merge of all maps, in completion order, once every requested kind has completed.

Other behaviours the model states for `getContacts`:

- It only ever asks for `PHONES` and `EMAILS`, in that order (line 55).
- For other arguments, the model shows two behaviours the code would have:
  - a request naming no kind is never answered, because only a worker ever checks the count;
  - a request that names a kind twice never succeeds, because `results` holds one entry per distinct kind.

## Model

| member | source | states |
|---|---|---|
| ContactModel.FromString | android/src/main/kotlin/com/github/s0nerik/fast_contacts/FastContactsPlugin.kt:243-249 | the result is `Emails` exactly for "emails" and `Phones` exactly for "phones"; every other string, "basic" included, gives `Basic` |
| ContactModel.OrEmpty | android/src/main/kotlin/com/github/s0nerik/fast_contacts/FastContactsPlugin.kt:167-168 | the `?: ""` on a cursor column: a present string is kept and a missing one becomes `""` (also lines 188-189) |
| ContactModel.NatString | android/src/main/kotlin/com/github/s0nerik/fast_contacts/FastContactsPlugin.kt:174 | the decimal digits of a natural number: at least one digit, digits only, read as a decimal number they give back the number, and a leading `0` only for zero |
| ContactModel.IdString | android/src/main/kotlin/com/github/s0nerik/fast_contacts/FastContactsPlugin.kt:174 | `Long.toString` of an id: a leading `-` exactly for negative ids, then digits whose decimal value is the id's magnitude, no leading zero (`"0"` only for zero) |
| ContactModel.ParseId | android/src/main/kotlin/com/github/s0nerik/fast_contacts/FastContactsPlugin.kt:59 | `String.toLong`: a number only for a non-empty string, in the range of a `Long`, negative only after a leading `-`; the empty string is refused |
| ContactModel.IdStringRoundTrip | android/src/main/kotlin/com/github/s0nerik/fast_contacts/FastContactsPlugin.kt:59 | reading back the `id` string of a contact id in the range of a `Long`, as the image lookup does, gives that id |
| ContactModel.IdStringInjective | android/src/main/kotlin/com/github/s0nerik/fast_contacts/FastContactsPlugin.kt:174 | distinct contact ids give distinct `id` strings, so a record's `id` names the key it is stored under |
| RowGrouping.RowPositions | android/src/main/kotlin/com/github/s0nerik/fast_contacts/FastContactsPlugin.kt:166-171 | the positions of exactly the rows with that contact id, in increasing order |
| RowGrouping.ValuesOf | android/src/main/kotlin/com/github/s0nerik/fast_contacts/FastContactsPlugin.kt:171 | entry t is the value, `""` when missing, of the id's t-th row, and there is one entry per row of the id, so the values come in row order |
| RowGrouping.FirstPosition | android/src/main/kotlin/com/github/s0nerik/fast_contacts/FastContactsPlugin.kt:170-178 | the position of a row with that id with no earlier row for the id |
| RowGrouping.Record | android/src/main/kotlin/com/github/s0nerik/fast_contacts/FastContactsPlugin.kt:172-178 | the record made for an id's first row: the id's string, the given name, the values in the read kind's list and the other list empty |
| RowGrouping.AppendValue | android/src/main/kotlin/com/github/s0nerik/fast_contacts/FastContactsPlugin.kt:171 | the in-place `add`: the value goes at the end of the read kind's list; id, name and the other list are unchanged |
| RowGrouping.OnRow | android/src/main/kotlin/com/github/s0nerik/fast_contacts/FastContactsPlugin.kt:170-179 | handling one row adds that row's id to the keys and leaves every other id's record unchanged |
| RowGrouping.FirstNameSnoc | android/src/main/kotlin/com/github/s0nerik/fast_contacts/FastContactsPlugin.kt:170-178 | a later row for an id already seen does not change that id's name; the first row for an id gives its name, `""` when missing |
| RowGrouping.AppendToRecord | android/src/main/kotlin/com/github/s0nerik/fast_contacts/FastContactsPlugin.kt:170-171 | appending to the list of a record is the record with that value added at the end |
| RowGrouping.Grouped | android/src/main/kotlin/com/github/s0nerik/fast_contacts/FastContactsPlugin.kt:163-182 | the map the row handler builds up: the handler applied to every row in order, starting from the empty map; the lemmas below state what it holds |
| RowGrouping.GroupedKeys | android/src/main/kotlin/com/github/s0nerik/fast_contacts/FastContactsPlugin.kt:163-182 | the grouped map's keys are exactly the contact ids that occur in the rows |
| RowGrouping.GroupedAt | android/src/main/kotlin/com/github/s0nerik/fast_contacts/FastContactsPlugin.kt:167-179 | each id's record has the id's string, the name of its first row, and its values in row order in the read kind's list, with the other list empty |
| RowGrouping.GroupedTotal | android/src/main/kotlin/com/github/s0nerik/fast_contacts/FastContactsPlugin.kt:167-179 | the records hold as many values in total as there were rows |
| RowGrouping.ReadTargetInfo | android/src/main/kotlin/com/github/s0nerik/fast_contacts/FastContactsPlugin.kt:205-213 | the cursor loop applied to every row in order yields the fold `Grouped` of the rows |
| RowGrouping.ReadPhonesInfo | android/src/main/kotlin/com/github/s0nerik/fast_contacts/FastContactsPlugin.kt:163-182 | keys are the ids in the rows; each record is (id string, first row's name, that id's numbers in row order, no e-mails); one number per row in total |
| RowGrouping.ReadEmailsInfo | android/src/main/kotlin/com/github/s0nerik/fast_contacts/FastContactsPlugin.kt:184-203 | keys are the ids in the rows; each record is (id string, first row's name, no phones, that id's addresses in row order); one address per row in total |
| ContactMerge.UnionKeys | android/src/main/kotlin/com/github/s0nerik/fast_contacts/FastContactsPlugin.kt:144-145 | an id is merged exactly when some input map holds it |
| ContactMerge.Collect | android/src/main/kotlin/com/github/s0nerik/fast_contacts/FastContactsPlugin.kt:149-155 | the list for an id holds, in input order, the record of every map that holds the id and nothing for a map that lacks it |
| ContactMerge.Merged | android/src/main/kotlin/com/github/s0nerik/fast_contacts/FastContactsPlugin.kt:140-160 | the merge: one entry per id of `UnionKeys`, holding `combine` of `Collect` for that id, the id's records in input order |
| ContactMerge.CollectNonEmpty | android/src/main/kotlin/com/github/s0nerik/fast_contacts/FastContactsPlugin.kt:149-156 | the list for an id found in some map is never empty |
| ContactMerge.CollectRecords | android/src/main/kotlin/com/github/s0nerik/fast_contacts/FastContactsPlugin.kt:149-155 | the inner loop, refilling the cleared list, yields exactly the list for the id |
| ContactMerge.KeysOf | android/src/main/kotlin/com/github/s0nerik/fast_contacts/FastContactsPlugin.kt:145 | the keys of a map are visited once each, in some order |
| ContactMerge.MergeOne | android/src/main/kotlin/com/github/s0nerik/fast_contacts/FastContactsPlugin.kt:145-156 | an id already merged is skipped with nothing changed; a new id gets `combine` of its list, and one more call is logged |
| ContactMerge.MergeKeysOf | android/src/main/kotlin/com/github/s0nerik/fast_contacts/FastContactsPlugin.kt:144-157 | after one input map's keys, exactly the ids of the maps so far are merged, each once and from its full list |
| ContactMerge.MergeContactsInfo | android/src/main/kotlin/com/github/s0nerik/fast_contacts/FastContactsPlugin.kt:140-161 | the result is the merge; `combine` is called once per id of the union and never with an empty list |
| ContactMerge.UnionKeysOrder | android/src/main/kotlin/com/github/s0nerik/fast_contacts/FastContactsPlugin.kt:144-145 | the set of merged ids does not depend on the order of the input maps |
| ContactMerge.CollectOrder | android/src/main/kotlin/com/github/s0nerik/fast_contacts/FastContactsPlugin.kt:150-155 | reordering the input maps only reorders each id's list |
| ContactMerge.MergedOrderIndependent | android/src/main/kotlin/com/github/s0nerik/fast_contacts/FastContactsPlugin.kt:140-160 | with a `combine` that ignores the order of its list, the merge is the same for every order of the input maps |
| ContactMerge.MergeSingle | android/src/main/kotlin/com/github/s0nerik/fast_contacts/FastContactsPlugin.kt:140-160 | with a single input map and a `combine` that returns a lone record unchanged, the merge is that map |
| ContactFetch.InOrder | android/src/main/kotlin/com/github/s0nerik/fast_contacts/FastContactsPlugin.kt:106 | `results.values` in insertion order: one map per stored kind, the k-th being the map stored for the k-th kind |
| ContactFetch.Successes | android/src/main/kotlin/com/github/s0nerik/fast_contacts/FastContactsPlugin.kt:107-109 | the number of successes handed over in a log of deliveries |
| ContactFetch.Errors | android/src/main/kotlin/com/github/s0nerik/fast_contacts/FastContactsPlugin.kt:120-122 | the number of errors handed over in a log of deliveries |
| ContactFetch.Put | android/src/main/kotlin/com/github/s0nerik/fast_contacts/FastContactsPlugin.kt:114 | stores the map: the kind joins the keys with this map, the other kinds keep theirs, a new kind goes to the end of the insertion order, and the latches and the log are unchanged |
| ContactFetch.SignalIfReady | android/src/main/kotlin/com/github/s0nerik/fast_contacts/FastContactsPlugin.kt:115-117 | stores and error latch unchanged; the success latch is set when as many kinds are stored as requested and no error is latched (`getAndSet` runs only then); a success is posted exactly when as many kinds are stored as requested, no error is latched and no success was; it is the merge of `results.values` in insertion order |
| ContactFetch.Store | android/src/main/kotlin/com/github/s0nerik/fast_contacts/FastContactsPlugin.kt:113-117 | the `try` body: the read's map is stored under its kind, a new kind goes to the end of the order, the error latch is unchanged, the success latch is set and the merge of the stored maps posted exactly as `SignalIfReady` states for the new store |
| ContactFetch.Fail | android/src/main/kotlin/com/github/s0nerik/fast_contacts/FastContactsPlugin.kt:118-124 | the `catch` body: the error latch is set, nothing is stored, and the error (code `""`, the message) is posted exactly when the latch was clear |
| ContactFetch.Step | android/src/main/kotlin/com/github/s0nerik/fast_contacts/FastContactsPlugin.kt:112-125 | a failed read stores nothing, sets the error latch and posts its error exactly when the latch was clear, since the action throws before the assignment; a read that loaded is stored and posts the merge exactly as `Store` states |
| ContactFetch.Run | android/src/main/kotlin/com/github/s0nerik/fast_contacts/FastContactsPlugin.kt:127-136 | the state after the completions in arrival order, starting with both latches clear and nothing stored; every kind in the order has a stored map |
| ContactFetch.InOrderAppend | android/src/main/kotlin/com/github/s0nerik/fast_contacts/FastContactsPlugin.kt:103 | storing a new kind adds its map at the end of the map's values |
| ContactFetch.PutConsistent | android/src/main/kotlin/com/github/s0nerik/fast_contacts/FastContactsPlugin.kt:114 | storing a requested kind's map keeps the handler's state consistent |
| ContactFetch.SignalIfReadyConsistent | android/src/main/kotlin/com/github/s0nerik/fast_contacts/FastContactsPlugin.kt:115-117 | the count test and the success hand-over keep the state consistent: a success is handed over only with every requested kind stored |
| ContactFetch.StepConsistent | android/src/main/kotlin/com/github/s0nerik/fast_contacts/FastContactsPlugin.kt:112-125 | every completion of a requested kind keeps the state consistent |
| ContactFetch.RunConsistent | android/src/main/kotlin/com/github/s0nerik/fast_contacts/FastContactsPlugin.kt:112-136 | every state reached by some order of completions is consistent |
| ContactFetch.DeliveredAtMostOnce | android/src/main/kotlin/com/github/s0nerik/fast_contacts/FastContactsPlugin.kt:113-124 | at most one success and at most one error are handed over; a success only with every requested kind stored; an error exactly when the error latch is set |
| ContactFetch.NothingAfterError | android/src/main/kotlin/com/github/s0nerik/fast_contacts/FastContactsPlugin.kt:115-124 | once the error latch is set, no completion hands over anything |
| ContactFetch.NoSecondSuccess | android/src/main/kotlin/com/github/s0nerik/fast_contacts/FastContactsPlugin.kt:115 | once the success latch is set, no completion hands over another success |
| ContactFetch.NoSuccessWithRepeatedTarget | android/src/main/kotlin/com/github/s0nerik/fast_contacts/FastContactsPlugin.kt:114-115 | when a kind is requested twice, no success is ever handed over |
| ContactFetch.CompletionsBound | android/src/main/kotlin/com/github/s0nerik/fast_contacts/FastContactsPlugin.kt:127-136 | with one completion per kind, all requested, there are at most as many completions as requested kinds |
| ContactFetch.AllReported | android/src/main/kotlin/com/github/s0nerik/fast_contacts/FastContactsPlugin.kt:115 | for distinct requested kinds, the count the handler tests is reached exactly when every requested kind has completed |
| ContactFetch.WorkersOncePerTarget | android/src/main/kotlin/com/github/s0nerik/fast_contacts/FastContactsPlugin.kt:127-136 | with distinct requested kinds, the workers, one per kind, report distinct kinds |
| ContactFetch.PutTracks | android/src/main/kotlin/com/github/s0nerik/fast_contacts/FastContactsPlugin.kt:114 | storing the map of a new kind keeps `results.values` equal to the loaded maps in completion order |
| ContactFetch.SignalTracks | android/src/main/kotlin/com/github/s0nerik/fast_contacts/FastContactsPlugin.kt:115-117 | after a load, the latches and the log match the completions: the merge is handed over exactly when the last requested kind loads with no failure before |
| ContactFetch.LoadedStep | android/src/main/kotlin/com/github/s0nerik/fast_contacts/FastContactsPlugin.kt:113-117 | a completion that loads keeps the state described by the completions so far |
| ContactFetch.FailedStep | android/src/main/kotlin/com/github/s0nerik/fast_contacts/FastContactsPlugin.kt:118-124 | a completion that fails keeps the state described by the completions so far: only the first failure is handed over |
| ContactFetch.RunTracks | android/src/main/kotlin/com/github/s0nerik/fast_contacts/FastContactsPlugin.kt:112-136 | for one completion per requested kind, in any order, the state is described by the completions alone: the loaded maps in completion order, the latches, and a log holding the first failure's error, or else the merge once every kind has completed, and nothing before that |
| ContactFetch.RunOutcome | android/src/main/kotlin/com/github/s0nerik/fast_contacts/FastContactsPlugin.kt:100-137 | for the workers' completions in any order: at most one of each kind of answer; no success for a repeated kind; for distinct kinds, the first failure or the merge, and exactly one answer once all have completed; no answer to an empty request |
| ContactFetch.FetchSession.constructor | android/src/main/kotlin/com/github/s0nerik/fast_contacts/FastContactsPlugin.kt:101-103 | both latches clear, nothing stored, nothing handed over |
| ContactFetch.FetchSession.HandleResultsReady | android/src/main/kotlin/com/github/s0nerik/fast_contacts/FastContactsPlugin.kt:105-110 | posts the merge of `results.values`, in insertion order, and changes nothing else |
| ContactFetch.FetchSession.PutResult | android/src/main/kotlin/com/github/s0nerik/fast_contacts/FastContactsPlugin.kt:114 | the new state is `Put` of the old; the state stays consistent |
| ContactFetch.FetchSession.SignalWhenReady | android/src/main/kotlin/com/github/s0nerik/fast_contacts/FastContactsPlugin.kt:115-117 | the new state is `SignalIfReady` of the old; the state stays consistent |
| ContactFetch.FetchSession.StoreResult | android/src/main/kotlin/com/github/s0nerik/fast_contacts/FastContactsPlugin.kt:113-117 | the new state is `Store` of the old; the state stays consistent |
| ContactFetch.FetchSession.SignalError | android/src/main/kotlin/com/github/s0nerik/fast_contacts/FastContactsPlugin.kt:118-124 | the new state is `Fail` of the old: the error latch is set, and the error is posted only if it was clear |
| ContactFetch.FetchSession.WithResultHandler | android/src/main/kotlin/com/github/s0nerik/fast_contacts/FastContactsPlugin.kt:112-125 | the new state is `Step` of the old for this completion; the state stays consistent |
| ContactFetch.HandleAll | android/src/main/kotlin/com/github/s0nerik/fast_contacts/FastContactsPlugin.kt:127-136 | handling the completions in arrival order reaches `Run` of them |
| ContactFetch.GetContacts | android/src/main/kotlin/com/github/s0nerik/fast_contacts/FastContactsPlugin.kt:100-138 | what the caller is handed for the workers' completions in arrival order, as `RunOutcome` states it |

## Left out

- The photo loaders (`ContactThumbnailLoaderAsyncTask`, `ContactImageLoaderAsyncTask`, lines 254-329) are not modelled. They are content-resolver and file I/O.
- The method-channel plumbing and argument handling (lines 45-98) are not modelled. `getContacts` is a method that takes the requested kinds.
- The executors and `handler.post` are not modelled. The work of the workers is the sequence of completions, in the order they arrive. Posting to the main thread is an immediate append to the `posted` log.
- The provider query is not modelled.
  - This covers `ContentResolverCompat.query`, the URIs, projections and sort orders (lines 205-236).
  - The rows are a given sequence; a null cursor is an empty sequence.
  - The `isClosed` test in the cursor loop is not modelled.
- `Contact.mergeInPlace` and `Contact.asMap` are not part of this model. `combine` is an arbitrary function, so every merge property holds for any combiner.
  - A `combine` that throws is not modelled. The success latch has then been set, and the `catch` would hand over an error.
  - The in-place mutation and aliasing of `mergeInPlace` are not modelled.
- `ContactFetch.GetContacts`: requires `Basic` not to be requested, because that branch is `TODO()` and throws (line 129). The caller never requests it.
- Truly concurrent execution is not modelled: `AtomicBoolean`, and the unsynchronized `results` map shared by the workers. Completions are handled one at a time in an arbitrary order.
- ContactMerge.MergeContactsInfo: returns the merged map, not the `Collection` of its values. The order of that collection is not modelled.
- ContactMerge.KeysOf: visits a map's keys in an order it chooses. Kotlin's insertion order is not modelled, and every merge property holds for every key order.
- Contact ids are unbounded integers. The 64-bit range of `Long` appears only where an id string is read back (`ParseId`); the cursor's conversion to `Long` is not modelled.
- ContactModel.ParseId: accepts ASCII digits only; `String.toLong` also accepts the other Unicode decimal digits.
- The error's details are not modelled. It carries the code `""` and the exception's message; the `e.toString()` is left out.
