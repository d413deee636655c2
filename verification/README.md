# Proofs about the subscriber database, the security engine and three small ledgers

This project models, in Dafny, the parts of the 5G core and tester repository whose behaviour finite
tests cannot settle, and proves what they keep over every input and every run.

**The subscriber database** (`core/db/crud`). The tables of `core/db/schemas/core.go` are maps from
surrogate id to row (`Schema.Db`). `Schema.Integrity` is the conjunction of every UNIQUE key, foreign
key and CHECK constraint, and of the rule the constraints do *not* enforce, one catalog row per (sst,
sd-or-empty): SQLite lets a NULL sd repeat. What a reader sees of a subscriber is `Views.View`: account,
authentication data, and the subscription tree as a map from path to default flag. A path names a slice by its
catalog entry, which the invariant and the frame of every call make as good as (sst, sd), and never by a
UE-side row id. Each operation is an imperative method of `Store.Database` (transactions work on a copy; the field is assigned
where the source commits), proved equal to a function or relation on tables; that function is proved to
mean something on views. `SELECT`s without `ORDER BY` yield their rows in an arbitrary order, so the
theorems about them hold for every order. The slice data follows section 5.15.2 of 3GPP TS 23.501; IMSIs
are decimal strings as in section 2.2 of 3GPP TS 23.003.

**The streaming security engine** (`Security Layer/realtime_engine.py` and what it calls). A decaying
reputation score per subscriber, an expiring block table with lazy deletion, step-up clearing and a
polling loop with a high-water mark. Arithmetic is over exact reals; the decay is a parameter with stated
properties; HMAC (section 2 of RFC 2104) is an uninterpreted function.

**The adaptive authentication pipeline** (`Security Layer/adaptive_authentication_pipeline.py` and what it
calls). Assessment, trust record, neighbour propagation, policy and execution.

**Three ledgers**: the store-and-forward byte counter and the feeder-link switch log of the NTN code
(section 6.2.5 of 3GPP TR 38.821), and the overlap check of the IMSI buckets, written once with intervals
in Go and once by enumeration in Python.

## Where the code and its comments or names part

Each of these is a theorem below; the model follows the code.

- `SliceDNNSave` "replaces all slice-DNN authorizations": afterwards the DNNs of the UE come from the items alone,
  whatever its unordered query keeps, exactly when, of the slices whose SDs differ only in case, none holds a DNN
  (`DnnSave.ReplacesAllExactlyWhen`); on the database of `Counterexamples.ClashKeepsDnns` one stays.
- `UEBulkProvision` stores an empty MSISDN and a negative AMBR, the three calls it replaces do not; the two
  agree exactly otherwise (`Bulk.OneEntryAgrees`, `BulkRun.BulkRefinesFlow`, `Counterexamples.EmptyMsisdnDiffers`).
- `UEGetOrCreateByIMSI` says it updates a non-empty MSISDN; it writes whatever it is passed
  (`Accounts.GetOrCreateUeMeaning`, `Counterexamples.EmptyMsisdnIsWritten`).
- `UECloneRange` and `UEDeleteRange` report an overflow after the last number of the width even though every
  IMSI of the range was handled: the error appears exactly when start + count reaches 10^width
  (`Store.Database.CloneRange`, `Counterexamples.LastDeleteOverflows`, `Counterexamples.LastCloneOverflows`).
- `UECloneRange` says the MSISDN of a clone is the last ten digits of its IMSI; it is the IMSI without its first five,
  the same for the usual fifteen digits. The MSISDNs of a range differ exactly while it holds no more than
  10^(width - 5) clones (`Store.Database.CloneRange`, `Ranges.MsisdnsDiffer`).
- `_row_to_event` promises that malformed data never crashes the engine. A fetch fails exactly when the answer mixes
  numbers and texts as times or holds, anywhere, a row that breaks in a way that can be read off it
  (`Nwdaf.FetchFailsExactlyWhen`), and one failing fetch ends the run for every subscriber
  (`Polling.RunEndsExactlyWhen`); a payload whose `pm_counters` is a number does it
  (`Nwdaf.NumberForCountersCrashes`). Counters below zero are converted; attempts that cancel the smoothing prior
  then raise in the engine, and that too ends the run (`PollLoop.RunAgainstNwdaf`).
- The poller asks for at most 1000 rows of the last day, gets the newest, and numbers them from zero. It feeds the
  engine as many windows of a subscriber as its longest answer had rows (`PollLimit.FedIsLongest`), so the whole of a
  log exactly when some answer held the whole of it (`PollLimit.WholeLogExactlyWhen`); under the limit alone, exactly
  when the log is no longer than the limit (`PollLimit.WithinLimitExactlyWhen`), and never more windows per subscriber
  than the limit (`PollLimit.FedAtMostLimit`). `PollLimit.LosesARow` and `PollLimit.PrunedLosesARow` skip a row.
- The 20 points `assess` gives for repeated failures only come on top of 100 and are cut off by the cap, so the
  failure ratio never changes a level or a score (`Assessment.Assess`).
- `remove_relationship` removes every match, not the first (`Propagation.WithoutMeaning`).
- The policy engine alone is not monotone (`Policy.MilderExactlyWhen`, `Counterexamples.WatchedIsMilder`,
  `Counterexamples.MediumIsMilder`); the chain as a whole is (`Pipeline.RiskierNeverMilder`), and a relationship
  weight is safe for that in every run exactly when it is not negative (`Pipeline.SafeExactlyWhen`).
- The store-and-forward counter goes negative exactly when an enqueue overflows an int64
  (`StoreForward.NeverNegativeExactlyWhen`, `Counterexamples.EnqueueOverflows`).
- The Go overlap check never rejects buckets with different IMSIs (`Buckets.IntervalsAreEnumeration`).
  A bucket is judged right beside every bucket that does not wrap exactly when it does not run past the last uint64
  itself (`Buckets.JudgedRightExactlyWhen`, `Buckets.WrapHidesOverlap`).

## Files

| part | files |
|---|---|
| shared | `Wrappers`, `FirstWins` (insert-or-ignore), `Keyed` (rows read by key), `Text`, `Ordering`, `Decimal` |
| database, rows and views | `Schema`, `Rows`, `Views` |
| database, operations | `SubscriptionTree`, `TreeSave`, `TreeGet`, `RoundTrip`, `NssaiSave`, `DnnSave`, `Sst`, `Accounts`, `Bulk`, `BulkRun`, `BulkOutcome`, `Clone`, `Ranges` |
| database, the calls and their runs | `Loops`, `Store`, `History`, `Counterexamples` |
| security engine | `Reputation`, `Escalation`, `BlockTable`, `Engine`, `EngineRun`, `Nwdaf`, `Polling`, `PollLimit`, `PollLoop` |
| pipeline | `Assessment`, `Trust`, `Propagation`, `Policy`, `Pipeline` |
| ledgers | `StoreForward`, `FeederLinks`, `Buckets` |

`Text.AsciiSpaces`, `Text.CaseMeaning`, `Text.HexDigits`, `Sst.HexCases`, `Propagation.WithoutConcat` and
`StoreForward.LastEnqueuedMeaning` say what the small functions under the theorems are.

`dafny verify dfyconfig.toml` checks everything. The sources hide definitions with `hide` where a proof
does not need them, and state one step a lemma, so that no proof needs a raised limit.

## Model

| member | source | states |
|---|---|---|
| `History.RunKeeps` | core/db/schemas/core.go:16-121 | any sequence of clone, tree save, NSSAI save, slice-DNN save, bulk, auth, AMBR and delete calls keeps every key, reference and check, and one catalog row per (sst, sd-or-empty); every catalog row stays as it was, so the sst and sd behind a path do; a subscriber no successful call names is seen unchanged |
| `History.StepKeeps` | core/db/crud/nssai.go:116-140 | each call keeps the constraints and every catalog row, changes nothing when it fails, and leaves the views of subscribers it does not name |
| `Rows.PutSliceMeaning` | core/db/crud/nssai.go:585-590 | insert-or-ignore of a slice: an unknown catalog id is an error, a path already there keeps its flag |
| `Rows.PutDnnMeaning` | core/db/crud/nssai.go:607-612 | the same for a DNN row, with the foreign key to `apn_config` |
| `Rows.PutBindingMeaning` | core/db/crud/nssai.go:629-634 | the same for a service binding, with the foreign key to `services` |
| `Rows.DeleteSlicesMeaning` | core/db/schemas/core.go:87-120 | deleting slice rows cascades: exactly the paths under those slices leave the view, no orphan stays |
| `FirstWins.PutAllMeaning` | core/db/crud/nssai.go:573-638 | after a list of insert-or-ignores a path has its old value, else the value of its first mention in the list |
| `SubscriptionTree.GetOrCreateMeaning` | core/db/crud/nssai.go:118-140 | the id returned is the one catalog row for (sst, trimmed sd), created only when missing, and then with no name and NULL for an empty sd; views do not change |
| `SubscriptionTree.SaveSlicesMeaning` | core/db/crud/nssai.go:573-638 | the nested walk succeeds exactly when every explicit catalog id and every used name is known; then it writes the items of the tree, first mention winning, and counts what it inserted or ignored |
| `SubscriptionTree.CountsMeaning` | core/db/crud/nssai.go:569-638 | the three counts returned are the items of the tree, kind by kind |
| `SubscriptionTree.RegisterAllMeaning` | core/db/crud/nssai.go:573-584 | after a walk every slice without an id has its catalog row, and a walk adds none exactly when all had theirs |
| `TreeSave.SaveMeaning` | core/db/crud/nssai.go:547-641 | a save replaces the tree of the UE by the items of the given one, keeps everyone else, the accounts and every catalog row, succeeds exactly when storable, and changes nothing on error |
| `Store.Database.SubscriptionTreeSave` | core/db/crud/nssai.go:547-641 | the transaction with its nested loops is that save |
| `Loops.InsertSlices` | core/db/crud/nssai.go:573-638 | the outer loop, proved against the recursive walk |
| `Loops.ReadSlices` | core/db/crud/nssai.go:461-541 | the nested query loops build the one reading ordered as the ORDER BY clauses say |
| `TreeGet.TreeReadUnique` | core/db/crud/nssai.go:447-543 | two readings of the same tables are equal: the ORDER BY clauses leave no freedom |
| `TreeGet.ReadingOrdered` | core/db/crud/nssai.go:461-541 | the order a reader sees: slices by sst, then sd with none first; DNNs and services with the defaults first, names ascending |
| `Text.LessMeaning` | core/db/crud/nssai.go:467 | the byte order of names: where they part the smaller byte comes first, and a beginning before the whole |
| `Store.Database.SubscriptionTreeGet` | core/db/crud/nssai.go:447-543 | nothing for an unknown IMSI, else the ordered reading |
| `TreeGet.TreeReadSays` | core/db/crud/nssai.go:447-543 | a reading says exactly the part of the view whose names are not empty |
| `RoundTrip.GetWhatWasSaved` | core/db/crud/nssai.go:447-641 | get after save says the same as the saved tree, duplicates merged first-wins and empty names dropped, for every tree and database |
| `RoundTrip.SaveAfterGetChangesNothing` | core/db/crud/nssai.go:447-641 | where `apn_config` and `services` hold no empty name, as their writers see to, saving what get returned always succeeds and leaves the catalog and every view as they were |
| `RoundTrip.SaveWhatWasGot` | core/db/crud/nssai.go:447-641 | without that, it still succeeds, adds no catalog row, and keeps exactly the part of the tree whose names are not empty |
| `NssaiSave.SaveIsTreeSave` | core/db/crud/nssai.go:272-319 | the slice-only save is a tree save of slices without DNNs, items without id and SST skipped |
| `Store.Database.SubscribedNssaiSave` | core/db/crud/nssai.go:272-319 | the transaction is that save |
| `NssaiSave.SlicesSaved` | core/db/crud/nssai.go:272-319 | afterwards the UE has one bare slice for each item with an id or an SST, under the number its SST is read as and its trimmed sd, and no other; the count is that of those items |
| `DnnSave.SaveMeaning` | core/db/crud/nssai.go:371-442 | the DNNs below the slices the (sst, SD) map reaches are replaced by the matching items; success condition, count, and frame: other subscribers, accounts and catalog stay |
| `DnnSave.NewDnnsMatch` | core/db/crud/nssai.go:404-438 | a DNN that was not there before stands below a slice with the SST and the SD, up to case, of an item with that DNN, and is default as the item says |
| `DnnSave.MatchedItemsLand` | core/db/crud/nssai.go:404-438 | an item whose SST and SD, up to case, are those of a slice of the UE has its DNN below such a slice |
| `DnnSave.ReplacesAllExactlyWhen` | core/db/crud/nssai.go:370-442 | whatever slice rows the unordered query keeps and whatever is saved, a reader then finds no DNN but those of the items, exactly when no slices sharing an upper-cased tag hold DNNs |
| `DnnSave.WipedIsBare` | core/db/crud/nssai.go:417-422 | the wipe reaches every DNN row of the UE exactly when it leaves a reader nothing but slices |
| `Counterexamples.ClashKeepsDnns` | core/db/crud/nssai.go:404-422 | a sound database on which an empty slice-DNN save keeps a DNN |
| `Store.Database.SliceDnnSave` | core/db/crud/nssai.go:371-442 | the method builds one of the maps the unordered query allows and is that save |
| `Sst.RenderedSst` | core/db/crud/nssai.go:72-99 | `normalizeSST` of `%02X` of n is n exactly when n < 10 or the hex form has a letter; otherwise it is smaller |
| `Sst.NormalizeMeaning` | core/db/crud/nssai.go:72-99 | every form: a number is itself, a float loses its fraction, a text is read as decimal, else as hexadecimal, else as 1, and anything else is 1 |
| `Sst.HexReadsBack` | core/db/crud/bindings.go:70-80 | the hex rendering of a number reads back as that number in base 16 |
| `Accounts.GetOrCreateUeMeaning` | core/db/crud/ue.go:50-93 | a blank IMSI is an error; otherwise the subscriber's whole view: column defaults when created, else only the MSISDN replaced, whenever one is passed; nobody else changes |
| `Text.TrimMeaning` | core/db/crud/ue.go:51 | trimming takes the spaces off both ends, all of them, and nothing else |
| `Accounts.AuthUpsertMeaning` | core/db/crud/auth.go:84-145 | success exactly for well-formed input; then the whole view: get-or-create with a non-empty MSISDN, and auth data read back as the op type, op, k, sqn, amf, profile and key passed, hex in lower case; only that subscriber changes |
| `Accounts.SubscriptionUpsertMeaning` | core/db/crud/subscription.go:38-58 | the whole view: get-or-create, then AMBR with values below zero stored as zero; MSISDN, enabled, auth and tree stay |
| `Accounts.DeleteMeaning` | core/db/crud/ue.go:326-336 | the subscriber is gone with every row below it, everyone else is seen as before, the catalog stays, the count says whether it was there |
| `Store.Database.AuthUpsert` | core/db/crud/auth.go:84-145 | the method is that upsert |
| `Store.Database.DeleteByImsi` | core/db/crud/ue.go:326-336 | the method is that delete |
| `Bulk.ProvisionOneMeaning` | core/db/crud/bulk.go:131-263 | one entry leaves exactly the profile of the template, op type OPC where it names none, the derived OPc as op and K as k, whatever was there before |
| `Bulk.OneEntryAgrees` | core/db/crud/bulk.go:131-263 | for one entry the bulk form and the three-call flow succeed together and leave the same tables, surrogate ids included, exactly when the MSISDN is not empty (or an empty one is stored already) and no AMBR is negative |
| `BulkRun.BulkRefinesFlow` | core/db/crud/bulk.go:85-269 | for distinct IMSIs: bulk succeeds exactly when the flow does, then the tables are equal exactly when every entry agrees; a failing bulk changes nothing |
| `BulkRun.PlainRunsAgree` | core/db/crud/bulk.go:85-269 | with MSISDNs present and AMBR not negative the runs are one, repeated IMSIs included |
| `BulkRun.ProvisionAllKeeps` | core/db/crud/bulk.go:131-263 | the loop keeps the constraints, every catalog row and the views of subscribers not listed |
| `BulkOutcome.BulkExactlyWhen` | core/db/crud/bulk.go:88-130 | a request succeeds exactly when it names someone and a key version, the template is well-formed, no IMSI is blank, and the tree can be stored once; otherwise nothing changes |
| `BulkOutcome.BulkLeaves` | core/db/crud/bulk.go:131-263 | after the whole run each subscriber is as its last entry says: MSISDN, AMBR, derived OPc and K, and the tree of the template, with the enabled flag it had |
| `BulkOutcome.BulkCountsMeaning` | core/db/crud/bulk.go:131-263 | created are the IMSIs nobody had, each once; auth and tree rows are counted per entry |
| `Store.Database.BulkProvision` | core/db/crud/bulk.go:88-269 | the transaction with its loops and counters is that bulk form |
| `Counterexamples.EmptyMsisdnDiffers` | core/db/crud/bulk.go:138-163 | an entry with an empty MSISDN on which the two forms differ, over any sound database without that IMSI |
| `Counterexamples.LastDeleteOverflows` | core/db/crud/ue.go:351-384 | on any sound database, deleting the one IMSI of fifteen nines leaves it absent, counts it, and returns an error |
| `Counterexamples.LastCloneOverflows` | core/db/crud/ue.go:250-287 | on any sound database with a source that can be cloned, cloning onto that one IMSI leaves the clone, counts it, and returns an error |
| `Counterexamples.EnqueueOverflows` | core/access/ntn/phase2.go:229-246 | two enqueues that leave the counter at the least int64 |
| `Clone.CloneMeaning` | core/db/crud/ue.go:104-230 | the clone is seen as the account of the source with SQN 0 and the union of both trees, flags of the destination kept; error exactly when an IMSI is blank, the source is missing or has no auth; nobody else and no catalog row changes; holds for every row order of the joins |
| `Clone.CloneTwice` | core/db/crud/ue.go:95-103 | cloning again changes no view and no catalog row |
| `Clone.CopiesTreeMeaning` | core/db/crud/ue.go:183-224 | the three INSERT..SELECT joins copy the tree by value although the rows carry new ids |
| `Clone.BindingsCopied` | core/db/crud/ue.go:209-224 | the third join, through (slice, DNN), inserts exactly the service paths of the source |
| `Store.Database.CloneDeep` | core/db/crud/ue.go:104-230 | the transaction, rows taken in arbitrary order, is such a clone and keeps the constraints |
| `Decimal.IncDecStr` | core/db/crud/ue.go:291-300 | the in-place increment writes the next numeral of the width, and fails exactly on all nines |
| `Decimal.NextNumeral` | core/db/crud/ue.go:289-300 | incrementing the numeral of n gives the numeral of n + 1 |
| `Decimal.NumeralsDiffer` | core/db/crud/ue.go:250-300 | different numbers of the range are different IMSIs |
| `Store.Database.CloneRange` | core/db/crud/ue.go:250-287 | exactly start, start+1, … are clones, min(count, 10^w - start) of them, each with the IMSI less its five leading digits as MSISDN; error exactly when start + count reaches 10^w or nothing can be cloned, others and the catalog as before |
| `Ranges.MsisdnsDiffer` | core/db/crud/ue.go:239-274 | the clones of a range have pairwise different MSISDNs exactly when there are no more of them than 10^(w - 5), or any number where w is at most five |
| `Decimal.NumeralSuffix` | core/db/crud/ue.go:268-273 | without its leading digits a numeral is that of the rest: the most significant digit stands first |
| `Ranges.WalkStep` | core/db/crud/ue.go:267-285 | one more clone extends the range, also when the source lies inside the range |
| `Store.Database.DeleteRange` | core/db/crud/ue.go:351-384 | exactly those IMSIs are gone, the count is how many were there, the same overflow condition, others and the catalog as before |
| `Ranges.DeleteUndoesClone` | core/db/crud/ue.go:239-384 | deleting a range just cloned into absent IMSIs restores every view over the same catalog and counts every clone |
| `Reputation.SupiState.Update` | Security Layer/tier2.py:49-80 | the in-place update of one record is the step function; a window whose attempts cancel the prior raises and leaves the record |
| `Reputation.Tier1ExactlyWhen` | Security Layer/tier1.py:29-49 | the hard rule fires exactly on enough attempts with failures at least the threshold's share of them |
| `Reputation.FlaggedExactlyWhen` | Security Layer/tier2.py:38-63 | a window is flagged exactly when its failures above baseline exceed the margin on all attempts, the smoothing prior's included |
| `Reputation.OneWindowAdds` | Security Layer/tier2.py:38-69 | what one window does, without the division: its share of failures above baseline is added to the decayed score, at least 0 and at most the cap, and it is flagged above the margin |
| `Reputation.ScoreUnderGeometric` | Security Layer/tier2.py:54-60 | updates at least a gap apart keep the score between 0 and cap times the geometric sum |
| `Reputation.GeometricScoreBound` | Security Layer/tier2.py:54-60 | the same in closed form: score (1 - q) <= cap (1 - q^n) with q = decay(w) < 1 |
| `Reputation.ScoreAtMostCaps` | Security Layer/tier2.py:54-60 | without spacing, at most n times the cap |
| `Escalation.CandidateExactlyWhen` | Security Layer/tier2.py:62-69 | a window is a candidate exactly when the score reached the threshold and at least n_min windows of the run, no older than horizon_windows windows, were flagged |
| `Escalation.SteadyScore` | Security Layer/tier2.py:54-60 | windows a gap apart with the same share x, up to the cap, run from fresh to exactly x times the geometric sum |
| `Escalation.SteadyCandidate` | Security Layer/tier2.py:54-80 | above the margin they are a candidate exactly when that sum reaches the threshold and the last n_min windows are there, inside the horizon |
| `Escalation.SeventhOfTwenty` | Security Layer/tier2.py:19-80 | default configuration, 20 failures in every 100 attempts every 30 s: a candidate exactly from the seventh window on |
| `Escalation.NeverBeforeSixth` | Security Layer/tier2.py:19-80 | default configuration, windows at least 30 s apart: no candidate before the sixth |
| `Escalation.AlwaysAtSixth` | Security Layer/tier2.py:19-80 | default configuration, any reachable state, six strong windows 0 to 30 s apart: always a candidate |
| `BlockTable.TrustRiskRepository.IsBlocked` | Security Layer/trr.py:43-50 | reading deletes an expired entry and answers for a live one |
| `BlockTable.TableIsLog` | Security Layer/trr.py:33-57 | the table holds an entry exactly for a latest add that was not cleared and never read after its end |
| `BlockTable.ReadingAnyClock` | Security Layer/trr.py:43-57 | what a reading answers on any clock |
| `BlockTable.ReadingIsLog` | Security Layer/trr.py:43-57 | on a non-decreasing clock the lazily pruned table answers as the event log |
| `BlockTable.ClockGoingBackShows` | Security Layer/trr.py:43-50 | a clock that goes back tells the two apart |
| `BlockTable.StepUpMeaning` | Security Layer/stepup_auth.py:34-52 | the right secret always passes, a failed step-up leaves the table as it was, after anything else the target is not blocked |
| `BlockTable.TrustRiskRepository.StepUpFlow` | Security Layer/stepup_auth.py:34-52 | the flow with its three outcomes |
| `Engine.SecurityLayerEngine.ProcessEvent` | Security Layer/realtime_engine.py:51-86 | the method over live per-subscriber records is the step function on values, the division by zero included |
| `Engine.SecurityLayerEngine.GetTier2State` | Security Layer/realtime_engine.py:46-49 | a record is created on first use and never shared |
| `Engine.SecurityLayerEngine.AttemptReauth` | Security Layer/realtime_engine.py:88-94 | the step-up on the engine's table; reputations stay |
| `Engine.SecurityLayerEngine.IsCurrentlyBlocked` | Security Layer/realtime_engine.py:96-97 | the query, with its lazy deletion; reputations stay |
| `EngineRun.NonInterference` | Security Layer/realtime_engine.py:46-97 | in any interleaving of windows, step-ups and queries, answers, reputation and block entry of a subscriber are those of an engine fed with its inputs alone |
| `EngineRun.ReputationIsOwnRun` | Security Layer/realtime_engine.py:46-86 | in any interleaving the reputation is that of the subscriber's own windows (those that do not raise) run from fresh, and an input is an alarm about it exactly when it is a window ending such a run in a candidate |
| `EngineRun.SeventhWindowAlarms` | Security Layer/realtime_engine.py:51-86 | so, whatever else the engine is fed, such a subscriber's alarms are its windows from the seventh on |
| `EngineRun.DecisionSays` | Security Layer/realtime_engine.py:51-86 | the answer to a window: its own subscriber, origin and index, the hard rule's verdict, a candidate by either rule, and the entry an alarm leaves; it raises exactly when attempts cancel the prior |
| `EngineRun.EntriesSay` | Security Layer/realtime_engine.py:71-84 | every entry of the table is that of the subscriber's standing alarm: its time, the configured expiry, and the rule it is laid to |
| `EngineRun.FirstFiveNeverBlock` | Security Layer/realtime_engine.py:51-97 | default configuration: five or fewer windows 30 s apart that the hard rule never catches never get a subscriber blocked, whatever else is fed |
| `EngineRun.BlockedExactlyWhen` | Security Layer/realtime_engine.py:51-97 | blocked exactly when a candidate window less than the expiry ago has no later candidate and no verified step-up since, on that subscriber's own non-decreasing clock |
| `EngineRun.NeverBlockedWithoutCandidate` | Security Layer/realtime_engine.py:71-84 | nobody is blocked without a candidate, whatever the clock |
| `EngineRun.FailedStepUpChangesNothing` | Security Layer/realtime_engine.py:88-94 | a failed step-up leaves the engine as it was, the target blocked, and the secrets differ |
| `Nwdaf.FetchFailsExactlyWhen` | Security Layer/nwdaf_client.py:75-147 | a fetch fails exactly when the answer mixes kinds of times or holds, in any place, a row that breaks: its JSON or its counters are there and are no object, or both counters are there and a counter, the time or the origin does not convert; counters below zero convert |
| `Nwdaf.UsableExactlyWhen` | Security Layer/nwdaf_client.py:83-110 | a row becomes a window exactly when IMSI, data and both counters are there and counters, time and origin convert, whatever else the payload holds; the window has the row's own values |
| `Nwdaf.SkippedExactlyWhen` | Security Layer/nwdaf_client.py:83-98 | a row is skipped exactly when IMSI or data is missing, the text is no JSON, or the counters, or one of them, are missing |
| `Nwdaf.OriginMeaning` | Security Layer/nwdaf_client.py:100-103 | the origin is the experiment's, else the payload's; the lookup raises exactly where the experiment is something else than an object |
| `Nwdaf.FalsyMeaning` | Security Layer/nwdaf_client.py:81-95 | exactly the values Python takes for false count as missing |
| `Nwdaf.AsIntMeaning` | Security Layer/nwdaf_client.py:107-108 | a counter loses its fraction, on either side of zero |
| `Nwdaf.EventsMember` | Security Layer/nwdaf_client.py:142-147 | the events are those of the complete rows, each numbered by its row's place |
| `Nwdaf.NumberForCountersCrashes` | Security Layer/nwdaf_client.py:75-95 | a row with a number for its counters raises, alone and in a fetch |
| `Nwdaf.PostedReadsBack` | Security Layer/nwdaf_client.py:75-180 | a data point posted by `post_test_datapoint` comes back as the window it was, its origin too when given and the field is configured |
| `Nwdaf.StableSortMeaning` | Security Layer/nwdaf_client.py:139-140 | sorted, and rows of equal time keep order and number |
| `Nwdaf.SortPermutes` | Security Layer/nwdaf_client.py:139-140 | the sort keeps the rows as a multiset |
| `Nwdaf.SortAscends` | Security Layer/nwdaf_client.py:139-140 | times ascend, numbers by value and texts byte by byte |
| `Nwdaf.SortAppends` | Security Layer/nwdaf_client.py:139-140 | sorting an export that grew by later rows is the old sorted export followed by the sorted new rows |
| `Nwdaf.GrowthExtends` | Security Layer/nwdaf_client.py:139-140 | an export grown by later rows, wherever they are listed, sorts to the old sorted export and more |
| `Nwdaf.GrowthKeepsEvents` | Security Layer/nwdaf_client.py:139-147 | the known events come back unchanged, with the same indices, followed by higher ones |
| `Nwdaf.FetchEvents` | Security Layer/nwdaf_client.py:113-147 | the conversion loop: indices count malformed rows too, a row that breaks raises |
| `Polling.EachRowOnce` | Security Layer/realtime_engine.py:130-152 | over any polls, some failing, whose sorted answers each extend the last, the events fed for a subscriber are those of its last answer, once each and in order |
| `Polling.RunEndsExactlyWhen` | Security Layer/realtime_engine.py:134-152 | a fetch ends the run, for every subscriber, exactly when some answer cannot be fetched |
| `Polling.PollingIsOneBatch` | Security Layer/realtime_engine.py:130-152 | so the engine holds about it what one pass over that export leaves, other subscribers polled in between |
| `PollLimit.FedAtMostLimit` | Security Layer/realtime_engine.py:130-152 | answers of at most limit rows never feed more than limit windows of a subscriber, over any number of polls |
| `PollLimit.FedIsLongest` | Security Layer/realtime_engine.py:130-152 | whatever the core keeps, prunes or cuts off: a subscriber whose answers hold usable rows has been fed as many windows as its longest answer had rows, and the mark stands there |
| `PollLimit.WholeLogExactlyWhen` | core/nf/nwdaf/nwdaf.go:353-355 | a log of usable rows that grows by later ones, each answer lacking some of the oldest (pruned by age or over the limit) and what was cut off staying so: all of it is fed, once and in order, exactly when some answer held the whole last log; the number fed is that of the longest answer |
| `PollLimit.WithinLimitExactlyWhen` | core/nf/nwdaf/api.go:102 | so where only the limit cuts: exactly when the log is no longer than the limit; of a longer one exactly limit windows are fed |
| `PollLimit.RestIsAnswer` | core/nf/nwdaf/api.go:102 | whatever is cut off a log, some answer is the rest: the runs above exist |
| `PollLimit.LosesARow` | Security Layer/realtime_engine.py:142-145 | a run under a limit, the mark still below it, in which a row is never fed |
| `PollLimit.PrunedLosesARow` | core/nf/nwdaf/nwdaf.go:353-355 | a run without a limit in sight: two rows polled and pruned, and the third is never fed |
| `Polling.AnswerSetsMark` | Security Layer/realtime_engine.py:142-145 | an answer whose last row is usable puts the mark there |
| `PollLoop.RunAgainstNwdaf` | Security Layer/realtime_engine.py:113-157 | the nested loops feed the engine exactly what the fold over the polls gives, up to the first window that cannot be weighed; the run raises exactly when there is one or a fetch fails |
| `Assessment.Assess` | Security Layer/contextual_risk_assessment.py:92-140 | the point loop: HIGH exactly for both rules, LOW exactly for neither, the failure ratio without effect on level and score |
| `Assessment.AssessedMeaning` | Security Layer/contextual_risk_assessment.py:33-67 | level, score, subscriber, source and time read off the keys of the Stage 1 mapping, with their fallbacks to tier 1 and tier 2 |
| `Assessment.ReasonsMeaning` | Security Layer/contextual_risk_assessment.py:92-140 | one reason per rule, and a third only where both hold |
| `Trust.TrustRiskRepository.UpdateFromAssessment` | Security Layer/trust_risk_repository.py:60-91 | one mutable record moves, the others stay |
| `Trust.FedReached` | Security Layer/trust_risk_repository.py:60-132 | consecutive failures are the trailing HIGH run, the history is the last entries, reputation stays within 0 and 1, total counts the assessments |
| `Trust.TrustMeaning` | Security Layer/trust_risk_repository.py:125-132 | each trust level read off the assessed levels, both directions |
| `Trust.ReputationMoves` | Security Layer/trust_risk_repository.py:73-78 | one more signal: LOW raises the reputation by 0.05 and MEDIUM by 0.01, up to 1; HIGH lowers it by 0.05, down to 0; no other record moves |
| `Trust.LowRun` | Security Layer/trust_risk_repository.py:73-78 | a subscriber only ever assessed LOW, n times, stands at 0.05 n, at most at 1 |
| `Trust.RiskierNeverTrusted` | Security Layer/trust_risk_repository.py:60-91 | of two runs over the same subscribers the one nowhere riskier never leaves anybody the lower reputation |
| `Trust.HistoryLogs` | Security Layer/trust_risk_repository.py:60-91 | a history entry says time, level, score and reasons of its signal, and the record's time is that of its last signal |
| `Propagation.PropagationClosedForm` | Security Layer/collaborative_risk_propagation.py:101-177 | the unrounded score is min(100, 100 × the weights of neighbours last assessed HIGH), the level follows from the bounds 0, 49 and 74, and those neighbours are named |
| `Propagation.OrderDoesNotMatter` | Security Layer/collaborative_risk_propagation.py:107-123 | relationships in any order give the same sum |
| `Propagation.NeighbourMeaning` | Security Layer/collaborative_risk_propagation.py:108-118 | a neighbour weighs in exactly when its last assessment was HIGH, and then with 100 |
| `Propagation.WithoutMeaning` | Security Layer/collaborative_risk_propagation.py:85-95 | every matching relationship is removed and no other |
| `Propagation.CollaborativeRiskPropagation.AddRelationship` | Security Layer/collaborative_risk_propagation.py:66-83 | the relationship is appended, with the default weight of its kind where none is given |
| `Propagation.CollaborativeRiskPropagation.RemoveRelationship` | Security Layer/collaborative_risk_propagation.py:85-95 | the filtering loop |
| `Propagation.CollaborativeRiskPropagation.CalculatePropagatedRisk` | Security Layer/collaborative_risk_propagation.py:101-148 | the score loop over live records |
| `Policy.MilderExactlyWhen` | Security Layer/adaptive_authentication_policy_engine.py:82-159 | the two cases, and the only ones, where a worse subscriber gets a milder action |
| `Policy.UpdatedIsMonotone` | Security Layer/adaptive_authentication_policy_engine.py:82-159 | neither occurs on records an update just left |
| `Policy.ChooseMeaning` | Security Layer/adaptive_authentication_policy_engine.py:82-159 | the whole table: who is blocked, let in and monitored, and how sure, for every combination |
| `Policy.EvaluateMeaning` | Security Layer/adaptive_authentication_policy_engine.py:41-54 | without a record the subscriber is unknown and monitored; without propagated risk it counts as none |
| `Policy.Execute` | Security Layer/adaptive_hmac_authentication.py:44-122 | success is withheld, and access blocked, exactly for a temporary block; the HMAC challenge is run exactly for a step-up |
| `Pipeline.AdaptiveAuthenticationPipeline.Process` | Security Layer/adaptive_authentication_pipeline.py:41-86 | the chain in its order; no event, no mapping, no supi key or a null time raise, each its own exception, and change nothing |
| `Pipeline.RunIsFed` | Security Layer/adaptive_authentication_pipeline.py:98-104 | the repository of a run is the one its signals leave |
| `Pipeline.ActionClosedForm` | Security Layer/adaptive_authentication_pipeline.py:41-113 | after any run: blocked exactly when assessed HIGH block_threshold times in a row, challenged when last assessed MEDIUM or HIGH, else allowed, monitored or challenged by the summed weight of neighbours last assessed HIGH (none, up to 0.74, more) |
| `Pipeline.OutcomeMeaning` | Security Layer/adaptive_authentication_pipeline.py:41-86 | what is returned besides: the event's assessment, the record it left, the risk propagated by neighbours last assessed HIGH |
| `Pipeline.ClearedIsAllowed` | Security Layer/collaborative_risk_propagation.py:154-156 | with the relationships cleared, a subscriber assessed LOW is let in |
| `Pipeline.RiskierNeverMilder` | Security Layer/adaptive_authentication_pipeline.py:41-113 | two runs, same subscribers and same relationship changes with non-negative weights, the first nowhere riskier: none of its actions is stricter |
| `Pipeline.NegativeWeightBreaksIt` | Security Layer/collaborative_risk_propagation.py:118-125 | for every negative weight, two whole runs in which only a neighbour gets riskier and a subscriber is answered more mildly |
| `Pipeline.SafeExactlyWhen` | Security Layer/adaptive_authentication_pipeline.py:41-113 | relationships of a weight, beside any non-negative ones, never make a riskier run milder, exactly when the weight is not negative |
| `StoreForward.CounterIdentity` | core/access/ntn/phase2.go:229-270 | queued bytes are the running net sum less its least prefix, never negative, as long as no enqueue overflows |
| `StoreForward.NeverNegativeExactlyWhen` | core/access/ntn/phase2.go:229-270 | never negative exactly when no enqueue overflows an int64 |
| `StoreForward.QueuesAreIndependent` | core/access/ntn/phase2.go:229-270 | the queue of an IMSI is what its own calls leave |
| `StoreForward.LeastMeaning` | core/access/ntn/phase2.go:251-270 | the least prefix is a lower bound of all prefix sums and one of them |
| `StoreForward.TimesKept` | core/access/ntn/phase2.go:229-270 | the times kept are those of the last enqueue and of the last drain that found a queue |
| `StoreForward.SAFManager.EnqueueBytes` | core/access/ntn/phase2.go:229-246 | the method, negative bytes counted as zero, the sum wrapping as an int64 |
| `StoreForward.SAFManager.DrainBytes` | core/access/ntn/phase2.go:251-270 | the method, with its clamps and its error |
| `FeederLinks.HistoryIsChanges` | core/access/ntn/ntn.go:346-359 | the switches of a satellite are exactly the changes in its list of registered stations |
| `FeederLinks.HistoryIsPath` | core/access/ntn/ntn.go:346-359 | each switch starts where the last ended, none is a self-switch, the first starts at the first station and the last ends at the active link; empty exactly while nothing changed |
| `FeederLinks.LinksAreCalls` | core/access/ntn/ntn.go:346-359 | the active link has station, address and time of the last call; each switch is a call to its new station, at its time |
| `FeederLinks.FeederLinkManager.InitiateSwitch` | core/access/ntn/ntn.go:367-371 | a switch is reported exactly when the history grew, and it is the one recorded |
| `Buckets.IntervalsAreEnumeration` | core/db/seed/manifest.go:185-210 | the interval test accepts every list of readable buckets whose enumerated, padded IMSIs are all different strings, and accepts no other list whose ranges stay within a uint64 |
| `Buckets.JudgedRightExactlyWhen` | core/db/seed/manifest.go:196-208 | the test is right about a bucket beside every bucket that does not wrap, exactly when it does not wrap itself |
| `Buckets.ValidateBuckets` | core/db/seed/manifest.go:185-210 | the two loops decide that test; an error names a real offender |
| `Buckets.PaddedReadsBack` | core/db/seed/manifest.go:242-245 | a padded number reads back as itself, so different numbers are different strings at any width |
| `Buckets.PaddedWidth` | core/db/seed/manifest.go:242-245 | fifteen digits up to 10^15, and beyond that as many as it takes |
| `Buckets.ImsisCountUp` | tester/src/baseline.py:316 | the IMSIs of a bucket with a fifteen-digit start count up from that start |
| `Buckets.WrapHidesOverlap` | core/db/seed/manifest.go:196-200 | two buckets with a common IMSI the test accepts because one wraps |
| `Buckets.LoadBuckets` | tester/src/baseline.py:306-339 | whatever numbers the starts are read as, the enumerating loops accept exactly the lists of readable buckets with distinct IMSIs, and build the two tables |
| `Buckets.PaddedIntDiffer` | tester/src/baseline.py:316 | two numbers, negative ones included, are padded to the same string only if they are equal |
| `Buckets.LookupFindsOwn` | tester/src/baseline.py:474-480 | with different names the lookup of an enumerated IMSI gives its own bucket |
| `Buckets.LookupFindsLast` | tester/src/baseline.py:474-480 | with a name used twice it gives the later bucket |

## Left out

- HTTP services, user interfaces, command lines, demos, CSV and audit files, machine-learning code: I/O or library behaviour.
- SQL text, drivers, pooling, migrations, I/O errors and the race branch of `UEGetOrCreateByIMSI`: a call is one atomic step, the reads before `Begin` included.
- SHA-256 and HMAC: uninterpreted; of key derivation only its shape, 32 lower-case hex digits, is assumed.
- Floating-point rounding: exact reals, and `propagated_score` before it is rounded (the level is classified from the unrounded score as in the code).
- Columns no modelled call touches (`imeisv`, `subscriber_status`, times), the catalog's `description`, and the tables beside the subscription tree.
- `NSSAICatalogAdd`, `NSSAICatalogUpdate` and `NSSAICatalogDelete` are not calls of a run: they can put a second NULL-sd row or pull a slice away.
- `BindingUpsert`, `BindingsBulk`, `resolveSliceDNNID`: the bulk form queries the pool inside its own transaction, which a step model would not match.
- AUTOINCREMENT gaps left by ignored inserts: ids differ, no view does.
- Upper and lower case of letters beyond ASCII.
- Origins that are not text read as none; `risk_context`, `detection_callback` and `propagate_snapshot` carry no state.
- Polling.EachRowOnce: assumes that each answer holds the asked subscriber's rows, that the sorted answers extend each other, and that no fetch fails; `PollLimit.WholeLogExactlyWhen` says what becomes of answers that do not extend each other, `Polling.RunEndsExactlyWhen` when a fetch fails.
- PollLimit.WholeLogExactlyWhen: assumes that new rows are later than those polled before; a row collected with an older time shifts the numbers of the later ones. Of rows with equal times the answer lacks those listed first. `PollLimit.FedIsLongest` assumes neither.
- Reasons and log texts of the policy and execution results; the repository's export and `clear`.
- Block thresholds below one: a repository configured so blocks everybody; the pipeline theorems take it to be at least one.
- Orbit, visibility and delay formulas, the other NTN managers, locks.
- Buckets.IntervalsAreEnumeration: equivalence for ranges within a uint64; `Buckets.JudgedRightExactlyWhen` says what becomes of the others. MSISDN numbers, slices and DNNs of a bucket are not modelled.
- Escalation.NeverBeforeSixth: stated for a decay with decay(30)^3 = 1/2, which a half-life of three 30 s windows gives.
