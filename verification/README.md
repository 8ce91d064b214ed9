# Verified model of the OPNsense fleet manager's backend

The backend keeps copies of firewall configurations, pushes changes to the firewalls without clobbering
edits made on the device, can take a pushed change back, and feeds dashboards and reports from what it
collects. This project models the parts of it whose correctness is hardest to see by reading, and proves
what they are for:

- **The canonical form of config.xml** (`ConfigTree`, `ConfigDiff`, `ConfigHash`, `ConfigCollision`,
  `ConfigCompare`, `ConfigModel`): flattening a document to a map from indexed path to value loses nothing but what it means
  to lose, the hash input and the structural diff agree, and the redacted view shows exactly the rest.
- **The config-change pipeline** (`Pipeline`, `PipelineRows`, `PipelineWrites`, `PipelineFresh`,
  `PipelineAtomic`, `PipelineScenarios`, `PipelineBaselines`, `PipelineCauses`, `NoClobber`, `ConfigPush`,
  `Sweeper`): jobs, API calls, edits on the device and the orphan sweeper as one transition system, at the grain of a job's load,
  lock attempt, reading, writes, commit or crash; applying one change and a profile; the life of an orphaned
  action.
- **Revert as an inverse** (`DeviceStore`, `CatalogRevert`, `CatalogChange`, `RecordRevert`, `PolicyStore`,
  `IdsPolicy`).
- **Incremental structures against their simple specifications**: the login limiter (`RateLimiter`,
  `LimiterRuns`), the perimeter rollup (`Perimeter`, `PerimeterRuns`), keyset pagination (`EventPaging`),
  tenant access (`Access`).
- **Arithmetic and bounded loops**: report schedules (`Calendar`, `ReportSchedule`), retention resolved twice
  (`Retention`, `ReportRetention`), firmware polling and upgrades (`Firmware`).

`Strings` holds joining, splitting, decimal numerals and the code-point order. `dafny verify dfyconfig.toml`
checks everything.

## Where the first statement that comes to mind is false

Each of these has a lemma at a failing input and a theorem that says exactly when the statement holds (for
the second writer of a change, what must have happened before).

- Equal hash inputs do not mean equal documents: a newline in a value can imitate another line of the hash
  input (`ConfigHash.HashCollision`). Every plain map with two paths shares its hash input with another plain
  map, which need not be a document's, and one with a single path exactly when its value holds a later entry
  (`ConfigCollision.CollidesExactlyWhen`); on newline-free values the hash is faithful
  (`ConfigHash.HashFaithful`).
- A job checks that its change is scheduled before it takes the device lock and not again, so a change
  cancelled in between is applied all the same (`PipelineScenarios.CancelledThenApplied`,
  `PipelineFresh.FreshExactlyWhen`). Doing load, check and lock in one step would leave only cancellations
  under the lock (`PipelineAtomic.CancelledWhileLocked`, `PipelineAtomic.AtomicJobsFinishOnce`).
- The members of a profile need not share a baseline, and the device is compared with that of the first
  scheduled one only, so a member can be written over a configuration its own baseline excludes
  (`PipelineBaselines.MixedProfileClobbers`, `PipelineBaselines.RespectedExactlyWhen`).
- A live write need not have a rollback snapshot, and a change can be written twice: a job that crashes after
  its write stores nothing, and the next one writes again (`PipelineScenarios.CrashedThenWrittenAgain`,
  `PipelineWrites.WriteHasSnapshotExactlyWhen`, `PipelineWrites.SecondWriter`).
- A profile member of an unknown kind is not sent to the device although it is the first failing one
  (`ConfigPush.UnknownKindIsNotSent`, `ConfigPush.ProfileSends`).
- The revert of a catalog change does not restore the device when a row that is deleted is also named by
  another op (`CatalogRevert.SetThenDelFails`, `CatalogRevert.GridRevertExactlyWhen`).
- The revert of a firewall rule, Monit test or IDS policy recorded as "add" over an existing record deletes
  that record (`RecordRevert.RevertLoses`); and when the change's recorded target names another record than
  its payload, the inverse works on that other record (`RecordRevert.StrayTargetFails`,
  `IdsPolicy.StrayTargetFails`). The exact conditions are `RecordRevert.RecordRevertExactlyWhen` and
  `IdsPolicy.PolicyRevertExactlyWhen`.
- The limiter's returned waiting time is enough when exactly the limit of failures lies in the window; with
  more it may not be (`LimiterRuns.RetryExactlyWhen`, `LimiterRuns.RetryAfterMayNotSuffice`).
- A log entry that is not later than the latest one already seen is never counted in the perimeter rollup
  (`PerimeterRuns.RollupExactlyWhen`, `PerimeterRuns.SameTimeIsLost`).
- On a tenant missing from the tenant table a wildcard grant counts in the point query and not in the map
  (`Access.WildcardMissesTenant`, `Access.MapAgreesExactlyWhen`).
- A weekly report that starts late, on another weekday, is followed by one whose period overlaps it
  (`ReportSchedule.LateRunOverlaps`, `ReportSchedule.WeeklyWindowsTile`).
- Overrides edited by hand, such as 5000 days or the text "30", are kept for different times by the
  application and by the purge (`Retention.ResolversAgreeExactlyWhen`, `Retention.LongOverrideDiffers`).

## Model

| member | source | states |
|---|---|---|
| ConfigTree.PathTextInjective | backend/app/services/config_diff.py:36-49 | different sequences of tag, tag[i] and @attribute segments are written as different paths |
| ConfigTree.StripExactly | backend/app/services/config_diff.py:40 | the text of a leaf is what is left of it without the spaces at its ends: a text has exactly one such remainder, and stripping gives it |
| ConfigTree.LookupsDetermine | backend/app/services/config_diff.py:25-52 | two well-formed trees that hold the same values at the same addresses are equal up to the order of siblings with different tags, inner text and spaces at the ends of leaf text, two such texts being equal when some text without spaces at its ends remains of both |
| ConfigDiff.WalkSound | backend/app/services/config_diff.py:35-49 | every entry the walk writes is the value at the address its path spells |
| ConfigDiff.WalkCovers | backend/app/services/config_diff.py:35-49 | every leaf and attribute of the tree is written |
| ConfigDiff.NoPathWrittenTwice | backend/app/services/config_diff.py:35-52 | the flattened map has as many entries as the walk makes writes: no path is written twice |
| ConfigDiff.FlattenTrims | backend/app/services/config_diff.py:35-41 | at every leaf whose text is spaces, x and spaces, with x free of spaces at its ends, the flattened map holds exactly x under the leaf's path |
| ConfigDiff.FlattenFaithful | backend/app/services/config_diff.py:19-52 | two documents flatten to one map exactly when, without top-level revision nodes, inner text and whitespace at leaf edges, they are equal up to reordering siblings with different tags |
| ConfigHash.BlobInjective | backend/app/services/config_diff.py:55-59 | newline-free maps with one sorted `path=value` join are equal |
| ConfigHash.DiffReports | backend/app/services/config_diff.py:62-73 | a path is reported removed, added or modified exactly when it is |
| ConfigHash.DiffEmptyIffEqual | backend/app/services/config_diff.py:62-73 | the diff is empty exactly when the flattened maps are equal |
| ConfigHash.StructuralDiffSwaps | backend/app/services/config_diff.py:62-73 | swapping the documents swaps added and removed, keeps modified and the order of paths |
| ConfigHash.HashAgreesWithDiff | backend/app/services/config_diff.py:55-73 | an empty diff gives one hash input; for newline-free values one hash input gives an empty diff |
| ConfigHash.HashFaithful | backend/app/services/config_diff.py:55-59 | for newline-free values two documents hash alike exactly when they are equivalent |
| ConfigHash.CollidesWithNewlineFree | backend/app/services/config_diff.py:55-59 | a flattened map shares its hash input with a different newline-free map exactly when a value holds a newline and the lines read as sorted entries |
| ConfigCollision.CollidesExactlyWhen | backend/app/services/config_diff.py:55-59 | a plain map shares its hash input with another map with plain paths, which need not be a document's, exactly when it has two paths, or its only value holds a later line that reads as an entry with a later path |
| ConfigHash.HashCollision | backend/app/services/config_diff.py:55-73 | a family of pairs of documents with one hash input and a non-empty diff |
| ConfigCompare.RemoveVolatile | backend/app/services/config_diff.py:19-22 | the in-place removal drops exactly the top-level revision children and keeps the order of the rest |
| ConfigCompare.TagTotals | backend/app/services/config_diff.py:42-44 | the counting loop gives each tag's number of children |
| ConfigCompare.WriteAttributes | backend/app/services/config_diff.py:36-37 | the loop adds exactly the attribute entries |
| ConfigCompare.WalkInto | backend/app/services/config_diff.py:35-49 | the recursive walk adds to the accumulated map exactly the walk's entries |
| ConfigCompare.WalkChildrenInto | backend/app/services/config_diff.py:42-49 | the loop with its running counters gives every child the segment its position among same-tag siblings calls for |
| ConfigCompare.WalkChildInto | backend/app/services/config_diff.py:47-49 | one child is walked under `tag` when it is alone and under `tag[i]` otherwise |
| ConfigCompare.FlattenXml | backend/app/services/config_diff.py:25-52 | the loops compute the flattened map of the theorems |
| ConfigCompare.ListDifferences | backend/app/services/config_diff.py:65-73 | the loop over the sorted union of paths computes the diff of the theorems |
| ConfigCompare.CompareXml | backend/app/services/config_diff.py:62-73 | the same for whole documents |
| ConfigModel.BuildNode | backend/app/services/config_model.py:44-74 | the recursive builder computes the redacted node of the theorems |
| ConfigModel.BuildChildren | backend/app/services/config_model.py:66-74 | the loop with its counters gives the children in order with the flattening's path scheme |
| ConfigModel.SensitiveExactlyWhen | backend/app/services/config_model.py:33-35 | a name is sensitive exactly when a listed word appears in it, in any mix of cases |
| ConfigModel.CaseIsIrrelevant | backend/app/services/config_model.py:33-35 | names equal up to letter case are equally sensitive |
| ConfigModel.WordsRedact | backend/app/services/config_model.py:44-65 | an element whose tag holds a listed word, however written, is silent with everything below it; any other leaf outside shows its text without spaces at the ends |
| ConfigModel.RedactionExact | backend/app/services/config_model.py:33-80 | two documents have one redacted view exactly when they differ only in text and attribute values at or below sensitive tags, in sensitively named attributes, and in what flattening ignores |
| ConfigModel.SensitiveIsSilent | backend/app/services/config_model.py:44-65 | at and below a sensitive tag no value and no attribute value appears |
| ConfigModel.ModelMatchesFlatten | backend/app/services/config_model.py:44-80 | the view's leaf paths are exactly the non-attribute keys of the flattened map, with equal values at leaves that are not sensitive |
| CatalogRevert.InverseRestores | backend/app/services/config_revert.py:275-300 | the inverse ops, run in payload order, are accepted and give back the multiset of rows, rows that were not deleted under their own uuids |
| CatalogRevert.GridRevertExactlyWhen | backend/app/services/config_revert.py:275-300 | they do so exactly when every set and del names a row its grid had and no deleted row is named by another op |
| CatalogRevert.SetThenDelFails | backend/app/services/config_revert.py:275-300 | a payload that sets a row and deletes it is applied and not undone |
| CatalogChange.ApplyCatalogSetting | backend/app/services/catalog_kind.py:13-27 | a live run applies the scalars and the ops in order with one result per op and one reconfigure, or stops where the device refuses the scalars, an op or the reconfigure, with exactly what went before applied; a dry run touches nothing |
| CatalogChange.ReadSettings | backend/app/services/config_revert.py:81-91 | the loop reads the prior value of every touched field, absent ones as the empty string |
| CatalogChange.InvertGrids | backend/app/services/config_revert.py:275-300 | the loop builds the inverse ops of the theorems, or refuses |
| CatalogChange.InvertCatalogSetting | backend/app/services/config_revert.py:245-311 | the inverse payload of the theorems, or refusal for want of a snapshot, a path or a prior row |
| CatalogChange.RefusedExactlyWhen | backend/app/services/config_revert.py:262-297 | with or without a snapshot, a revert is refused exactly when a scalar was set or a row set or deleted and the snapshot or the path is missing, or such a row is not in the snapshot |
| CatalogChange.InverseAims | backend/app/services/config_revert.py:255-311 | the inverse has the change's set, reconfigure and snapshot paths and model root, the target or else the payload's model id, and exactly the scalar keys of the change, with the values of the snapshot |
| CatalogChange.InverseHolds | backend/app/services/config_revert.py:275-300 | whatever results were recorded, the inverse deletes exactly the rows that were really added, sets back exactly the rows that were set and adds again exactly the rows that were deleted |
| CatalogChange.CatalogRevertExactlyWhen | backend/app/services/config_revert.py:245-311 | a fully applied live change is undone, every scalar and the multiset of rows, exactly when, where prior state is needed, a snapshot was stored and the path is recorded, and the grid condition holds |
| RecordRevert.RevertLoses | backend/app/services/config_revert.py:131-133 | the inverse of an "add" that overwrote an existing record, under the payload's own identity, deletes that record |
| RecordRevert.AgreeingRevert | backend/app/services/config_revert.py:127-159 | with a target that agrees with the payload a change is undone, giving back the prior record or its absence, exactly unless it was an "add" over an existing record |
| RecordRevert.StrayRevert | backend/app/services/config_revert.py:127-159 | with a target that names another record it is undone exactly when the change changed nothing and the target matches at most one record, none for an "add" |
| RecordRevert.RefusedExactlyWhen | backend/app/connectors/opnsense/client.py:332-343 | a change is refused exactly when its payload lacks the main identity field or two records carry its identity |
| RecordRevert.InverseMeaning | backend/app/services/config_revert.py:127-159 | a revert is refused exactly when it is no "add" and there is no snapshot; else it is named by the target or the payload, deletes exactly if it is an "add" or the snapshot has no such record, and otherwise sets the record to the snapshot's |
| RecordRevert.RecordRevertExactlyWhen | backend/app/services/config_revert.py:111-162 | both, over all operations, targets and payloads of firewall rules and Monit tests, and only if it is an "add" or a snapshot was stored |
| RecordRevert.StrayTargetFails | backend/app/services/config_revert.py:129 | a rule set on an empty device and recorded with another target stays when it is reverted |
| IdsPolicy.NameRulesets | backend/app/services/config_revert.py:194-205 | the loop names every ruleset in order or refuses |
| IdsPolicy.GroupTokens | backend/app/services/config_revert.py:208-212 | the loop groups the dotted tokens by metadata key in order |
| IdsPolicy.RebuildPolicy | backend/app/services/config_revert.py:194-222 | the portable policy of the theorems, or refusal |
| IdsPolicy.ContentRoundTrip | backend/app/services/config_revert.py:206-212 | serialising the rebuilt content gives the same multiset of dotted tokens |
| IdsPolicy.SerializedMeaning | backend/app/connectors/opnsense/client.py:503-546 | a policy can be sent exactly when every ruleset name is acceptable and enabled, and what is then stored has its settings, its actions, its rulesets' uuids in order and a token per filter |
| Strings.PlainNameExactly | backend/app/connectors/opnsense/client.py:46-50 | the names and uuids the client accepts are the non-empty texts over letters, digits, dot, underscore and hyphen |
| IdsPolicy.RulesetsResolved | backend/app/services/config_revert.py:195-205 | the revert refuses exactly when a ruleset is missing from the file table, and otherwise names each in order |
| IdsPolicy.PolicyRoundTrip | backend/app/services/config_revert.py:184-222 | the revert refuses exactly when a ruleset is unknown; rebuilding a policy and sending it again stores a policy of the same meaning exactly when every ruleset's name is acceptable to the client and leads back to it on the device |
| IdsPolicy.InverseMeaning | backend/app/services/config_revert.py:184-205 | an "add" is reverted by a deletion without a snapshot; any other change is refused without one, or when a ruleset is unknown, and otherwise deletes the named policy exactly if the snapshot has none of that name and rebuilds it else |
| IdsPolicy.PolicyRevertExactlyWhen | backend/app/services/config_revert.py:184-222 | over all targets, and only if it is an "add" or a snapshot was stored: with an agreeing target an applied policy change is undone exactly when it was no "add" over an existing policy and the rulesets to restore have acceptable names that lead back; with another target exactly when it changed nothing, the target matches at most one policy, none for an "add", and its rulesets lead back |
| IdsPolicy.StrayTargetFails | backend/app/services/config_revert.py:185 | a deleted policy recorded with another target stays deleted when the change is reverted |
| Pipeline.LockHolds | backend/app/services/config_push.py:100-108 | over every interleaving, holding jobs and lock entries correspond one to one |
| Pipeline.OneHolder | backend/app/services/config_push.py:63-108 | at most one job holds a lock key, even among devices that share it |
| Pipeline.ReadsHold | backend/app/services/config_push.py:109-136 | over every interleaving, what a job has read, cleared and saved is consistent with the device as long as nobody edits it |
| Pipeline.EveryWriteJustified | backend/app/services/config_push.py:89-149 | every live write is made by the lock holder, which under that lock read a configuration matching the baseline of the job's first scheduled change (or that had none), put exactly it into its transaction as rollback snapshot, and on an unedited device replaces exactly it |
| NoClobber.ReplacesBaseline | backend/app/services/config_push.py:109-128 | with a collision-free hash and newline-free documents, an undisturbed first write replaces a document equivalent to the one the baseline of the job's first change was taken from |
| PipelineBaselines.WriteRespectsExactlyWhen | backend/app/services/config_push.py:163-186 | over every interleaving a write respects the baseline of a change it is about exactly when that is empty or the baseline of the job's first scheduled change, or the first has none and the configuration happens to match |
| PipelineBaselines.SnapshotMatchesExactlyWhen | backend/app/services/config_push.py:179-190 | every stored rollback snapshot passed the first scheduled change's baseline, and matches a change's own under the same condition |
| PipelineBaselines.MixedProfileClobbers | backend/app/services/config_push.py:179-186 | whenever a configuration passes one baseline and not another, a run in which a profile of two such changes is written and applied over it |
| PipelineBaselines.RespectedExactlyWhen | backend/app/services/config_push.py:179-186 | a change's own baseline is respected by every write of every run exactly when it is empty or the first scheduled change's |
| PipelineRows.FinishedOnceExactlyWhen | backend/app/services/config_push.py:98-108 | over any interleaving no change is finished twice exactly when every committing job still finds its changes scheduled |
| PipelineRows.FinalStatusStays | backend/app/api/config.py:356-366 | in such runs applied, failed, conflict and cancelled are absorbing |
| PipelineWrites.CommitKeepsRollback | backend/app/services/config_push.py:129-149 | a job that commits after saving leaves in every change it settles exactly the configuration it read as rollback snapshot |
| PipelineWrites.WriteHasSnapshotExactlyWhen | backend/app/services/config_push.py:72-86 | over every interleaving a live write has a stored snapshot, the configuration its job read, exactly when its job committed |
| PipelineWrites.SecondWriter | backend/app/services/config_push.py:98-136 | two jobs write one change only if the earlier is over and did not commit, or the later wrote a change no longer scheduled; and the later found the baseline of its first scheduled change matched or empty |
| PipelineWrites.OneWriter | backend/app/services/config_push.py:98-136 | if the writing jobs committed and wrote only scheduled changes, each change was written by one job |
| PipelineScenarios.CrashedThenWrittenAgain | backend/app/services/config_push.py:129-149 | a run in which a change is written by two jobs and finished once |
| PipelineScenarios.CancelledThenApplied | backend/app/services/config_push.py:98-108 | whatever the devices, a run in which a cancelled change is written and applied |
| PipelineScenarios.ApplyPossible | backend/app/services/config_push.py:89-149 | from every reachable state a scheduled change on a free device that matches its baseline can be applied live: the device then has the new configuration and the change the old one as rollback snapshot |
| PipelineScenarios.SweepPossible | backend/app/worker.py:248-272 | from every reachable state a sweep of a scheduled change on a free device can run, and adds exactly one attempt or fails the change when none is left |
| PipelineScenarios.FirmwareLocksOut | backend/app/services/firmware_action.py:101-111 | a firmware job can take the lock of any free device, and then any job that tries for it ends uncommitted with the changes untouched, until the firmware job commits |
| PipelineFresh.FreshExactlyWhen | backend/app/services/config_push.py:98-108 | every committing job finds its changes scheduled exactly when none is cancelled or finished by another commit between the job's load and its commit |
| PipelineFresh.UndisturbedJobsFinishOnce | backend/app/api/config.py:439-448 | under exactly that condition no change is finished, in particular applied, twice |
| PipelineFresh.UndisturbedStatusStays | backend/app/api/config.py:356-366 | under that condition applied, failed, conflict and cancelled are absorbing |
| PipelineAtomic.FinishIsCancel | backend/app/services/config_push.py:100-108 | if every lock attempt directly follows its job's load, only a cancellation can finish a change between its job's load and commit: another committing job would hold the same lock |
| PipelineAtomic.AtomicJobsFinishOnce | backend/app/services/config_push.py:98-108 | in such runs no change is finished twice exactly when none is cancelled between its job's load and commit |
| PipelineAtomic.AtomicStatusStays | backend/app/api/config.py:439-448 | and then applied, failed, conflict and cancelled are absorbing |
| PipelineAtomic.CancelledWhileLocked | backend/app/api/config.py:439-448 | such a run in which a change is cancelled while its job holds the lock and applied afterwards |
| PipelineCauses.DeviceChangesExactly | backend/app/services/config_push.py:129-149 | in every run a device's configuration changes only by an edit on the device or by a logged write, to exactly what was written, and every write is logged |
| PipelineCauses.StatusMovesOnlySo | backend/app/services/config_push.py:98-149 | in every run a status moves only by scheduling, cancelling, a sweep without attempts left, or the commit of a job about the change, which gives conflict exactly when what it read did not match the baseline and applied only when it did |
| PipelineCauses.NothingUnscheduled | backend/app/services/config_push.py:98-99 | in every run whatever is applied, and every change a live write is about, was scheduled before |
| ConfigPush.ApplyForKind | backend/app/services/config_apply.py:21-25 | a kind without an applier is refused unsent; any other sends one request |
| ConfigPush.ApplyChange | backend/app/services/config_push.py:89-149 | the whole new row for every combination of status, lock, reading, baseline, live switch and answer, and the request sent; a row that was not scheduled, or whose lock was busy, is untouched and nothing is sent |
| ConfigPush.OutcomeHandled | backend/app/services/config_push.py:98-149 | a scheduled change whose lock was free ends in conflict exactly when the configuration was read and its hash differs from a non-empty baseline, applied exactly when the device took it, and failed else, with the result, time and snapshot of that case; any other row stays as it is |
| ConfigPush.SelectScheduled | backend/app/services/config_push.py:163-165 | the scheduled members in order |
| ConfigPush.MarkAll | backend/app/services/config_push.py:174-184 | every scheduled member gets the status and result of an unreadable or drifted device |
| ConfigPush.ApplyNext | backend/app/services/config_push.py:189-206 | one turn of the member loop: sent, or marked failed unsent after an earlier failure |
| ConfigPush.ApplyMembers | backend/app/services/config_push.py:187-207 | the loop's counters, rows and requests in terms of the first failing member |
| ConfigPush.ApplyProfile | backend/app/services/config_push.py:152-208 | the same for a whole profile: exactly the scheduled members are handled, all on the first one's baseline; without the lock nothing changes and nothing is sent; the returned counts are those of the members' new statuses and the verdict says how far it got |
| ConfigPush.ProfileHandled | backend/app/services/config_push.py:163-206 | a scheduled member is untouched without the lock, in conflict exactly on drift from the first one's baseline, applied exactly when neither it nor an earlier one fails, and failed else |
| ConfigPush.SummaryIs | backend/app/services/config_push.py:163-208 | the summary's verdict and counts follow from what was found and what became of the members |
| ConfigPush.ProfilePrefix | backend/app/services/config_push.py:187-206 | a member ends applied exactly when no member up to it fails, otherwise failed, with its own error if it is the first and as aborted after it, and all carry the one rollback snapshot |
| ConfigPush.ProfileSends | backend/app/services/config_push.py:189-206 | the device is sent, in order, exactly the members before the first failure, and the failing one unless its kind has no applier |
| ConfigPush.UnknownKindIsNotSent | backend/app/services/config_push.py:195-206 | a first failing member of unknown kind is not sent |
| ConfigPush.ProfileOfOne | backend/app/services/config_push.py:89-208 | a profile of one change does what applying it alone does, exactly unless a dry run drops an earlier snapshot |
| ConfigPush.ProfileFitsPipeline | backend/app/services/config_push.py:171-208 | the outcomes of a profile are outcomes the transition system lets a job commit at the phase it reached, and its rows carry the snapshot that job saved |
| Sweeper.SweepRow | backend/app/worker.py:248-276 | the row after one transaction: untouched, counted and re-enqueued, or failed |
| Sweeper.SelectOverdue | backend/app/worker.py:241-247 | exactly the scheduled rows whose own time, or creation time, is before the cutoff |
| Sweeper.SweptExactly | backend/app/worker.py:248-274 | an attempt is counted, whether or not the queue takes the job, exactly on a free device while attempts are left; the row is failed exactly on a free device when none is; otherwise it stays |
| Sweeper.PassExactly | backend/app/worker.py:248-276 | the ids re-enqueued, given up with an alert and skipped are exactly those of the overdue rows that met a free device and an accepting queue with attempts left, a free device without attempts, and a busy device |
| Sweeper.SweepFitsPipeline | backend/app/worker.py:260-272 | the sweep step of the transition system does to a row what a sweep does |
| Sweeper.Sweep | backend/app/worker.py:219-277 | the pass touches only rows overdue when it starts, and re-enqueues, gives up on and skips each as it meets it, in order, with one alert per row given up, and the summary counts them |
| Sweeper.LifeBounds | backend/app/worker.py:248-274 | in every life of an action it is finished at most once, re-enqueued at most the maximum number of times, and alerted on only once, failed, with all attempts used |
| Sweeper.RequeuesCounted | backend/app/worker.py:260-265 | a job is enqueued only by a sweep whose queue accepts it |
| Sweeper.FinalIsFinal | backend/app/api/config.py:356-366 | nothing happens to an action that is applied, failed, in conflict or cancelled |
| Sweeper.OrphanFate | backend/app/services/action_sweeper.py:4-11 | an orphan uses one attempt per free sweep and is failed with exactly one alert by the first free sweep that finds none left |
| Sweeper.WholeLife | backend/app/worker.py:248-274 | the exact life of an action: scheduled from its first scheduling on, with one attempt per free sweep, until it is cancelled, a job gets the lock, which gives it the outcome, or a free sweep finds no attempts left, which fails it; and then it stays as it is |
| Sweeper.DraftFirst | backend/app/worker.py:248-252 | before it is first scheduled or cancelled, jobs and sweeps do nothing to an action |
| RateLimiter.SlidingWindowLimiter.TouchKey | backend/app/core/ratelimit.py:27-36 | the key moves to the end, with its failures or none, and the eviction loop pops from the front |
| RateLimiter.SlidingWindowLimiter.Check | backend/app/core/ratelimit.py:38-61 | the expiry loop, the per-call limits, the answer with its waiting time, and the error for a nonpositive limit |
| RateLimiter.SlidingWindowLimiter.RecordFailure | backend/app/core/ratelimit.py:63-66 | the failure is appended to the touched key |
| RateLimiter.SlidingWindowLimiter.Reset | backend/app/core/ratelimit.py:68-70 | the key is forgotten and nothing else |
| LimiterRuns.MemoryBounded | backend/app/core/ratelimit.py:27-36 | after any operations at most max_keys keys are remembered, and the key just touched is among them |
| LimiterRuns.RecentByLastTouch | backend/app/core/ratelimit.py:33-35 | the reference list is ordered by the time of the last touch |
| LimiterRuns.RecentMembers | backend/app/core/ratelimit.py:27-36 | the reference list holds exactly the touched keys |
| LimiterRuns.LruExact | backend/app/core/ratelimit.py:27-36 | over any run without resets the remembered keys are exactly the max_keys most recently touched ones |
| LimiterRuns.DequeExact | backend/app/core/ratelimit.py:38-70 | a remembered key's deque is exactly its failures since its last reset or eviction that lie inside the window of every check that followed |
| LimiterRuns.AllowsExactlyWhen | backend/app/core/ratelimit.py:55-61 | with a fixed window a check allows exactly when fewer than limit such failures lie in the window, and raises exactly when there are none and the limit is not positive |
| LimiterRuns.RetryExactlyWhen | backend/app/core/ratelimit.py:59-60 | a denied caller is let in after a wait exactly when the limit-th latest failure has left the window |
| LimiterRuns.RetryWithinASecond | backend/app/core/ratelimit.py:57-60 | the returned time is the time until the oldest counted failure leaves the window, rounded up by at most a second |
| LimiterRuns.WaitsAtLeastASecond | backend/app/core/ratelimit.py:57-60 | a denied caller is told to wait for at least a second, and for exactly one when the oldest failure has left the window |
| LimiterRuns.RetrySucceeds | backend/app/core/ratelimit.py:55-61 | in any run, a caller denied with exactly limit failures who waits the returned time is let in, whatever other keys do |
| LimiterRuns.RetryAfterMayNotSuffice | backend/app/core/ratelimit.py:59-60 | an example with more failures than the limit where the returned time is too short |
| Perimeter.SelectNew | backend/app/services/perimeter.py:37 | exactly the timed entries later than the cursor, per address in order |
| Perimeter.GroupByIp | backend/app/services/perimeter.py:40-42 | one group per address with exactly its times, sizes adding up to the number of hits |
| Perimeter.Stream.Upsert | backend/app/services/perimeter.py:58-76 | a new row, or the old one with its first time kept; the total of counts grows by the group |
| Perimeter.Stream.Ingest | backend/app/services/perimeter.py:33-46 | every row merged with its new times, the cursor at the latest, and the number returned is what the counts grew by |
| Perimeter.IngestBoth | backend/app/services/perimeter.py:22-30 | an unreadable source leaves its stream alone and does not block the other; counts grow by the returned total |
| PerimeterRuns.CursorIsLatest | backend/app/services/perimeter.py:79-85 | after any polls the cursor is the latest time seen |
| PerimeterRuns.CountsConserved | backend/app/services/perimeter.py:33-76 | every timed entry of a growing log is counted exactly once or lost for good |
| PerimeterRuns.BatchMeaning | backend/app/services/perimeter.py:58-64 | the reference row holds the number of an address's timed entries, the earliest time and the latest |
| PerimeterRuns.RollupExactlyWhen | backend/app/services/perimeter.py:33-85 | after any polls a row has the exact count, first and last time of the whole log exactly when none of its entries arrived late |
| PerimeterRuns.SameTimeIsLost | backend/app/services/perimeter.py:37 | an example of a lost entry |
| PerimeterRuns.PollRepeatedly | backend/app/services/perimeter.py:33-85 | any number of polls of a growing log through the ingest method: every row and the cursor are those of the theorems, counts sum to the totals returned, and a row is exact exactly when none of its entries arrived late |
| EventPaging.ListPage | backend/app/repositories/event.py:96-124 | the first n matches below the cursor in key order, and a cursor exactly when the page is full; a limit that is not positive raises |
| EventPaging.HitsExactly | backend/app/repositories/event.py:51-74 | a row is a hit exactly when it is the tenant's, from the source and device asked for, within the times asked for and below the cursor |
| EventPaging.TenantIsolated | backend/app/repositories/event.py:61 | tables that agree on a tenant's rows give it the same pages, whatever the rows of other tenants |
| EventPaging.WalkDescends | backend/app/repositories/event.py:106-124 | however the table changes between requests, the rows returned strictly descend, so none comes twice |
| EventPaging.WalkReturnsOnce | backend/app/repositories/event.py:106-124 | a matching row present throughout a finished walk is returned exactly once, however other rows come and go |
| EventPaging.StaticWalkExact | backend/app/repositories/event.py:106-124 | on an unchanging table the pages concatenate to exactly the matches in descending order, in exactly floor(N/n)+1 requests |
| Access.HighestRole | backend/app/core/rbac.py:46-54 | the role of the highest rank, None when none is known |
| Access.ResolveEffectiveRole | backend/app/core/access.py:20-53 | the highest role among memberships in the tenant and grants that cover it |
| Access.EffectiveRoleExactly | backend/app/core/access.py:20-53 | the effective role is a known role that some membership in the tenant, or grant for it or for all tenants, gives, and none of those outranks it; there is none exactly when no known role is given |
| Access.TenantsForUser | backend/app/core/access.py:56-90 | the map gives at every tenant the highest role of memberships, named grants and, for tenants in the table, wildcards |
| Access.MapAgreesExactlyWhen | backend/app/core/access.py:20-90 | the map gives what the point query gives on every tenant in the table, and on any other exactly when no wildcard outranks the rest |
| Access.WildcardMissesTenant | backend/app/core/access.py:81-86 | a wildcard grant on a tenant missing from the table counts in the point query and not in the map |
| Access.RowOrderIrrelevant | backend/app/core/access.py:27-53 | the order and multiplicity of rows do not matter |
| Access.WideningNeverLowers | backend/app/core/access.py:20-53 | more memberships and grants never lower a role |
| Access.CanExactlyWhen | backend/app/core/rbac.py:27-74 | a superadmin may do everything, anyone else exactly what their role's rank suffices for; org-level actions need more than any role has |
| Access.HigherRoleCan | backend/app/core/rbac.py:56-74 | a higher role permits what a lower one permits |
| Access.WideningNeverRevokes | backend/app/core/rbac.py:56-74 | more memberships and grants never take a permitted action away |
| ReportSchedule.NextRunFires | backend/app/services/report_schedule.py:20-42 | the next run is at the weekday and hour, or on day 1 at the hour, strictly after the given instant |
| ReportSchedule.NextRunLeast | backend/app/services/report_schedule.py:20-42 | if any such instant exists the next run exists and is the least, across month and year ends |
| ReportSchedule.NextRunExactlyWhen | backend/app/services/report_schedule.py:20-42 | exactly on-demand reports have no next run; a missing weekday, an impossible hour or an unknown frequency is an error; otherwise a next run exists exactly if some instant qualifies |
| ReportSchedule.WeeklyLeast | backend/app/services/report_schedule.py:27-35 | the same for weekly schedules |
| ReportSchedule.MonthlyLeast | backend/app/services/report_schedule.py:36-41 | the same for monthly schedules |
| ReportSchedule.MonthlyWindowsTile | backend/app/services/report_schedule.py:45-52 | monthly windows are adjacent exactly when the runs are in consecutive months |
| ReportSchedule.WeeklyWindowsTile | backend/app/services/report_schedule.py:53-54 | a weekly run and the next one cover adjacent periods exactly when the first was on a due day at or after its hour |
| ReportSchedule.LateRunOverlaps | backend/app/services/report_schedule.py:45-54 | a late weekly run and the next one cover two days twice |
| ReportSchedule.WindowSpan | backend/app/services/report_schedule.py:45-54 | a window ends at midnight of the run's day, or of the first of its month, and spans the seven days or the calendar month before |
| ReportSchedule.NoWindowExactlyWhen | backend/app/services/report_schedule.py:45-54 | there is no window exactly when it would begin before the first day of the calendar |
| Retention.ResolversAgreeExactlyWhen | backend/app/services/retention.py:18-49 | the application and the purge statement use the same days exactly for integers in range, values that stand for no number, and values that clamp to the default |
| Retention.LongOverrideDiffers | backend/app/services/retention.py:18-42 | an example where they differ |
| Retention.TenantRetention.Upsert | backend/app/repositories/tenant_retention.py:23-37 | the loop merges the patch, clearing on null |
| Retention.MergeLookup | backend/app/repositories/tenant_retention.py:29-35 | a patch sets or clears exactly the stores it names |
| Retention.PutsStayInRange | backend/app/schemas/retention.py:27 | any sequence of accepted PUTs leaves integers between 1 and 3650 only |
| Retention.ReachableOverridesAgree | backend/app/services/retention.py:18-49 | for every reachable overrides map the purge uses the days the application reports |
| Retention.Table.Purge | backend/app/services/retention.py:34-49 | the statement deletes exactly the expired rows and counts them, or fails and deletes none |
| Retention.PurgeKeepsReported | backend/app/services/retention.py:25-49 | with overrides in range the purge succeeds and a row goes exactly when it is older than the reported days |
| ReportRetention.StoresForSections | backend/app/services/report_retention.py:82-88 | exactly the stores some enabled section reads |
| ReportRetention.LimitingStore | backend/app/services/report_retention.py:123-134 | a store kept for the fewest days among those read, or none |
| ReportRetention.RefusesSchedule | backend/app/api/report_schedules.py:66-79 | a submitted schedule is refused exactly when some store it reads is kept for less than its range |
| ReportRetention.ScheduleWarnings | backend/app/services/report_retention.py:137-193 | one warning, in order, with its minimal bound, for exactly the enabled schedules that would be refused if submitted now |
| ReportRetention.LoweringKeepsWarnings | backend/app/services/report_retention.py:178-193 | lowering retention never removes a warning |
| ReportRetention.SmallerOverrideLowers | backend/app/services/retention.py:18-22 | a PUT of fewer days for one store lowers retention |
| Firmware.WaitUntilReachable | backend/app/services/firmware_action.py:51-58 | the wait loop computes the wait of the theorems |
| Firmware.WaitMeaning | backend/app/services/firmware_action.py:51-58 | at most 180 probes, all but the last unanswered, success exactly on an answer |
| Firmware.PollUntilDone | backend/app/services/firmware_action.py:61-94 | the poll loop computes the polling of the theorems |
| Firmware.PollBounded | backend/app/services/firmware_action.py:74-94 | for every device trace polling ends within one call and one wait per poll |
| Firmware.PollUntilDoneJustified | backend/app/services/firmware_action.py:74-94 | what it returns is the last answer, not running, after running or a reboot was seen, or after exactly six idle polls |
| Firmware.PollEndsAt | backend/app/services/firmware_action.py:61-94 | polling ends, with that poll's answer or error, at the first poll that is refused, finds a device that does not come back, or finds it idle after the operation was under way or the grace polls are used up |
| Firmware.PollRunsOut | backend/app/services/firmware_action.py:74-94 | if no poll of the budget does so it raises |
| Firmware.PerformSeenThrough | backend/app/services/firmware_action.py:116-136 | a command that is finished was answered and seen through; one that raised was not answered or its polling raised |
| Firmware.LookSees | backend/app/services/firmware_action.py:123-126 | a status report is looked at only after a mirror check seen through, and a look fails only if the check or the request does |
| Firmware.MajorIsLaterSeries | backend/app/services/firmware_action.py:42-48 | a new major is offered exactly when the latest version is of a later year or month |
| Firmware.RunUpgrade | backend/app/services/firmware_action.py:137-153 | the upgrade loop computes the upgrade of the theorems and counts its steps |
| Firmware.UpgradeDone | backend/app/services/firmware_action.py:137-153 | a finished upgrade took at most five steps, each with the right command, and its last answer showed neither pending updates nor a new major |
| Firmware.UpgradeNotDone | backend/app/services/firmware_action.py:137-151 | an upgrade that is not done saw no report that was up to date, and used up its steps or met a failed look or command |
| Firmware.UpgradeBounded | backend/app/services/firmware_action.py:137-153 | every upgrade ends within a fixed number of calls |
| Firmware.RunFirmwareAction | backend/app/services/firmware_action.py:97-168 | the action's whole new state for every status, lock, kind and device trace |
| Firmware.WorkSends | backend/app/services/firmware_action.py:119-158 | which commands every kind of action sends and when its work meets a problem |
| Firmware.InstallNeedsUpToDate | backend/app/services/firmware_action.py:124-133 | a plugin is installed only after a mirror check seen through and a report whose status is not "ok" and whose count of updates is not positive |
| Firmware.UpgradeActionDone | backend/app/services/firmware_action.py:137-162 | an upgrade action done recorded its steps, at most five, and ended up to date |

## Left out

- The OPNsense HTTP client: the device is a store of scalars, grid rows and records, or a trace of answers; a `set` replaces the row it names, an `add` gets an unused uuid that the client accepts, and an ambiguous identity is refused.
- Encryption, compression and SHA-256: the first two are identities, the hash is injective on its input.
- XML, JSON and base64 parsing, namespaces: the model starts from the parsed tree or value; names hold none of the characters `/ [ ] @ =` or newline (section 2.3 of XML 1.0).
- Configurations that no document has: `ConfigCollision.CollidesExactlyWhen` speaks of flattened maps with well-formed paths, some of which belong to no tree.
- ConfigModel.IsSensitive: lower-cases ASCII letters only; tags and attribute names are compared otherwise as they are.
- Reverts of aliases: an alias "add" is no upsert, what the device does with a second alias of one name is not known, and a missing prior alias refuses the revert.
- Reverts of single-endpoint settings, which repeat the scalar case, and of changes in status failed, which have no recorded uuids to work with.
- The status and decryption checks of a revert request: they only refuse.
- Attaching a Monit test to a service: only the test record is modelled.
- Endpoint paths of catalog changes: the device does not see them; that a change and its inverse carry the same ones is stated in `CatalogChange.InverseAims`.
- API handlers as interleaved steps: scheduling and cancelling are single steps in `Pipeline`; only jobs are split.
- The transient status "applying": it is written and replaced inside one transaction.
- Pipeline.Sensible: the members of a profile are distinct changes of one device, as its callers create them.
- Pipeline.DoLoad: the members of a profile are loaded in one step; the worker loads them one at a time (`backend/app/worker.py`, lines 166-169), so a member's status may be older than another's by the time of the lock.
- Pipeline.Reports: lets a committing job report any mix of applied and failed members; which mix is possible is stated in `ConfigPush`.
- Firmware jobs in `Pipeline` take and release the lock and write no configuration; what they do to the device is in `Firmware`.
- ConfigPush.ApplyProfile: the members are distinct changes, as its callers create them.
- RateLimiter.SlidingWindowLimiter.constructor: max_keys is not negative; a negative one would raise on the first touch.
- Threads: the limiter's methods are atomic, as its lock makes them.
- Perimeter rows' `detail` column, and polls after a purge.
- EventPaging.ListPage: texts are compared by code point; the columns that are neither key nor tenant are not modelled; cursors are decoded.
- The tenant, session and group joins of the access queries: the model starts from the rows they return.
- Section resolution for reports: the enabled-section map is a parameter.
- Delivery of reports, recipients, SMTP, audit records, row-level security, migrations, certificates, the frontend: input and output, bookkeeping, or easy members.
- Parsing of version strings and numbers in firmware reports: reports carry versions and counts.
