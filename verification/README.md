# Durable state of The Heat, modelled in Dafny

The Heat is a bot that drafts and publishes posts about climate records. What it must not lose is kept in
small durable stores: one state snapshot that several processes merge into each other, a publish ledger, a
journal of write attempts, a restartable threshold refresh, immutable release assets behind one manifest
file, a paged inbox, and issues that mirror what is failing. This project models how that state survives
merges, crashes, failures and retries, and proves what it promises.

| part | files |
|---|---|
| Lossless insertion of one draft into an unparsed JSON document, and the JSON reader against a printer | JsonText, JsonLocality, JsonSplice, LosslessImport, JsonPrinting, JsonMeasures |
| The at-most-once write protocol around it | ImportProtocol, ImportCompletion |
| The publish ledger and its merges | Ledger, LedgerReceipts, LedgerMerges, LedgerPhases |
| Drafts, their reconciliation and retention | Drafts, DraftSelection, DraftRetention, DraftAging |
| Rolling source-health logs | SourceHealth, SourceSummary |
| Retained cyclone wind readings | CycloneWinds |
| Serialized writes of the whole state | StateWrites |
| Which diffs a threshold refresh asks for, and its watermark | Watermark |
| The bounded window of parallel station fetches | Scheduler |
| The restartable refresh: single run, checkpoint, sessions, schedules | Refresh, RefreshMeaning, RefreshCheckpoint, RefreshSessions, RefreshSchedule |
| The threshold manifest as text, and the one a publication writes | Manifest, ManifestLines, PublishedManifest |
| Publication of immutable assets | ArtifactProtocol, ArtifactDates, ArtifactCompletion |
| Inbox discovery: drains, sweeps, the completeness certificate, search, selection | Inbox, InboxSweeps, InboxCertificate, InboxSearch, InboxSelection |
| The polygon shapefile parser and an encoder for the format | Bytes, Shapefile, ShapefileCodec, ShapefileInverse, ShapefileFiles, ShapefileGeometry |
| Issue reconciliation and workflow verdicts | IssuePlans, IssueActions, WorkflowHealth, WorkflowVerdicts |
| Shared vocabulary | Common, Sorting, Ordered |

Code that works by steps is a method with its loops, or a class whose methods change its fields; each is
proved against a function, and the promises are lemmas about those functions. Protocols with several
participants are state machines over events: a run is any list of events, so a lemma about all runs covers
every interleaving, crash and late effect. In the refresh a session carries the number of durable steps it
survives, so a statement for all schedules covers a crash at every step.

Assumptions that run through the whole project: a SHA-256 or fingerprint stands for the content it is taken
of; timestamps are whole numbers; HTTP, `gh`, SQLite, gzip and file descriptors appear as stores with atomic
steps and arbitrary failure; parsing and scoring functions outside the modelled files are parameters.

## What the proofs found

- Some merges of single ledger rows lose a receipt if and only if one attempt has among them a row with the receipt, a
  row with an explicit blank tweet id and a confirmed row without one (`LedgerMerges.SafeExactly`). Forbidding confirmed
  rows with a blank id is not enough: the overlay of the other two makes such a row
  (`LedgerMerges.DangerousRowsLoseReceipt`). For entries with nested evidence the absence of the three is proved
  sufficient (`LedgerMerges.ReceiptsJoin`), not necessary.
- A container row that holds nothing but an empty list of evidence comes back from a merge as a bare mark, which
  the next flattening reads as an attempt (`LedgerMerges.EmptyHolderBecomesMark`); `LedgerMerges.MarkComesAndGoes` says
  exactly when a merge has that attempt. It carries no receipt.
- Of two snapshots of one draft identity with different tweet ids the winner's own is overwritten
  (`Drafts.ReceiptsOfMerge`), and two absent attempt times count as the same attempt (`Drafts.AbsentTimesRelease`).
- A draft whose ended attempt loses against an unresolved later one hands over the time of the ended attempt
  (src/state.py:430-438), and a further record of that end then releases the later attempt, although no snapshot says
  that it ended (`Drafts.HandedTimeReleases`). So which snapshots there are does not decide it alone: marks are kept
  exactly when no single merge releases one (`Drafts.MarkSurvivesHistory`).
- Two publishers that both pass their last look at the manifest can leave the earlier date installed
  (`ArtifactDates.TwoOwnersCanGoBack`); the named asset is still the right one.
- A refresh that ran into an empty diff (scripts/update_thresholds_incremental.py:271-273) has recorded it, and from
  then on every refresh with that checkpoint stops there without asking, whatever the remote answers by then.
  `RefreshCheckpoint.Explore` says exactly when: if and only if the recorded answers alone lead to an empty one.
- `selfheal_liveness_verdict` says that a beacon whose time cannot be read is treated as quiet; the reconciliation
  treats it as recovered and closes the issue (`WorkflowHealth.HeartbeatClosedExactly`).

## Model

| member | source | states |
|---|---|---|
| `JsonSplice.TopSpanMeaning` | scripts/nhc_advisory_import.py:94-150 | On a document the span found for a name holds exactly the value that the parsed document has under it (the last of several), and there is no span exactly when the member is missing. |
| `JsonSplice.Member` | scripts/nhc_advisory_import.py:123-150 | The position-stepping scan finds exactly that span; on an accepted document its unchecked indexing stays in bounds and its refusals of a missing colon or separator cannot happen. |
| `JsonSplice.PassSpace` | scripts/nhc_advisory_import.py:129-150 | The white-space loop stops at the first character that is not white space, without running off the text. |
| `JsonLocality.ValueLocal` | scripts/nhc_advisory_import.py:94-150 | A scanned value reads the same in another text, at another position, if its characters are there and the next one does not continue a number. |
| `JsonPrinting.DocumentReadsPrinted` | scripts/nhc_advisory_import.py:86-121 | Against an independent printer by the grammar of RFC 8259, section 2 to 7: an object, array or string in any spelling of its characters and any white space between its tokens, with blanks before it and any text behind, is refused for size, for not being one object with nothing but blanks around it, for depth, or for nodes, in this order, and otherwise read back as itself. |
| `JsonPrinting.ReprintReads` | scripts/nhc_advisory_import.py:86-121 | Whatever document was read reads the same when printed in any other style: spelling and white space carry nothing. |
| `JsonPrinting.ValueIsSound` | scripts/nhc_advisory_import.py:61-86 | Every value read has 16-bit code units, number tokens of the grammar that the number rule let through, and no name twice in an object. |
| `JsonPrinting.SurrogatesOf` | scripts/nhc_advisory_import.py:86-121 | A character beyond the first plane is read as its two surrogates. |
| `JsonPrinting.BlankExactly` | scripts/nhc_advisory_import.py:94-106 | Which 29 characters may surround a document. |
| `JsonMeasures.HeightIsDeepest` | scripts/nhc_advisory_import.py:109-116 | The depth that is limited is the length of the longest path into the value. |
| `JsonMeasures.NodesAreCounted` | scripts/nhc_advisory_import.py:109-116 | The node count that is limited is the number of paths into the value. |
| `JsonMeasures.BytesAreEncoded` | scripts/nhc_advisory_import.py:86-92 | The size that is limited is the number of octets of the text in UTF-8. |
| `LosslessImport.InsertionReads` | scripts/nhc_advisory_import.py:262-274 | For every accepted state document with a drafts array and every raw JSON value: inserting the raw text before the closing bracket reads back as the same members in the same order with exactly that value appended, or meets the first of the size, depth and node limits. No other outcome. |
| `LosslessImport.Plan` | scripts/nhc_advisory_import.py:236-274 | The text part of `plan`, for all inputs: the spliced text and what it reads as. The span refusals and the two preservation refusals are unreachable; the three limits are the only refusals after the drafts were found. |
| `LosslessImport.ReplaceLimits` | scripts/nhc_advisory_import.py:106-121 | Depth and node count of the enlarged document in terms of the old one and the new draft. |
| `LosslessImport.LookupReplace` | scripts/nhc_advisory_import.py:268-274 | The enlarged document holds the new array under its name and every other member unchanged. |
| `LosslessImport.WithoutReplaced` | scripts/nhc_advisory_import.py:268-274 | Apart from the drafts the parsed document is the same, members, order and repetitions included. |
| `LosslessImport.DraftsExactly` | scripts/nhc_advisory_import.py:236-240 | The state has a list of drafts exactly when its member of that name is an array of objects; which name it is, code unit by code unit. |
| `ImportProtocol.StepKeepsInv` | scripts/nhc_advisory_import.py:285-408 | Every step of any operator, refusal, crash or foreign write keeps the protocol invariant: attempts recorded before patches, one lock holder, sound reports. |
| `ImportProtocol.AtMostOnePatchPerTrial` | scripts/nhc_advisory_import.py:337-408 | Over every run of any number of operators sharing one journal, at most one PATCH is sent per trial, each sent one has its durable attempt file, and every report's outcome is exactly what its readback and acknowledgement say. |
| `ImportProtocol.MarkerBeforePatch` | scripts/nhc_advisory_import.py:371-385 | At the step that sends a PATCH, the attempt file of its claim is durable already and the payload is the planned one. |
| `ImportProtocol.NeverResent` | scripts/nhc_advisory_import.py:355-408 | Once an attempt is durable and its operator is past sending or dead, no continuation of the run sends another PATCH for the trial. |
| `ImportProtocol.CrashConsumes` | scripts/nhc_advisory_import.py:371-408 | A crash anywhere after the durable attempt leaves the trial consumed. |
| `ImportProtocol.WholeStays` | scripts/nhc_advisory_import.py:285-296 | A durable attempt file is never removed or rewritten. |
| `ImportCompletion.CallCompletes` | scripts/nhc_advisory_import.py:337-408 | A call that nobody interrupts goes through: durable attempt, one PATCH with the planned payload, and a report that says unknown exactly when nothing was read back, confirmed exactly when the snapshot is the first one with the planned state file, and a conflict otherwise. |
| `Ledger.AttemptRows` | src/state.py:843-867 | The work list over nested evidence terminates, loses and doubles nothing: attempts and opaque subtrees come out as the recursive specification says, with a node count as its measure. |
| `Ledger.MergeRows` | src/state.py:894-910 | The attempt dictionary built by the loop, key order included, is the one of the specification; what it holds is said by `LedgerPhases.PhaseIsHighest` and the receipt results. |
| `Ledger.MergeEntries` | src/state.py:886-922 | One event of the merge, as the loops compute it, equals the specification that all ledger results are about. |
| `Ledger.MergePublishLedger` | src/state.py:881-923 | The whole ledger is merged event by event over the union of the events. |
| `LedgerReceipts.ReadBack` | src/state.py:911-922 | A merged entry, flattened again, gives back the distinct opaque nodes and exactly the merged attempts, apart from the bare evidence mark, for which `LedgerReceipts.MarkReadBack` is exact. |
| `LedgerReceipts.MarkReadBack` | src/state.py:911-922 | When exactly the bare mark is read back from a merged entry: when it is all there is and no opaque evidence is, or when it is a slot that another slot is sorted above. |
| `LedgerReceipts.OverlayKeeps` | src/state.py:902-909 | Overlaying two observations of one attempt keeps its identity and invents neither a receipt, nor a blank id, nor a bare confirmation. |
| `LedgerReceipts.RecordReceipts` | src/state.py:894-910 | Recording a row adds exactly its receipt, as long as it blanks none. |
| `LedgerReceipts.RecordLosesExactly` | src/state.py:894-910 | Recording a row loses a receipt exactly when a bare confirmed row with an explicit blank id meets a slot that held one and no other slot holds it. |
| `LedgerMerges.MergeOnce` | src/state.py:881-923 | One merge: opaque evidence is the union, and for safe rows so are the receipts. |
| `LedgerMerges.ReceiptsJoin` | src/state.py:881-923 | After any merges of any snapshots, in any order, grouping and repetition, the set of (attempt, tweet id) pairs is exactly the union of the snapshots', if no attempt has a receipt row, an explicit blank-id row and a bare confirmed row. |
| `LedgerMerges.OpaqueJoin` | src/state.py:843-867 | The opaque evidence after any merges is exactly the union of the inputs', without a condition, and none of it ever becomes an attempt. |
| `LedgerMerges.PrimaryCarriesReceipt` | src/state.py:911-918 | The primary row carries a receipt exactly when some attempt of the event does. |
| `LedgerMerges.DangerousRowsLoseReceipt` | src/state.py:875-910 | Any three such rows of one attempt lose the receipt in some grouping of the merges, although no snapshot has a confirmed row with a blank id. |
| `LedgerMerges.SafeExactly` | src/state.py:875-923 | The condition is exact: all merges of snapshots taken from a set of single rows keep exactly their receipts if and only if no attempt has the three kinds of row in the set. |
| `LedgerMerges.MarkComesAndGoes` | src/state.py:843-922 | When exactly a merge of two entries has the bare mark as an attempt, in terms of the attempts and opaque nodes of both. |
| `LedgerMerges.EmptyHolderBecomesMark` | src/state.py:843-922 | The input that shows it: an entry without any attempt, merged with nothing, is stored as one that is read as an attempt. |
| `LedgerPhases.OverlayReaches` | src/state.py:875-908 | Merging two observations of one attempt reaches exactly as high as the higher one in the order confirmed, not_sent, unknown, submitted, a receipt standing with confirmed. |
| `LedgerPhases.PhaseIsHighest` | src/state.py:875-910 | After any merges every row of an attempt stands exactly as high in that order as the highest observation of it in the snapshots, and no attempt is lost or invented. |
| `LedgerPhases.EndedStaysEnded` | src/state.py:875-910 | What some snapshot records as not sent is never again read as submitted or unknown without a receipt; it stays not_sent unless some snapshot confirms it. |
| `LedgerPhases.PrimaryIsGreatest` | src/state.py:911-918 | The row that a merged entry shows stands above all its attempts: with a receipt first, then by time, then by phase, then by fingerprint. |
| `Drafts.CarryEvidence` | src/state.py:413-439 | The evidence-carrying tail of the reconciliation, field by field, equals its specification. |
| `Drafts.MergeDraftPair` | src/state.py:383-439 | The in-place reconciliation equals the pure specification that the draft results are about. |
| `Drafts.KeptExactly` | src/state.py:362-371 | When exactly a merged draft is posted or attempt-protected, in terms of the two snapshots. |
| `Drafts.MarkSurvivesMerge` | src/state.py:413-439 | If either snapshot has an unresolved platform attempt, or a receipt with status posted, the merged draft has one too, unless and only unless the winner records the loser's same attempt as ended and has no mark itself. |
| `Drafts.ConflictsDisarmAndPersist` | src/state.py:383-412 | A merge that leaves revision conflicts leaves no approval, no auto-approval time and no autoship; earlier conflicts stay unless a strictly higher content revision wins. |
| `Drafts.DivergenceIsConflict` | src/state.py:395-410 | Two contents under one revision number always end as a conflict with both kept. |
| `Drafts.MergeCommutes` | src/state.py:383-412 | The pair merge is commutative whenever the selection keys differ. |
| `Drafts.TieDependsOnOrder` | src/state.py:383-394 | With equal keys it is not: the later argument wins. |
| `Drafts.ReceiptsOfMerge` | src/state.py:413-439 | The loser's receipt stays visible; the winner's own is overwritten exactly when the loser carries another one for the same identity and no retained snapshot has it. |
| `DraftSelection.HigherRevisionWins` | src/state.py:383-412 | Of two snapshots the one with the higher content revision wins: its content, decision, times and status remain, up to what evidence and conflicts change. |
| `DraftSelection.HigherDecisionWins` | src/state.py:383-412 | With one content revision the one with the higher decision revision wins, whatever the times and statuses. |
| `DraftSelection.LaterWins` | src/state.py:343-353 | With both revisions equal the one last written later wins; the time is the first there is of updated, posted, approved and created. |
| `DraftSelection.HigherStatusWins` | src/state.py:336-353 | With the same time, posted wins over approved, rejected, pending and any other status in that order, and then the higher content fingerprint. |
| `DraftSelection.RetainedExactly` | src/state.py:395-410 | Which retained snapshots and conflicts a merge holds, exactly. |
| `DraftSelection.DecisionIsGreatest` | src/state.py:383-410 | Over merges in any order, grouping and number the result has the greatest decision revision among the snapshots of the greatest content revision, and every snapshot that any of them retains. |
| `Drafts.MarkSurvivesHistory` | src/state.py:383-439 | Over merges in any order, grouping and number, marks are kept all the way if and only if no single merge releases an attempt; then one marked snapshot anywhere leaves the result marked. |
| `Drafts.NoTerminalNeverReleases` | src/state.py:413-439 | Merges of snapshots without a bare not_sent or confirmed outcome never release an attempt, whatever their order. |
| `Drafts.HandedTimeReleases` | src/state.py:430-438 | A concrete input: an authorized draft whose first attempt ended hands the time of that attempt to the winner with an unresolved second one, and a later record of the first end then releases the second. |
| `Drafts.AbsentTimesRelease` | src/state.py:430-438 | A concrete input: without recorded attempt times the end of another attempt releases an unresolved one, which it does not with the times recorded. |
| `Drafts.ConflictsSurviveHistory` | src/state.py:383-412 | Over merges in any order, grouping and number the result has the greatest content revision, every conflict of the snapshots of that revision, and no approval or automatic release while it has a conflict. |
| `Drafts.ConflictSurvivesRun` | src/state.py:383-412 | Over any run of later snapshots without a higher revision a conflicted draft stays conflicted and unapproved. |
| `DraftRetention.EnforceDraftCap` | src/state.py:442-460 | The positions dropped by the cap loop are those of the specification: the oldest insecure ones. |
| `DraftRetention.CapKeepsSecure` | src/state.py:442-460 | The capped list has at most the cap, or only secure drafts; secure ones all stay in order; the insecure ones that stay are the newest, as many as fit. |
| `DraftRetention.DraftStore.Trim` | src/state.py:463-493 | The field after the time trim and cap, from the field before. |
| `DraftRetention.TrimKeepsSecure` | src/state.py:463-493 | Neither the thirty-day trim nor the cap drops a secure draft or reorders them; a nonempty list stays nonempty. |
| `DraftAging.NeededStays` | src/state.py:362-371 | Drafts that are pending, approved, posted, authorized, in conflict or with an attempt of unknown end always stay, in their order. |
| `DraftAging.RetainedExactly` | src/state.py:463-475 | The time trim drops exactly the rejected, unprotected drafts created more than thirty days ago; if that is all of them the ten created last stay. |
| `DraftAging.CapDropsOldest` | src/state.py:442-520 | The cap drops from the merged list the drafts of the others that were created first, and no more of them than it asks for. |
| `DraftRetention.MergeDrafts` | src/state.py:496-521 | The list merge, grouped by id in order of first appearance, then trimmed and capped. |
| `DraftRetention.OrderedIsHistories` | src/state.py:496-520 | The merged list has under each id exactly what its snapshots become when merged one after the other, current ones first, and nothing else. |
| `DraftRetention.MarkedExactly` | src/state.py:362-521 | End to end and exact: whatever the cap and the age, the merged, trimmed and capped list has a marked draft of an id if and only if merging its snapshots leaves a mark. |
| `DraftRetention.MarkedDraftSurvives` | src/state.py:362-521 | End to end: a mark of any snapshot in either list is still there in the merged, trimmed and capped list if no merge of that draft releases an attempt. |
| `DraftRetention.MarkedPairSurvives` | src/state.py:362-521 | Lists that hold the draft once each: a mark of either snapshot is still there in the end if and only if the merge of the two does not release it, so a stale record of another attempt's end takes nothing away. |
| `DraftRetention.MarkedSingleSurvives` | src/state.py:442-521 | A draft that only one list holds, once, never loses its mark. |
| `SourceHealth.CollectEntries` | src/state.py:2095-2125 | The collecting loop equals its specification: sorted, windowed, each entry once, the last ten. |
| `SourceHealth.CountEntries` | src/state.py:2126-2154 | Every counter and total accumulated in the loop is the count, sum or maximum over the retained entries. |
| `SourceHealth.RebuildSourceHealth` | src/state.py:2095-2154 | The rebuilt record: entries and every derived field as folds over them. |
| `SourceHealth.EntriesAreNewest` | src/state.py:2095-2125 | The retained entries are exactly the newest ten within seven days of the latest. |
| `SourceHealth.NewestAbsorbs` | src/state.py:2095-2125 | Retaining in two steps is retaining in one. |
| `SourceHealth.RebuildAbsorbs` | src/state.py:2095-2154 | Rebuilding a log and then adding observations is rebuilding from everything at once. |
| `SourceHealth.MergeIsJoin` | src/state.py:2195-2209 | Any merging of any logs, in any order, grouping and repetition, is the log of all observations, if no two different entries share an instant. |
| `SourceHealth.MergeCommutes` | src/state.py:2195-2209 | The merge of rebuilt logs is commutative. |
| `SourceHealth.MergeAssociates` | src/state.py:2195-2209 | The merge of rebuilt logs is associative. |
| `SourceHealth.MergeIdempotent` | src/state.py:2195-2209 | The merge of a rebuilt log with itself is that log. |
| `SourceHealth.TwoCommuteExactly` | src/state.py:2195-2209 | For two single observations the condition is exact. |
| `SourceSummary.CanonMeans` | src/state.py:2042-2125 | Which status and metrics an observation is kept with. |
| `SourceSummary.FiguresMean` | src/state.py:2127-2154 | What every figure of a rebuilt log counts, adds up or rounds, told from its entries. |
| `SourceSummary.LastSuccessIsLast` | src/state.py:2146-2150 | The last success is the time of the last successful entry, and none exactly when there is none. |
| `SourceSummary.LastErrorIsLast` | src/state.py:2146-2150 | The last error is that of the last degraded or failed entry that has one. |
| `SourceSummary.LongestIsGreatest` | src/state.py:2135-2140 | The longest duration is the greatest of all entries. |
| `SourceSummary.TotalAddsUp` | src/state.py:2135-2145 | A total grows with each entry by exactly its value. |
| `StateWrites.MergeTiers` | src/state.py:948-967 | The loop over the key union equals the per-key maximum with its floor. |
| `StateWrites.MergeLandThreatPairs` | src/state.py:723-740 | The loop gives, per storm, the sorted union of the landmasses. |
| `StateWrites.Store.Write` | src/state.py:1682-1694 | The stored state after a write, all modelled keys, from the state before; a write that is not stored changes nothing. |
| `StateWrites.RevisionRises` | src/state.py:1673-1694 | Over any sequence of writes the revision rises by at least one per write and passes every incoming one. |
| `StateWrites.WriteExactly` | src/state.py:1682-1694 | One write leaves the revision one above the greater of the two, and of each key the greater value; which tables count a missing key as -1 and which as 0. |
| `StateWrites.TiersNeverFall` | src/state.py:948-967 | No value of a max-keyed table, of the stored or of any written snapshot, is ever lost or lowered. |
| `StateWrites.TiersJoin` | src/state.py:948-967 | On values at or above the floor the table merge is commutative, associative and idempotent. |
| `StateWrites.PairsAreUnion` | src/state.py:723-740 | The recorded storm and landmass pairs are exactly those of all snapshots written. |
| `StateWrites.ReceiptsKept` | src/state.py:1144-1157 | Over any sequence of writes the receipts of an event are exactly those of all snapshots, under the ledger's exact condition. |
| `StateWrites.OpaqueKept` | src/state.py:1144-1157 | The opaque evidence is kept over any sequence of writes without a condition. |
| `StateWrites.PhasesKept` | src/state.py:875-923 | After any writes every attempt stands as high, in the order confirmed, not_sent, unknown, submitted, as its highest observation in all that was stored and written. |
| `CycloneWinds.MergeStorm` | src/state.py:705-719 | The loops over one storm's rows give the newest sixteen readings in time order, later rows winning, unreadable rows skipped. |
| `CycloneWinds.MergeWindHistory` | src/state.py:696-720 | Every storm of either side, each with the window of its joined rows. |
| `CycloneWinds.TailIsNewest` | src/state.py:717-719 | The last sixteen of the sorted times are exactly those with fewer than sixteen newer ones. |
| `CycloneWinds.WindowAbsorbs` | src/state.py:696-720 | Merging into a stored window is merging into everything ever observed: what the cap dropped never matters again. |
| `CycloneWinds.StoredAreNewest` | src/state.py:696-720 | Over any sequence of merges the stored readings are exactly the newest sixteen of all observed, each as the latest snapshot had it. |
| `Watermark.PendingWindow` | scripts/threshold_artifacts.py:152-167 | Accepted pending days follow the checkpoint without a gap, end at the lag cutoff, and are at most days + 1 - lag, so at most 31. |
| `Watermark.WindowExactly` | scripts/threshold_artifacts.py:152-167 | When there are days to ask for and which refusal is given otherwise, each as an if-and-only-if on the window and the checkpoint's age. |
| `Watermark.WalkIsChain` | scripts/update_thresholds_incremental.py:263-279 | The walk's intervals are gapless and without overlap from the old watermark to its cursor, each with the archived content. |
| `Watermark.WalkTakesFirst` | scripts/update_thresholds_incremental.py:265-279 | Inside an interval that the walk took, no nearer end was available from the same start. |
| `Watermark.IntervalGuardNeverFires` | scripts/update_thresholds_incremental.py:83-84 | Every interval a walk over pending days asks for spans 1 to 31 days. |
| `Watermark.ResolveNewWatermark` | scripts/update_thresholds_incremental.py:137-153 | The loop equals its specification, with no watermark kept as none. |
| `Watermark.NeverCrossesGap` | scripts/update_thresholds_incremental.py:142-153 | For arbitrary interval lists the new watermark is joined to the old one by listed intervals, and is never earlier. |
| `Watermark.StopsOnlyAtGap` | scripts/update_thresholds_incremental.py:146-153 | It stops only at an interval that does not continue the chain. |
| `Watermark.WalkResolves` | scripts/update_thresholds_incremental.py:295-301 | After a walk the new watermark is exactly the end of its chain, and it moves exactly when a diff was found. |
| `Scheduler.RecomputeStations` | scripts/update_thresholds_incremental.py:109-134 | For every completion order and every moment of noticing: results in station order up to the first exception, all of them if there is none; each station submitted once, in order, with fewer than four outstanding, and none while a noticed failure is outstanding. |
| `Scheduler.Notices` | scripts/update_thresholds_incremental.py:126-127 | The window check is true exactly when an outstanding fetch is seen to have failed. |
| `Scheduler.ResultsDetermined` | scripts/update_thresholds_incremental.py:122-131 | Results in order up to the first exception are determined by the endings alone. |
| `Ordered.AscendingSorts` | scripts/update_thresholds_incremental.py:113 | The sorted station list has every station once, in increasing order. |
| `RefreshCheckpoint.Checkpoint.Open` | scripts/threshold_refresh_checkpoint.py:162-178 | The scope and day fixed by the first opening; later ones find them again or refuse. |
| `RefreshCheckpoint.Checkpoint.Diff` | scripts/threshold_refresh_checkpoint.py:66-82 | Read back, fetch and record, or refuse: the answer and the table in every case. |
| `RefreshCheckpoint.Checkpoint.BindPlan` | scripts/threshold_refresh_checkpoint.py:84-91 | The sealed plan, or the refusal of a different one. |
| `RefreshCheckpoint.Checkpoint.Completed` | scripts/threshold_refresh_checkpoint.py:108-117 | The recorded result of a station, none, or the refusal of a broken seal. |
| `RefreshCheckpoint.Checkpoint.Save` | scripts/threshold_refresh_checkpoint.py:119-128 | Result and seal recorded together, or nothing. |
| `RefreshCheckpoint.TakeRecords` | scripts/update_thresholds_incremental.py:280-286 | What the rows of one diff add to the observations and to the stations to recompute; what that amounts to is `RefreshMeaning.CollectedExactly`. |
| `RefreshCheckpoint.Explore` | scripts/update_thresholds_incremental.py:260-293 | From any checkpoint with intact digests and whatever the remote answers now: the memoised walk asks the questions of the one walk through the recorded answers and the remote behind them, records only the remote's answers to unrecorded ones, and ends with that walk's intervals and observations, at its empty diff, or dead. It stops at an empty diff with nothing new recorded if and only if the records alone lead there, and always does after it once stopped so. |
| `RefreshCheckpoint.SeenBehind` | scripts/threshold_refresh_checkpoint.py:66-82 | Every checkpoint with intact digests, with every remote, shows such an archive, so the statement about the walk covers them all. |
| `Watermark.WalkAgrees` | scripts/update_thresholds_incremental.py:260-293 | Two archives that agree on the questions one of them is asked lead to the same questions and the same walk. |
| `RefreshSessions.Remaining` | scripts/update_thresholds_incremental.py:344 | The stations without a recorded result, in order; no recorded one is refused. |
| `RefreshSessions.CollectStations` | scripts/update_thresholds_incremental.py:346-356 | Every remaining station gets its archived result recorded, or the loop stops at an unusable one or an interruption with what it has. |
| `RefreshSessions.PlanIsDetermined` | scripts/threshold_refresh_checkpoint.py:84-91 | After a whole walk the recorded digests are exactly the answers the plan fixes. |
| `RefreshSessions.Bind` | scripts/threshold_refresh_checkpoint.py:84-91 | The plan sealed after a whole walk is the single run's plan, so a plan once bound is never found changed. |
| `RefreshSessions.UpsertRecorded` | scripts/update_thresholds_incremental.py:365-371 | The recorded results replace the old thresholds; none is missing and no seal is broken. |
| `RefreshSessions.PatchObserved` | scripts/update_thresholds_incremental.py:384-399 | Stations with only new observations are patched, and each has old thresholds, so no archive is fetched inside the transaction. |
| `RefreshSessions.Commit` | scripts/update_thresholds_incremental.py:358-407 | One transaction: the new content exactly, one more commit; or nothing. |
| `RefreshSchedule.Update` | scripts/update_thresholds_incremental.py:250-412 | From any sound checkpoint: an interruption, an explained refusal, or the commit of exactly what a single run commits. |
| `RefreshSchedule.RunSession` | scripts/update_thresholds_incremental.py:214-247 | One session from any consistent state keeps consistency; every outcome is explained; steps taken equal luck used; and a session with unchanged settings, usable answers and enough luck commits. |
| `RefreshSchedule.RunSchedule` | scripts/update_thresholds_incremental.py:214-412 | For every schedule of sessions, on any days, with any settings, dying at any durable step: the baseline is untouched, or committed exactly once and equal to one uninterrupted run over the days some session fixed; refusals that need a damaged checkpoint never occur; interrupted steps are bounded by 34 plus the active stations. |
| `Refresh.RunMovesOn` | scripts/update_thresholds_incremental.py:295-301 | A committed run moves the watermark strictly on, within the lag cutoff, so its checkpoint refuses to run again. |
| `RefreshMeaning.CollectedExactly` | scripts/update_thresholds_incremental.py:260-293 | A refresh recomputes for their changes exactly the active stations of which some diff has an update or delete row, and collects for each active station exactly the observations of its other rows, in order. |
| `RefreshMeaning.SingleRunMeans` | scripts/update_thresholds_incremental.py:259-412 | What the single run commits: every active station with a changing row ends with its archived thresholds, as does one with new observations and none to patch; the others keep theirs, patched where they have new observations. |
| `RefreshMeaning.SingleRunRefusesExactly` | scripts/update_thresholds_incremental.py:259-412 | When it commits nothing: an empty diff, no diff at all, or an archive that is missing, of another station, without checksum or of another day. |
| `RefreshSchedule.WorkBound` | scripts/threshold_refresh_checkpoint.py:131-178 | There are at most 34 durable steps plus one per active station over all sessions. |
| `Manifest.ReadManifest` | scripts/threshold_artifacts.py:63-95 | The line-by-line reader equals its specification, refusals included. |
| `Manifest.ReadLine` | scripts/threshold_artifacts.py:69-74 | One printed line in front of others adds exactly its field. |
| `Manifest.RoundTrip` | scripts/threshold_artifacts.py:63-95 | Fields without line breaks, under distinct keys without `=`, printed in any order within the size bound, read back as the same map. |
| `Manifest.ManifestRoundTrip` | scripts/threshold_artifacts.py:63-95 | Every valid V2 manifest, printed in any order, reads back as itself and stays below the size bound. |
| `Manifest.ReadPrintRead` | scripts/threshold_artifacts.py:63-95 | What was read can be printed in any order and read again without a change. |
| `ManifestLines.LinesExactly` | scripts/threshold_artifacts.py:69-74 | A text is refused for its lines exactly when one has no equals sign or repeats a key; otherwise the fields are exactly what the lines say, split at the first equals sign. |
| `ManifestLines.SplitsJoined` | scripts/threshold_artifacts.py:63-71 | A text with any mixture of line ends splits into its lines, with or without an end after the last one. |
| `ManifestLines.UnreadRefused` | scripts/threshold_artifacts.py:63-72 | More than 4096 characters, or one beyond ASCII, are refused. |
| `ManifestLines.ShaExactly` | scripts/threshold_artifacts.py:37 | A digest is 64 hexadecimal digits in lower case. |
| `ManifestLines.DaySpelled` | scripts/threshold_artifacts.py:53-60 | Every calendar day of the years 1 to 9999, spelled with leading zeros, is a day and reads as its numbers. |
| `ManifestLines.DayIsSpelled` | scripts/threshold_artifacts.py:53-60 | Every accepted day is the spelling of a calendar day. |
| `ManifestLines.MonthLengths` | scripts/threshold_artifacts.py:52-60 | How many days each month has, leap years included. |
| `PublishedManifest.IntegerExactly` | scripts/threshold_artifacts.py:46-49 | The integer check accepts the printed form of exactly the numbers from 1 to its bound. |
| `PublishedManifest.MadeIsManifest` | scripts/threshold_artifacts.py:405-417 | The manifest a publication builds passes every check of the reader; the reader's bounds on the two counts, which the writing side does not check, follow from its bound on the file size. |
| `PublishedManifest.InstalledReadsBack` | scripts/threshold_artifacts.py:405-424 | The installed text reads back as the manifest it describes, for every database that can be published. |
| `ArtifactProtocol.StepKeeps` | scripts/threshold_artifacts.py:322-344 | Every step of any publisher, failed or late upload, crash or foreign change of the release keeps the invariant. |
| `ArtifactProtocol.InstalledAssetPresent` | scripts/threshold_artifacts.py:365-429 | In every state reachable from one in which nobody has published, with any number of publishers, a readable V2 manifest on disk names exactly one listed asset, uploaded with its digest and size, if it did at first. |
| `ArtifactProtocol.AtMostOneUpload` | scripts/threshold_artifacts.py:322-344 | Over every run, with any number of publishers, failures and crashes, no publication calls the upload more than once. |
| `ArtifactProtocol.ListedIsNotSent` | scripts/threshold_artifacts.py:322-344 | Once an asset is listed as uploaded and nobody is about to upload it, no continuation of any run uploads one of its name. |
| `ArtifactProtocol.MeasuredKnows` | scripts/threshold_artifacts.py:365-381 | What the lineage, regression and equality checks establish before an upload is considered. |
| `ArtifactProtocol.LookedKnows` | scripts/threshold_artifacts.py:322-344 | What a look at the release establishes; which case it leads to is `ArtifactCompletion.LookExactly`. |
| `ArtifactDates.DatesNeverGoBack` | scripts/threshold_artifacts.py:368-372 | Over any run in which no second owner looks between an owner's last look at the manifest and its replacement, the installed date never goes back and never goes missing. |
| `ArtifactDates.AloneIsDisciplined` | scripts/threshold_artifacts.py:418-427 | A single owner always follows that discipline. |
| `ArtifactDates.TwoOwnersCanGoBack` | scripts/threshold_artifacts.py:418-427 | Without it two owners can leave the earlier of their dates installed. |
| `ArtifactDates.RerunCompletes` | scripts/threshold_artifacts.py:333-344 | After an upload that was reported failed but landed, publishing the same database again calls no upload and installs its manifest. |
| `ArtifactCompletion.PublicationCompletes` | scripts/threshold_artifacts.py:365-429 | An ordinary publication completes: from any readable manifest and any publishable database whose asset the release does not have yet, a publication whose upload lands installs the manifest of that database, with exactly one upload. |
| `ArtifactCompletion.LookExactly` | scripts/threshold_artifacts.py:322-344 | What an answered look decides, case by case: after an upload, and for an unchanged database, it fails exactly when the release does not offer the asset. |
| `ArtifactCompletion.PresentExactly` | scripts/threshold_artifacts.py:245-260 | The release offers an asset exactly when one row of its name is there, uploaded with its size and digest. |
| `ArtifactCompletion.MeasureExactly` | scripts/threshold_artifacts.py:365-399 | When a publication goes on, is unchanged, or is refused after measuring, with the limits on the measured numbers written out. |
| `ArtifactCompletion.YmdOrders` | scripts/threshold_artifacts.py:368-371 | The order of days is that of years, months and days. |
| `Inbox.RememberRuns` | scripts/gist_command_inbox.py:146-149 | The dictionary of runs by id, later rows winning, malformed rows ignored. |
| `Inbox.ListUnfiltered` | scripts/gist_command_inbox.py:152-175 | The page loop with its cursor, completeness flag and codes equals its specification for every pattern of answers and failures. |
| `Inbox.ListRuns` | scripts/gist_command_inbox.py:178-209 | A usable cursor continues the unfiltered scan; otherwise the capped filtered search is made as specified, of which `InboxSearch.SearchExactly` says how it ends. |
| `InboxSweeps.ScanShape` | scripts/gist_command_inbox.py:152-175 | A drain asks its pages in order, stops at the first failure, the last page or after twenty, and hands over exactly what it read. |
| `InboxSweeps.DrainKeepsBehind` | scripts/gist_command_inbox.py:152-175 | On an unchanging listing, with any page failing: every page before the new cursor has been read, and if the sweep ends every page has. |
| `InboxCertificate.SweepFindsAll` | scripts/gist_command_inbox.py:152-175 | Over any drains of a sweep, with failures anywhere, every page before the saved cursor has been read; a sweep that ends has found every listed run. |
| `InboxCertificate.DrainAdvances` | scripts/gist_command_inbox.py:172-175 | A drain without failures ends the sweep or moves the cursor on by at least eighteen pages. |
| `InboxCertificate.FaultFreeSweepEnds` | scripts/gist_command_inbox.py:152-175 | Without failures a sweep over n rows ends within n / 1800 + 1 drains. |
| `InboxCertificate.CompleteIsCertified` | scripts/gist_command_inbox.py:168-171 | On any listing, changing or not, completeness is claimed only by a scan from page one whose pages all reported the same count, equal to the number of distinct runs found. |
| `InboxCertificate.CompleteExactly` | scripts/gist_command_inbox.py:168-171 | On an unchanging, answered, counted listing completeness is claimed exactly when it fits in twenty pages and its rows are distinct runs; then all were found. |
| `InboxSelection.SearchNeverHidesTheCap` | scripts/gist_command_inbox.py:189-209 | A filtered search without a cursor was below the cap and found every matching run; otherwise it is incomplete and starts a scan at page one. |
| `InboxSearch.SearchExactly` | scripts/gist_command_inbox.py:189-209 | On any service: the search fails with the first refused page; otherwise it hands over exactly the runs of its pages, claims nothing where the cap may have cut, and elsewhere claims completeness exactly when every page reported one count equal to the number of distinct runs. |
| `InboxSearch.SearchCompleteExactly` | scripts/gist_command_inbox.py:189-209 | Over an unchanging, answered, counted listing below the cap it is complete exactly when its rows are distinct runs, and then every matching run was handed over. |
| `InboxSearch.LastRowKept` | scripts/gist_command_inbox.py:146-149 | Of several rows with one id the last is kept. |
| `InboxSelection.Select` | scripts/gist_command_inbox.py:265-279 | The candidates are exactly the runs in the horizon, of the right provenance and not settled, in listing order. |
| `InboxSelection.CandidatesExactly` | scripts/gist_command_inbox.py:265-279 | One more listed run is a candidate exactly when it is no older than the cutoff, not refused by its provenance, and not settled. |
| `InboxSelection.OldestExamined` | scripts/gist_command_inbox.py:280-281 | Examined and deferred runs together are all candidates, no deferred one is older than an examined one, and something is deferred only when 150 are examined. |
| `Bytes.LittleExactly` | scripts/build_fire_basemap.py:61-75 | Four bytes are the packed form of exactly the 32-bit number they unpack to. |
| `Shapefile.AppendRings` | scripts/build_fire_basemap.py:79-82 | The ring loop appends the record's rings, or refuses when one is open or too short. |
| `Shapefile.RingsFromShp` | scripts/build_fire_basemap.py:57-88 | The nested loops equal the recursive specification for every byte string, every refusal included; every field read lies inside its record and the loop terminates. |
| `ShapefileCodec.InPlaceExactly` | scripts/build_fire_basemap.py:75-77 | Fixed-size chunks read by offset are exactly their concatenation. |
| `ShapefileInverse.RecordSound` | scripts/build_fire_basemap.py:66-78 | An accepted record's bytes are exactly the encoding of the record read, and its number is its place in the file. |
| `ShapefileInverse.RecordComplete` | scripts/build_fire_basemap.py:66-78 | Every encoded record is accepted at its place as itself. |
| `ShapefileFiles.ParserInvertsEncoder` | scripts/build_fire_basemap.py:57-88 | Every valid shape, encoded as a polygon shapefile, parses to its rings. |
| `ShapefileFiles.AcceptedIsEncoded` | scripts/build_fire_basemap.py:57-88 | Every accepted file is the encoding of a valid shape, byte for byte, whose rings were returned. |
| `ShapefileFiles.RecordRings` | scripts/build_fire_basemap.py:79-82 | An accepted record's rings join to its coordinate list, one ring per part, each closed with at least four points. |
| `ShapefileGeometry.DrawingReads` | scripts/build_fire_basemap.py:57-88 | Any rings of at least four points on the map, each ending where it began, up to 512 of them and 20000 points, divided into records in any way, have a file that is accepted and gives exactly these rings in this order. |
| `ShapefileGeometry.AcceptedIsDrawing` | scripts/build_fire_basemap.py:57-88 | Whatever file is accepted gives 1 to 512 such rings of at most 20000 points, and begins with the signature, version and type bytes of a polygon file and eight finite bounds. |
| `ShapefileGeometry.RefusalsExactly` | scripts/build_fire_basemap.py:65-74 | When a record is refused for a cut-off header and when for its counts. |
| `IssuePlans.PlanIssueActions` | scripts/source_health_sentinel.py:428-483 | The sentinel's action list: create, update, close, each in key order, closing what is neither failing nor unresolved. |
| `IssuePlans.PlanWorkflowActions` | scripts/workflow_health.py:390-446 | The workflow observer's action list: closes only what was observed recovered. |
| `IssuePlans.PlanHealthActions` | scripts/source_health_sentinel.py:377-385 | Which sources the report leaves unresolved, and the plan that follows. |
| `IssuePlans.PlanSettles` | scripts/source_health_sentinel.py:428-483 | Applying a plan leaves exactly the issues of the failing keys and of those not to be closed; failing ones carry the wanted labels and text, no stale cause label, and keep their number; the others are untouched. |
| `IssuePlans.SentinelFixpoint` | scripts/source_health_sentinel.py:428-483 | One application reaches a state whose next plan is empty, for every verdict. |
| `IssuePlans.WorkflowFixpoint` | scripts/workflow_health.py:390-446 | The same for the workflow planner when nothing is failing and recovered at once. |
| `IssuePlans.OneActionPerKey` | scripts/source_health_sentinel.py:444-483 | Each key gets at most one action. |
| `IssuePlans.UnresolvedKeepsIssue` | scripts/source_health_sentinel.py:377-385 | Paused sources, sources whose rows prove no recovery, and the unjudged liveness keep their issue. |
| `IssueActions.PlanExactly` | scripts/source_health_sentinel.py:428-483 | A plan holds exactly the actions that are called for, each naming the number of the issue it means. |
| `IssueActions.KeptExactly` | scripts/source_health_sentinel.py:444-470 | What a failing key's issue is after the plan: wanted text and labels, no other label of the family, all foreign labels, its old number. |
| `IssueActions.ClosedExactly` | scripts/source_health_sentinel.py:377-385 | An issue is closed exactly when its source is not failing and its recovery was observed. |
| `WorkflowHealth.SelectLatestDecisive` | scripts/workflow_health.py:97-104 | The loop finds the first decisive run of the sorted list. |
| `WorkflowHealth.CountLeadingFailures` | scripts/workflow_health.py:107-117 | The loop counts the failures before the first success, skipping indecisive runs. |
| `WorkflowHealth.LatestIsNewest` | scripts/workflow_health.py:88-104 | The verdict is drawn from a decisive run that no decisive run is newer than; none only if no run is decisive. |
| `WorkflowHealth.FailingHasStreak` | scripts/workflow_health.py:97-117 | A workflow is failing exactly when its streak of failures is not empty. |
| `WorkflowVerdicts.ClassifyMeans` | scripts/workflow_health.py:120-160 | A workflow is failing exactly when the deciding run broke, healthy exactly when it succeeded, unknown exactly when no run decides; of equally new runs the one listed first decides. |
| `WorkflowVerdicts.StreakIsSize` | scripts/workflow_health.py:107-117 | The streak is the number of runs that broke since the last success. |
| `WorkflowVerdicts.KeysMean` | scripts/workflow_health.py:175-237 | Which keys are reported failing and which may be closed, told from the runs and the beacon. |
| `WorkflowHealth.TroubleStays` | scripts/workflow_health.py:175-237 | Heartbeat trouble never goes away by the passing of time alone. |
| `WorkflowHealth.NeverBoth` | scripts/workflow_health.py:654-660 | No key is failing and recovered at once, although the two sets are drawn at different times. |
| `WorkflowHealth.ObserverFixpoint` | scripts/workflow_health.py:654-668 | One pass of the observer reaches a fixpoint; unknown and paused workflows keep their issues untouched. |
| `WorkflowHealth.HeartbeatClosedExactly` | scripts/workflow_health.py:654-668 | The heartbeat's issue is closed exactly when a beacon exists and is either unreadable in time or neither in error, nor stuck, nor stale. |

## Left out

- LosslessImport.Plan: the checks of the proposal, the control flags, the review policy, duplicates and publication history are not modelled; they refuse before the splice.
- JsonText: text starts after UTF-8 decoding; decoding errors and the order in which a recursion limit would be reported are not modelled, and whether a number token is acceptable is a parameter.
- LosslessImport.WithoutReplaced: compares member order too, which is stricter than the dictionary comparison of the code.
- ImportProtocol.AtMostOnePatchPerTrial: creating the backup directory and its files is one step, refusals by the clock are refusal events, and the remote read and PATCH are not atomic together, as the code says itself.
- Ledger.MergePublishLedger: passive observations and their normalisation before the merge are left out; row times and fingerprint order are parameters.
- Drafts.MergeDraftPair: `draft_identity` and `decision_revision` are fields of the model, passive observation maps are left out, and falsy fields count as absent.
- SourceHealth.RebuildSourceHealth: timestamps are already parsed; error texts and classes are opaque.
- StateWrites.Store.Write: models the revision, seven max-keyed tables, the landmass pairs and the ledger; the other keys of the merge table, state normalisation and the guard on an expected draft are left out, and no claim is made about the race between a remote read and write.
- CycloneWinds.MergeStorm: a time text and its instant are one, so two spellings of one instant, which the code keeps apart, are one key here.
- CycloneWinds.MergeWindHistory: the same, storm by storm.
- CycloneWinds.WindowAbsorbs: the same; with two spellings of one instant at the edge of the window the order of arrival decides, which is not modelled.
- CycloneWinds.StoredAreNewest: holds, for the same reason, for one spelling of each instant.
- The other window merges of src/state.py (errors, run history, coverage, news): they follow the same patterns and would add similar members.
- `_merge_llm_usage`: rests on validators outside the modelled files.
- Watermark.PendingWindow: the watermark arrives as a day or as nothing; the refusal of a malformed day text is not modelled.
- Scheduler.RecomputeStations: cancelling outstanding fetches when the generator is closed is left out, and whether a finished failure is noticed is an arbitrary function.
- RefreshSchedule.RunSchedule: a refresh without a checkpoint, which commits in parts, is left out, as are directory, permission and lock refusals and changes of the baseline by others; the working database is held by one session at a time, as its lock ensures.
- RefreshSchedule.RunSession: an interrupted session leaves no file behind in the model; a process that dies inside the transaction can leave a non-empty `-wal` or `-journal` file beside the database, which `baseline_identity` refuses at every later start (scripts/threshold_refresh_checkpoint.py:44-49), so the promise that a session with enough steps commits does not cover that until somebody removes it.
- RefreshCheckpoint.Explore: a bound plan is taken to have every question of its walk recorded, as binding leaves it; parsing does not change between sessions.
- PublishedManifest.InstalledReadsBack: the database has the tables of src/data/ghcn_db.py, so its rows take room in the file; how SQLite lays them out is stated as a lower bound on the size, not modelled.
- Manifest.ReadManifest: the file arrives as characters; a day is a canonical spelling of a calendar day.
- ArtifactProtocol.InstalledAssetPresent: assumes that an uploaded asset is not deleted or replaced and that no second asset of its name is added; measuring and compressing are one step with an arbitrary result; `ensure_database` and `restore_baseline` are left out.
- ArtifactProtocol.AtMostOneUpload: one call of the upload command counts as one upload; retries inside `gh` are not modelled.
- ArtifactDates.DatesNeverGoBack: holds under the stated discipline of owners, without which it is shown to fail.
- Inbox.ListRuns: whether a cursor is usable (repository, branch, age) is a flag, and runs are a map, not a list.
- InboxSelection.Select: the counters that are only reported are left out, as are the downloads.
- Shapefile.RingsFromShp: how eight bytes read as a double is a parameter, and coordinate bounds are compared over the reals; the archive members around the file are left out.
- IssuePlans.PlanIssueActions: a failing set without verdicts, the text of bodies and the listing of open issues are left out; a failed listing in the sentinel reads as no open issues (scripts/source_health_sentinel.py:562-564), which the workflow observer avoids.
- WorkflowHealth.ObserverFixpoint: which workflows a pause or a disabled evaluation covers is a field of the model.
- `classify_source`, the yield, coverage and writer watches: single-branch checks on opaque classifiers.
