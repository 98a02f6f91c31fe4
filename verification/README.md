# A verified model of the NSO adapter's hard core

The adapter stands between NetBox and Cisco NSO. It stores operator intent, deploys it to devices, keeps evidence of
what happened, and tells a plugin about it over an at-least-once channel. This project models the parts on which its
promises rest and proves those promises for every input and every run of the model:

| file | what it models |
|---|---|
| `IntentDelivery.dfy` | an intent PUT: projection lock, receipt admission, the VLAN body, one commit |
| `ApplyAttempts.dfy` | manual Apply by attempt UUID, with concurrent requests, and the reader that checks the evidence |
| `FrozenEvidence.dfy` | the triggers that freeze jobs, deployment generations and execution attempts |
| `SettlementFeed.dfy` | settlement counters locked to the commit, and the cursor feed |
| `Digits.dfy`, `CanonicalNumber.dfy`, `CanonicalEvidence.dfy` | the canonical form of stored evidence |
| `RefreshCoalescer.dfy`, `CancelSafe.dfy` | the two asyncio protocols |
| `Removal.dfy`, `MergePatch.dfy`, `KeyedIntent.dfy`, `ShrinkReport.dfy`, `IntentTables.dfy` | full replacement of keyed intent and the shrinks a merge-PATCH cannot carry out |
| `Redistribution.dfy`, `RedistributionShrink.dfy`, `RoutingSources.dfy` | redistribution rows, their shrink report, and the statements nested in processes |
| `RoutingPut.dfy`, `OspfIntent.dfy`, `IsisIntent.dfy`, `RoutingRuns.dfy` | the whole OSPF and IS-IS PUTs, and a device over every sequence of them |
| `BgpPeers.dfy` | collapsing peers that a device reports several times |
| `Capability.dfy`, `Redaction.dfy`, `RejectionFlow.dfy` | the capability matrix, preflight, redaction of rejections, and the way from a rejection to a later preflight |

Code that changes objects or rows in place is modelled by classes and loops (`Coalescer`, `Session`, `Collection`,
`Table`, `Scope`, `Matrix`, `AwaitUncancellable`, `Canonicalize`, `ValidateEvidence`), each proved against a function
or a predicate that the other results are about. Protocols between processes are state machines whose events are the
steps between two suspension points or two database statements. Clocks, live reads, the outcome of a promotion and the
order in which a query returns rows are parameters or events. Digests are opaque texts. `hide` statements in proofs
only limit what the solver looks at.

Some promises are not met by the code as it stands. The model keeps the code's behaviour and says exactly where:

- A terminal generation's carrier evidence is frozen exactly until a statement reopens the generation
  (`StatementFreezesIff`, `EvidenceFrozenIff`); reopening lifts the freeze (`ReopeningLiftsTheFreeze`).
- The database lets a job become undeletable: a deletion is refused when one of the job's execution attempts has a
  classification that is not a JSON object (`DeleteJobAdmittedIff`, `RefusedDeletionReachable`), because the guard calls
  `jsonb_each` on it. The adapter itself never writes such a row, and then no deletion is refused
  (`DeletionNeverRefused`).
- A refresh task cancelled before its first step leaves the latch of its device closed for ever (`WedgedIff`). The adapter
  cancels such a task only when it shuts down.
- `is_cleared` takes a blank text for unset while the IS-IS process writer emits it, so dropping a blank `net` or key
  goes unreported, and some clears are reported although nothing is left behind (`IsisProcessShrink`,
  `OspfInstanceShrink`, `OspfInterfaceShrink`).
- For IS-IS and OSPF redistribution it is the other way round: the loop takes only a missing value for unset while the
  writer skips blank texts. A route map or metric type that becomes blank goes unreported, and one that was blank is
  reported in vain (`UnreportedIff`, `BlankRouteMapMissed`, `BlankRouteMapInVain`). BGP is exact (`BgpShrink`).
- Two notations of one new redistribution source sent under two entries of the same stored process become two rows
  (`SyncedOneRowIff`, `TwoNotationsTwoRows`).
- A rejected `match as-path` is never reported by preflight (`AsPathMatchUnreported`). The documentation of the parser
  table says that its names match the preflight candidates; this is the one that does not (`ParserNameAskedIff`).
- An as-path name of digit characters without an integer value, such as a superscript, makes preflight raise on a
  platform that numbers its as-path lists (`Preflight`, `DigitsWithoutIntegerRaise`).

## Model

| member | source | states |
|---|---|---|
| `IntentDelivery.RunKeepsInv` | nso_adapter/core/receipt.py:318-435 | every step of a delivery keeps: the committed store is the work of the latest effective delivery, receipts always carry its response, and every logged outcome follows from the deliveries before it |
| `IntentDelivery.SequencesIncrease` | nso_adapter/core/receipt.py:346-381 | along every run the sequences that take effect strictly increase, so no body takes effect twice |
| `IntentDelivery.ReplayRepeatsAnswer` | nso_adapter/api/intent_push.py:110-133 | every replay returns the response and status of the latest effective delivery, which had the same sequence, digest and mode |
| `IntentDelivery.StoreIsLatestBody` | nso_adapter/api/vlan.py:315-379 | the stored VLAN rows are exactly the body of the latest effective delivery, the receipt is its receipt, and the revision counts the effects |
| `IntentDelivery.DeliveryDecided` | nso_adapter/core/receipt.py:327-381 | same identity: replay; same sequence otherwise: `sequence_reuse`; lower: `stale`, all leaving the whole store unchanged, revision included; newer: takes effect unless an insert is refused or it cannot be promoted |
| `IntentDelivery.AppliedAnswer` | nso_adapter/api/vlan.py:327-379 | the answer carries the device, the number of items, the number of deleted rows, and `replaced` only when something shrank |
| `IntentDelivery.SyncedShows` | nso_adapter/api/vlan.py:318-343 | after the full replacement the ids are those of the body, each with the name and timestamp of its last item |
| `IntentDelivery.RecordedReplays` | nso_adapter/core/receipt.py:157-178 | stripping the private keys of a recorded response gives back the result that was recorded |
| `IntentDelivery.CarriesDetermines` | nso_adapter/core/receipt.py:384-428 | those conditions leave one stored response only: the private part merged under the result |
| `IntentDelivery.ConsumeKeepsInv` | nso_adapter/core/receipt.py:431-435 | consuming deletion provenance changes nothing that a replay shows |
| `IntentDelivery.Session.BeginDelivery` | nso_adapter/api/intent_push.py:110-157 | admission is decided on the committed receipt; a replay or refusal leaves the working copy as committed |
| `IntentDelivery.Session.ReplaceRows` | nso_adapter/api/vlan.py:318-376 | rows become the replacement of the old rows by the body, or the insert is refused exactly when a new id is repeated |
| `IntentDelivery.Session.RecordResponse` | nso_adapter/core/receipt.py:384-428 | the receipt keeps its identity, answers 200, shows a replay exactly the result, keeps every other private value it had that the result does not carry, and holds exactly the provenance given, or none |
| `IntentDelivery.Session.PutVlanIntent` | nso_adapter/api/vlan.py:288-379 | one request refines the protocol from lock to commit and answers what the log records |
| `ApplyAttempts.CompletedReplays` | nso_adapter/store/apply_attempt_store.py:37-113 | the row completed for a request replays to exactly the answer it was completed with |
| `ApplyAttempts.ValidateEvidence` | nso_adapter/api/devices.py:388-427 | the check raises nothing exactly when the answer names each stamped generation once and nothing else, or has no list and nothing is stamped |
| `ApplyAttempts.ReleaseDrafted` | nso_adapter/api/actions.py:634-666 | whatever ids were inserted inside the savepoint, the answer names each of them once and nothing else, and replays as it was given |
| `ApplyAttempts.RefuseDrafted` | nso_adapter/api/actions.py:583-633 | however many generations were inserted before the refusal, the rollback to the savepoint leaves the rejected attempt none, and its answer replays |
| `ApplyAttempts.RunKeepsInv` | nso_adapter/api/actions.py:538-668 | every step of every interleaving, single inserts and automatic promotions included, keeps the store, the open transactions with their uncommitted rows, and the answers consistent, and committed attempts unchanged |
| `ApplyAttempts.AnswersAgree` | nso_adapter/api/actions.py:555-582 | a UUID commits at most one outcome, and all answers that report an outcome for it are equal, with equal request identity |
| `ApplyAttempts.KnownUuidAnswered` | nso_adapter/store/apply_attempt_store.py:37-90 | a request with a known UUID changes nothing; it is replayed if it is the request that came first and refused with 409 otherwise, on the unlocked and on the locked path |
| `ApplyAttempts.EvidenceAlwaysHolds` | nso_adapter/api/devices.py:388-427 | with ids from one shared sequence, every reachable attempt passes the reader's check for the generations stamped with it, all of them are for its device, and a rejected one has none |
| `ApplyAttempts.AttemptsArePermanent` | nso_adapter/store/apply_attempt_store.py:93-113 | no later step rewrites a committed attempt |
| `ApplyAttempts.OneApplyPerDevice` | nso_adapter/core/generation.py:200-225 | at most one request per device is between the projection lock and its commit |
| `FrozenEvidence.RunKeepsConsistent` | alembic/versions/d8f2a6c1e904_terminal_carrier_evidence.py:20-83 | in every reachable store a terminal generation's carrier columns are all null or equal the terminal job's status, result and error while the job row exists |
| `FrozenEvidence.StatementFreezesIff` | alembic/versions/d8f2a6c1e904_terminal_carrier_evidence.py:36-47 | a statement keeps recorded carrier evidence, and the generation terminal, exactly when it does not reopen that generation |
| `FrozenEvidence.EvidenceFrozenIff` | alembic/versions/d8f2a6c1e904_terminal_carrier_evidence.py:36-47 | evidence is the same after each statement of a run exactly when none of them reopens the generation |
| `FrozenEvidence.EvidenceFrozenUnlessReopened` | alembic/versions/d8f2a6c1e904_terminal_carrier_evidence.py:36-47 | a list of statements that never asks to reopen a generation leaves its evidence alone, whatever else it does |
| `FrozenEvidence.ReopeningLiftsTheFreeze` | alembic/versions/d8f2a6c1e904_terminal_carrier_evidence.py:25-27 | a run from the empty store after which reopening a generation changes its evidence, with the same job rows |
| `FrozenEvidence.DeleteJobAdmittedIff` | alembic/versions/a4e1c7b09f52_deployment_generations.py:201 | deleting a job is admitted exactly when every attempt of that job has an object as classification; no generation ever refuses it |
| `FrozenEvidence.RefusedDeletionReachable` | alembic/versions/c39b7d2e4a61_durable_execution_outcomes.py:48-49 | a run from the empty store, admitted by the foreign keys to jobs and generations, the CHECK and UNIQUE constraints and the triggers, after which an existing job cannot be deleted |
| `FrozenEvidence.DeletionNeverRefused` | nso_adapter/store/execution_attempt_store.py:270 | in every store reached by statements that write only objects as classification, as the adapter does, deleting any job is admitted |
| `FrozenEvidence.DeleteJobKeepsEvidence` | alembic/versions/a4e1c7b09f52_deployment_generations.py:201 | a deletion removes the row and the references to it, and no evidence |
| `FrozenEvidence.RunPreservesAttempt` | alembic/versions/c39b7d2e4a61_durable_execution_outcomes.py:22-58 | over every run identity columns never change, the phase only advances, checkpoints keep their value, acknowledgement is never withdrawn, `job_id` only becomes null, a terminal attempt is frozen |
| `FrozenEvidence.NonObjectClassificationPinsRow` | alembic/versions/c39b7d2e4a61_durable_execution_outcomes.py:48-49 | a row whose classification is not an object is never changed again |
| `SettlementFeed.CursorOnlyOnWholeFeed` | nso_adapter/api/jobs.py:135-193 | a cursor is served only on one device's unfiltered ascending feed with a legal page size |
| `SettlementFeed.RunKeepsInv` | nso_adapter/store/device_settle.py:106-128 | every interleaving of settle transactions, rollbacks and polls keeps allocation order equal to commit order per device |
| `SettlementFeed.FeedIsExactlyOnce` | nso_adapter/api/jobs.py:181-187 | a consumer has seen a settled job of its device exactly when its sequence is at or below the cursor, each once and in settle order |
| `SettlementFeed.CommitAppends` | alembic/versions/d3a7f1c58e42_device_settle_counter.py:5-15 | a commit appends its jobs behind every job committed before, with strictly increasing sequences |
| `SettlementFeed.PageIsNext` | nso_adapter/api/jobs.py:168-187 | a page is the next jobs of the order, as many as the limit allows |
| `SettlementFeed.PollMakesProgress` | nso_adapter/api/jobs.py:168-187 | a poll of any legal size moves the consumer on by a full page or to the end |
| `CanonicalNumber.PrecisionSuffices` | nso_adapter/api/execution.py:115-119 | the chosen precision makes the exponent addition exact for unbounded exponents |
| `CanonicalNumber.PartitionLiteral` | nso_adapter/api/execution.py:105-107 | splitting a lowered number literal at its exponent mark recovers mantissa and exponent |
| `CanonicalNumber.CanonicalSpells` | nso_adapter/api/execution.py:103-120 | the text spells the exact decimal value in its normal form |
| `CanonicalNumber.CanonicalIffSameValue` | nso_adapter/api/execution.py:103-120 | two numbers have the same text exactly when they denote the same decimal value |
| `CanonicalEvidence.EscapeInjective` | nso_adapter/api/execution.py:150-155 | distinct keys stay distinct when escaped |
| `CanonicalEvidence.EscapeAvoidsTags` | nso_adapter/api/execution.py:123-155 | an escaped key is never one of the tags |
| `CanonicalEvidence.Canonicalize` | nso_adapter/api/execution.py:142-162 | the explicit-stack rewrite ends and builds the recursive canonical form of every tree |
| `CanonicalEvidence.FormIffSame` | nso_adapter/api/execution.py:123-162 | stored values, markers included, have equal canonical forms exactly when they are the same JSON value |
| `RefreshCoalescer.Coalescer.Trigger` | nso_adapter/main.py:265-273 | refines the trigger step: a running device is marked dirty, an idle one gets a task |
| `RefreshCoalescer.Coalescer.FirstStep` | nso_adapter/main.py:280-285 | refines the start of a spawned task |
| `RefreshCoalescer.Coalescer.RefreshEnds` | nso_adapter/main.py:286-295 | refines the end of a refresh, successful or failed: rerun on a dirty edge, else open the latch |
| `RefreshCoalescer.Coalescer.CancelRefresh` | nso_adapter/main.py:286-295 | refines cancellation inside a refresh: the latch opens and the edge stays |
| `RefreshCoalescer.AtMostOneRefresh` | nso_adapter/main.py:265-295 | in every run a device has at most one live task and no more refreshes than triggers |
| `RefreshCoalescer.EveryTriggerRefreshed` | nso_adapter/main.py:265-295 | in every quiet state reached without cancelling the device's tasks, a refresh started after each of its triggers |
| `RefreshCoalescer.CancelledRefreshKeepsEdge` | nso_adapter/main.py:286-295 | cancelling refreshes consumes no dirty edge: a quiet device with an unanswered trigger is still dirty and the next trigger starts a task |
| `RefreshCoalescer.UnstartedCancelWedges` | nso_adapter/main.py:280-295 | after cancelling a task before its first step no refresh of that device ever starts again |
| `RefreshCoalescer.WedgedIff` | nso_adapter/main.py:265-295 | a latch stays closed without a task exactly when such a cancellation happened |
| `CancelSafe.Suspend` | nso_adapter/core/cancelsafe.py:53-67 | the first tick by the horizon with a cancellation, a finished span or a passed timeout, and none before it |
| `CancelSafe.AwaitUncancellable` | nso_adapter/core/cancelsafe.py:34-91 | for every pattern of cancellations and every horizon: without an absorbed cancellation the span's own outcome at the tick it is done; with one always cancelled; the span is cancelled exactly at the first quiet tick past the first cancellation plus the absorb deadline, and left running only after the drain wait; otherwise nothing has ended the wait yet; at most two rounds more than absorbed cancellations |
| `CancelSafe.QuietEnds` | nso_adapter/core/cancelsafe.py:46-81 | once cancellations have stopped, and the caller was cancelled or the span is done, the wait ends within the absorb and drain timeouts |
| `MergePatch.MergeDiffersIff` | nso_adapter/core/removal.py:186-204 | merging a document over another differs from it exactly when an entry or a leaf is dropped |
| `KeyedIntent.Collection.Sync` | nso_adapter/api/isis.py:359-389 | the rows become the replacement by the entries, removed keys and the cleared flag are exact, and an insert is refused exactly when a new key is repeated |
| `KeyedIntent.UpsertedShows` | nso_adapter/api/isis.py:369-389 | the collection has exactly the keys of the payload, each with the fields of its last entry |
| `KeyedIntent.UpsertedUnique` | nso_adapter/api/ospf.py:238-249 | for distinct keys each row has its entry's fields and timestamp; OSPF keeps the old timestamp when the entry has none |
| `KeyedIntent.ClearedUnique` | nso_adapter/api/isis.py:373-387 | for distinct keys the cleared flag compares stored rows with their entries |
| `ShrinkReport.ShrinkIff` | nso_adapter/api/isis.py:335-389 | deleted or cleared holds exactly when merging the new snapshot over the old one leaves residue, for any writer whose clears are faithful on the rows met |
| `ShrinkReport.NothingMissed` | nso_adapter/api/isis.py:335-389 | with repeated keys too, residue is always reported |
| `ShrinkReport.ResidueHasCause` | nso_adapter/api/isis.py:335-389 | with repeated keys too, residue comes from a deleted row or from an entry that drops a leaf of the row it finds |
| `IntentTables.VlanShrink` | nso_adapter/api/vlan.py:318-341 | VLANs: residue is always reported, and nothing else is for distinct ids |
| `IntentTables.IsisInterfaceShrink` | nso_adapter/api/isis.py:566-576 | IS-IS interfaces: the same against the interface writer |
| `IntentTables.IsisLevelShrink` | nso_adapter/api/isis.py:599-623 | IS-IS levels: the same against the level writer |
| `IntentTables.IsisInterfaceExact` | nso_adapter/nso/apply.py:924-953 | for every two interface rows a clear is reported exactly when a written leaf is dropped |
| `IntentTables.IsisLevelExact` | nso_adapter/nso/apply.py:848-857 | the same for level rows |
| `IntentTables.VlanExact` | nso_adapter/nso/apply.py:1407-1420 | the same for VLAN rows |
| `IntentTables.IsisProcessDropsIff` | nso_adapter/nso/apply.py:800-829 | for every two process rows, which leaves are dropped: the missed blanks and the clears that are not idle |
| `IntentTables.IsisProcessShrink` | nso_adapter/api/isis.py:577-598 | IS-IS processes with distinct tags, exactly: residue is a deleted row, a missed blank or a clear with an effect; the report is a deleted row or any clear; and when the two agree |
| `IntentTables.IsisProcessUnreported` | nso_adapter/api/isis.py:577-598 | with repeated tags too, residue goes unreported only through a missed blank |
| `IntentTables.BlankNetMissed` | nso_adapter/core/removal.py:205-206 | a blank `net` that is dropped leaves residue and is not reported |
| `IntentTables.UntypedKeyInVain` | nso_adapter/nso/apply.py:812-815 | a key cleared while it had no type is reported without residue |
| `IntentTables.OspfInstanceDropsIff` | nso_adapter/nso/apply.py:1180-1197 | for every two instance rows, a leaf is dropped exactly when the router id or the VRF is cleared |
| `IntentTables.OspfInstanceShrink` | nso_adapter/api/ospf.py:397-409 | OSPF instances: residue is always reported, repeated ids too; with distinct ids residue is a deleted row or a clear with an effect, the report is a deleted row or any clear, and when the two agree |
| `IntentTables.AdminStateInVain` | nso_adapter/nso/apply.py:1189-1194 | clearing the admin state is reported without residue |
| `IntentTables.OspfInterfaceDropsIff` | nso_adapter/nso/apply.py:1200-1219 | for every two interface rows, a leaf is dropped exactly when a clear other than an untyped key happens |
| `IntentTables.OspfInterfaceShrink` | nso_adapter/api/ospf.py:410-422 | OSPF interfaces: the same, where the only clear without effect is that of a key stored without its type |
| `Redistribution.Table.Prune` | nso_adapter/api/bgp.py:579-588 | the first row of each incoming identity is kept, the others are deleted and reported in order |
| `Redistribution.Table.Upsert` | nso_adapter/api/isis.py:477-505 | each entry updates the row found for it or inserts one, fails exactly on a parent without a timestamp, and the flag says whether an entry cleared a value of the row it found |
| `Redistribution.Table.Sync` | nso_adapter/api/ospf.py:286-347 | for distinct identities: one row per entry with its spelling, values and parent timestamp, no other row of the protocol, the deleted rows are the reported ones, other protocols untouched; for any entries the flag is that of the sync |
| `Redistribution.SyncedReplaces` | nso_adapter/api/bgp.py:558-617 | the same as a fact about the table before and after |
| `Redistribution.SyncedStamped` | nso_adapter/api/isis.py:477-504 | for any entries, every row of the protocol carries its parent's timestamp and other protocols are untouched |
| `Redistribution.OneRowIff` | nso_adapter/api/isis.py:462-504 | for any entries, every incoming identity ends on one row exactly when no identity that was not stored is repeated |
| `Redistribution.SyncedOneRowIff` | nso_adapter/api/isis.py:462-504 | the same for the whole sync of a table: one row per incoming identity exactly when no identity that was not stored is repeated |
| `Redistribution.TwoNotationsTwoRows` | nso_adapter/api/isis.py:479-491 | syncing two notations of one new source of a stored process gives two rows |
| `RedistributionShrink.RowDropsIff` | nso_adapter/nso/apply.py:783-797 | for every two rows of a protocol, a written leaf is dropped exactly by a missed blank or by a clear with an effect |
| `RedistributionShrink.BgpRowExact` | nso_adapter/nso/apply.py:956-964 | for BGP a clear is seen exactly when the row that is written drops a leaf |
| `RedistributionShrink.RemovedIff` | nso_adapter/api/ospf.py:302-314 | rows are removed exactly when a stored identity does not come in or was stored twice |
| `RedistributionShrink.ResidueIff` | nso_adapter/nso/apply.py:783-797 | for any entries, a merge-PATCH of the document of the synced rows leaves residue exactly when an identity is gone or the last entry of a stored identity drops a leaf |
| `RedistributionShrink.RedistributionShrink` | nso_adapter/api/ospf.py:286-347 | for any entries, repeated identities included: report and residue, each exactly, and exactly when they agree |
| `RedistributionShrink.UnreportedIff` | nso_adapter/api/isis.py:493-499 | for any entries, when nothing is reported there is residue exactly when a stored text has a blank one as its last word |
| `RedistributionShrink.EffectReported` | nso_adapter/api/isis.py:493-499 | a clear that drops a leaf is reported with repeated identities too |
| `RedistributionShrink.DistinctShrink` | nso_adapter/api/ospf.py:286-347 | for distinct identities the same in terms of the stored rows alone, and a clear with an effect is always reported |
| `RedistributionShrink.BgpShrink` | nso_adapter/api/bgp.py:558-617 | BGP: residue is always reported, whatever the entries; with distinct identities and no stored duplicates nothing else is |
| `RedistributionShrink.UnreportedIsBlank` | nso_adapter/api/isis.py:493-499 | for any entries, residue goes unreported only through an entry that makes a text of the row it finds blank |
| `RedistributionShrink.BlankRouteMapMissed` | nso_adapter/api/isis.py:493-499 | IS-IS and OSPF: a route map that becomes blank leaves residue and is not reported |
| `RedistributionShrink.BlankRouteMapInVain` | nso_adapter/api/ospf.py:335-341 | IS-IS and OSPF: a blank route map that goes is reported without residue |
| `RoutingSources.SourcesUnique` | nso_adapter/api/redistribution.py:40-44 | decides whether source identities repeat within a destination |
| `RoutingSources.SourcesChecked` | nso_adapter/api/ospf.py:377-386 | which of the two refusals a payload meets first: a repeated source within a process, then a BGP source the NED does not admit |
| `OspfIntent.PutOspfIntent` | nso_adapter/api/ospf.py:377-434 | the PUT refuses repeated sources, then BGP sources the NED does not admit, then repeated new processes or interfaces; else it replaces instances, interfaces and then redistribution, and tells exactly which rows were dropped and whether a value was cleared |
| `OspfIntent.UntoldIff` | nso_adapter/api/ospf.py:425-434 | for every accepted PUT, exactly: when no removal is asked for, a merge-PATCH leaves something of instances, interfaces or redistribution on the device if and only if a stored redistribution text has a blank one as its last word |
| `OspfIntent.StatementsStored` | nso_adapter/api/ospf.py:279-347 | an accepted PUT with distinct processes leaves exactly its statements: one row each and no other OSPF row |
| `RoutingSources.StatementsUnique` | nso_adapter/api/redistribution.py:40-44 | distinct processes without repeated sources state distinct identities |
| `OspfIntent.ParentsFound` | nso_adapter/api/ospf.py:317-331 | the parent lookup never misses, whatever the payload |
| `OspfIntent.PutKeepsParents` | nso_adapter/api/ospf.py:317-346 | a PUT keeps every OSPF redistribution row with a live parent instance accepted at the same time, and the rows of every other protocol as they are |
| `IsisIntent.PutIsisIntent` | nso_adapter/api/isis.py:520-642 | the PUT refuses repeated sources, then BGP sources the NED does not admit, then repeated new interfaces, processes or levels; else it replaces the four collections and tells exactly which rows were dropped and whether a value was cleared |
| `IsisIntent.AcceptedFound` | nso_adapter/api/isis.py:477-491 | the lookup of acceptance never misses, whatever the payload |
| `IsisIntent.AcceptedIsRow` | nso_adapter/api/isis.py:369-389 | it is what the process row of that tag is stamped with, repeated tags included |
| `IsisIntent.UntoldIsBlank` | nso_adapter/api/isis.py:624-642 | for every accepted PUT: whatever of interfaces, processes, levels or redistribution a merge-PATCH would leave on the device, a removal is asked for, or an entry dropped a blank text of a process row, or a stored redistribution text has a blank one as its last word |
| `IsisIntent.UntoldIff` | nso_adapter/api/isis.py:624-642 | with distinct tags, exactly: when no removal is asked for, something is left on the device if and only if a blank text of a stored process row is dropped, or a stored redistribution text has a blank one as its last word |
| `IsisIntent.StatementsStored` | nso_adapter/api/isis.py:433-505 | an accepted PUT with distinct processes leaves exactly its statements: one row each and no other IS-IS row |
| `IsisIntent.PutKeepsParents` | nso_adapter/api/isis.py:477-505 | a PUT keeps every IS-IS redistribution row with a live parent process accepted at the same time, and the rows of every other protocol as they are |
| `RoutingRuns.RunKeepsParents` | nso_adapter/api/ospf.py:317-346 | along every sequence of OSPF and IS-IS PUTs and BGP replacements on one shared table, no statement is orphaned and none drifts from its parent's acceptance |
| `RoutingRuns.ReachableParents` | nso_adapter/api/isis.py:477-505 | the same for every device that PUTs reach from the empty one |
| `BgpPeers.Scope.AddFamilies` | nso_adapter/core/bgp.py:73-118 | adds the rows and warnings of one peer's families after everything seen so far |
| `BgpPeers.Scope.InsertPeers` | nso_adapter/core/bgp.py:121-168 | one peer per distinct non-blank address, enabled if any occurrence is, first scalars; the family rows and warnings of everything seen |
| `BgpPeers.RowsAreFirsts` | nso_adapter/core/bgp.py:89-118 | a family row is stored for exactly the first policy of each family of each peer |
| `BgpPeers.RowsDistinct` | nso_adapter/core/bgp.py:89-118 | no two stored rows are of one family of one peer |
| `BgpPeers.WarningsAreConflicts` | nso_adapter/core/bgp.py:94-106 | a conflict is logged exactly for a later policy that differs from the first one of its family |
| `BgpPeers.WarnedOnceEach` | nso_adapter/core/bgp.py:94-106 | each conflicting occurrence is warned about once, in the order of the report, and nothing else is |
| `Capability.Matrix.Upsert` | nso_adapter/core/capability.py:45-80 | the source precedence of one observation |
| `Capability.Matrix.RecordProbe` | nso_adapter/core/capability.py:93-115 | a probe report is its elements in turn, malformed ones skipped, and the number of the others is returned |
| `Capability.Matrix.RecordRead` | nso_adapter/core/capability.py:118-141 | a read report writes read rows only, for stripped scopes with a read status, and returns how many it recorded |
| `Capability.Matrix.RecordRejection` | nso_adapter/core/capability.py:144-150 | a rejection is recorded unless the NED is unknown |
| `Capability.Matrix.ClearRejections` | nso_adapter/core/capability.py:153-192 | exactly the rejections of the given scopes of the platform go, and their number is returned |
| `Capability.RejectionStaysIff` | nso_adapter/core/capability.py:71-80 | a rejection is lifted exactly by a clean commit of its scope, or by a read report if it is named like a read row |
| `Capability.RunKeepsRejection` | nso_adapter/core/capability.py:45-192 | through any run without such an event a rejection stays |
| `Capability.IndexRows` | nso_adapter/core/capability.py:318-333 | the index of kinds and constructs |
| `Capability.KindIsWorst` | nso_adapter/core/capability.py:323-330 | a kind carries the verdict of one of its rows, at least as bad as all of them |
| `Capability.CheckConstructs` | nso_adapter/core/capability.py:336-347 | the findings of the keys, in order |
| `Capability.CheckAsPathNames` | nso_adapter/core/capability.py:360-376 | raises exactly when as-path lists are numbered and a name has digits without an integer value; else the findings of the names, in order |
| `Capability.KeyReportedIff` | nso_adapter/core/capability.py:339-346 | a key is reported exactly when one of its candidate constructs is flagged, and as unsupported exactly when one is |
| `Capability.Preflight` | nso_adapter/core/capability.py:379-402 | raises exactly then; else the findings for members, set keys, match keys and as-path names, fully supported exactly when there are none, and the coverage marker |
| `Capability.DigitsWithoutIntegerRaise` | nso_adapter/core/capability.py:371-375 | one name with digits but no integer value makes preflight raise where as-path lists are numbered |
| `Capability.FullySupportedIff` | nso_adapter/core/capability.py:379-402 | nothing is found exactly when no community row of a member's kind is flagged, no candidate construct of a key is, and, where as-path lists are numbered, every name is a number from 1 to 500 |
| `Capability.RejectionReportedUntilCleared` | nso_adapter/core/capability.py:318-402 | a construct rejected at a commit is reported unsupported to every later request with a key that maps to it, through any run that does not lift it |
| `Capability.CommunityReportedUntilCleared` | nso_adapter/core/capability.py:318-394 | the same for a rejected community list and every member of its kind |
| `Capability.AsPathMatchUnreported` | nso_adapter/core/capability.py:279-284 | listings that differ only in how, or whether, `match as-path` is listed give every request the same findings |
| `Capability.UnaskedUnreported` | nso_adapter/core/capability.py:318-402 | the same for every construct that is no candidate of any key |
| `Capability.ConstructHeardIff` | nso_adapter/core/capability.py:336-347 | a rejected route-map construct is heard by some request exactly when it is a candidate of some key |
| `Redaction.FragmentCommand` | nso_adapter/core/capability.py:525-528 | a redacted command reads back as the identifier it keeps |
| `Redaction.KeptIsLongest` | nso_adapter/core/capability.py:503-514 | the kept identifier is the longest listed one that begins the command |
| `Redaction.InterfaceAttributionKept` | nso_adapter/core/capability.py:455-477 | for every message the interface parser answers the same on the fragment |
| `Redaction.PolicyAttributionKept` | nso_adapter/core/capability.py:480-500 | for every message the route-policy parser answers the same on the fragment when a listed construct matched, and otherwise gives the same scope or nothing |
| `Redaction.TablesWellFormed` | nso_adapter/core/capability.py:407-452 | the tables meet what the two results ask of them |
| `Redaction.RedactionKeepsAttribution` | nso_adapter/core/capability.py:517-530 | both results for the tables of the source |
| `RejectionFlow.DiagnosticReads` | nso_adapter/nso/apply.py:371-377 | both parsers answer the same on the stored diagnostic, placeholder included, as on the fragment |
| `RejectionFlow.KeptNameResolves` | nso_adapter/core/capability.py:503-514 | for every message, a construct read off the stored diagnostic is a candidate of some preflight key, a community list, or `match as-path`, and is not named like a read row |
| `RejectionFlow.ParserNameAskedIff` | nso_adapter/core/capability.py:405-420 | of the route-map names in the parser's table, preflight looks up all but `match as-path` |
| `RejectionFlow.InterfaceNamed` | nso_adapter/core/capability.py:455-477 | for every text the interface parser names one half of the interface module, or nothing, and never the name of the read rows |
| `RejectionFlow.AttributedNames` | nso_adapter/core/apply.py:1309-1316 | every recorded rejection, by the route-policy parser or else by the interface parser, is one of the two |
| `RejectionFlow.ReadRowsNeverCollide` | nso_adapter/core/capability.py:34-36 | in every matrix the adapter reaches no rejection has the name of the read rows, so no read report overwrites one |
| `RejectionFlow.PolicyNeverLifted` | nso_adapter/core/capability.py:153-166 | no act of the adapter lifts a recorded route-policy rejection: no container clears its scope |
| `RejectionFlow.InterfaceLiftedIff` | nso_adapter/core/apply.py:1323-1341 | a recorded interface rejection is lifted exactly by a clean commit of the interface container on its platform |
| `RejectionFlow.PolicyRejectionStays` | nso_adapter/core/capability.py:153-192 | a recorded route-policy rejection stays in the matrix for ever |
| `RejectionFlow.InterfaceRejectionStays` | nso_adapter/core/apply.py:1309-1341 | a recorded interface rejection stays until the interface container commits cleanly |
| `RejectionFlow.RejectionTold` | nso_adapter/core/apply.py:1298-1318 | from a device's message to a later preflight, whatever the adapter does in between: every request with a key that asks for the rejected construct, or with a member of the rejected list's kind, is told of it; and some key asks for the construct exactly when it is not the as-path match |

## Left out

- HTTP routing, request models, authentication, serializers of the GET endpoints, and logging other than the BGP conflict warning.
- NSO, NetBox, Vault and SSE clients, live reads, and everything else that is input or output.
- Planning of a promotion (`core/generation`): `ApplyAttempts` inserts generations one by one and takes the resulting links, or the refusal, as an event.
- Offboarding of a device, which removes its receipts, attempts and rows.
- The content of promotion deletion records; `IntentDelivery` keeps them as one opaque private value that may change at every record.
- Deliveries of the other streams: they share the seam modelled for VLANs.
- IntentDelivery.Session.PutVlanIntent: a request that waits for the projection lock has no state in the model, because it has read nothing yet but the device row.
- CancelSafe.AwaitUncancellable: time is counted in event-loop ticks, with at most one delivered cancellation per tick.
- RefreshCoalescer.Coalescer.Trigger: the instance and device names passed with a trigger are not kept; a rerun uses those of the trigger that created the task.
- Redistribution.Table.Upsert: the unique constraint on spellings is not modelled; it can only refuse entries that repeat an identity.
- Redistribution.Table.Sync: `parse_asn` and the source identity are an arbitrary function of the spelling that compares source protocols exactly, and destinations exactly except for BGP.
- OspfIntent.PutOspfIntent, IsisIntent.PutIsisIntent: which BGP sources a NED admits is an arbitrary predicate; delivery admission, job creation and the response are those of the shared seam.
- Whole PUTs of streams other than VLAN, OSPF and IS-IS; of BGP only the redistribution rows and the collapsing of reported peers are modelled.
- IntentTables.IsisProcessShrink: nested redistribution, flex-algo and level lists of a process entry are not leaves of the process row; levels and redistribution have their own results.
- Capability.Preflight: stripping, numerals and the grouping of community members and rows into kinds are arbitrary functions.
- Redaction.PolicyAttributionKept: the name built from the first three words of an unlisted command is an arbitrary function, which `RejectionFlow` asks to leave two-word commands alone; whitespace and lower-casing are arbitrary functions that leave the characters of the tables alone.
- CanonicalEvidence.FormIffSame: UUID and date-time values are outside the equivalence; SHA-256 and JSON text output are not modelled.
- FrozenEvidence.RunKeepsConsistent: device rows and their foreign keys are not part of the store; job ids are never reused, and generations are inserted pending and without carrier columns, as the adapter does.
