# Crash safety, codecs and replay of the protected broker

This Dafny project models the parts of the repository that must stay right when a process stops in the
middle of its work, and the codecs and replay logic around them, and proves what they are for.

**The install transaction.** The installer writes a hash-chained, length-prefixed journal around every
effect on the host. `FramedLog` and `TransitionJournal` are the journal's bytes: one scanner, the appender
with its caps and short writes, the torn tail and its repair, the digest chain; `Device` is the write loop
that every append ends with, and `JournalCap` tells when the record cap can lock the file, with the journal
of `FailingInstall` as the example. `InstallEvents`
and `InstallJournal` are its meaning: segments, the operation-order automaton, the ownership recovery
collects; `InstallReading` says which payload
lists and which rows the reader accepts, in terms of the journal alone, and `InstallOrder` what the order check
guarantees and where it stops short. `InstallInvariant` is
what holds of journal and host at every point where the installer may be stopped, `InstallSteps` why each
event keeps it, `InstallStorage` that the bytes of the file keep up with it, and `InstallTransaction` the
executor, the failure path, recovery and rollback themselves, over those bytes, as methods of a class that
may be stopped at every call and inside every append, or whose calls may raise before or after their effect.
`Publication` and `AuthorityCas` are the two sub-protocols with crash states of their own, over the hard
links of `NameSpace`.

**Two more logs.** `AnchorLog` is the protected anchor: a compare-and-swap register replayed from its log.
`ReceiptJournal` is the public receipt journal: torn-tail repair, the idempotent tail, the receipt chain.

**Replay.** `TrainingResume` is the training wrapper's stop and resume: counters, generators and batch order.

**Codecs, scanners and traversals.** `Descriptor` (with `Splitting` and `Numerals`) is the Stage-0 consent
descriptor, `BracketDepth` the bracket scanner and the nesting depth, `Frames` (with `Fields` and `Streams`)
the launcher frames, envelopes and chunked readers, `NativeResult` the launcher's result record,
`HolderTree` the sealed directory rosters, `Directories` the installation's directory roster, and `RssTrend`
the memory trend of a supervised run. `Runs` holds two general facts about runs of machines.

Conventions. A digest, a hash, canonical JSON, receipt verification, UTF-8 decodability, the epoch
permutation and the training step are parameters, with exactly the contract their callers rely on
(`Canonical`, `Strict`, `CollisionFree`, `DistinctAnchors`, `Permutes`, `Quiet`). A process that stops is a
list of device counts that ends, a budget of calls that is used up, or a list of fates that ends. Where the
source mutates, the model does: the journals, the anchor service, the installer, the volume, the registry,
the tree visitors and the streams are classes whose methods are proved against specification functions.

Six places where the code gives less than its purpose suggests are stated as results, each with a concrete
input and the exact condition under which the purpose is met.

- The appenders ignore the record cap of the readers. `TransitionJournal.AppendLocksIff` says exactly when an
  append locks the install journal, `JournalCap.FailingRunLocks` is such a journal, and
  `JournalCap.LongRecordsNeverLock` shows that records of 1,020 bytes or more would rule it out; a
  `recovery-failed` record has about 700. `ReceiptJournal.AppendLocksIff` says the same of the receipt journal,
  whose `ReceiptJournal.LongReceiptsNeverLock` does apply: twenty digests alone make a receipt longer.
- The order check lets a completed step skip its first operation and ends at the first rollback row
  (`InstallOrder.AcceptedStepCompleteIff`, `InstallOrder.SkippedFirstOperationAccepted`,
  `InstallOrder.CompletedAfterRollbackAccepted`).
- It does not look at where a plan is declared complete (`InstallOrder.AcceptedPlanCompleteIff`,
  `InstallOrder.EarlyPlanCompleteAccepted`). The journals the installer itself writes have neither gap
  (`InstallInvariant.StepCompleteIsWhole`, `InstallInvariant.PlanCompleteIsApplied`).
- A publication for another owner than root whose intent does not carry the expected row cannot be
  reconciled once its temp file has that owner (`Publication.PublicationRecoversIff`). The anchor's genesis
  log is published so (`Publication.StuckGenesisExample`): its intent has no `expected` entry, and the
  reconciler then admits root as the only owner of a temp file.
- A file that was already in place, alone or sharing its inode with the temp name, is claimed as owned
  (`Publication.OwnershipTruthfulIff`, `Publication.FalseOwnershipExample`).
- The fixed directory table lists `state/anchor` without `state` (`Directories.RosterClosedIff`,
  `Directories.StateIsMissing`).

`dafny verify dfyconfig.toml` checks the whole project.

## Model

| member | source | states |
|---|---|---|
| FramedLog.Decode | runtime/w3_broker_executor.py:433-481 | the decoding loop over length-prefixed records computes the scan function, for any bounds and any per-record check |
| FramedLog.WholeMeaning | runtime/w3_broker_executor.py:433-481 | a file reads as whole with these records if and only if it is the image of an admissible, capped record list |
| FramedLog.TornMeaning | runtime/w3_broker_executor.py:437-448 | a file reads as torn at an offset if and only if it is such an image followed by a remainder that a cut frame could have left |
| FramedLog.RefusalMeaning | runtime/w3_broker_executor.py:449-480 | a file reads as corrupt if and only if its first bad frame has a length out of bounds or a record that may not stand there, and as over the record cap if and only if one admissible record too many is complete |
| FramedLog.CutReadsAsOldOrNew | runtime/w3_broker_executor.py:437-448 | cutting an append after any number of bytes reads as exactly the old or exactly the new records, and as torn exactly for a proper cut |
| FramedLog.AppendReadableIff | runtime/w3_broker_executor.py:479-480 | a complete append of an admissible record stays readable exactly while the record cap has room; the appender itself does not look at that cap |
| TransitionJournal.FileTransitionJournal.Records | runtime/w3_broker_executor.py:606-618 | a file is read exactly when it is within the byte cap, readable, and whole or to be repaired; the records are the readable ones, a repair drops exactly the torn tail, and a refusal leaves the file alone; which records are readable is AdmitsIffLinked |
| TransitionJournal.FileTransitionJournal.Append | runtime/w3_broker_executor.py:620-685 | the exact outcome and the exact new bytes of an append, for every file content and every sequence of short writes: refused as too long, corrupt, oversize or too large a record, or the written prefix of the next frame behind the records |
| Device.WriteAll | runtime/w3_broker_executor.py:678-683 | the write loop puts exactly the delivered prefix of the data behind the file, for every sequence of short writes, and ends finished, refused or stopped as the device dictates |
| Device.DeliveredMeaning | runtime/w3_broker_executor.py:678-683 | the loop takes the reported counts one by one until they cover the data, until one of them is zero, or until the process stops, and delivers exactly their sum |
| Device.ProgressFinishes | runtime/w3_broker_executor.py:678-683 | a device that makes progress on every call finishes the loop |
| TransitionJournal.ReadableIffWritten | runtime/w3_broker_executor.py:433-481 | a journal file is readable if and only if it is what the writer produces for some payload list within the caps, and the reader returns that list |
| TransitionJournal.AcceptedIsWritten | runtime/w3_broker_executor.py:464-478 | every accepted record list is the writer's own output for its payloads: sequence, chain and digest leave no freedom |
| TransitionJournal.WrittenIsAccepted | runtime/w3_broker_executor.py:620-685 | what the writer produces within the caps is accepted and gives its payloads back |
| TransitionJournal.RecordIsLinked | runtime/w3_broker_executor.py:666-671 | record i of a written journal parses to sequence i + 1, the digest chain over the first i payloads, its payload, and the chain over the first i + 1: each record names the digest of the one before it |
| TransitionJournal.AdmitsIffLinked | runtime/w3_broker_executor.py:458-478 | a body may follow a written journal if and only if it parses to the next sequence, the chain digest so far as its previous digest, and the extended chain as its own |
| TransitionJournal.PlanIff | runtime/w3_broker_executor.py:661-677 | on a file that reads as these records an append writes the next record behind them if and only if it is of legal size and fits; each refusal has its one reason |
| TransitionJournal.UnreadablePlanIff | runtime/w3_broker_executor.py:620-665 | a file that is too long, or does not read as records, is refused untouched, each with its own error |
| TransitionJournal.AttemptStep | runtime/w3_broker_executor.py:661-683 | one append, refused by a cap or stopped after any byte, takes a file that holds these payloads to one that holds them with or without the new one |
| TransitionJournal.RunReadsAsLanded | runtime/w3_broker_executor.py:661-683 | over any run of appends, refused or stopped anywhere, the file stays within the byte cap and holds exactly the payloads that had room and whose frame was written completely |
| TransitionJournal.TracksReads | runtime/w3_broker_executor.py:479-480 | the reader sees exactly the records on file, and refuses them as oversize exactly when they are more than the record cap |
| TransitionJournal.StoppedAppendForgotten | runtime/w3_broker_executor.py:661-665 | after an append that did not land, stopped or refused, the next append leaves the bytes it would have left without it |
| TransitionJournal.AppendLocksIff | runtime/w3_broker_executor.py:673-677 | a readable journal becomes unreadable by an append if and only if it was at the record cap and the append landed |
| TransitionJournal.LockedStays | runtime/w3_broker_executor.py:479-480 | a journal over the record cap refuses every later append and stays as it is |
| JournalCap.LongRecordsNeverLock | runtime/w3_broker_executor.py:676-677 | if every record is longer than 1,019 bytes the byte cap is reached first: no run of appends ever leaves a journal over the record cap |
| JournalCap.ShortRecordsLock | runtime/w3_broker_executor.py:479-480 | if no record is longer than 1,019 bytes, any readable journal of 65,536 records has room for one more, and that append locks it |
| JournalCap.FailingRunLocks | runtime/w3_broker_executor.py:4730-4739 | a concrete file of 65,536 records under a concrete codec, of an installation that owns one effect and whose rollback fails again and again: it is read, has room for the next row, and is locked by it |
| JournalCap.FailingRunIsSound | runtime/w3_broker_executor.py:4656-4741 | the records of that file, however many, are those of a state in the invariant, with the effect still on the host and its rollback still owed |
| FailingInstall.FailingPasses | runtime/w3_broker_executor.py:4998-5071 | each row of that installation, executor rows and rollback rows, is one that keeps the transaction sound at its place |
| FailingInstall.FailingPassIsRollback | runtime/w3_broker_executor.py:4571-4635 | each of its passes has the form of a recovery's rollback: the one action it starts is owed, and its conclusion follows |
| TransitionJournal.HeadIsChain | runtime/w3_broker_executor.py:666-671 | the head digest of a written journal is the digest chain over its payloads |
| TransitionJournal.HeadBindsHistory | runtime/w3_broker_executor.py:666-671 | without digest collisions equal head digests mean equal payload histories |
| InstallJournal.JournalSegments | runtime/w3_broker_executor.py:4348-4377 | the segment reader loop computes the accepted segmentation of a payload list, or the first error |
| InstallJournal.SegmentsGrow | runtime/w3_broker_executor.py:4348-4376 | a longer accepted journal keeps the transactions of a shorter one: only the last may grow, and not once it is terminated |
| InstallReading.SegmentsIff | runtime/w3_broker_executor.py:4348-4376 | a payload list is read as these transactions if and only if it is them written out one after the other: numbered from 1, every record with the binding of its start, every transaction but the last recovered, nothing behind a completed plan or recovery |
| InstallReading.ParsedIff | runtime/w3_broker_executor.py:4348-4377 | the journal reader accepts exactly such lists whose transactions each pass the order check |
| InstallJournal.ValidateOperationOrder | runtime/w3_broker_executor.py:4380-4456 | the order loop accepts exactly the rows that the order automaton accepts |
| InstallReading.OrderIff | runtime/w3_broker_executor.py:4380-4456 | the order check accepts a transaction with operations if and only if every row before the first rollback row may stand at its place: the next step behind a completed one, a unit not yet started in this step of the same or the next base operation with nothing in flight, the completion of the unit just started, the completion of a step behind its last base operation |
| InstallJournal.ViewMeaning | runtime/w3_broker_executor.py:4490-4508 | the collected starts and completions are exactly the units with such a row, and a completion keeps the receipt of its row |
| InstallJournal.FlagsMeaning | runtime/w3_broker_executor.py:4498-4501 | without the duplicate flag no unit and no rollback action is completed by two rows |
| InstallOrder.AcceptedStepCompleteIff | runtime/w3_broker_executor.py:4383-4455 | in a journal the order check accepts, a step completed before any rollback row ran (started and finished) every base operation of its roster if and only if it started the first one; without operation rows it ran none |
| InstallOrder.SkippedFirstOperationAccepted | runtime/w3_broker_executor.py:4413-4455 | a concrete accepted journal whose completed step ran all its operations but the first |
| InstallOrder.AcceptedPlanCompleteIff | runtime/w3_broker_executor.py:4399-4412 | in an accepted journal, at a plan-complete row without rollback rows before it, all sixteen steps are completed if and only if the last one is, and if and only if the order state stands behind the last step |
| InstallOrder.CheckEndsAtRollback | runtime/w3_broker_executor.py:4394-4400 | a journal with a rollback row is accepted if and only if the rows before that row are: whatever follows is let through |
| InstallOrder.CompletedAfterRollbackAccepted | runtime/w3_broker_executor.py:4394-4400 | a concrete accepted journal that completes a step of six operations after one start, behind a rollback row |
| InstallOrder.EarlyPlanCompleteAccepted | runtime/w3_broker_executor.py:4399-4400 | a concrete accepted journal that declares the plan complete inside its first step |
| InstallEvents.OwnershipIff | runtime/w3_broker_executor.py:1789-1800 | a step has an ownership receipt, naming itself, if and only if some rollback action undoes it |
| InstallEvents.StepsMeetNeeds | runtime/w3_broker_installer.py:646-663 | the sixteen steps come in an order that meets every need: inputs first, identities before code, code before leaves, both before the measured ancestry, that before the signing key, everything before the services, the services before the authority; each step once |
| InstallEvents.RollbackRunsBackwards | runtime/w3_broker_executor.py:4248-4276 | the rollback table undoes the steps backwards, authority withdrawal first and identities last; the one exception, the archive of durable evidence, comes before whatever it covers is taken away and behind every action on later steps |
| InstallInvariant.InvAccounts | runtime/w3_broker_executor.py:4478-4741 | at every stop the journal accounts for the host: each effect of each transaction is a completed unit with its receipt or the one unit in flight; no rollback action has run unless a receipt calls for it and every effect of its transaction has a receipt; and a recovery reported complete has run every action whose source steps own an effect, and has a rollback-complete row for every action that a receipt calls for |
| InstallInvariant.ReceiptsAreEffects | runtime/w3_broker_executor.py:4498-4503 | conversely every operation receipt in the journal is an effect on the host |
| InstallInvariant.CompletionsAreUnique | runtime/w3_broker_executor.py:4498-4501 | no unit and no rollback action is completed twice in one transaction |
| InstallInvariant.PlanCompleteIsApplied | runtime/w3_broker_executor.py:4998-5124 | in every journal the installer writes, a transaction that ends in plan-complete has a completion row for every planned unit, with a receipt exactly for its effects |
| InstallInvariant.StepCompleteIsWhole | runtime/w3_broker_executor.py:5010-5071 | in every journal the installer writes, a completed step has a completion row for every unit planned for it |
| InstallInvariant.StepCompleteIsOwned | runtime/w3_broker_executor.py:5052-5071 | in every journal the installer writes, a completed step carries its own ownership receipt if some rollback action undoes it, and none otherwise |
| InstallInvariant.EarlierSegmentsRecovered | runtime/w3_broker_executor.py:4352-4376 | every transaction before the last one was recovered, and none follows an applied plan |
| InstallInvariant.ExtendOpen | runtime/w3_broker_executor.py:4285-4314 | appending an event to the open transaction keeps the whole-journal invariant when that transaction stays sound |
| InstallTransaction.Installer.Append | runtime/w3_broker_executor.py:4285-4314 | one journal append over the bytes of the file: it lands, is refused for lack of room, fails, or is stopped inside its frame, and the file holds the journal in every case; it uses one call, and a refusal means that the caps left no room for this payload |
| InstallTransaction.Installer.ReadSegments | runtime/w3_broker_executor.py:4666-4668 | reading the file back succeeds exactly while the journal is within the record cap, and returns the segments of the invariant |
| InstallSteps.OperationStartSound | runtime/w3_broker_executor.py:5020-5031 | starting a unit that was not started before keeps the transaction sound and leaves exactly it in flight |
| InstallSteps.OperationCompleteSound | runtime/w3_broker_executor.py:5039-5049 | completing the unit in flight with what the host shows keeps the transaction sound |
| InstallSteps.RollbackEventSound | runtime/w3_broker_executor.py:4571-4635 | rollback and recovery events keep the transaction sound when an action completed once and ran, and recovery completes only when settled |
| InstallSteps.UnfinishedShrinks | runtime/w3_broker_executor.py:4713-4729 | rollback rows never change the receipts, and the set of actions still owed never grows |
| InstallTransaction.Installer.ApplyOperation | runtime/w3_broker_executor.py:5032-5038 | one backend call: the effect appears or not, whatever the host already holds, and a returned receipt says truthfully whether it did |
| InstallTransaction.Installer.RunUnit | runtime/w3_broker_executor.py:5019-5051 | intent, start, effect, completion of one unit, stopped or failing anywhere, keeps the invariant and the file, advances by exactly that unit, and makes at most four calls |
| InstallTransaction.Installer.RunSteps | runtime/w3_broker_executor.py:4999-5071 | all steps in roster order; going through leaves every planned unit completed, and takes no more calls than the unit roster says |
| InstallTransaction.Installer.RecoverOwnership | runtime/w3_broker_executor.py:4478-4551 | recovery completes the one unit in flight and then its view owns exactly the effects that are on the host |
| InstallTransaction.Unmatched | runtime/w3_broker_executor.py:4510-4516 | finds the one started unit without completion, or none, or reports that there are several |
| InstallTransaction.Installer.RunAndRecord | runtime/w3_broker_executor.py:4614-4634 | one backend call and its row: the outcome row is rollback-complete exactly when the call did not fail; a rollback-failed row stands for a call after which the action has not been added to those that ran |
| InstallTransaction.Installer.RollbackOne | runtime/w3_broker_executor.py:4571-4634 | one rollback action: it runs only when every affected source step has a receipt, otherwise it is only recorded as ambiguous; the rows it adds are its start and its outcome, each missing only when its append failed; without failures it has run, and exactly rollback-start and rollback-complete were added; it reports no failure when no call fails |
| InstallTransaction.Installer.RollbackAttempts | runtime/w3_broker_executor.py:4554-4635 | a pass works the table in order, runs only entitled actions, makes at most three calls for each; every rollback-failed row it adds stands for a failed call of this pass; and when it reports no failure every action that is called for has run and is recorded as rolled back |
| InstallTransaction.Installer.Recover | runtime/w3_broker_executor.py:4656-4741 | recovery keeps the invariant and the file; the rows it adds are the completion of the unit in flight, actions in table order each entitled by receipts, and the conclusion; every action that has run on the host is warranted by a receipt; it refuses exactly a foreign binding, reports rolled-back only when every effect of the transaction is undone and every action called for has its rollback-complete row, and failures only behind a recovery-failed row, never lets the owed actions grow, is not stopped with thirty calls that succeed, and then ends rolled back unless the journal was crowded; a locked journal is left alone |
| InstallTransaction.Installer.Execute | runtime/w3_broker_executor.py:4935-5124 | a run keeps the invariant and the file; success means a new segment ending in plan-complete whose planned units are on the host exactly when they have an effect; an applied plan is never touched, an unfinished transaction is only recovered, a started one has executor rows and at most one rollback; with as many succeeding calls as the rosters ask for it is not stopped, and completes when it may start unless the journal was crowded |
| InstallTransaction.Installer.FailTransaction | runtime/w3_broker_executor.py:5072-5115 | the in-process failure path reads the journal back, reconciles and rolls back in table order what the rows own; the transaction then ends recovered without failures and recovery-failed with them, unless that last row could not be appended; thirty succeeding calls are enough for it |
| InstallTransaction.RefusedIsOther | runtime/w3_broker_executor.py:4673-4681 | recovery refuses exactly the transactions of another plan or bundle, and on request of another bundle file; a completed plan counts as this one by plan and bundle alone |
| InstallTransaction.Installer.Live | runtime/w3_broker_executor.py:4744-5124 | over the raw file: any sequence of executions and recoveries, each stopped or failing at any call or between any two bytes of an append, keeps the invariant and only ever extends the journal; the file then reads back as that journal while the record cap lasts; the journal accounts for every effect and every rollback action; in every transaction the executor's rows are followed by rollbacks in table order, each entitled by receipts; and a run whose calls succeed fails only if the caps left no room for a payload of the installer, and is stopped only if it had less calls than its rosters ask for |
| InstallTransaction.Installer.Install | runtime/w3_broker_executor.py:4935-5124 | from whatever earlier runs left, unless it is an applied plan or an unfinished transaction of another one, one execution or two, the first of which recovers, install the plan when their calls succeed and the journal is not crowded |
| InstallTransaction.SmallJournalIsUncrowded | runtime/w3_broker_executor.py:672-677 | a journal within the record cap that has byte room for one more record of the largest size the installer's payloads reach refuses none of them, anywhere along it |
| InstallTransaction.OwnershipExact | runtime/w3_broker_executor.py:4541-4551 | with nothing in flight the recorded receipts are exactly the owned effects on the host |
| InstallTransaction.ServedIsSettled | runtime/w3_broker_executor.py:4571-4590 | a table pass without failures leaves no called-for action that did not run or is not recorded |
| InstallStorage.StoredJournalIsRead | runtime/w3_broker_executor.py:4666-4668 | the file of an installer is never too long and is read exactly while its journal is within the record cap; what is read are the segments of the invariant, which the reader and the order check accept |
| InstallStorage.AppendOnFile | runtime/w3_broker_executor.py:661-685 | an append reports success exactly when the payload is on file, and with room is refused by nothing but the device |
| InstallStorage.StoppedAppendIsSound | runtime/w3_broker_executor.py:661-683 | an append of a sound event, refused or stopped after any byte, leaves a file that holds the old or the extended journal, sound either way |
| InstallStorage.StoppedStartIsSound | runtime/w3_broker_executor.py:4981-4997 | the same of the record that opens a transaction |
| Publication.Volume.Publish | runtime/w3_broker_executor.py:1588-1639 | creating, filling, linking and unlinking: the directory a publication leaves when it is done, fails, or is stopped at any call; an existing target is never changed |
| Publication.Volume.Prepare | runtime/w3_broker_executor.py:1606-1613 | the temp file is at every moment a prefix of the payload, empty until it has its owner and mode, and complete with both when the loop ends |
| Publication.Volume.ReconcileRow | runtime/w3_broker_executor.py:2523-2608 | reconciling one file row, stopped anywhere, does what the reconciliation function says or nothing; what that says is ReconcileIff and ReconcileLeaves |
| Publication.ReconcileIff | runtime/w3_broker_executor.py:2608-2630 | the five answers for any directory, each by names, inodes, links, owner and content: an error exactly when the temp name is ambiguous or the target is not the exact row; owned exactly for the exact row; cleaned exactly when a temp name was removed and no target is left; not applied exactly when neither name was there |
| Publication.ReconcileLeaves | runtime/w3_broker_executor.py:2711-2756 | reconciliation removes the temp name exactly when it is unambiguous and changes no other name, content, owner or mode |
| Publication.Volume.PublishAndRecover | runtime/w3_broker_executor.py:2500-2630 | a publication stopped anywhere, then reconciliations stopped anywhere: when one completes, either no name and no ownership, or the complete file alone and ownership; the one exception is a draft whose owner the intent does not declare, which is refused and stays |
| Publication.StoppedPublicationReconciles | runtime/w3_broker_executor.py:2711-2756 | every state a stopped publication leaves reconciles to all or nothing, or is a draft with an undeclared owner and is refused; owned exactly when the target was linked |
| Publication.PublicationRecoversIff | runtime/w3_broker_executor.py:2734-2744 | every stop of a publication reconciles to all or nothing if and only if the owner is root or the intent carries the expected row |
| Publication.StuckGenesisExample | runtime/w3_broker_executor.py:2218-2253 | a concrete stop of the publication of the anchor genesis log, behind its change of owner, that reconciliation refuses for good |
| Publication.PartialIsNeverAdopted | runtime/w3_broker_executor.py:2626-2630 | on any directory at all, ownership is reported only for a complete file with the row's owner and mode, one link, and no temp name |
| Publication.OwnershipTruthfulIff | runtime/w3_broker_executor.py:2163-2173 | the intent records a file target as absent without looking; whatever the directory holds, ownership claims are truthful if and only if the exact file was not already in place, neither alone nor sharing its inode with the temp name |
| Publication.ExistingTargetNotAdopted | runtime/w3_broker_executor.py:2746-2751 | with a target that was there before, a stopped publication's temp file makes reconciliation refuse for good |
| Publication.FalseOwnershipExample | runtime/w3_broker_executor.py:2626-2630 | two concrete pre-existing files, one alone and one linked to the temp name, that are reported as owned although nothing was written |
| AuthorityCas.Registry.Activate | runtime/w3_broker_executor.py:3050-3078 | the activation leaves the candidate, both names, or the active name, and refuses an active name that exists |
| AuthorityCas.Registry.ClassifyActivation | runtime/w3_broker_executor.py:2402-2498 | classification, stopped anywhere, does what the classification function says or nothing |
| AuthorityCas.ClassifyIff | runtime/w3_broker_executor.py:2423-2498 | the four answers for any directory, each with the names, links, owner, mode and content that call for it |
| AuthorityCas.Registry.ActivateAndRecover | runtime/w3_broker_executor.py:2402-2498 | activation stopped anywhere, then classified by runs stopped anywhere: the swap happened and is owned, or it did not happen |
| AuthorityCas.StoppedActivationClassifies | runtime/w3_broker_executor.py:2423-2498 | every stopped activation is classified: finished as owned-applied, half-linked taken back as cleaned, untouched as not-applied |
| AuthorityCas.VerdictLeavesOneName | runtime/w3_broker_executor.py:2423-2498 | on any directory, a verdict leaves exactly one of candidate and active, with the frozen inode, and active exactly on ownership |
| AnchorLog.Advanced | src/metis_model1/w3_broker_client.py:502-528 | an anchor advances exactly on the next receipt of the authority's chain, to one revision more with that head moved and every other head kept; too early, too late and wrongly linked receipts get their own errors |
| AnchorLog.ProtectedAnchorService.Load | runtime/w3_anchor_service.py:245-278 | reading and replaying the log computes the load function; torn logs are refused, not repaired; which logs load is AcceptedIffHistory, why others do not is LoadIff |
| AnchorLog.LoadIff | runtime/w3_anchor_service.py:245-278 | why a log is not served: empty or without a genesis first, another genesis, a cut frame, bytes that do not frame chained records |
| AnchorLog.ProtectedAnchorService.Recover | runtime/w3_anchor_service.py:482-518 | the replay loop computes the register of the records or the first error |
| AnchorLog.ProtectedAnchorService.Advance | runtime/w3_anchor_service.py:540-586 | the outcome and the bytes of one request, for every log content and every short write; what is written is pinned by RecordIsLinked, and each answer by RequestTrichotomy and RefusalIff |
| AnchorLog.AcceptedIffHistory | runtime/w3_anchor_service.py:482-518 | the service accepts a log if and only if it is the log of some in-order history of verified receipts from the pinned genesis |
| AnchorLog.LogRecovers | runtime/w3_anchor_service.py:482-518 | replaying the log of a history gives the closed-form register of that history |
| AnchorLog.RecordIsLinked | runtime/w3_anchor_service.py:521-529 | record i of the log of a history parses to sequence i + 1, the digest chain over the payloads before it, its payload, and the chain with it: the log is a hash chain |
| AnchorLog.AdmitsIffLinked | runtime/w3_anchor_service.py:224-242 | a body may follow the log of a history if and only if it parses to the next sequence, the chain digest so far as its previous digest, and the extended chain as its own |
| AnchorLog.LinkBindsHistory | runtime/w3_anchor_service.py:521-529 | without digest collisions equal last digests mean equal genesis anchors and equal histories |
| AnchorLog.RequestTrichotomy | runtime/w3_anchor_service.py:540-586 | a request writes if and only if it moves the register and its record fits, answers idempotently if and only if it repeats the last move, and is refused otherwise |
| AnchorLog.RefusalIff | runtime/w3_anchor_service.py:540-586 | each refusal and its one reason: a receipt that does not verify; a digest that is neither that of the register nor, for the receipt on top, the one it was moved from; a sequence behind or ahead of the next; a next receipt that names another hash; a record that is too large |
| AnchorLog.AdvanceReadsBack | runtime/w3_anchor_service.py:570-586 | after a written request the log is that of the longer history, and reading it back serves the anchor returned to the caller |
| AnchorLog.TornLogRefuses | runtime/w3_anchor_service.py:253-262 | after a write stopped inside its frame, and only then, the service refuses the log as torn |
| AnchorLog.RunRefines | runtime/w3_anchor_service.py:540-586 | over any run of requests the file is the log of the history the abstract machine has reached |
| AnchorLog.StoppedRunRefines | runtime/w3_anchor_service.py:245-262 | over any run of requests, each stopped after any number of bytes, the file is the log of a history, or that log with a cut frame behind it which is refused as torn |
| AnchorLog.TornStays | runtime/w3_anchor_service.py:253-262 | once the log is torn, no later request changes it and each is answered with the same refusal |
| AnchorLog.OneAdvancePerDigest | runtime/w3_anchor_service.py:568-569 | in any run at most one receipt is ever advanced from one expected anchor digest |
| AnchorLog.RetryIsIdempotent | runtime/w3_anchor_service.py:553-567 | retrying the request that just advanced any number of times leaves the log unchanged and returns the same anchor |
| AnchorLog.OverwrittenRequestRefused | runtime/w3_anchor_service.py:553-569 | a request that advanced earlier, but not last, is refused with a compare-and-swap mismatch |
| ReceiptJournal.PublicReceiptJournal.Append | runtime/w3_installed_worker.py:589-663 | the outcome and the bytes of an append, for every file content and every short write; when it is which is PlanIff |
| ReceiptJournal.PlanIff | runtime/w3_installed_worker.py:589-657 | on a chain an append writes if and only if the offered receipt makes a longer chain and fits; it answers success without writing exactly to the receipt on top; each refusal has its one reason; only a next receipt without room drops a torn suffix |
| ReceiptJournal.UnreadablePlanIff | runtime/w3_installed_worker.py:564-587 | a file that does not read as records refuses a public receipt, as corrupt if and only if it is damaged |
| ReceiptJournal.FirstIff | runtime/w3_installed_worker.py:638-642 | a chain is opened exactly by a public receipt numbered 1 that names the genesis digest |
| ReceiptJournal.PublicReceiptJournal.Handle | runtime/w3_installed_worker.py:680-685 | a response is delivered if and only if its append was finished or it was the tail already, and then it is the last readable record |
| ReceiptJournal.AppendKeepsChain | runtime/w3_installed_worker.py:629-661 | below the record cap every append of any bytes, stopped anywhere, leaves a chain 1..n with matching hashes: the old one, or the old one with that receipt |
| ReceiptJournal.TailIsIdempotent | runtime/w3_installed_worker.py:633-637 | re-appending the last record answers success and changes nothing, torn suffix or not |
| ReceiptJournal.StoppedAppendForgotten | runtime/w3_installed_worker.py:647-661 | an append stopped anywhere and called again leaves the bytes of an append that was never stopped |
| ReceiptJournal.AppendLocksIff | runtime/w3_installed_worker.py:585-586 | a completed append makes the journal unreadable if and only if the record cap was already reached |
| ReceiptJournal.LockedStays | runtime/w3_installed_worker.py:585-586 | an unreadable journal refuses every later append and stays as it is |
| ReceiptJournal.LongReceiptsNeverLock | runtime/w3_installed_worker.py:654-655 | if every valid receipt is longer than 1,019 bytes, an append at the record cap never finds room, so every append of any bytes, stopped anywhere, leaves a readable chain |
| ReceiptJournal.AnyRunHoldsTaken | runtime/w3_installed_worker.py:629-661 | from the empty file, any bytes offered in any order and stopped anywhere leave a readable chain of exactly the receipts that were next, had room and were written out, with no cap assumed |
| ReceiptJournal.ShortReceiptsLock | runtime/w3_installed_worker.py:585-586 | a concrete chain of 65,536 short receipts that is read, takes one more, and is unreadable from then on |
| ReceiptJournal.RunIsCounter | runtime/w3_installed_worker.py:629-663 | attempts to publish ledger entries in any order, stopped anywhere, keep the journal a prefix of the ledger whose length is a simple counter |
| ReceiptJournal.RepublishingConverges | runtime/w3_installed_worker.py:629-663 | whatever happened before, publishing the ledger once more in order leaves exactly the image of the ledger |
| ReceiptJournal.EqualTailsEqualJournals | runtime/w3_installed_worker.py:638-646 | without hash collisions two chained journals with the same last receipt are the same journal |
| TrainingResume.Train | qualification/train_full_state.py:1259-1320 | the training loop computes the trajectory from its start state and emits exactly the scheduled checkpoints, also when an update fails; from a state on track both are the closed form of RunComputesFold |
| TrainingResume.RunIsFold | qualification/train_full_state.py:1259-1281 | after n turns model and moments are the fold of the update over the batches: batch j of an epoch is the example at position j of the permutation drawn from the epoch-start generator, read and trained on with the generators reached there; the epoch-start generators move on at its end |
| TrainingResume.CheckpointsAreFold | qualification/train_full_state.py:1282-1320 | each saved checkpoint holds the counters, the folded model and moments, and the generators of its step |
| TrainingResume.RunComputesFold | qualification/train_full_state.py:1259-1320 | the final state, or the failure, and the checkpoints of a whole run are those of the closed form |
| TrainingResume.ScheduledSteps | qualification/train_full_state.py:1282-1320 | a run has saved a checkpoint of a step if and only if it got through that step, which lies behind its start, and the step is a multiple of the interval or the target |
| TrainingResume.Resume | qualification/train_full_state.py:1193-1227 | restoring, replaying and comparing computes the resume function |
| TrainingResume.ResumeAcceptsIff | qualification/train_full_state.py:1193-1227 | a checkpoint resumes as a state if and only if it is the checkpoint of that state, which is on track, not past the target, and whose epoch replays |
| TrainingResume.ResumeRefusalIff | qualification/train_full_state.py:1193-1227 | each refusal and its one reason: counters that do not fit, an optimizer at another step, generators that the batches drawn again do not end in |
| TrainingResume.RunKeepsTrack | qualification/train_full_state.py:1275-1281 | over any run global step, epoch, cursor and optimizer step agree, and the batch feed holds what the epoch-start generators determine |
| TrainingResume.ResumeIff | qualification/train_full_state.py:1200-1227 | a checkpoint resumes if and only if its epoch replays to the saved generators, and then as exactly the saved state including the batch order |
| TrainingResume.BoundaryReplays | qualification/train_full_state.py:1277-1281 | a checkpoint on an epoch boundary always replays |
| TrainingResume.ResumedRunIsUninterrupted | qualification/train_full_state.py:1193-1320 | stop at any step, resume and run to any target: the final state or failure and all later checkpoints are those of the uninterrupted run |
| TrainingResume.QuietRunsResume | qualification/train_full_state.py:1218-1227 | when updates leave the host generators alone every checkpoint of every run resumes |
| TrainingResume.StopAndResume | qualification/train_full_state.py:1193-1320 | when an update leaves the host generators alone and reading an example ignores the device generator, a fresh run stopped after any step, epoch boundaries included, and resumed to its target gives the final state and the later checkpoints of the uninterrupted run |
| TrainingResume.NoisyTrainingIsRefused | qualification/train_full_state.py:1218-1225 | an update that draws from a host generator makes the first mid-epoch checkpoint refuse to resume |
| BracketDepth.CheckBracketDepth | runtime/w3_broker_protocol.py:316-336 | the scanner loop accepts exactly when the scanner automaton does not run into the cap |
| BracketDepth.NestingDepth | runtime/w3_broker_protocol.py:278-293 | the explicit-stack traversal terminates and returns the recursive tree depth |
| BracketDepth.FeedQuoted | runtime/w3_broker_protocol.py:320-329 | a quoted string is neutral to the scanner whatever brackets, quotes and backslashes it holds |
| BracketDepth.ScannerAcceptsIff | runtime/w3_broker_protocol.py:353-372 | for every document the scanner accepts its canonical text if and only if its tree depth is within the cap |
| Descriptor.Validate | runtime/w3_broker_installer.py:1316-1430 | the validator loop computes the parse function |
| Descriptor.ParseIff | runtime/w3_broker_installer.py:1316-1430 | a payload is accepted as a document if and only if the document is valid and the payload is its print |
| Descriptor.AcceptedText | runtime/w3_broker_installer.py:1316-1430 | a payload is accepted as a document if and only if it is that document written out line by line, field names, tabs and line feeds included, and the document may be consented to: digests, bounds, row fields, strict byte order, safe paths, and the two metadata files with their digests |
| Descriptor.ValidIff | runtime/w3_broker_installer.py:1330-1419 | validity in closed terms, with each bound spelled out |
| Descriptor.PathIff | runtime/w3_broker_installer.py:1383-1391 | a path is accepted if and only if it has 1 to 1,024 printable bytes, decodes, and none of its components is empty, a dot, two dots, or longer than 255 bytes |
| Descriptor.LeqIff | runtime/w3_broker_installer.py:1408-1409 | the row order is byte order: a proper prefix comes first, else the first difference decides |
| Descriptor.TotalAdds | runtime/w3_broker_installer.py:1410-1410 | the total is the sum of the row sizes |
| Descriptor.RowIff | runtime/w3_broker_installer.py:1370-1406 | a file line reads as a row if and only if the row is valid and the line is its print |
| Descriptor.HeadIff | runtime/w3_broker_installer.py:1330-1366 | the header lines read as digests and numbers if and only if they are their print |
| Descriptor.PrintIff | runtime/w3_broker_installer.py:1433-1479 | the printer succeeds exactly on valid documents, and what it prints reads back as the digests and rows it was given |
| Descriptor.PrintBindsDocument | runtime/w3_broker_installer.py:1454-1479 | even fields holding tabs or line feeds cannot print as a different valid descriptor |
| Descriptor.DescribedIsSorted | runtime/w3_broker_installer.py:1453-1453 | what is printed is a permutation of the given rows, sorted by path bytes |
| Descriptor.DescribesInput | runtime/w3_broker_installer.py:1442-1472 | the printed digests are the given ones without their prefix, each in its place, and so are the fields of each row |
| HolderTree.Visitor.Seal | runtime/w3_bridge_gate.py:583-630 | the recursive sealer with shared counters succeeds exactly on trees of safe, singly linked, bounded entries within the caps, and seals every mode |
| HolderTree.SafePathIff | runtime/w3_bridge_gate.py:1673-1682 | a path of entry names is safe if and only if it has no backslash and no empty, dot or dot-dot component |
| HolderTree.Visitor.Snapshot | runtime/w3_bridge_gate.py:674-742 | the recursive snapshot succeeds exactly on sealed trees within the caps and appends exactly the roster rows |
| HolderTree.SealThenSnapshot | runtime/w3_bridge_gate.py:782-793 | whatever tree can be sealed is snapshotted, with the same counts |
| HolderTree.DescribeHolder | runtime/w3_bridge_gate.py:782-815 | describing a holder succeeds exactly when sealing does, and the descriptor passes the cleanup validator |
| HolderTree.RowsCountTree | runtime/w3_bridge_gate.py:658-745 | the counters of a tree are those of its roster |
| HolderTree.RosterBytesBind | runtime/w3_bridge_gate.py:660-672 | roster bytes decode in only one way, also with line feeds in names |
| HolderTree.RowsBindForest | runtime/w3_bridge_gate.py:674-742 | roster rows in preorder determine the tree |
| HolderTree.RosterBindsTree | runtime/w3_bridge_gate.py:657-745 | without hash collisions equal roster bytes mean equal sealed trees: paths, kinds, sizes and contents |
| Frames.RequestIff | runtime/w3_broker_protocol.py:470-555 | a buffer decodes to a request frame if and only if it is that frame's encoding |
| Frames.RequestLayout | runtime/w3_broker_protocol.py:470-555 | what a request says, byte by byte: magic, version and length, then the request, authority and release digests and the nonce at bytes 16, 48, 80 and 112, the payload behind byte 144; or the first fault it has, in the order of the checks |
| Frames.ResponseIff | runtime/w3_broker_protocol.py:490-582 | a buffer decodes to a response frame if and only if it is that frame's encoding |
| Frames.ResponseLayout | runtime/w3_broker_protocol.py:490-582 | the same of a response: status and length at bytes 12 and 16, the request digest, the nonce and the cleanup digest at 20, 52 and 84, the payload behind 116 |
| Frames.ReadRequestFrame | runtime/w3_broker_protocol.py:601-617 | for every chunking of a stream the outcome is that of decoding the whole content, the same frame or the same error, but that a short header and a short payload are both a truncated stream; a success consumes all of it |
| Frames.ReadEnvelope | runtime/w3_broker_service.py:170-182 | for every chunking the envelope reader gives what the whole stream says: a payload if and only if the stream is exactly its envelope, or the first fault of its length bytes and of what follows them |
| Bytes.Be32Bytes | runtime/w3_broker_protocol.py:481-481 | a length field holds its most significant byte first |
| Bytes.FromBe32Bytes | runtime/w3_broker_protocol.py:532-532 | and is read back so |
| Numerals.HexAt | runtime/w3_broker_protocol.py:522-527 | hexadecimal text has two lower-case digits for each byte, the high half first |
| Frames.ReceiveLauncherResponse | runtime/w3_broker_service.py:306-321 | the bounded reader returns the whole stream exactly when it fits, and every decodable response fits |
| Streams.Stream.ReadExact | runtime/w3_broker_protocol.py:585-598 | exactly the requested bytes for every chunking, or nothing when the stream is too short |
| Streams.Stream.ReadBounded | runtime/w3_broker_service.py:306-321 | the whole stream for every chunking, or nothing when it is over the bound |
| NativeResult.DecodeIff | runtime/w3_broker_service.py:324-418 | a launcher payload is accepted as a result if and only if it is that result's one encoding and its cleanup record has the announced digest |
| NativeResult.ResultLayout | runtime/w3_broker_service.py:324-418 | where each word of an accepted result and of its cleanup record lies, byte by byte, and that the digest is taken over the cleanup record |
| NativeResult.FlagsOfFinished | runtime/w3_broker_service.py:386-403 | the flag and wait checks accept exactly an exit with a code up to 255 or a signal from 1 to 127, with everything cleaned up |
| RssTrend.EvaluatedIff | qualification/run_with_telemetry.py:67-77 | the trend is evaluated exactly from thirteen live samples on |
| RssTrend.SlopeIsLeastSquares | qualification/run_with_telemetry.py:80-87 | over the reals, any line is further from the samples than the line of the reported slope through the means, by its distance in slope and in height: the slope is the least-squares one |
| RssTrend.ReportMeaning | qualification/run_with_telemetry.py:67-97 | an evaluated report leaves out the first ten live samples, or the first third when that is more, and gives the growth in GiB from the first to the last remaining sample, the slope in MiB per minute for times in seconds, and the share of steps that do not fall |
| RssTrend.RateReported | qualification/run_with_telemetry.py:67-97 | memory that grows by a steady rate of MiB per minute is reported with that rate |
| RssTrend.LiveAt | qualification/run_with_telemetry.py:68-68 | the live samples are those with memory in use, in order |
| RssTrend.GrowthHasNonnegativeSlope | qualification/run_with_telemetry.py:80-96 | with increasing times and values that never fall the least-squares slope is not negative and the nondecreasing ratio is one |
| RssTrend.AffineSlopeRecovered | qualification/run_with_telemetry.py:80-87 | exactly affine data gives back its own slope |
| RssTrend.DistinctTimesSpread | qualification/run_with_telemetry.py:82-87 | with increasing times the denominator is positive, so that nothing is divided by zero |
| RssTrend.GrowingRunReported | qualification/run_with_telemetry.py:67-97 | the whole report on a growing run: slope and growth not negative, full ratio |
| Directories.EntryDirectories | runtime/w3_broker_installer.py:1910-1919 | the ancestor loop collects exactly the directories between the root and some entry |
| Directories.EnsureParent | runtime/w3_broker_executor.py:1066-1116 | below the root the directories of a file are made up to the first one that is not rostered, which is reported; next to system files the directory must be there; any other path is refused |
| Directories.EntryParentsRostered | runtime/w3_broker_installer.py:1906-1924 | no install entry meets an unrostered ancestor |
| Directories.CreateRoster | runtime/w3_broker_executor.py:2307-2310 | in depth order the whole roster is created if and only if every directory's parent is provided or listed |
| Directories.RosterClosedIff | runtime/w3_broker_installer.py:359-377 | the roster of an installation lists every parent if and only if some entry lies below each of broker, anchor and state |
| Directories.CreateInstallation | runtime/w3_broker_executor.py:2307-2310 | created in depth order on a fresh system, the roster of an installation succeeds if and only if broker, anchor and state are populated, and then no entry below the root meets a missing or unrostered directory |
| Directories.StateIsMissing | runtime/w3_broker_installer.py:359-377 | a concrete installation whose roster lists state/anchor but not state |

## Left out

- InstallTransaction.Installer.Execute: the simulation path for other backends (one `apply` call per step), `verify_final_postconditions` and the applied evidence are not modelled; the outcome kinds stand for the returned documents.
- InstallTransaction.Installer.Recover: recovery of simulation backends, which takes its ownership from step rows, is not modelled.
- InstallTransaction.Installer.ReadSegments: reading the file does not itself fail or stop; a run that ends there has changed nothing.
- InstallTransaction.Installer.ApplyOperation: the effect of a unit is one bit per transaction on the host; what a rollback action undoes on the host is not modelled, only that it ran and succeeded.
- InstallTransaction.Installer.RollbackOne: its ambiguous branch is never taken from recovery and the failure path, because there, as in the source, the possibly effected steps are those with a receipt; it is stated for all arguments.
- InstallTransaction.Installer.RunUnit: operation intents are not carried in the journal rows; the reconciler is taken to be truthful, which Publication and AuthorityCas prove for files and for the authority under the conditions stated there.
- InstallJournal.JournalSegments: operation names are positions in the step's roster with a unit suffix; the field checks of `_payloads` are the types of the model.
- Publication.Volume.ReconcileRow: directory, launchd and directory-service targets are not modelled, an intent with a temp file has exactly one target; group ownership, device numbers and the ancestry checks are left out, the owner, mode, content and link count are kept.
- Publication.Volume.Publish: each call is durable once it returns; the order in which a power failure may lose directory updates before an `fsync` is not modelled.
- AuthorityCas.Registry.ClassifyActivation: the operation receipt measured at the end is not modelled.
- TransitionJournal.FileTransitionJournal.Records: file identity, owner, mode, link count and `flock` are not modelled.
- AnchorLog.ProtectedAnchorService.Advance: the request and response documents, peer credentials and the pinned file identities are not modelled; receipt verification is a predicate.
- ReceiptJournal.PublicReceiptJournal.Append: parent and leaf metadata checks and `flock` are not modelled; a receipt is its sequence, previous hash, mode and remaining content.
- TrainingResume.Resume: model, runtime, dataset and configuration identities, tensor signatures and finiteness checks are not modelled; RNG encodings are the generator states themselves.
- TrainingResume.Train: telemetry, reports and the checkpoint files' own atomicity are not modelled.
- BracketDepth.ScannerAcceptsIff: the JSON parser, duplicate keys, normalisation and the non-canonical inputs it refuses are not modelled; number, boolean and null tokens are carried as text.
- Descriptor.Validate: the distinct error texts are one refusal.
- HolderTree.Visitor.Seal: a tree is a value and sealing returns the sealed one; partly changed modes after a failure, replacement races, the change witness and the retained-holder registry are not modelled.
- HolderTree.SafePathIff: the check also lets the one path `.` through, which no directory listing contains; the model refuses it.
- HolderTree.DescribeHolder: only the replay-holder kind of retained root is validated.
- RssTrend.GrowthHasNonnegativeSlope: sums are over real numbers; floating-point rounding is not modelled.
- Directories.CreateRoster: owner and mode checks of existing directories are not modelled; the system directories `/Library/Application Support`, `/Library/Logs`, `/Library/LaunchDaemons`, `/Library/PrivilegedHelperTools` and `/var/run` are taken to exist.
- Ed25519, SHA-256, base64, the JSON library, wheels and MLX are foreign code and only parameters here.
- `stat` ancestry checks, `flock`, `fsync`, `launchctl`, `dscl`, sockets, peer credentials, subprocess and thread supervision: operating system calls without algorithmic content.
- The ledger core of the protected broker is a parameter: a ledger is any chained list of receipts.
- Plist and bundle field validation, authority and receipt field lists, pinned paths and digests, evidence reports, fixture generators, probes and argument parsing: long but shallow checks and plumbing.
