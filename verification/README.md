# Verified model of the DVD archiver's safety-critical core

This project models, in Dafny 4.11, the parts of the repository on which the
safety of an archived disc rests, and proves what they promise. Each module is
one component.

| module | component |
|---|---|
| `Common`, `Bits` | shared values; bit-packed sector maps, counts and maximal runs |
| `Sense`, `Drive` | SCSI sense decoding and the failure classifier; the drive as an adversary with a trace of its answers |
| `Rescue`, `Boundary`, `Copier` | the output image, the damage map and its counters; proof of an early end of disc; recursive recovery |
| `InitialCopy`, `CopyRuns`, `Resume`, `HelperRuns` | the fast first copy, the read loop, resuming from a map, and the helper's commands |
| `InitialCopyProtocol`, `CopyReport` | the parent's parser and validator, and why it believes the helper |
| `Publication`, `PublicationSteps`, `Survival`, `Publishing`, `Saving` | crash-recoverable publication, the guarded steps, what a power failure may take, the database save and cleanup |
| `Cutover` | the intent and gate locks of the legacy queue |
| `UdfTag`, `Geometry`, `UdfGeometry`, `ImageGeometry` | descriptor tags and their CRC, the bounded reader, ISO and UDF geometry |
| `ScsiSession`, `SessionRuns` | the session cache, the logical cursor and scatter reads; mixed runs over many descriptors |
| `TestedExtent`, `DependencyClosure` | merged extents and the in-place closure of dependencies |
| `SingleFlight` | the process coordinator and one bounded child process |
| `TitlePath` | the selected path of a DVD title and its subtitle table |

## What is assumed

* A read of the drive may do anything but this: a success moves between one and
  the requested number of sectors, and a failure carries the classifier's own
  verdict on a completion of that very request. A failed write leaves a torn tail.
* After a power failure each directory entry is as it last was or as it was last
  synced, and a file that was not synced may hold anything. Other workers follow the
  same protocol: they may install the very same record, and another intent only where
  the exclusion of the archive is not held. Digests are injective.
* The database save is one atomic action guarded by claim and lease. Other
  parties may change the job between any two checks, but only a save completes it.
* A dead process loses its two locks in any order.
* Randomness, clocks, system calls and the outcome of unseen code are arbitrary
  values or parameters.

## Properties found not to hold as first read

* A power failure may take the last name of the proven image while the intent that
  needs it survives, if the copy lies in a directory of its own: no step syncs that
  directory before the archive link is synced. `Survival.OneNameSurvives` and
  `Survival.ReplaySurvives` give the exact conditions, `Survival.LostEntry` a concrete
  case. In the library root, which is synced before the intent is written, the image is
  never lost (`Survival.RootIntent`, `Saving.RunSaves`).
* Once a cutover has its intent, a command that already had its share of the gate
  may still begin its body. `Cutover.BodiesAfterIntent` gives the exact condition,
  `Cutover.LeasedBeforeIntent` a run that reaches it. The gate's holders do only
  become fewer.
* A command that holds the intent may have to wait for the gate, when a cutover died
  and lost its intent first. `Cutover.NoWaitOnGate` says exactly when,
  `Cutover.GateOutlivesIntent` is a run that reaches it.
* A seek on a descriptor that is not read-only goes past a live session, so the
  session's cursor is stale. `ScsiSession.SeekBypasses` gives the exact condition,
  `ScsiSession.StaleCursor` a concrete case. The reader opens its source read-only.
* A failed session also ends when its source can no longer be examined.
  `ScsiSession.CursorSurvives` says exactly when a session survives,
  `ScsiSession.FailureEnds` is a concrete case.
* An empty scatter read returns zero where an empty read fails
  (`ScsiSession.ReadVector`).
* The walk over prerequisites is not the union over everything reachable where two
  observations share a field on a cycle, and then the order matters.
  `DependencyClosure.ExactIff` gives the exact condition,
  `DependencyClosure.OrderMatters` a concrete case.

## Model

| member | source | states |
|---|---|---|
| `Bits.SetBit` | docker/dvdcss-reader.c:1202-1207 | or-ing one mask into one byte of the map changes the flag of exactly that sector |
| `Bits.RunsMaximal` | apps/archive-worker/src/dvd-initial-copy.ts:174-201 | the run list of a map covers every set flag, only set flags, and no run can be extended |
| `Bits.MaximalRunsUnique` | apps/archive-worker/src/dvd-initial-copy.ts:174-201 | a map has only one list of maximal runs, so any two ways of counting areas agree |
| `Bits.RunsSetAbove` | docker/dvdcss-reader.c:1209-1211 | marking in ascending order, one look at the previous sector is enough to keep the number of runs |
| `Sense.ScanDescriptors` | docker/dvdcss-reader.c:467-568 | the one-pass scan of descriptor sense data finds an address exactly when the bytes tile and hold one valid, well-formed information descriptor naming a sector of the request |
| `Sense.InformationInRequest` | docker/dvdcss-reader.c:458-465 | no decoded address lies outside the failed request |
| `Sense.MediumErrorFacts` | docker/dvdcss-reader.c:634-675 | a failure classified as a medium error satisfies every field check that the parent makes of a tolerated diagnostic |
| `Sense.DeferredIsTerminal` | docker/dvdcss-reader.c:604-632 | deferred sense data never makes a read tolerable or a boundary, whatever else it says |
| `Drive.Drive.BackendRead` | docker/dvdcss-reader.c:1126-1166 | any answer may come back, but a success delivers between one and the requested number of sectors and a failure is the classifier's |
| `Drive.Drive.BoundaryProbeRead` | docker/dvdcss-reader.c:1360-1377 | a probe sends at most one command, an absolute one, and withdrawn authorization before or after it ends the run |
| `Rescue.RecoveryState.MarkBadSector` | docker/dvdcss-reader.c:1202-1212 | one more sector is marked and the counters are again the popcount and the number of maximal runs |
| `Rescue.RecoveryState.BoundaryRetained` | docker/dvdcss-reader.c:1261-1284 | what may stay is the longest processed prefix without a placeholder |
| `Rescue.ConflictEvidence.Record` | docker/dvdcss-reader.c:1535-1556 | the table holds exactly the addresses that medium errors named, each once, and its overflow branch is never taken |
| `Rescue.ConflictEvidence.ConflictsWith` | docker/dvdcss-reader.c:1558-1574 | a candidate conflicts if and only if it was named, has no address, or some medium error had none |
| `Common.DistinctInRange` | docker/dvdcss-reader.c:1540-1556 | distinct addresses of one request are no more than its sectors |
| `Boundary.ReadPrefix` | docker/dvdcss-reader.c:1601-1621 | sectors below the candidate are appended only as really read, by absolute probes, and nothing before them changes |
| `Boundary.CheckPreceding` | docker/dvdcss-reader.c:1623-1640 | the proof goes on only if the sector before the candidate was read back equal to the image |
| `Boundary.ConfirmBoundary` | docker/dvdcss-reader.c:1642-1663 | the proof goes on only after two refusals of the candidate that match the first in every field |
| `Boundary.ProbeAbove` | docker/dvdcss-reader.c:1665-1689 | the proof goes on only after a refusal of each applicable sector above the candidate |
| `Boundary.ProveBoundaryCandidate` | docker/dvdcss-reader.c:1576-1695 | a boundary is called proven exactly when the whole proof of it follows the refusal on record: without that either its address ruled a proof out and nothing was sent, or the last command did not get the answer it had to, and the cut is exactly at the first placeholder or, if there is none, at what counts as processed; a one-sector request never appends, and the two counters may be the same object |
| `Boundary.ProofStands` | docker/dvdcss-reader.c:1558-1574 | such a proof is a proven boundary if no medium error of the recovery names the candidate or lacks an address |
| `Boundary.GaveUpUnproved` | docker/dvdcss-reader.c:1588-1695 | an attempt that gave up has left no complete proof of its refusal on record |
| `Copier.AttemptRange` | docker/dvdcss-reader.c:1706-1753 | one attempt is one absolute content read; success appends just what was read, a medium error leaves the image alone and joins the evidence, anything else stops |
| `Copier.RefusedDuringRecovery` | docker/dvdcss-reader.c:1722-1735 | a proof stands only without conflict with any medium error since the request was first sent, and is given up only for such a conflict or for an answer; without one the cut is exactly at the first placeholder or at the refused request |
| `Copier.AttemptLeaves` | docker/dvdcss-reader.c:1576-1695 | however an attempt to prove a boundary ends, the image reaches exactly as far as its reads went, every sector is still accounted for, and the cut is exact |
| `Copier.UnprovedMeans` | docker/dvdcss-reader.c:1722-1735 | a run that reports a boundary without a proof has none on record for its last refusal, so the report says neither too much nor too little |
| `Copier.ReplaceSector` | docker/dvdcss-reader.c:1755-1762 | a placeholder is written only for a sector whose allowed single reads have all failed |
| `Copier.RecoverRange` | docker/dvdcss-reader.c:1697-1776 | recovering n blocks costs at most 4n-2 reads, all of them seeking, and accounts for every block, by a read or by a marked placeholder |
| `InitialCopy.InitialCopyState.MarkSkipped` | docker/dvdcss-reader.c:1223-1240 | a skipped request sets exactly its own flags; sector and region counts stay the popcount and the number of runs; padding stays clear |
| `InitialCopy.InitialCopyState.RecordSkip` | docker/dvdcss-reader.c:1223-1245 | map, counters, kept diagnostics and the list of skipped requests go on agreeing |
| `CopyRuns.ReadContent` | docker/dvdcss-reader.c:1168-1183 | the read is repeated, once and with a seek, if and only if it is of sector zero and the drive reported an earlier error in the medium; a read without seek starts where the last success ended |
| `CopyRuns.StopCopy` | docker/dvdcss-reader.c:1850-1861 | a final failure leaves an image that reaches as far as the reads went, with its exact cut, or whole up to a boundary proven without conflict, even when the proof itself appended sectors |
| `CopyRuns.ReadDisc` | docker/dvdcss-reader.c:1778-1871 | for every behaviour of the drive: at most four content reads a sector, seek discipline, on success exactly the declared sectors, each read or marked with its evidence, and at a boundary an exact cut or a proof that no medium error of the same request contradicts |
| `Resume.ResumeAttempt` | docker/dvdcss-reader.c:2359-2408 | a retry touches no other sector and never the length or the offset of the file |
| `Resume.StopResume` | docker/dvdcss-reader.c:2378-2399 | a boundary proof started inside the resume loop leaves the image untouched, stands only if no medium error met at that sector conflicts with it, and is missing only for such a conflict or for an answer |
| `Resume.RunResume` | docker/dvdcss-reader.c:2283-2445 | on every exit only sectors of the prior map were written; on success the new map is a subset of it, and every sector of it is freshly read or a placeholder after all attempts failed; a proven boundary lies at a sector of the prior map, with its proof on record and no conflict, and an unproven one is reported with the first sector still marked |
| `HelperRuns.RollbackBoundaryImage` | docker/dvdcss-reader.c:1286-1297 | the rollback never extends the image and cuts it to what the boundary report says |
| `HelperRuns.LeftAtBoundary` | docker/dvdcss-reader.c:1261-1297 | after the cut an unproven boundary leaves exactly what lies below the first placeholder or the end of processing, all of it read; a proven one leaves everything, with its proof on record |
| `HelperRuns.RunCopy` | docker/dvdcss-reader.c:2075-2124 | a finished copy accounts for every declared sector and reports true counts; at a boundary the image is what the reads reached, cut exactly at the length reported, or whole under a proof without conflict |
| `HelperRuns.RunBoundaryResume` | docker/dvdcss-reader.c:2447-2531 | the sectors kept on entry always survive; refused arguments leave file and drive alone; otherwise as for the full copy |
| `HelperRuns.ReportBelieved` | docker/dvdcss-reader.c:2126-2204 | the parent accepts a report if and only if at least one sector was kept |
| `HelperRuns.RunInitialCopy` | docker/dvdcss-reader.c:2126-2204 | every first copy that ends well or at a boundary holds placeholders exactly where its map says, and its report is accepted if and only if anything was kept; at a boundary it keeps all that its reads reached, and a claim of proof rests on a proof on record |
| `InitialCopyProtocol.RangesFromBitmap` | apps/archive-worker/src/dvd-initial-copy.ts:174-201 | the ranges rebuilt are the maximal runs of the map |
| `InitialCopyProtocol.SkippedSectorCount` | apps/archive-worker/src/dvd-initial-copy.ts:203-213 | adding the lowest bit of each byte and shifting until nothing is left counts the set bits |
| `InitialCopyProtocol.ValidateRanges` | apps/archive-worker/src/dvd-initial-copy.ts:330-346 | accepted exactly when the ranges are positive, ascending, apart and inside |
| `InitialCopyProtocol.ValidateDiagnostics` | apps/archive-worker/src/dvd-initial-copy.ts:367-399 | the single walk with one index accepts exactly when every request lies in some range, in order and without overlap |
| `InitialCopyProtocol.ValidateResult` | apps/archive-worker/src/dvd-initial-copy.ts:304-403 | the validator accepts exactly the results that satisfy the relation between sizes, counts, ranges and diagnostics |
| `InitialCopyProtocol.ParseResult` | apps/archive-worker/src/dvd-initial-copy.ts:215-302 | the parser accepts exactly the messages whose numbers agree with the bitmap, and hands on the ranges it rebuilt itself |
| `CopyReport.StretchInRun` | apps/archive-worker/src/dvd-initial-copy.ts:381-396 | a stretch of set flags lies within one maximal run |
| `CopyReport.ReportAccepted` | docker/dvdcss-reader.c:2002-2073 | a report made from the helper's incremental counts is accepted, and the parent's map has the same flags |
| `Publication.CrashSafe` | apps/archive-worker/src/dvd-initial-publication.ts:251-300 | every power failure leaves a safe state: a surviving pointer implies intent, matching manifest and the link to the proven inode |
| `Publication.Disk.InstallRecord` | apps/archive-worker/src/dvd-initial-publication.ts:162-185 | from any state a record is installed durably or found equal, also when another worker has just installed the same one; a different one is a conflict and is never replaced, whether it was there before or, without the exclusion of the archive, came in between |
| `Publication.Disk.LinkNew` | apps/archive-worker/src/dvd-initial-publication.ts:172-184 | a new record appears only complete and synced, at every point where the process may die; losing the race to the same record is no conflict, losing it to another intent is one |
| `Publication.NamedKept` | apps/archive-worker/src/dvd-initial-publication.ts:172-180 | linking a complete record whose grounds are durable keeps the state safe |
| `Publication.EntriesSynced` | apps/archive-worker/src/dvd-initial-publication.ts:89-92 | syncing a directory keeps the state safe and replaces nothing |
| `PublicationSteps.CheckProjection` | apps/archive-worker/src/dvd-initial-publication.ts:193-204 | passes only if the database is not ahead of the pointer and agrees with it at the same revision |
| `PublicationSteps.LinkKept` | apps/archive-worker/src/dvd-initial-publication.ts:280-287 | making the archive link is safe once the manifest is durable and the image synced |
| `PublicationSteps.Ledger.Authorize` | apps/archive-worker/src/dvd-initial-save.ts:64-76 | passes exactly when the job is completed or held under this claim, with a running request and an unexpired lease |
| `PublicationSteps.Ledger.Save` | apps/archive-worker/src/dvd-initial-save.ts:79-90 | the job is completed only while held and only over a published state; saving again changes nothing |
| `Publishing.Publisher.OpenPaths` | apps/archive-worker/src/dvd-initial-publication.ts:93-117 | opening the evidence directory makes every entry of it and of the library root durable and changes nothing that is seen |
| `Publishing.Publisher.Enter` | apps/archive-worker/src/dvd-initial-publication.ts:81-88 | two checks surround the fault point and the body is the very next thing in the history |
| `Publishing.Publisher.VerifyImage` | apps/archive-worker/src/dvd-initial-publication.ts:205-222 | fails exactly when the name does not lead to the proven inode at its version; with sync its bytes are durable |
| `Publishing.Publisher.CheckExisting` | apps/archive-worker/src/dvd-initial-publication.ts:267-275 | rejects a pointer without its manifest or link, or a foreign record; never rejects a safe state |
| `Publishing.Publisher.PutLink` | apps/archive-worker/src/dvd-initial-publication.ts:280-291 | afterwards the archive name durably leads to the unaltered proven image; published already, nothing changes |
| `Publishing.Publisher.PutPointer` | apps/archive-worker/src/dvd-initial-publication.ts:292-297 | the pointer is installed only over verified evidence, and its making is noted directly after a passing check |
| `Publishing.Publisher.CompletePublication` | apps/archive-worker/src/dvd-initial-publication.ts:251-300 | from a safe state it is cut short or succeeds if the name it works from leads to the unaltered image, and is cut short or reports the image if not; a published state is left as it is; each name that appears was made in a step that the history shows, directly after a passing check |
| `Publishing.Publisher.Publish` | apps/archive-worker/src/dvd-initial-publication.ts:331-385 | never starts around foreign artifacts or without the proven image in its staging place; another intent is a conflict that changes nothing but what is synced; otherwise only an interruption prevents success, or a rival without the exclusion; a copy that lies in the library root is durable before the intent for it |
| `Publishing.Publisher.Reconcile` | apps/archive-worker/src/dvd-initial-publication.ts:407-425 | from every safe state with the intent it is cut short or reaches the intent's own checkpoint if the image is available under the name it will use, and is cut short or reports the image if not; repeated it changes nothing |
| `Survival.OneNameSurvives` | apps/archive-worker/src/dvd-initial-publication.ts:276-290 | whatever a power failure does the staging or the archive name still leads to the proven inode, if and only if one of these two entries leads to it and has been synced as such |
| `Survival.ReplaySurvives` | apps/archive-worker/src/dvd-initial-publication.ts:406-425 | after every power failure the intent can be replayed with its image, if and only if the image is unaltered and synced and one of its two entries has been synced |
| `Survival.LostEntry` | apps/archive-worker/src/dvd-initial-publication.ts:376-384 | a concrete power failure right after the intent is installed keeps the intent and the unaltered image but neither of its names, so that a replay can only report the image |
| `Survival.AnchoredByPointer` | apps/archive-worker/src/dvd-initial-publication.ts:280-297 | once the pointer has a name, or the database knows of it, the synced archive link leads to the proven inode |
| `Survival.RootIntent` | apps/archive-worker/src/dvd-initial-publication.ts:93-106 | in the library root an intent for the copy, ours or a rival's, appears only when the entry of the copy is already durable |
| `Saving.FinalizePublication` | apps/archive-worker/src/dvd-initial-publication.ts:308-324 | only the staging name may go, and only after a save; over a published state it is cut short or succeeds if that name is the image or gone, and reports the image otherwise |
| `Saving.SaveDatabase` | apps/archive-worker/src/dvd-initial-save.ts:80-90 | the save is in the history with the very store it was made over, and leaves that store alone |
| `Saving.CommitSave` | apps/archive-worker/src/dvd-initial-save.ts:79-96 | the database is completed only over a published state, which stays published; the staging name goes only after that; success means both |
| `Saving.OwnClaim` | apps/archive-worker/src/dvd-initial-save.ts:146-178 | a running job is owned if and only if it runs under the given claim and, once that has expired, the writer is known to be inactive; a live claim is renewed, and exactly an expired one is replaced |
| `Saving.SaveAttempt` | apps/archive-worker/src/dvd-initial-save.ts:196-224 | a first attempt around nothing foreign is cut short or saves exactly this manifest if the proven image is in its staging place, and is cut short or reports the image if not; the staging name goes only once the database is completed |
| `Saving.ReconcileAttempt` | apps/archive-worker/src/dvd-initial-save.ts:226-241 | with the intent the whole attempt is cut short or finishes the save for it, if the image is available and its staging name, where there is one, leads to it; otherwise it never finishes; nothing durable is lost, every new name is explained by the history, the image stays in reach, and the staging name goes only once the database is completed |
| `Saving.RunSaves` | apps/archive-worker/src/dvd-initial-save.ts:120-182 | any number of attempts with deaths and power failures anywhere keep the archive safe, the history orderly, the durable records and intent unchanged, and a completed save backed by a durable pointer and a synced link; each new permanent name was made in a step of the history; until the database is completed the staging name stays, and the proven image keeps a name that leads to it: through power failures in the library root or once one entry was synced, and everywhere while power holds |
| `Cutover.ActSound` | rip_dvd/legacy_queue_lease.py:32-52 | every step of every process keeps the locks in agreement with what the processes have done |
| `Cutover.Exclusion` | rip_dvd/legacy_queue_lease.py:138-184 | in every run, while a cutover is ready no command has its lease and no other cutover is ready |
| `Cutover.ClosedDrains` | rip_dvd/legacy_queue_lease.py:147-163 | from the intent sentinel on the gate's holders only become fewer, and only a command that already had its lease begins a body |
| `Cutover.BodiesAfterIntent` | rip_dvd/legacy_queue_lease.py:39-47 | a body may still begin if and only if some command stands between its lease and its body |
| `Cutover.LeasedBeforeIntent` | rip_dvd/legacy_queue_lease.py:39-47 | such a state is reached from an empty queue |
| `Cutover.NoWaitOnGate` | rip_dvd/legacy_queue_lease.py:41-45 | a command that holds the intent waits for the gate only if a dying cutover still has it, and then the gate is about to be released |
| `Cutover.GateOutlivesIntent` | rip_dvd/legacy_queue_lease.py:138-184 | such a wait is reached from an empty queue |
| `Cutover.NoDeadlock` | rip_dvd/legacy_queue_lease.py:93-100 | while anybody is unfinished somebody can go on without an abort or a crash |
| `Cutover.EverythingEnds` | rip_dvd/legacy_queue_lease.py:138-184 | without newcomers the processes finish within the number of steps they still have to take |
| `Cutover.QueueRoot.CommandLease` | rip_dvd/legacy_queue_lease.py:32-52 | against all others acting at every point, no cutover is ready while the body runs, and both locks are free of the command afterwards |
| `Cutover.QueueRoot.HoldCutover` | rip_dvd/legacy_queue_lease.py:138-184 | against all others acting at every point, no command runs while the cutover is ready, and both locks are free of it afterwards |
| `UdfTag.StepByteInjective` | apps/archive-worker/src/dvd-geometry-validator.ts:381-389 | eight CRC steps never merge two registers |
| `UdfTag.FeedDifference` | apps/archive-worker/src/dvd-geometry-validator.ts:381-389 | the CRC is linear: differences evolve on their own |
| `UdfTag.SharedTail` | apps/archive-worker/src/dvd-geometry-validator.ts:381-389 | a difference never disappears over bytes that both sides share |
| `UdfTag.BurstSeen` | apps/archive-worker/src/dvd-geometry-validator.ts:384-388 | no nonempty pattern of at most 16 consecutive bits has CRC zero |
| `UdfTag.BurstChangesCrc` | apps/archive-worker/src/dvd-geometry-validator.ts:381-392 | two covers that differ only within 16 consecutive bits have different CRCs |
| `UdfTag.ComputeCrc` | apps/archive-worker/src/dvd-geometry-validator.ts:381-389 | the nested loops compute the CRC of the covered bytes |
| `UdfTag.ValidateTag` | apps/archive-worker/src/dvd-geometry-validator.ts:344-394 | accepts exactly the well-formed descriptors of an expected type written for this sector |
| `UdfTag.BurstRejected` | apps/archive-worker/src/dvd-geometry-validator.ts:372-392 | an accepted descriptor is rejected after every burst of at most 16 bits in its covered bytes, including one that moves the covered length |
| `UdfTag.AdjacentChangeRejected` | apps/archive-worker/src/dvd-geometry-validator.ts:372-392 | and so after every nonempty change of two neighbouring covered bytes, for every covered length |
| `UdfTag.TagChangeRejected` | apps/archive-worker/src/dvd-geometry-validator.ts:363-371 | and after any change of a single tag byte |
| `Geometry.Reader.ReadSector` | apps/archive-worker/src/dvd-geometry-validator.ts:866-888 | the refusal flag is raised exactly by a request outside the image or over budget |
| `Geometry.RequireInside` | apps/archive-worker/src/dvd-geometry-validator.ts:133-159 | accepts exactly the extents inside the image, and calls only an otherwise well-formed one truncated |
| `Geometry.ValidateIso` | apps/archive-worker/src/dvd-geometry-validator.ts:206-316 | with complete reads a view is returned if and only if the bounded sequence ends, has one primary volume, and every volume in it can be read and declares this view; at most 256 reads, none refused |
| `UdfGeometry.ReadPartitionMaps` | apps/archive-worker/src/dvd-geometry-validator.ts:594-616 | accepts exactly tables of six-byte type 1 maps, in order |
| `UdfGeometry.Gather` | apps/archive-worker/src/dvd-geometry-validator.ts:507-650 | a descriptor is accepted if and only if it is possible by itself and no second one of its kind, and then adds exactly what it declares, all inside the image |
| `UdfGeometry.ValidateReferences` | apps/archive-worker/src/dvd-geometry-validator.ts:449-483 | accepts exactly when every map has its partition and the file set lies in its own |
| `UdfGeometry.UnseenIs` | apps/archive-worker/src/dvd-geometry-validator.ts:526-600 | what has been gathered refuses a descriptor exactly when it clashes with one before it in the sequence |
| `UdfGeometry.ParsesDeclares` | apps/archive-worker/src/dvd-geometry-validator.ts:485-667 | what a sequence says declares exactly what its descriptors declare, and its volume and partitions are those of descriptors |
| `UdfGeometry.ParseSequence` | apps/archive-worker/src/dvd-geometry-validator.ts:485-667 | with complete reads a sequence is accepted if and only if it ends within its bound after well-formed, possible descriptors without clashes, among them all kinds needed, and its file set lies in its partition; the result is all they say; at most 256 reads, none refused |
| `ImageGeometry.CheckRecognition` | apps/archive-worker/src/dvd-geometry-validator.ts:711-767 | accepts exactly one beginning, NSR and terminator descriptor, well-formed and in direct succession |
| `ImageGeometry.ValidateUdf` | apps/archive-worker/src/dvd-geometry-validator.ts:693-851 | with complete reads a view is accepted if and only if the image is recognized, its anchors are well-formed and agree, and both sequences say the same; the view is exactly what is declared and its end, all inside the image; there is none exactly when nothing hints at UDF |
| `ImageGeometry.ValidateOpenedImage` | apps/archive-worker/src/dvd-geometry-validator.ts:853-934 | on every image and with reads failing anywhere no read is refused; what is accepted is what the image declares, with UDF ending no later than ISO; and unless a read was cut short every image that declares something acceptable is accepted |
| `ImageGeometry.AcceptsOnce` | apps/archive-worker/src/dvd-geometry-validator.ts:888-934 | an image has one acceptable geometry at most |
| `ScsiSession.CursorSurvives` | docker/libdvdcss-sg-io.c:367-449 | a session survives an acquisition, with its cursor, exactly while its source is seen to be the same |
| `ScsiSession.FailureStays` | docker/libdvdcss-sg-io.c:418-448 | a failed session stays as it is and is never usable while its source is the same |
| `ScsiSession.Sessions.Invalidate` | docker/libdvdcss-sg-io.c:330-341 | drops the session of one descriptor and no other |
| `ScsiSession.Sessions.Open` | docker/libdvdcss-sg-io.c:451-504 | a new session starts at the kernel's cursor, and takes the outcome of opening its device |
| `ScsiSession.Sessions.Acquire` | docker/libdvdcss-sg-io.c:367-505 | the list always has at most one session for a descriptor; only that one changes, as the probes demand |
| `ScsiSession.Sessions.Seek` | docker/libdvdcss-sg-io.c:768-802 | on a read-only descriptor moves the logical cursor as a plain file cursor, else goes to the kernel |
| `ScsiSession.Sessions.Read` | docker/libdvdcss-sg-io.c:804-910 | advances the cursor by exactly the whole sectors transferred, and not at all on any failure |
| `ScsiSession.Sessions.Close` | docker/libdvdcss-sg-io.c:603-609 | ends the session of the closed descriptor only |
| `ScsiSession.CursorRefines` | docker/libdvdcss-sg-io.c:766-802 | over every run of seeks and reads on a read-only descriptor of an unchanged source the session's cursor is a plain file cursor |
| `ScsiSession.FailedRun` | docker/libdvdcss-sg-io.c:774-784 | over every such run a failed session answers nothing and does not change |
| `ScsiSession.SeekBypasses` | docker/libdvdcss-sg-io.c:773-786 | the cursor follows a successful seek if and only if the descriptor is read-only, or the kernel happened to land on it |
| `ScsiSession.StaleCursor` | docker/libdvdcss-sg-io.c:773-786 | a concrete seek that the session does not follow |
| `ScsiSession.FailureEnds` | docker/libdvdcss-sg-io.c:367-379 | a concrete failed session that ends when its source cannot be examined, and a usable one that follows it on the very same source |
| `ScsiSession.ReadVector` | docker/libdvdcss-sg-io.c:912-946 | one read of the whole length with its bytes laid out segment by segment; only an empty or refused one never asks the session |
| `ScsiSession.ScatterGathers` | docker/libdvdcss-sg-io.c:934-941 | disjoint segments together hold exactly the bytes that one read would have put in one buffer |
| `SessionRuns.RunRequests` | docker/libdvdcss-sg-io.c:766-946 | over every mixed run of seeks, reads, scatter reads and closes on any descriptors, each is answered as its own session demands, and that session depends on the requests for its descriptor alone |
| `SessionRuns.CursorInRuns` | docker/libdvdcss-sg-io.c:367-505 | in every such run a descriptor has a session exactly while there was no close and no change of source since a call made it, and all that time its cursor is a plain file cursor that started at the kernel's |
| `TestedExtent.Merge` | apps/archive-worker/src/dvd-full-extent-validator.ts:73-84 | sorted ranges become separated runs with the same sectors |
| `TestedExtent.LengthsCount` | apps/archive-worker/src/dvd-full-extent-validator.ts:89-93 | the lengths of separated runs add up to the number of distinct sectors |
| `TestedExtent.MeasureExtent` | apps/archive-worker/src/dvd-full-extent-validator.ts:61-95 | the observed count is the number of distinct sectors, and start and end are the true ones, for any overlapping ranges |
| `DependencyClosure.GatherIs` | apps/archive-worker/src/dvd-full-extent-validator.ts:227-238 | the walk ends on every graph and collects exactly what lies on ways that enter no field twice |
| `DependencyClosure.ExactIff` | apps/archive-worker/src/dvd-full-extent-validator.ts:227-238 | the walk is the union over everything reachable, for all ranges, if and only if no other observation of the start's field is reachable from it |
| `DependencyClosure.AcyclicExact` | apps/archive-worker/src/dvd-full-extent-validator.ts:227-238 | every observation of an acyclic graph is such a start |
| `DependencyClosure.CloseInPlace` | apps/archive-worker/src/dvd-full-extent-validator.ts:239-248 | rewriting in place, in any order, gives each such observation that union; every other one keeps its own ranges and gets nothing unreachable |
| `DependencyClosure.OrderMatters` | apps/archive-worker/src/dvd-full-extent-validator.ts:227-248 | with two observations of one field on a cycle the order of processing changes the result |
| `DependencyClosure.TestedExtentOf` | apps/archive-worker/src/dvd-full-extent-validator.ts:260-272 | a check reports the number of distinct sectors behind its phases, the first of them and the end of the last |
| `DependencyClosure.MeasureCheck` | apps/archive-worker/src/dvd-full-extent-validator.ts:227-272 | closing in any order and then measuring reports, for exact observations, the number of distinct sectors in the union of everything the check rests on, its first sector and its end |
| `DependencyClosure.LaterChecksCoverMore` | apps/archive-worker/src/dvd-full-extent-validator.ts:97-119 | a check of later phases has tested whatever an earlier one has |
| `SingleFlight.Coordinator.IsActive` | apps/archive-worker/src/bounded-child-process.ts:152-154 | a key is active if and only if an unreaped process has it |
| `SingleFlight.Coordinator.Run` | apps/archive-worker/src/bounded-child-process.ts:158-180 | joins the process of the key or starts a new one within the capacity; any refusal changes nothing |
| `SingleFlight.Coordinator.Settle` | apps/archive-worker/src/bounded-child-process.ts:203-212 | ending a wait requests cancellation of that process and nothing else; its key stays admitted |
| `SingleFlight.Coordinator.Close` | apps/archive-worker/src/bounded-child-process.ts:173-177 | only the reaping of the process itself releases its key |
| `SingleFlight.Coordinator.Handle` | apps/archive-worker/src/bounded-child-process.ts:133-215 | over every interleaving a process not yet reaped keeps its key, and each process is cancelled at most once |
| `SingleFlight.Coordinator.WithinCapacity` | apps/archive-worker/src/bounded-child-process.ts:160-164 | any set of unreaped processes is within the capacity, and no two of them share a key |
| `SingleFlight.Capture` | apps/archive-worker/src/bounded-child-process.ts:319-329 | the chunks kept are the stream, cut one byte past the bound |
| `SingleFlight.ChildProcess.OnReady` | apps/archive-worker/src/bounded-child-process.ts:342-360 | readiness is accepted exactly when the texts of the chunks so far make the agreed message; any departure kills the helper |
| `SingleFlight.ChildProcess.Authorize` | apps/archive-worker/src/bounded-child-process.ts:420-432 | the payload is written at most once and only to a ready helper that is neither cancelled nor reaped |
| `SingleFlight.ChildProcess.OnClose` | apps/archive-worker/src/bounded-child-process.ts:372-391 | the result is settled once, and is the whole output of a helper that was not cancelled and kept the bound |
| `TitlePath.CheckTitle` | docker/dvd-preview-title.c:48-60 | accepts exactly the titles whose chapters, programs and cells ascend in one chain without angle blocks |
| `TitlePath.SelectPath` | docker/dvd-preview-title.c:97-106 | the loops print the path of the chapters asked for |
| `TitlePath.PathIsRun` | docker/dvd-preview-title.c:99-106 | a path is a run of consecutive valid cells, each in the program it is listed under |
| `TitlePath.PathsJoin` | docker/dvd-preview-title.c:53-55 | the path of chapters a to b followed by that of b+1 to c is the path of a to c |
| `TitlePath.ChaptersHaveCells` | docker/dvd-preview-title.c:53-55 | no range of chapters of an accepted title is empty |
| `TitlePath.FitsSlots` | docker/dvd-preview-title.c:63 | stored subtitles, distinct five-bit ids, always fit the 32 slots |
| `TitlePath.AddSubtitle` | docker/dvd-preview-title.c:21-25 | a new id finds a free slot, a known one changes nothing |
| `TitlePath.MapSubtitles` | docker/dvd-preview-title.c:84-96 | the stored ids are exactly the ones the control words ask for, each once |

## Left out

- Hash mode, source-read mode, endpoint proof, progress output, stderr text and all testing code of the reader: no further safety property.
- Byte counts of the image are counted in sectors; a write torn inside a sector is a torn sector.
- CSS authentication and key exchange, device discovery and descriptor leaks in the SCSI layer: plumbing.
- JSON, hexadecimal and canonical text: messages and records are values; the bitmap stays bytes.
- The classification names attached to unrecovered ranges, and the category text of a failure report.
- `Publication.Disk.InstallRecord`: file-type and concurrent-change faults of record reading are left out.
- `Publication.Disk.LinkNew`: does not model a program outside the protocol that writes a manifest or a pointer of its own in between.
- `Publishing.Publisher.PutLink`: does not model such a program making the archive link; a worker of the protocol links the same inode, which leaves the same state.
- Creating the evidence directories, path validation, and building the manifest with its sample hashes: the manifest is a parameter.
- `Saving.OwnClaim`: does not model the renewal heartbeat apart from the arbitrary changes that may happen between two checks.
- The structural check after a save, and archiver code that is not in the cited files.
- `Cutover.QueueRoot.HoldCutover`: does not model orphan scavenging; ready means the process is alive in that phase, since its sentinel file outlives a crash.
- `Cutover.QueueRoot.CommandLease`: a wait that is never granted is modelled as giving up after any number of tries.
- The geometry carried inside validation errors, and the metadata comparison before and after: only the issue is modelled; the image does not change while it is read.
- The ISO, UDF and video profile readers behind the full-extent validator: observations and prerequisites are input.
- Library sorting is modelled by an insertion sort with the same order.
- Abort listeners and timers of the coordinator: the end of a wait is one event, whatever caused it.
- `SingleFlight.ChildProcess.OnReady`: takes the text that each chunk of bytes decodes to by itself; the decoder is left out.
- Audio stream mapping, aspect-ratio rejection, argument parsing and printing of the title selector.
- Python user interface, catalog, web code and the wider database layer.
