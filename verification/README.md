# OJOS: verified models of its protocol and compiler cores

This project models the parts of the OJOS online judge platform whose correctness is hardest to
see from the code, and proves what they promise for every input, every fault and every run.
`dafny verify dfyconfig.toml` checks all of it.

- **Installer** (`InstallTree`, `InstallState`, `InstallAttempt`, `Installer`). The directory that
  holds an installation is a map from names to trees and journals. Every filesystem operation
  consults a fault script first: it goes ahead, fails, or the process dies there. Proofs hold for
  every script, so they hold at every moment of every run, inside recovery too. Removing a
  directory takes one step, or with `atomicDeletes` off one step per file.
- **Contract compatibility** (`SchemaCompat`, `ContractCompat`). The comparison that the release
  tooling makes between two service contracts, against what schemas accept and operations serve.
- **Judge worker** (`TaskStream`, `LeaseExecution`). Reading a stream, claiming and acknowledging;
  executing a lease under a heartbeat. Redis, the judge API and the clock are scripts.
- **Contract compiler** (`SchemaRefs`, `ContractRoutes`, `Ordering`, `CanonicalOrder`,
  `ContractCompiler`). Local references, exposures and routes, and the whole contract with its
  lists in canonical order.
- **Backup manifest** (`PortablePaths`, `TreeDigest`, `BackupManifest`). Path syntax, the hashed
  byte stream of a tree, and the pair of creating and verifying a manifest.
- **Frontend contributions** (`FrontendHost`). Reconciling modules over per-path route ownership.
- **Judge decisions** (`OutputNormalizer`, `ShellQuoting`, `Verdict`). Two output normalizers, two
  shell quoters, verdicts and scores.

SHA-256 is a free datatype constructor throughout: equal digests mean equal content.

## Findings

The models follow the code. Where a natural expectation fails, a lemma exhibits it and another
states exactly when it holds.

- An install that fails with an I/O error deletes its verified stage even if the recovery it just
  tried has failed. For a first install whose journal is on disk the stage was the only copy
  (`Installer.FirstInstallCanBeStranded`, and the last clause of `AfterError`). With atomic deletes
  and any faults, the state after an install is recoverable if and only if it is not stranded in
  this way; a stranded state stays stranded and every later install fails (`Install`, `Run`). With
  crashes as the only fault it cannot happen.
- Lowering an operation's major takes it off its API line, so `compare` accepts every schema
  break without a bump (`ContractCompat.LoweredMajorHidesBreaks`, `LoweredMajorAcceptsAnything`;
  exactly when in `SchemasDecideIffMajorKept`).
- An empty enumeration counts as none, and the schema `false` as an empty schema, so both are
  introduced unreported; a property added to an open object can reject values that were accepted
  (`SchemaCompat.EmptyEnumSlipsIn`, `FalseSchemaSlipsIn`, `OpenObjectCanNarrow`).
  `SchemaCompat.InputSoundExactly` is the exact condition.
- Leaving out the schema of a response is not reported
  (`ContractCompat.ResponseSchemaCanBeDropped`); while the schema is there, what a client could
  read stays readable (`ResponsesSurvive`).
- A reference to a reference is normalized to an empty schema (`SchemaRefs.ChainsLoseContent`,
  `ChainedFalseSchema`). Where references stand alone, normalizing is the full unfolding if and
  only if every chained reference it comes upon leads to an empty schema (`UnfoldingIffHarmless`).
- An ordinary recursive schema sends `normalize_schema` into endless recursion
  (`SchemaRefs.RecursiveSchemaDiverges`, `CycleDiverges`). On tidy documents a value can be
  normalized if and only if it leads to no cycle (`NormalizesIffNoCycle`), and every location can
  if and only if the references are acyclic (`AcyclicIffNormalizes`).
- `paths_overlap` reports the root path against a one-parameter path, which no request with
  non-empty segments matches (`ContractRoutes.RootMeetsParameter`; exactly when in
  `OverlapIsExactBut`).
- With less than thirty milliseconds of lease left, the ten millisecond floor of the heartbeat
  delay can let the lease lapse (`LeaseExecution.ShortLeaseCanLapse`; exactly when in
  `DelayLeavesTwoThirds`).
- Frontend modules that each want a path another of them holds are all refused, in every reconcile
  however often it is repeated (`FrontendHost.ContributionHost.RefuseForever`), although an empty
  host would settle the same snapshot (`FrontendHost.ConsistentSnapshotCanBeRefused`,
  `Plan.ConsistentIffFreshHostSettles`). `Plan.NothingRefusedIffClear` states exactly when nothing
  is refused.
- `_portable_relative_path` lets a lone dot pass (`PortablePaths.LoneDotIsPortable`); no other
  result has a part that is not canonical (`ResultIsCanonicalBut`).
- It also lets `./manifest.json` and `./SHA256SUMS` pass (`DottedControlNameIsPortable`), so two
  different inventories can be accepted for one tree (`TreeDigest.TwoSpellings`). An accepted path
  is spelled canonically, or is a lone dot, exactly if it is its own result; every other
  accepted path stands for one of the control names (`SpellingIsCanonicalBut`), and inventories
  accepted for one tree differ nowhere else (`InventoryIsUnique`).

## Model

| member | source | states |
|---|---|---|
| InstallTree.VerifyManifestFiles | manager/installer/src/lib.rs:902-952 | accepts exactly the trees whose files, control files aside, are listed once each with size and digest, with nothing extra |
| InstallTree.VerifyInstalledTree | manager/installer/src/lib.rs:875-900 | accepts exactly the verified installations: marker, manifest digest, product, version, file list and layout agree |
| InstallTree.VerifyBundle | manager/installer/src/lib.rs:845-873 | accepts exactly the verified bundles, of this product and schema version |
| InstallTree.ManifestPinsInstallation | manager/installer/src/lib.rs:875-952 | two installations that verify under one manifest hold the same files with the same content; their markers differ in the time of installation only |
| InstallTree.ManifestPinsBundle | manager/installer/src/lib.rs:845-952 | two bundles that verify under one manifest are equal |
| InstallTree.EntryPointsAreThere | manager/installer/src/lib.rs:954-986 | what verifies ships the five programs, the required resources and a service with its release |
| InstallTree.PartialTreeIsNotVerified | manager/installer/src/lib.rs:875-952 | a verified tree with any file missing no longer verifies, so half-deleted trees are recognised |
| InstallTree.StagedIsVerified | manager/installer/src/lib.rs:348-364 | what staging builds from a verified bundle is a verified installation |
| InstallState.RecoveredIsStable | manager/installer/src/lib.rs:1196-1289 | the reference result of recovery is a fixed point with no journals and the same current version |
| InstallState.Frame | manager/installer/src/lib.rs:1291-1328 | changes outside prefix, journals and the places in flight change no version and no invariant |
| InstallState.RestoreBackup | manager/installer/src/lib.rs:1263-1269 | putting the backup of an interrupted upgrade back changes no version and keeps the state recoverable |
| InstallState.PublishStage | manager/installer/src/lib.rs:1270-1282 | publishing a verified stage at the missing prefix makes it the current version and keeps the invariant |
| InstallState.SetAside | manager/installer/src/lib.rs:1227-1254 | moving the prefix aside falls back to the intact version named by the journal |
| InstallState.DropJournal | manager/installer/src/lib.rs:1434-1447 | a journal may go, with no version lost, while the prefix is in place or another journal remains |
| InstallAttempt.Attempt.SomewhereIsSafe | manager/installer/src/lib.rs:346-414 | every state an install passes through holds the old version or the new one, keeps a surviving tree and, with atomic deletes, stays recoverable |
| InstallAttempt.Attempt.AddJournal | manager/installer/src/lib.rs:1330-1345 | a journal write, complete or torn, leads from one safe state of an install to another |
| InstallAttempt.Attempt.Wind | manager/installer/src/lib.rs:403-412 | with the new tree at the prefix, backup and journals may go in part or whole |
| InstallAttempt.Attempt.Complete | manager/installer/src/lib.rs:403-412 | a finished install leaves the starting state with only the prefix replaced |
| Installer.InstallParent.RemoveDirAll | manager/installer/src/lib.rs:1449-1469 | an interrupted deletion of a verified tree leaves one that does not verify, or with atomic deletes the whole tree |
| Installer.InstallParent.RemoveVerifiedTree | manager/installer/src/lib.rs:1449-1469 | removes exactly a verified tree, refuses any other, touches no other name |
| Installer.InstallParent.CleanupOrphanedStages | manager/installer/src/lib.rs:1291-1315 | removes exactly the verified stages of no known install |
| Installer.InstallParent.CleanupUnpublishedJournalFiles | manager/installer/src/lib.rs:1317-1328 | removes exactly the temporary journal files |
| Installer.InstallParent.WriteJournal | manager/installer/src/lib.rs:1330-1345 | the journal appears whole or not at all; at worst its temporary file is left |
| Installer.InstallParent.RemoveAllJournals | manager/installer/src/lib.rs:1434-1447 | removes the journals and keeps invariant, current version and everything else at every step |
| Installer.InstallParent.RollBack | manager/installer/src/lib.rs:1227-1254 | undisturbed it succeeds exactly if the backup verifies and nothing was preserved before; then the backup is at the prefix, the failed tree preserved and nothing else moved; safe at every step |
| Installer.InstallParent.DiscardLeftovers | manager/installer/src/lib.rs:1255-1262 | removes stage and backup of the install in flight; undisturbed, it succeeds exactly on recoverable states |
| Installer.InstallParent.ResolvePublished | manager/installer/src/lib.rs:1226-1262 | recovery with the prefix in place keeps the current version, or under I/O errors the intact one it replaced |
| Installer.InstallParent.ResolveUpgrade | manager/installer/src/lib.rs:1263-1277 | recovery of an upgrade without prefix restores the backup; that neither exists cannot happen |
| Installer.InstallParent.ResolveFirstInstall | manager/installer/src/lib.rs:1278-1285 | recovery of a first install publishes its stage; undisturbed it succeeds exactly if the state is recoverable |
| Installer.InstallParent.Recover | manager/installer/src/lib.rs:1196-1289 | at every crash point the invariant, a surviving tree and the current version are kept; undisturbed, it succeeds exactly on recoverable states and yields the reference result |
| Installer.InstallParent.Newest | manager/installer/src/lib.rs:1220-1223 | picks a journal of the latest phase |
| Installer.OneActive | manager/installer/src/lib.rs:1211-1219 | only one nonce is ever in flight, so the multiple-installs error is unreachable |
| Installer.RecoveredVia | manager/installer/src/lib.rs:1226-1289 | the steps of an undisturbed recovery add up to the reference result |
| Installer.ResolveKeeps | manager/installer/src/lib.rs:1226-1289 | recovery yields the current version or the intact one it replaced, and no new nonce |
| Installer.InstallParent.CopyManifestFiles | manager/installer/src/lib.rs:1471-1478 | the stage ends with every listed file of the bundle and nothing else |
| Installer.InstallParent.StageBundle | manager/installer/src/lib.rs:348-364 | the stage ends as the staged bundle, verified; nothing else changes at any fault |
| Installer.InstallParent.RemoveOlderJournals | manager/installer/src/lib.rs:1422-1432 | exactly the last journal remains, and the install stays where it is at every step |
| Installer.InstallParent.SetOldAside | manager/installer/src/lib.rs:366-388 | old version at the backup with one journal saying so, or a safe state of the install |
| Installer.InstallParent.MoveNewIn | manager/installer/src/lib.rs:390-396 | the stage reaches the prefix; if the rename fails and nothing else does, the old version is back there; always a safe state |
| Installer.InstallParent.Publish | manager/installer/src/lib.rs:390-401 | new tree live and recorded, old one still intact at the backup, or a safe state of the install |
| Installer.InstallParent.RemoveBackup | manager/installer/src/lib.rs:403-410 | failing to delete the backup is not an error, and the new version stays live |
| Installer.InstallParent.Finish | manager/installer/src/lib.rs:403-412 | undisturbed, the end state is the start with only the prefix replaced by the new tree |
| Installer.InstallParent.Try | manager/installer/src/lib.rs:348-414 | whatever fault hits, old version or new, nothing lost; done means new version and no journal |
| Installer.InstallParent.ValidateExisting | manager/installer/src/lib.rs:1174-1194 | undisturbed, accepts exactly an absent, empty or verified prefix, and removes an empty one |
| Installer.InstallParent.MoveOldAside | manager/installer/src/lib.rs:366-385 | the install is journalled and the old version at the backup, or the state is a safe one of the install |
| Installer.InstallParent.Replace | manager/installer/src/lib.rs:346-425 | on a replaceable prefix: old version or new whatever happens, recoverable with atomic deletes if and only if not stranded; undisturbed, only the prefix changes |
| Installer.InstallParent.AfterError | manager/installer/src/lib.rs:416-425 | the error path loses no installed version; with atomic deletes the state is recoverable if and only if no first install is stranded, and one error during its recovery strands a ready first install |
| Installer.InstallParent.Install | manager/installer/src/lib.rs:293-425 | under any faults a surviving tree survives, contents are old versions or exactly the staged bundle, and with atomic deletes the state is recoverable if and only if not stranded; undisturbed, the exact end state and exactly when it succeeds |
| Installer.InstallParent.Run | manager/installer/src/lib.rs:293-425 | over any sequence of faulty installs: once installed, a verified tree always survives, nothing appears but starting versions and exact products of installs, and a stranded first install stays stranded with every install failing |
| Installer.InstallParent.RunThenRecover | manager/installer/src/lib.rs:1196-1289 | after any run with crashes only and atomic deletes, recovery succeeds, no journal is left, the prefix holds an old or an exactly installed version, and recovering again changes nothing |
| Installer.LoseStage | manager/installer/src/lib.rs:416-425 | losing the stage costs at most an unfinished first install |
| Installer.StrandedFirstInstall | manager/installer/src/lib.rs:416-425 | deleting the stage leaves the state recoverable if and only if no first install is in flight without prefix |
| Installer.DeletedStage | manager/installer/src/lib.rs:416-425 | deleting a stage in one step leaves a recoverable state recoverable if and only if it strands no first install |
| Installer.FirstInstallCanBeStranded | manager/installer/src/lib.rs:416-425 | an install into an empty directory passes through a recoverable state that the deletion makes unrecoverable |
| SchemaCompat.NoBreaksIffReplaces | tools/ojos-service/src/compatibility.rs:499-608 | the recursive report is empty exactly when no schema at any depth has a break |
| SchemaCompat.BreaksAreLocated | tools/ojos-service/src/compatibility.rs:588-608 | a break is reported at a property path exactly if the schemas found there differ for that reason |
| SchemaCompat.ReasonsSpelledOut | tools/ojos-service/src/compatibility.rs:499-586 | no reason of its own means, keyword by keyword, that the new schema widens the old |
| SchemaCompat.ReportedIffTighter | tools/ojos-service/src/compatibility.rs:562-586 | a bound is reported exactly if some number within the old bound is outside the new one |
| SchemaCompat.FlatSound | tools/ojos-service/src/compatibility.rs:530-586 | widened keywords accept every value the old ones did, except for an empty enumeration and the schema `false` |
| SchemaCompat.InputSoundExactly | tools/ojos-service/src/compatibility.rs:499-608 | with no break reported, an accepted value stays accepted if and only if added fields accept it and it meets no empty enumeration and no `false` |
| SchemaCompat.InputSound | tools/ojos-service/src/compatibility.rs:499-608 | with inhabited schemas only the added fields decide |
| SchemaCompat.ClosedInputSound | tools/ojos-service/src/compatibility.rs:499-608 | a break-free replacement of a closed schema accepts everything the old one accepted |
| SchemaCompat.DeclaredFieldsAreOk | tools/ojos-service/src/compatibility.rs:588-608 | values that use declared fields only never meet an added field |
| SchemaCompat.OpenObjectCanNarrow | tools/ojos-service/src/compatibility.rs:499-515 | an open object: unreported change, rejected value |
| SchemaCompat.EmptyEnumSlipsIn | tools/ojos-service/src/compatibility.rs:530-558 | an empty enumeration is introduced unreported and rejects every value |
| SchemaCompat.FalseSchemaSlipsIn | tools/ojos-service/src/compatibility.rs:588-621 | a property schema replaced by `false` is unreported and rejects every value |
| SchemaCompat.ReplacesReflexive | tools/ojos-service/src/compatibility.rs:499-608 | no schema breaks itself |
| SchemaCompat.ReplacesTransitive | tools/ojos-service/src/compatibility.rs:499-608 | two break-free steps make a break-free step, at every depth |
| SchemaCompat.ResponsePathsSurvive | tools/ojos-service/src/compatibility.rs:517-528 | in break-free responses every old property path survives with its type |
| ContractCompat.CompareOperations | tools/ojos-service/src/compatibility.rs:53-177 | reports exactly the issues of each old operation, which OperationSpelledOut characterises |
| ContractCompat.CompareRoutes | tools/ojos-service/src/compatibility.rs:197-248 | reports exactly the issues of each old route |
| ContractCompat.LatestVersions | tools/ojos-service/src/compatibility.rs:280-289 | the fold finds, for each event type, the version that decides whether an event is superseded |
| ContractCompat.CompareEventSide | tools/ojos-service/src/compatibility.rs:270-334 | reports exactly the issues of each old event |
| ContractCompat.Compare | tools/ojos-service/src/compatibility.rs:35-186 | fails exactly for another service or a version not newer; compatible exactly when every issue is accepted |
| ContractCompat.CompatibleIffKept | tools/ojos-service/src/compatibility.rs:35-186 | compatible if and only if every operation, route and event of the old contract is kept, each written out: what may go, what may change and under which higher major |
| ContractCompat.OperationSpelledOut | tools/ojos-service/src/compatibility.rs:71-177 | the issues of an operation are all accepted exactly if it is kept: removed only with a higher API major, called otherwise only at a higher major of its own, schemas kept on its API line |
| ContractCompat.ShapeSpelledOut | tools/ojos-service/src/compatibility.rs:94-147 | no shape issue exactly if API, path, method, permission and effective scope are kept and authentication is no stronger; each issue names its change |
| ContractCompat.SchemasSpelledOut | tools/ojos-service/src/compatibility.rs:355-497 | no schema issue exactly if parameters, body and responses are kept, with schemas that replace the old ones |
| ContractCompat.RouteSpelledOut | tools/ojos-service/src/compatibility.rs:197-248 | the issues of a route are accepted exactly if it is kept or its API has a higher major; they tell removed from changed |
| ContractCompat.EventSpelledOut | tools/ojos-service/src/compatibility.rs:270-334 | the issues of an event are accepted exactly if it keeps digest and delivery or a higher version replaces it |
| ContractCompat.LastEntryWins | tools/ojos-service/src/compatibility.rs:53-67 | of several entries with one key the last one counts |
| ContractCompat.CallableAsBefore | tools/ojos-service/src/compatibility.rs:53-177 | compatible, with no higher major of the operation or, if it is gone, of its API: it is there with the same API, path, method, permission and scope, authentication no stronger |
| ContractCompat.ListedAsBefore | tools/ojos-service/src/compatibility.rs:71-93 | if neither the operation nor its API is listed with a higher major, a compatible contract still lists the operation as it was called |
| ContractCompat.RemovalIsReported | tools/ojos-service/src/compatibility.rs:71-93 | a removed operation is reported, as accepted exactly if its API has a higher major now, and else the contracts are incompatible |
| ContractCompat.BumpAcceptsEverything | tools/ojos-service/src/compatibility.rs:71-177 | a higher major of the operation accepts every issue in it |
| ContractCompat.NoSchemaIssue | tools/ojos-service/src/compatibility.rs:53-177 | on the same API line a compatible verdict keeps every schema |
| ContractCompat.ResponsesSurvive | tools/ojos-service/src/compatibility.rs:428-497 | on the same API line a response keeps its status and media types, and every readable property path with its type where the new contract gives a schema |
| ContractCompat.ResponseSchemaCanBeDropped | tools/ojos-service/src/compatibility.rs:456-497 | leaving out any response schema is compatible |
| ContractCompat.ParameterSound | tools/ojos-service/src/compatibility.rs:355-399 | an issue-free parameter accepts an old request exactly if added fields do |
| ContractCompat.MediaSound | tools/ojos-service/src/compatibility.rs:456-497 | issue-free content accepts an old body exactly if the newly constrained parts do |
| ContractCompat.BodySound | tools/ojos-service/src/compatibility.rs:401-426 | the same for optional and required bodies, absent ones included |
| ContractCompat.Substitutable | tools/ojos-service/src/compatibility.rs:53-177 | compatible, major kept and, if the operation were gone, no higher API major: it is still there as called before, and serves a served request exactly if the parts only it constrains accept it |
| ContractCompat.DeclaredRequestsKeepWorking | tools/ojos-service/src/compatibility.rs:53-177 | every old request that keeps to what the old contract declares is still served |
| ContractCompat.LoweredMajorHidesBreaks | tools/ojos-service/src/compatibility.rs:71-177 | a lowered major: compatible verdict, served request no longer served |
| ContractCompat.LoweredMajorAcceptsAnything | tools/ojos-service/src/compatibility.rs:71-177 | any two versions of an operation with a lowered major and an unchanged shape are compatible, whatever their schemas |
| ContractCompat.SchemasDecideIffMajorKept | tools/ojos-service/src/compatibility.rs:71-177 | without a bump and with an unchanged shape, the schemas decide compatibility exactly when the major is kept |
| ContractCompat.RoutesKept | tools/ojos-service/src/compatibility.rs:197-248 | without a surface bump an old route keeps audience, method and path |
| ContractCompat.EventsKept | tools/ojos-service/src/compatibility.rs:270-334 | an old event keeps schema digest and delivery, or has gone in favour of a higher version |
| TaskStream.WorkerLink.AcknowledgePending | services/judge-worker/src/worker_link.rs:804-823 | pending entries are cleared exactly when acknowledged; the run property is kept |
| TaskStream.WorkerLink.WaitForTaskEvent | services/judge-worker/src/worker_link.rs:776-790 | reads only when nothing is pending and the claim does not long-poll |
| TaskStream.WorkerLink.ClaimTasks | services/judge-worker/src/worker_link.rs:785-796 | a claim carries the ids of exactly what is pending |
| TaskStream.WorkerLink.ClaimTaskCycle | services/judge-worker/src/worker_link.rs:776-802 | exactly which reads, claims and acknowledgements a cycle makes, what is pending after it, which tasks start, and the trace context each inherits |
| TaskStream.WorkerLink.Run | services/judge-worker/src/worker_link.rs:281-330 | over every run: one claim per cycle with a free slot and none else; every task of a successful claim is started, in order; entries read are those acknowledged followed by those pending, acknowledged only right after a claim that carried them, read only when nothing is pending; claim and acknowledgement leave nothing pending |
| TaskStream.Extend | services/judge-worker/src/worker_link.rs:776-823 | one more read, claim or acknowledgement keeps the whole-log properties |
| TaskStream.AckedTasksWereClaimed | services/judge-worker/src/worker_link.rs:1001-1006 | every acknowledged entry with a task id had it in a successful claim |
| TaskStream.TaskIdsInOrder | services/judge-worker/src/worker_link.rs:1001-1006 | a claim carries the ids of its entries in order |
| TaskStream.TaskIdsOfEntries | services/judge-worker/src/worker_link.rs:1001-1006 | they are the ids of all entries and no others |
| TaskStream.TraceIsTheLatest | services/judge-worker/src/worker_link.rs:1008-1017 | a task keeps its own trace context or has that of the latest entry for it that has any |
| LeaseExecution.KeyIsInjective | services/judge-worker/src/worker_link.rs:1516-1534 | two reports share an idempotency key only if lease, kind and body are the same, for any task ids |
| LeaseExecution.Report | services/judge-worker/src/worker_link.rs:1338-1505 | one body under one key, each action at the first poll it can happen; retried only after 429, a server error or no answer, given up only for a rejection or another status; ends unfinished only with the polls, lost only with the heartbeat; acknowledged exactly if accepted |
| LeaseExecution.StopLeaseHeartbeat | services/judge-worker/src/worker_link.rs:656-678 | after an acknowledged terminal report the heartbeat error is dropped, otherwise it is the result |
| LeaseExecution.Execute | services/judge-worker/src/worker_link.rs:389-494 | however the heartbeat ends: heartbeat before work and beyond the report, the report is that of the work done and of one kind, Ok exactly when the result was accepted; not reported only when turned down for good or not serializable; goes on as long as heartbeat and polls do |
| LeaseExecution.AwaitWork | services/judge-worker/src/worker_link.rs:422-436 | waits for the first work done while the heartbeat goes on |
| LeaseExecution.Act | services/judge-worker/src/worker_link.rs:1338-1505 | each action of a report happens at the first poll at which what it waits for is there |
| LeaseExecution.Grow | services/judge-worker/src/worker_link.rs:389-494 | which next actions keep an execution log orderly |
| LeaseExecution.DelayLeavesTwoThirds | services/judge-worker/src/worker_link.rs:1324-1336 | the delay leaves two thirds of the lease if and only if thirty milliseconds remain |
| LeaseExecution.DelayIsTheLeast | services/judge-worker/src/worker_link.rs:1324-1336 | the delay is a third of the configured or of the remaining time, no more than either, unless that is below ten milliseconds |
| LeaseExecution.HeartbeatLoop | services/judge-worker/src/worker_link.rs:1270-1322 | against prompt answers every heartbeat is answered before the lease expires, the first sent at once and each later one after the delay, over the whole loop |
| LeaseExecution.ShortLeaseCanLapse | services/judge-worker/src/worker_link.rs:1324-1336 | fifteen milliseconds left: an answer within two thirds comes too late |
| SchemaRefs.NormalizedHasNoRefs | tools/ojos-service/src/lib.rs:1091-1112 | whenever normalizing returns, no `$ref` is left at any depth |
| SchemaRefs.BadReferenceIsRefused | tools/ojos-service/src/lib.rs:1114-1131 | a reference that is no text, names another document or leads nowhere is an error |
| SchemaRefs.FuelIsIrrelevant | tools/ojos-service/src/lib.rs:1091-1112 | the answer depends on the schema alone, not on the fuel |
| SchemaRefs.Terminates | tools/ojos-service/src/lib.rs:1091-1131 | on an acyclic document normalizing terminates for every value |
| SchemaRefs.CycleDiverges | tools/ojos-service/src/lib.rs:1091-1131 | nothing on a cycle of any length through fields, items and references is ever normalized, whatever the fuel |
| SchemaRefs.LeadingToCycleDiverges | tools/ojos-service/src/lib.rs:1091-1131 | nor is anything that leads to such a cycle |
| SchemaRefs.RecursiveSchemaDiverges | tools/ojos-service/src/lib.rs:1091-1131 | a schema with a property that refers back to it is never normalized |
| SchemaRefs.TidyNeverFails | tools/ojos-service/src/lib.rs:1114-1131 | where all references resolve, stand alone and do not chain, normalizing never returns an error |
| SchemaRefs.AcyclicIffNormalizes | tools/ojos-service/src/lib.rs:1091-1131 | on tidy documents every location is normalized if and only if the references are acyclic |
| SchemaRefs.NormalizesIffNoCycle | tools/ojos-service/src/lib.rs:1091-1131 | on a tidy document a value is normalized if and only if no walk from it ends on a cycle |
| SchemaRefs.FindCycle | tools/ojos-service/src/lib.rs:1091-1131 | following what cannot be normalized, a walk comes to some location twice |
| SchemaRefs.UnfoldNormalizes | tools/ojos-service/src/lib.rs:1091-1131 | where no reference leads to a reference, normalizing gives the full unfolding |
| SchemaRefs.NormalizeUnfolds | tools/ojos-service/src/lib.rs:1091-1131 | and whatever normalizing gives is the full unfolding |
| SchemaRefs.ChainsLoseContent | tools/ojos-service/src/lib.rs:1091-1131 | a chained reference becomes the empty schema, right exactly when the chain leads to an empty schema |
| SchemaRefs.UnfoldingIffHarmless | tools/ojos-service/src/lib.rs:1091-1131 | where references stand alone, normalizing is the full unfolding if and only if every chained reference it comes upon, at any depth, leads to an empty schema |
| SchemaRefs.ChainedFalseSchema | tools/ojos-service/src/lib.rs:1091-1131 | a schema that rejects everything becomes one that accepts everything |
| ContractRoutes.CommonPathOverlaps | tools/ojos-service/src/lib.rs:1768-1777 | templates with a common request path overlap |
| ContractRoutes.OverlapIsExactBut | tools/ojos-service/src/lib.rs:1768-1777 | overlap is having a common request path if and only if no empty segment meets a parameter |
| ContractRoutes.RootMeetsParameter | tools/ojos-service/src/lib.rs:1768-1777 | the root and a one-parameter path overlap without a common request |
| ContractRoutes.CountAllRoutes | tools/ojos-service/src/lib.rs:499-554 | an operation gets one route per exposure that selects it |
| ContractRoutes.Expose | tools/ojos-service/src/lib.rs:508-527 | one exposure appends its routes in order, and the running counts stay exact |
| ContractRoutes.ExposeAll | tools/ojos-service/src/lib.rs:499-536 | succeeds exactly if every exposure names a known API and selects something |
| ContractRoutes.CheckCounts | tools/ojos-service/src/lib.rs:537-554 | succeeds exactly if internal operations are selected by none and external ones by one exposure |
| ContractRoutes.ValidateRouteCollisions | tools/ojos-service/src/lib.rs:1747-1762 | accepts exactly tables in which no two routes collide |
| ContractRoutes.CompileRoutes | tools/ojos-service/src/lib.rs:499-555 | succeeds exactly on compilable input; then one route per external operation, none per internal one, no collision |
| ContractRoutes.Unambiguous | tools/ojos-service/src/lib.rs:1747-1777 | no audience, method and request path is answered by two routes of a collision-free table |
| ContractRoutes.MethodsOverlapExactly | tools/ojos-service/src/lib.rs:1764-1766 | methods overlap exactly if one request can have both, GET and HEAD being one |
| ContractRoutes.CollidesExactlyBut | tools/ojos-service/src/lib.rs:1747-1777 | two routes collide exactly if some request is answered by both, but for an empty segment against a parameter |
| ContractRoutes.JoinedPath | tools/ojos-service/src/lib.rs:1737-1745 | a joined path is normalized and its segments are those of the mount followed by those of the operation |
| ContractRoutes.AnswersUnderMount | tools/ojos-service/src/lib.rs:508-527 | the route of an operation answers exactly the requests of its audience and method for the mount followed by segments the path matches |
| ContractRoutes.RoutesAreSelections | tools/ojos-service/src/lib.rs:501-527 | the routes are exactly those of operations whose API and audience an exposure names |
| ContractRoutes.ServedByItsRoute | tools/ojos-service/src/lib.rs:499-555 | in a compiled table a request below the mount of an operation is answered by that operation's route and no other |
| Ordering.SortedIsUnique | tools/ojos-service/src/lib.rs:556-570 | two sorted permutations without ties are the same list |
| Ordering.KeyedListIsCanonical | tools/ojos-service/src/lib.rs:1381-1407 | with distinct keys, any two declaration orders are sorted into the same list, by whatever algorithm |
| Ordering.SortSorts | tools/ojos-service/src/lib.rs:556-570 | sorting by key yields a sorted permutation |
| Ordering.TextSpelledOut | tools/ojos-service/src/lib.rs:556-570 | texts are in order if one begins the other or has the smaller character where they first differ |
| Ordering.DistinctPermuted | tools/ojos-service/src/lib.rs:1190-1363 | a duplicate check does not depend on order |
| Ordering.FlatPermuted | tools/ojos-service/src/lib.rs:466-498 | reordered documents give the same operations in another order |
| CanonicalOrder.AllRoutesPermuted | tools/ojos-service/src/lib.rs:499-555 | reordering exposures and operations only reorders the routes |
| CanonicalOrder.CompilablePermuted | tools/ojos-service/src/lib.rs:499-555 | reordered input is compilable if the original is |
| CanonicalOrder.CollisionFreePermuted | tools/ojos-service/src/lib.rs:1747-1762 | collision freedom does not depend on order |
| ContractCompiler.CheckDistinct | tools/ojos-service/src/lib.rs:1190-1225 | one pass with the keys seen so far accepts exactly lists with distinct keys |
| ContractCompiler.CheckKeys | tools/ojos-service/src/lib.rs:1163-1363 | all duplicate checks together accept exactly sources with distinct keys in every list |
| ContractCompiler.CheckEntries | tools/ojos-service/src/lib.rs:1133-1379 | accepts exactly sources whose entries are sound and refer only to declared resources and permissions, with no event on both sides |
| ContractCompiler.Compile | tools/ojos-service/src/lib.rs:443-608 | succeeds exactly on acceptable sources; every list of the contract then holds what the source declares under its name, in the order of its keys |
| ContractCompiler.DuplicatesSpelledOut | tools/ojos-service/src/lib.rs:1163-1363 | which entries count as duplicates, list by list |
| ContractCompiler.KnownPermissions | tools/ojos-service/src/lib.rs:448-464 | a permission is known if it is owned or referenced |
| ContractCompiler.ContractIsClosed | tools/ojos-service/src/lib.rs:443-608 | a compiled contract refers to nothing outside itself: resources, permissions, APIs and operations named in it are in it; nothing is owned and referenced, or published and subscribed to |
| ContractCompiler.ContractInOrder | tools/ojos-service/src/lib.rs:556-570 | operations come by API, path, method and id, routes by audience, path, method and id, events by type and version |
| ContractCompiler.SortContract | tools/ojos-service/src/lib.rs:1381-1407 | every list ends as a sorted permutation of itself |
| ContractCompiler.CompiledKeysAreDistinct | tools/ojos-service/src/lib.rs:556-570 | the duplicate and collision checks make the sort keys of operations, routes and frontends distinct |
| ContractCompiler.SameKeyCollides | tools/ojos-service/src/lib.rs:564-570 | routes that tie in the sort order collide |
| ContractCompiler.AcceptableReordered | tools/ojos-service/src/lib.rs:443-555 | a reordered source is accepted if the original is |
| ContractCompiler.SameContract | tools/ojos-service/src/lib.rs:556-608 | all contracts of two reordered sources are the same, list by list |
| ContractCompiler.OrderInsensitive | tools/ojos-service/src/lib.rs:443-608 | permuting any list of the source changes neither acceptance nor the contract |
| TreeDigest.DecimalIsInjective | deploy/ops/backup-manifest.py:237-257 | decimal sizes determine the number |
| TreeDigest.DecimalReadsBack | deploy/ops/backup-manifest.py:237-257 | the digits of a size stand for it, without a leading zero |
| TreeDigest.BytesSpelledOut | deploy/ops/backup-manifest.py:237-257 | paths are in order if one begins the other or has the smaller byte where they first differ |
| PortablePaths.AcceptedExactly | deploy/ops/backup-manifest.py:159-178 | which paths are accepted, byte by byte and part by part |
| PortablePaths.ChecksumSpelling | deploy/ops/backup-manifest.py:162-163 | only a checksum list may put one dot and slash in front |
| PortablePaths.ResultIsCanonicalBut | deploy/ops/backup-manifest.py:159-178 | the parts of a result are canonical if and only if it is not a lone dot |
| PortablePaths.LoneDotIsPortable | deploy/ops/backup-manifest.py:159-178 | a lone dot passes |
| PortablePaths.PurePathIsFixed | deploy/ops/backup-manifest.py:170-173 | a path is spelled as `PurePosixPath` writes it exactly if it has no empty part and no dot among its parts, or is a lone dot |
| PortablePaths.SpellingIsCanonicalBut | deploy/ops/backup-manifest.py:159-178 | an accepted path is its own result if and only if its parts are canonical or it is a lone dot; otherwise the result is a control name |
| PortablePaths.DottedControlNameIsPortable | deploy/ops/backup-manifest.py:173-177 | `./manifest.json` and `./SHA256SUMS` pass, although they are not canonical |
| PortablePaths.ResultIsPortable | deploy/ops/backup-manifest.py:159-178 | a result is accepted as it is |
| TreeDigest.EncodeIsPrefixFree | deploy/ops/backup-manifest.py:237-257 | one record and everything after it can be read back from the stream |
| TreeDigest.StreamIsInjective | deploy/ops/backup-manifest.py:237-257 | equal streams come from equal record lists |
| TreeDigest.Summarize | deploy/ops/backup-manifest.py:237-257 | sorts the records and digests them in one pass; refused exactly for duplicate paths |
| TreeDigest.SummaryIgnoresOrder | deploy/ops/backup-manifest.py:237-257 | two record lists have the same summary if and only if they hold the same records, in whatever order |
| TreeDigest.ValidateInventory | deploy/ops/backup-manifest.py:307-338 | accepts exactly inventories whose normalized paths are distinct, sorted and summarized by the tree |
| TreeDigest.InventoryIsUnique | deploy/ops/backup-manifest.py:307-338 | all inventories accepted for a tree have the same normalized records and differ at most in how they spell the control names |
| TreeDigest.TwoSpellings | deploy/ops/backup-manifest.py:307-338 | two different inventories are accepted for one tree |
| BackupManifest.BucketFiles | deploy/ops/backup-manifest.py:592-627 | succeeds exactly if every bucket matches its summary, with all bucket paths collected |
| BackupManifest.ComponentFiles | deploy/ops/backup-manifest.py:512-685 | succeeds exactly if every declared component is consistent, with exactly its payload paths |
| BackupManifest.CreateManifest | deploy/ops/backup-manifest.py:786-946 | succeeds exactly if live sources, components and file set agree, and lists every file |
| BackupManifest.CreatableExactly | deploy/ops/backup-manifest.py:786-946 | creating succeeds exactly if every file is there or not as the arguments say, archives and inventory hold exactly the records of the live sources, and the buckets are the directories |
| BackupManifest.VerifyManifest | deploy/ops/backup-manifest.py:949-997 | accepts exactly directories whose components, file set, metadata and checksums agree with the manifest |
| BackupManifest.LayoutIsExact | deploy/ops/backup-manifest.py:949-997 | what verifies holds the dump of every database and what its components declare, and nothing else |
| BackupManifest.ContentAgrees | deploy/ops/backup-manifest.py:949-997 | retained archive, inventory and manifest agree on one set of records, as do local archive and buckets, and the checksum file lists exactly the digests of all other files |
| BackupManifest.ControlFilesDoNotMatter | deploy/ops/backup-manifest.py:512-685 | adding manifest and checksum file changes no component check |
| BackupManifest.CreateThenVerify | deploy/ops/backup-manifest.py:786-997 | what is created and sealed verifies for its environment and source |
| BackupManifest.VerifyPinsPayload | deploy/ops/backup-manifest.py:949-997 | whatever verifies against a created manifest holds exactly the files it was created from |
| BackupManifest.SameManifestSamePayload | deploy/ops/backup-manifest.py:949-997 | two directories verifying against one manifest hold the same payload |
| FrontendHost.RouteAdapter.Validate | manager/web/src/ojos-frontend/vue-route-adapter.ts:33-53 | accepts exactly distinct paths that no other module and no shell route owns |
| FrontendHost.RouteAdapter.Register | manager/web/src/ojos-frontend/vue-route-adapter.ts:54-88 | adds one registration under a new name, or nothing; a path keeps owners of one module and is never one of the shell |
| FrontendHost.RouteAdapter.Dispose | manager/web/src/ojos-frontend/vue-route-adapter.ts:77-86 | removes exactly that registration |
| FrontendHost.ContributionHost.RemoveModule | manager/web/src/ojos-frontend/contribution-host.ts:395-403 | record and registrations of the module go, even when unloading fails, and no others |
| FrontendHost.ContributionHost.RegisterAll | manager/web/src/ojos-frontend/contribution-host.ts:332-347 | registers every route, one registration per path, or leaves none behind; fails exactly at the first refusal of the router |
| FrontendHost.ContributionHost.ReplaceRouteRegistrations | manager/web/src/ojos-frontend/contribution-host.ts:332-349 | all registrations replaced, or none changed |
| FrontendHost.ContributionHost.Refresh | manager/web/src/ojos-frontend/contribution-host.ts:277-289 | an unchanged module keeps its mounted route while permitted and then nothing is mounted again, else the first permitted one is mounted |
| FrontendHost.ContributionHost.InstallModule | manager/web/src/ojos-frontend/contribution-host.ts:291-330 | a failed install of an upgrade leaves old record and registrations in place |
| FrontendHost.ContributionHost.ReconcileModule | manager/web/src/ojos-frontend/contribution-host.ts:265-330 | afterwards the module is active exactly if the permissions allow a route, with record, paths and menus of exactly those routes, the due route mounted, and installed anew exactly if it changed; what each failure leaves, which failure of loader or router it was, exactly when paths conflict |
| FrontendHost.ContributionHost.Withdraw | manager/web/src/ojos-frontend/contribution-host.ts:271-274 | a module without a permitted route goes with its registrations, even when unloading fails |
| FrontendHost.SettledShowsAllowed | manager/web/src/ojos-frontend/contribution-host.ts:265-275 | a settled module shows in record, paths and menus exactly the routes without a permission or with one the user has |
| FrontendHost.PermittedInOrder | manager/web/src/ojos-frontend/contribution-host.ts:268-270 | filtering keeps the order of the routes |
| FrontendHost.ContributionHost.RemoveUndesired | manager/web/src/ojos-frontend/contribution-host.ts:248-252 | modules outside the snapshot go, the others are untouched |
| FrontendHost.ContributionHost.Reconcile | manager/web/src/ojos-frontend/contribution-host.ts:247-263 | every module but those in the failures shows in record, paths and menus exactly the routes the permissions of its turn allow, and nothing else is active; with loader and router working, the failures are exactly those the plan foretells, refused modules stay as they were; reconciling a settled snapshot changes nothing |
| FrontendHost.ContributionHost.ReconcileTurn | manager/web/src/ojos-frontend/contribution-host.ts:253-261 | one turn records a failure or settles its module and leaves the others alone |
| FrontendHost.ContributionHost.RefuseForever | manager/web/src/ojos-frontend/contribution-host.ts:247-276 | modules that wait for each other are refused in every one of any number of reconciles, and keep their records |
| FrontendHost.ContributionHost.Attach | manager/web/src/ojos-frontend/contribution-host.ts:351-375 | shows only permitted routes, mounts exactly if the route, element or context changed, changes nothing on failure, keeps settled modules settled |
| FrontendHost.ContributionHost.Run | manager/web/src/ojos-frontend/contribution-host.ts:194-226 | over every sequence of reconciles, permissions, attachments and failures: path owners of one module and none of the shell, every registration in exactly one record, one per path |
| FrontendHost.Plan.RefusedIffNotRegistrable | manager/web/src/ojos-frontend/vue-route-adapter.ts:33-53 | in its turn a module is refused by the plan if and only if the adapter would not register its routes |
| FrontendHost.Plan.NothingRefusedIffClear | manager/web/src/ojos-frontend/contribution-host.ts:247-263 | nothing is refused if and only if every module finds its paths clear, judged before the reconcile |
| FrontendHost.SettledStaysRegistrable | manager/web/src/ojos-frontend/vue-route-adapter.ts:33-53 | a settled module passes validation again |
| FrontendHost.SamePictureSameMenus | manager/web/src/ojos-frontend/contribution-host.ts:405-426 | the same permitted routes give the same menus |
| FrontendHost.Plan.EntangledAreRefused | manager/web/src/ojos-frontend/contribution-host.ts:247-276 | modules that each want a path another of them holds are all refused, whatever else the snapshot holds and in whatever order |
| FrontendHost.Plan.ConsistentIffFreshHostSettles | manager/web/src/ojos-frontend/contribution-host.ts:247-276 | from an empty host nothing is refused if and only if the snapshot is consistent |
| FrontendHost.ConsistentSnapshotCanBeRefused | manager/web/src/ojos-frontend/contribution-host.ts:247-276 | a consistent snapshot of two modules that wait for each other |
| OutputNormalizer.NormalizeDefaultTrim | services/judge-worker/src/checker.rs:5-18 | computes the normal form |
| OutputNormalizer.Normalize | services/judge-worker/default-components/default_checker.cpp:15-45 | the one-pass normalizer computes the same normal form for every input |
| OutputNormalizer.UnifyInOnePass | services/judge-worker/default-components/default_checker.cpp:16-27 | one pass equals replacing CRLF and then CR |
| OutputNormalizer.ReadLines | services/judge-worker/default-components/default_checker.cpp:29-37 | reading line by line gives all lines but the empty one after a final LF |
| OutputNormalizer.NormalIsNormalized | services/judge-worker/src/checker.rs:5-18 | results have no line breaks in lines, no line ending in a space or tab and no trailing empty line |
| OutputNormalizer.NormalUndoesJoin | services/judge-worker/src/checker.rs:5-18 | normalizing the LF-join of such a list gives it back, so lines that end in any other character are kept |
| OutputNormalizer.NormalIsIdempotent | services/judge-worker/src/checker.rs:5-18 | normalizing the join of a result changes nothing |
| OutputNormalizer.TrailingSpaceIsIgnored | services/judge-worker/src/checker.rs:5-18 | a space, tab, CR or LF at the end of a text does not matter |
| OutputNormalizer.DefaultTrimEqual | services/judge-worker/src/checker.rs:1-3 | equal exactly if the normal forms are |
| ShellQuoting.Quote | services/judge-worker/default-components/default_runner.cpp:6-17 | the character loop computes the same text as `shell_escape` |
| ShellQuoting.ShellCommand | services/judge-worker/src/sandbox.rs:853-862 | a POSIX shell reads the command and its arguments back, if and only if no NUL occurs |
| ShellQuoting.ReadsEscaped | services/judge-worker/src/sandbox.rs:864-866 | between quotes the shell reads exactly what was escaped, whatever follows |
| ShellQuoting.ShellUndoesQuoting | services/judge-worker/src/sandbox.rs:853-866 | tokenizing a quoted and joined word list gives the list, or nothing when a NUL occurs |
| Verdict.RunDefaultTrimChecker | services/judge-worker/src/judge.rs:570-609 | accepts exactly equal normal forms, and a wrong answer scores zero |
| Verdict.AfterRun | services/judge-worker/src/judge.rs:394-568 | a case is accepted if and only if the run ended well, the runner's report does not object and the checker passes it; status, score and measurements of every other outcome |
| Verdict.SandboxSpelledOut | services/judge-worker/src/judge.rs:484-568 | a report that rejects the case decides, else a failed run has the status of its limit and no score |
| Verdict.CheckerSpelledOut | services/judge-worker/src/judge.rs:710-785 | what a custom checker's report, or its silence and exit, makes of a case |
| Verdict.Judge | services/judge-worker/src/judge.rs:61-102 | ACCEPTED exactly if every case is, else the first failing status; time and memory are the maxima; scores below 0 become 0 and above 100 become 100 |
| Verdict.Score | services/judge-worker/src/judge.rs:787-804 | the capped sum in 0..100, overflowing exactly when the sum exceeds an i32, never for 21,474,836 cases |
| Verdict.OneCaseMoreCanOverflow | services/judge-worker/src/judge.rs:798-803 | with 21,474,837 cases the sum can overflow |

## Left out

- Installer: runtime references, native binary headers, `ldd`, manifest path syntax, PATH edits, the file lock; foreign calls or field checks.
- Installer: filesystem steps become durable in the order they are made, and nonces are never reused; both are assumed.
- Installer: names of one install are matched by equal nonce, where the source looks for the nonce inside the file name.
- InstallTree.VerifyBundle: does not model target system, runtime references and binary headers, which are foreign calls.
- InstallTree: the product name is an integer constant and file bytes are abstract.
- SchemaCompat: numbers are reals, so conversion to `f64` and the textual difference of 1 and 1.0 in enumerations are not modelled.
- SchemaCompat: keywords the comparison ignores: `items`, combinators, schema-valued `additionalProperties`, `const`, `exclusiveMinimum`, `exclusiveMaximum`, `multipleOf`, `uniqueItems`, `format` and the like.
- ContractCompat.Compare: does not model the order and repetition of reported issues, and event schema validation.
- TaskStream.WorkerLink.Run: does not model the slot semaphore beyond its free count, nor connecting to Redis; finite prefixes of the endless loop stand for it.
- LeaseExecution: the form of report bodies and the retry delays.
- SchemaRefs: syntax of JSON Pointers and the error texts; which of several errors is reported first.
- SchemaRefs.Terminates: the recursion of the source has no fuel; divergence is running out of every amount of fuel.
- ContractCompiler.Compile: does not model which of several errors is reported, which depends on the order, and takes the checks of an entry's own fields and the compiled OpenAPI documents as given.
- BackupManifest: JSON shapes, size limits, name patterns and the list form of payload files.
- BackupManifest: summaries of trees are a free constructor of their records, which `TreeDigest` justifies.
- FrontendHost: DOM containers, polling, fetching, status listeners, sort order of menus and `dispose`; modules to remove are taken in any order.
- FrontendHost: route ids are unique within a module, as the manifest parser demands, so a set of registrations stands for the map by route id.
- ShellQuoting: double quotes, expansions and operators, which quoted text never shows to the shell unquoted.
- Verdict: messages, log files, validators, custom scorers and the launching of components; statuses come trimmed and upper-cased.
- Seals, publishing, the manager user interfaces, device authentication, the sandbox and the Go services.
