# Verified model of the run-authority protocols of ownframework_loop

The program drives unattended build-and-review runs. Everything it decides is recorded in small
files, and a process may die between any two writes. This project models the parts of it where
that matters most, or where recursion does, and proves what they promise for every input, every
run and every place where a process can die.

| modules | source | subject |
|---|---|---|
| `BindingStore`, `CapabilityBinding`, `BindingRuns`, `BindingAnswers` | `capability_binding.py` | write-ahead migration of a run's capability binding |
| `AssetTree`, `LinkResolver`, `LinkLaws`, `AssetDigest`, `AssetIdentity`, `AssetAnswers` | `capabilities.py` | confined symlink resolution and the tree digest |
| `RuntimeChain`, `MissionRecords`, `RuntimeChainRuns`, `RuntimeChainAnswers` | `program_mission_runtime.py` | the mission's append-only runtime chain and its two resolvers |
| `ProtectedRecovery`, `ProtectedRecoveryRuns`, `ProtectedRecoveryAnswers` | `protected_recovery.py` | recovery of protected paths by a deterministic commit |
| `SemanticReseed` | `dispatch.py` | archive, fresh skeleton, receipt |
| `EventChain` | `integrity.py` | the event hash chain and sealed prefixes |
| `CommandChain`, `CommandLaws` | `external_action.py` | the quote-aware command splitter |
| `ExecutionStart`, `ExecutionStartRuns`, `ExecutionStartAnswers` | `execution_start.py` | first start, sealed once under locks |
| `Limits`, `BuildFinalize` | `limits.py`, `build_finalize.py` | repair funding and no-progress accounting |
| `ScopePaths`, `ScopeSpellings` | `packet.py` | path-scope entries |
| `Crashes`, `Texts`, `Hashing`, `Wrappers` | | plans cut short by death, stripping and splitting, abstract hashing, Option and Result |

Each subject has the operations themselves, what every run keeps, and, in the modules named Answers,
Laws and Spellings, what the operations answer in terms of the files and texts alone, without the
functions that compute it.

Conventions:

- A call that writes files is a plan of atomic publications. A process that lives to make `life`
  of them leaves exactly that prefix. The classes carry out the plans on mutable fields, and each
  method's `ensures` ties its result and the new state to the plan.
- Where two SHA-256 digests are only ever compared, a digest is the document itself. Where
  uniqueness is the theorem (`EventChain`, `AssetIdentity`), the hash is any function to non-empty
  hex strings and the conclusion is "equal, or here are two different strings that collide".
- Git is commits with a tree, parents and a message, one branch, and a worktree. Locks are mutual
  exclusion that ends with their holder.
- Timestamps, actors, contexts and hash functions are parameters.

## What the proofs found

- `RuntimeChainRuns.StaleResumeExists`: the live successor of a segment that has migrated can append
  a migration after which the mission no longer resolves. A successor is sealed with the reference
  its parent was sealed with (lib/ownframework_loop/program_mission.py:1963-1965), and the segment
  resolver follows only the segment's own migrations after it, so a successor bound as its seal
  resolves still leaves the capability identity its parent has since replaced. The writer compares
  that identity with the segment's own (lib/ownframework_loop/program_mission_runtime.py:1057-1068),
  the verifier with the mission's active one (358-376). `ReachableChainsResolve` is the exact
  statement for whole runs: the chain resolves if and only if every appended migration left the
  active identity. `SuccessorBindsThePast` is the other side: that successor cannot bind the active
  identity at all. `StaleExactlyWhenSegmentLags` is the check a caller can make beforehand: the
  segment and the mission resolve to different capability identities.
- `BindingRuns.NothingIsLostExactlyWhen`: a binding that was once active cannot always be read by
  its digest while a migration is in flight. The exact condition is `ServesHistory`: nothing is in
  flight, or the first migration is and has no record yet, or one with a prepared record is that has
  not switched, or is not the first. `PartialDirectoryHidesThePast` and
  `FirstSwitchHidesTheOriginal` show the two kinds of window: a later migration that dies before
  its record hides everything but the active binding, because the history with its partial
  directory is refused; a first migration that dies after its switch hides the original.
- `ProtectedRecoveryRuns.RetriesConverge`: recovery completes by itself from every place a process
  can die except one, between the ref update and the reset, where HEAD already reads as the
  recovery commit while its files are stale and every retry is refused. `PublishedRecoveryCompletesExactlyWhen` says
  what has to be restored for the next call to complete: HEAD at the candidate, or clean files.
- `ExecutionStartRuns.PacketSwapLosesTheGraph`: the packet is parsed before the locks are taken and
  hashed inside them, so a packet rewritten in between is sealed although another one was parsed,
  and a sealed program can start without its graph. `StartsWithItsGraphExactlyWhen` is the exact
  condition when all calls parse the same graph, or none: the sealed packet declares no graph or
  that one. `GraphIsTheSealedOnes` covers every run, with a graph written by an earlier call that
  died. `ActivatesWhatIsSealed` shows the loss cannot happen in a call that the packet holds still
  for.
- `ExecutionStartRuns.StartConverges`: a first seal tolerates tracked changes while another branch
  is checked out (lib/ownframework_loop/execution_start.py:348-355), but resuming a seal does not
  (206-207). So a start that died after sealing in such a checkout is refused until it is clean.
- `ScopePaths.CoversWhatWasValidated`: validation strips whitespace around a scope entry and
  matching does not, so an accepted entry covers what was validated exactly when it has none.
- `SemanticReseed.SkeletonIsArchivedExactlyWhen`: when the failed artifact is absent at the first
  call, a later call archives the skeleton itself unless the first call that wrote anything lived to
  both of its writes.
- `CommandChain.NewlineJoins`: a comment is dropped when it is one line of several and split like any
  command when it is the only line; two lines split as the two commands exactly when neither is a
  comment alone.
- `BindingRuns.OtherRequestsWait`: while a directory holds only its name and the binding it leaves,
  a request for another projection takes it over if the truncated digests in their labels coincide.
- `CommandLaws.AndJoins`, `OrJoins`, `PipeJoins` and `AmpersandJoins`: every operator separates, with
  two exact exceptions. `&` beside an arrow is part of a redirection, and `&&` after a lone `&` pairs
  with it from the left, so `a&&&>x` gives `a` and `&>x`.
- `RuntimeChainAnswers.ReplayAcceptedExactlyWhen`: once a mission runs in a generation by a migration,
  no further resume into that generation is ever accepted but a repetition of that migration. A second
  capability refresh within one generation is refused as a conflict
  (lib/ownframework_loop/program_mission_runtime.py:1036-1047).
- `EventChain.TruncationVerifies`: the chain check alone accepts a log cut off at any event; only a
  sealed prefix proof pins the length.
- In lib/ownframework_loop/protected_recovery.py:407-411 the returned `already_recovered` is always
  true, because `existing` has been replaced by the new receipt; the model returns true as well.

## Model

| member | source | states |
|---|---|---|
| CapabilityBinding.RunBindingStore.Inventory | lib/ownframework_loop/capability_binding.py:250-304 | the inventory accepts exactly the histories whose snapshots and records are readable and agree with their directory, and returns the records sorted by sequence and the directories that have no record |
| CapabilityBinding.RunBindingStore.ValidateChain | lib/ownframework_loop/capability_binding.py:307-362 | the validator accepts exactly: completed sequences 1..n, hash-linked, each previous binding its predecessor's new one, at most one prepared record, at n + 1, and the active binding at the frontier |
| CapabilityBinding.RunBindingStore.EnsureRunBinding | lib/ownframework_loop/capability_binding.py:439-474 | the binding is created once, and only when creation is allowed; afterwards a call succeeds exactly when its projection is the bound one |
| CapabilityBinding.RunBindingStore.MigrateRunBinding | lib/ownframework_loop/capability_binding.py:477-707 | the new state is the old one after the first `life` publications of the planned migration, and the outcome is the plan's if the call lived to its end |
| CapabilityBinding.RunBindingStore.HistoricalBinding | lib/ownframework_loop/capability_binding.py:710-730 | a digest is answered with an authentic binding that is active or on a completed record, and on a readable store every such binding is found |
| BindingRuns.EveryRunKeepsInvariant | lib/ownframework_loop/capability_binding.py:514-707 | after any sequence of bindings and migration calls that die anywhere, the store satisfies the chain invariant |
| BindingRuns.InvariantIsAccepted | lib/ownframework_loop/capability_binding.py:250-362 | every store with the invariant is accepted by the inventory and by the chain validator |
| BindingRuns.PlanContinuesMigration | lib/ownframework_loop/capability_binding.py:514-707 | from any reachable store a call plans exactly the remaining publications of the one migration under way, or refuses, or answers with the last completed record |
| BindingRuns.CrashAnywhereExactlyOnce | lib/ownframework_loop/capability_binding.py:514-707 | any number of calls for an admitted projection that die anywhere, then one that lives, end with that binding active and exactly one completed record added |
| BindingRuns.OtherRequestsWait | lib/ownframework_loop/capability_binding.py:540-620 | while a migration is in flight a request for another projection is refused and changes nothing, unless the directory still lacks its new snapshot and the labels coincide |
| BindingRuns.InterleavedCallsComplete | lib/ownframework_loop/capability_binding.py:514-707 | a migration in flight is completed exactly once by the next call for it that lives, whatever bindings and requests with other labels come in between |
| BindingRuns.RepeatsChangeNothing | lib/ownframework_loop/capability_binding.py:640-646 | further calls for a completed projection return its record and change nothing |
| BindingRuns.SucceedsExactlyWhenAdmitted | lib/ownframework_loop/capability_binding.py:514-657 | an uninterrupted call succeeds exactly when the store admits its projection, and a refusal publishes nothing |
| BindingRuns.NothingOnceActiveIsLost | lib/ownframework_loop/capability_binding.py:710-730 | in every quiescent store each binding that was ever active can be read by its digest |
| BindingRuns.NothingIsLostExactlyWhen | lib/ownframework_loop/capability_binding.py:710-726 | after any run, every binding that was ever active can be read by its digest if and only if nothing in flight stands in the way: no record-less directory after a completed migration, and no first migration switched but not completed |
| BindingRuns.StageServes | lib/ownframework_loop/capability_binding.py:658-706 | that condition at each of the seven stages of a migration |
| BindingRuns.PartialDirectoryHidesThePast | lib/ownframework_loop/capability_binding.py:300-304 | a migration after the first that died before its record leaves only the active binding readable |
| BindingRuns.FirstSwitchHidesTheOriginal | lib/ownframework_loop/capability_binding.py:658-706 | a first migration that died between switch and completion leaves the original binding unreadable |
| BindingRuns.ReceiptsSurviveMigrations | lib/ownframework_loop/capabilities.py:1739-1756 | a launch receipt written under a binding still verifies after any later run, unless a migration in flight stands in the way |
| BindingAnswers.CallCompletes | lib/ownframework_loop/capability_binding.py:591-706 | what a call that goes through leaves and returns, field by field: the binding asked for active, one directory more, its record sealed, numbered, linked to the last one, with the context of the call that published it and completed at this call's time, and whether it was a recovery |
| BindingAnswers.FirstBindingIsCreated | lib/ownframework_loop/capability_binding.py:448-474 | the first binding is written exactly when there is none and creation is allowed, and nothing else ever is |
| BindingAnswers.LabelsAgreeExactlyWhen | lib/ownframework_loop/capability_binding.py:537-538 | two digests share a directory label exactly when they agree in their first sixteen characters |
| BindingAnswers.TakesOverExactlyWhen | lib/ownframework_loop/capability_binding.py:531-555 | who may take over a directory that has no record yet, in those characters |
| BindingAnswers.GoesOnlyOverSoundHistories | lib/ownframework_loop/capability_binding.py:250-362 | on any store, whoever wrote it, a call goes on only if every record and snapshot stands, the completed records are a chain from 1 on, each naming its predecessor's digest and starting where it ended, a prepared one comes next, and otherwise the active binding is the last one's |
| BindingAnswers.LastRecordNamesThemAll | lib/ownframework_loop/capability_binding.py:330-345 | two such chains that end in the same record are the same, so the last record's digest fixes the whole history |
| BindingAnswers.FinishesOnlyItsOwn | lib/ownframework_loop/capability_binding.py:529-645 | a call never finishes what another began: a record-less directory must be the only one, next in number, labelled and filled for this call, and a prepared record the only one, with the active binding on one of its sides and for the binding asked for |
| BindingAnswers.NewDirectoriesAreNew | lib/ownframework_loop/capability_binding.py:659-666 | a directory is made only under a name no directory has, and empty |
| LinkResolver.ResolveLinkTarget | lib/ownframework_loop/capabilities.py:1051-1127 | the explicit stack with nested calls computes the recursive resolution, and terminates on every finite tree, cyclic ones included |
| LinkResolver.ResolutionIsExact | lib/ownframework_loop/capabilities.py:1051-1127 | a link resolves to a path exactly when some finite derivation of the root-confined resolution relation reaches it; the active set never rejects a link with a finite resolution |
| LinkResolver.DerivationIsUnique | lib/ownframework_loop/capabilities.py:1051-1127 | at most one derivation exists, so the resolved path is unique |
| LinkResolver.ResolvedPathsAreCanonical | lib/ownframework_loop/capabilities.py:1061-1127 | a resolved path exists under the root, each proper prefix is a real directory, no component is a link, and it ends in a directory or regular file |
| LinkResolver.ConfinedResolutionAgreesWithHost | lib/ownframework_loop/capabilities.py:1051-1127 | whatever the confined resolver returns is what the host's own pathname resolution gives, wherever the root is mounted |
| LinkResolver.ConfinementIsExact | lib/ownframework_loop/capabilities.py:1051-1127 | wherever the root is mounted, a link resolves to a path if and only if the host's own resolution leads there without ever leaving the mount |
| LinkLaws.ResolutionComposes | lib/ownframework_loop/capabilities.py:1061-1116 | what comes after the first components is resolved from where those lead, and that must be a directory: files are never gone through |
| LinkLaws.OneComponent | lib/ownframework_loop/capabilities.py:1061-1116 | in a directory an empty component and one dot stay, two dots go up but not out of the root, and a name is what lies there, a link being what its target resolves to |
| LinkLaws.TargetResolvesExactlyWhen | lib/ownframework_loop/capabilities.py:1051-1127 | a target resolves exactly when it is neither empty nor absolute and its components lead to a directory or regular file |
| AssetDigest.WalkDirectory | lib/ownframework_loop/capabilities.py:1129-1203 | the walk makes exactly one correct entry for each path below a directory, in whatever order names are listed, and fails only when some path is unacceptable |
| AssetDigest.VisitLeaf | lib/ownframework_loop/capabilities.py:1150-1203 | a file or link yields the entry its node calls for, and nothing exactly because it is special, unresolvable, or links to one of its own ancestors |
| AssetDigest.SortEntries | lib/ownframework_loop/capabilities.py:1230-1236 | the entries are put in tuple order, keeping each of them |
| AssetDigest.StreamParsesUniquely | lib/ownframework_loop/capabilities.py:1230-1236 | two entry lists with the same NUL-delimited stream are equal |
| AssetIdentity.BrowserAssetDigest | lib/ownframework_loop/capabilities.py:966-1236 | a digest is returned exactly for the acceptable trees, and it is the hash of the sorted stream of one entry per path |
| AssetIdentity.StreamIsUnique | lib/ownframework_loop/capabilities.py:1230-1236 | a tree has one stream, whatever order its directories are listed in |
| AssetIdentity.RelativeIsInjective | lib/ownframework_loop/capabilities.py:1143-1149 | different paths of a tree never share a relative name |
| AssetIdentity.DigestDeterminesTree | lib/ownframework_loop/capabilities.py:1143-1236 | equal digests mean equal trees, modes, contents and link targets included, or two colliding strings that were hashed for them; equal trees have equal digests |
| AssetAnswers.AcceptedExactlyWhen | lib/ownframework_loop/capabilities.py:1129-1203 | a tree has a digest exactly when it is a directory without special files, every link leads by a finite derivation to a file or directory of the tree, and none to a directory it lies in itself |
| AssetAnswers.IdentityNamesLink | lib/ownframework_loop/capabilities.py:1198-1202 | links with the same identity have the same raw target, the same resolved path, and the same kind of node there |
| AssetAnswers.SortedByFirstDifference | lib/ownframework_loop/capabilities.py:1230-1231 | names are sorted by their first difference, a name before its extensions |
| AssetAnswers.ExampleStream | lib/ownframework_loop/capabilities.py:1230-1236 | the bytes hashed for a directory with a file and a link to it |
| RuntimeChainRuns.SourceHolds | lib/ownframework_loop/program_mission_runtime.py:223-406 | every migration of a reachable chain verifies, by resolving only the prefix before it |
| RuntimeChainRuns.MissionResolves | lib/ownframework_loop/program_mission_runtime.py:537-602 | the mission resolver's answer through any number of migrations, in closed form |
| RuntimeChainRuns.SegmentResolves | lib/ownframework_loop/program_mission_runtime.py:454-535 | a segment whose reference stands resolves to the last of its own run's contiguous migrations |
| RuntimeChainRuns.ResolversAgree | lib/ownframework_loop/program_mission_runtime.py:454-602 | for a segment whose run is the source of every migration after its reference both resolvers give the same identity, digest and position |
| RuntimeChainRuns.ReachableChainsResolve | lib/ownframework_loop/program_mission_runtime.py:537-602 | after any run of binds and resumes from any segments, the chain resolves if and only if every appended migration left the capability identity that was active, and then all migrations but possibly the last are bound |
| RuntimeChainRuns.BindKeepsInvariant | lib/ownframework_loop/program_mission_runtime.py:657-731 | a bind from any segment, current or historical, keeps the chain sound and only adds to it |
| RuntimeChainRuns.BindAcceptedExactlyWhen | lib/ownframework_loop/program_mission_runtime.py:681-731 | what a segment can bind: with no migration of its own the mission's generation and only the identity already there, otherwise exactly the target of the migration it resolves to |
| RuntimeChainRuns.PrepareKeepsInvariant | lib/ownframework_loop/program_mission_runtime.py:1026-1121 | a resume that leaves the active capability identity keeps the chain sound and only adds to it |
| RuntimeChainRuns.PreparedMigrationFits | lib/ownframework_loop/program_mission_runtime.py:1048-1116 | an appended migration is numbered next, continues a fully bound chain, and follows from it exactly when the resume leaves the active capability identity |
| RuntimeChainRuns.MissionReadsPrefix | lib/ownframework_loop/program_mission_runtime.py:537-602 | the runtime through k migrations, re-proved sources included, depends on the first k records alone |
| RuntimeChainRuns.BoundPrefixNeverChanges | lib/ownframework_loop/program_mission_runtime.py:562-602 | over any run of binds and resumes from any segments, the identity and digest resolved through a bound prefix, and where a segment sealed within it starts, stay the same |
| RuntimeChainRuns.ResumeBreaksExactlyWhenStale | lib/ownframework_loop/program_mission_runtime.py:1057-1116 | an appended migration leaves the mission resolvable exactly when the resume leaves the mission's active capability identity |
| RuntimeChainRuns.StaleExactlyWhenSegmentLags | lib/ownframework_loop/program_mission_runtime.py:1057-1068 | an accepted resume leaves the active capability identity exactly when its segment and the mission resolve to the same one |
| RuntimeChainRuns.SourceOfTheRestLeavesActive | lib/ownframework_loop/program_mission_runtime.py:1057-1068 | resumes of a run that is the source of every migration after its segment's reference always leave the active identity |
| RuntimeChainRuns.RefreshIsReached | lib/ownframework_loop/program_mission_runtime.py:815-1121 | a parent segment's bind, same-generation capability refresh and second bind lead to a bound chain with one migration |
| RuntimeChainRuns.SuccessorBindsThePast | lib/ownframework_loop/program_mission_runtime.py:681-694 | after its parent's refresh the live successor can bind only the identity its parent left, and the mission's active one is refused as a conflict |
| RuntimeChainRuns.StaleResumeExists | lib/ownframework_loop/program_mission.py:1963-1965 | from there the successor, sealed with its parent's reference, binds what its seal resolves to, its resume is accepted, and the mission no longer resolves |
| RuntimeChainAnswers.ReplayAcceptedExactlyWhen | lib/ownframework_loop/program_mission_runtime.py:1032-1047 | when the mission runs in the target generation by its n-th migration, a resume is accepted exactly when that migration has its run, source, capability reference, previous generation and target identity, and then nothing changes |
| RuntimeChainAnswers.AppendAcceptedExactlyWhen | lib/ownframework_loop/program_mission_runtime.py:1048-1106 | otherwise, exactly which resumes append: the installed runtime is the target's, the mission is bound in the generation being left, segment and mission have the authority asked for, the segment has the capability being left, and a capability changes only along a completed edge that changes the runtime alone |
| RuntimeChainAnswers.AppendWrites | lib/ownframework_loop/program_mission_runtime.py:1057-1116 | the appended migration field by field |
| RuntimeChainAnswers.RepeatedResumeIsTheOne | lib/ownframework_loop/program_mission_runtime.py:1036-1047 | after a death the same resume is accepted again and changes nothing, and every other one into that generation is refused |
| RuntimeChainAnswers.NothingAskedNothingDone | lib/ownframework_loop/program_mission_runtime.py:838-862 | a resume that asks for nothing changes nothing, and is refused exactly when the mission runs under another runtime's fingerprint |
| RuntimeChainAnswers.ResolvedIsLinked | lib/ownframework_loop/program_mission_runtime.py:223-602 | on any records at all, a mission that resolves to its n-th migration has n migrations that each go on from the one before in identity digest, generation and authority, all bound but possibly the last, each changing the runtime alone |
| RuntimeChainAnswers.AuthorityNeverChanges | lib/ownframework_loop/program_mission_runtime.py:537-602 | along a chain that resolves, the authority the mission started with stays |
| RuntimeChainAnswers.ReferenceStands | lib/ownframework_loop/program_mission_runtime.py:454-500 | a segment resolves from its sealed reference only if that names this very migration, of its own run or its predecessor's, whose source and previous identity verify |
| RuntimeChainAnswers.OwnTailStands | lib/ownframework_loop/program_mission_runtime.py:500-535 | from there it follows only its own run's migrations, each with a source that verifies, as far as there are any, to the identity that is bound or named |
| RuntimeChainAnswers.MissionStartsAt | lib/ownframework_loop/program_mission_runtime.py:537-562 | a mission without migrations runs under its base, or unbound under its own generation, and no reader passes the sixteenth migration |
| RuntimeChainAnswers.BindingIsAsResolved | lib/ownframework_loop/program_mission_runtime.py:681-731 | on any records, what a segment binds is exactly the base or the migration it resolves to, once, and nothing else changes |
| MissionRecords.RecordDirectory.ActiveMissionRuntime | lib/ownframework_loop/program_mission_runtime.py:537-602 | the loop computes the mission's runtime, and terminates although the verifier calls it again |
| MissionRecords.RecordDirectory.VerifyMigrationSource | lib/ownframework_loop/program_mission_runtime.py:223-406 | the verifier decides whether a migration's source holds, calling the resolver on the strictly shorter prefix |
| MissionRecords.RecordDirectory.RuntimeForSegment | lib/ownframework_loop/program_mission_runtime.py:454-535 | the loop computes the segment's runtime |
| MissionRecords.RecordDirectory.WriteReceipt | lib/ownframework_loop/program_mission.py:143-181 | a record is created once, and replaying succeeds exactly for identical bytes |
| MissionRecords.RecordDirectory.BindRuntimeIdentity | lib/ownframework_loop/program_mission_runtime.py:657-731 | the new records are those of the bind, a refusal changes none, and the returned digest names what is stored |
| MissionRecords.RecordDirectory.PrepareGenerationResume | lib/ownframework_loop/program_mission_runtime.py:815-1121 | the new records are those of the resume, a refusal changes none, and the number returned is none when nothing is asked, the last migration's for a replay, and else the next one's |
| ProtectedRecovery.BuilderWorkspace.RecoverProtectedDrift | lib/ownframework_loop/protected_recovery.py:255-411 | receipts, objects, branch and worktree are left as after the first `life` steps of the planned recovery |
| ProtectedRecovery.PendingCompletedRecovery | lib/ownframework_loop/protected_recovery.py:158-213 | the lookup answers with the one complete receipt at the branch head, with nothing, or with the contradiction it met |
| ProtectedRecoveryRuns.EveryRunIsSafe | lib/ownframework_loop/protected_recovery.py:255-411 | after any recoveries that die anywhere, builder commits and worktree disturbances, a branch at a recovery commit has a durable receipt naming it and every receipt's commit restores its anchor's whole tree on the candidate |
| ProtectedRecoveryRuns.AttemptIsSafe | lib/ownframework_loop/protected_recovery.py:275-411 | one call, wherever it dies, moves the branch at most from the violating candidate to the one recovery commit |
| ProtectedRecoveryRuns.NormalReturnIsWhole | lib/ownframework_loop/protected_recovery.py:381-411 | a normal return has branch and HEAD at the recovery commit, its tree the anchor's, its only parent the candidate, the worktree clean and the receipt complete |
| ProtectedRecoveryRuns.RetriesConverge | lib/ownframework_loop/protected_recovery.py:275-411 | after any deaths a retry reuses the same commit and finishes exactly when the last death was not between ref update and reset |
| ProtectedRecoveryRuns.PublishedRecoveryCompletesExactlyWhen | lib/ownframework_loop/protected_recovery.py:296-330 | in any reachable workspace whose branch is at the call's recovery commit, a call completes if and only if HEAD reads as the violating candidate, or as the branch with clean files; otherwise it changes nothing |
| ProtectedRecoveryRuns.InterruptedHandOffIsReplayed | lib/ownframework_loop/protected_recovery.py:129-213 | after a completed recovery the lookup finds exactly one receipt and returns what the recovery returned |
| ProtectedRecoveryAnswers.RecoveryReturns | lib/ownframework_loop/protected_recovery.py:129-147 | a completed recovery returns the violating candidate, the commit the branch is at, the anchor and its tree, and every non-empty offending path |
| ProtectedRecoveryAnswers.ReplayReturns | lib/ownframework_loop/protected_recovery.py:158-213 | after it the lookup returns those same fields |
| ProtectedRecoveryAnswers.CompletesExactlyWhen | lib/ownframework_loop/protected_recovery.py:255-411 | in every reachable workspace a call completes exactly when there is a path and a known anchor and either branch and clean worktree are at the candidate and the drift is proven, or the branch is at this call's commit and HEAD at the candidate or clean on the branch; a refusal changes nothing |
| ProtectedRecoveryAnswers.WrongReceiptIsRefused | lib/ownframework_loop/protected_recovery.py:291-303 | a receipt that contradicts the call or its own commit in any field is refused and nothing changes |
| ProtectedRecoveryAnswers.WrongReceiptStopsTheLookup | lib/ownframework_loop/protected_recovery.py:158-208 | a completed receipt of the checkpoint that does not prove itself makes the lookup refuse |
| ProtectedRecoveryAnswers.LookupFindsExactly | lib/ownframework_loop/protected_recovery.py:158-213 | the lookup finds a recovery exactly when the run is building, a completed receipt names the branch head, and the worktree is clean on it |
| SemanticReseed.SemanticArtifact.ReseedForRetry | lib/ownframework_loop/dispatch.py:205-367 | artifact, archive and receipt are left as after the first `life` writes of the planned reseed |
| SemanticReseed.ReseedConverges | lib/ownframework_loop/dispatch.py:230-367 | repeated calls that die anywhere, each with its own clock, end with the archive exactly the failed bytes, a fresh skeleton, and a receipt binding both; further calls change nothing |
| SemanticReseed.ArchiveIsWrittenOnce | lib/ownframework_loop/dispatch.py:281-328 | over any calls, dying anywhere, the archive once there is never overwritten and never holds anything but the failed bytes |
| SemanticReseed.SkeletonIsArchivedExactlyWhen | lib/ownframework_loop/dispatch.py:230-367 | from an absent artifact, with anything written afterwards, nothing is archived if and only if the first writing call lives to both its writes; otherwise the archive is its skeleton |
| SemanticReseed.AbsentArtifactArchivesASkeleton | lib/ownframework_loop/dispatch.py:230-367 | without a failed artifact at the first call, a death before the receipt makes the next call archive the skeleton |
| SemanticReseed.ReceiptAnswers | lib/ownframework_loop/dispatch.py:246-278 | with a receipt nothing is written, and the call reports what the receipt says exactly when archive and artifact still are what it says |
| SemanticReseed.ReseedAnswers | lib/ownframework_loop/dispatch.py:281-367 | without one, a call is refused exactly when the archive holds something else than an artifact that is no skeleton, and writes nothing then; otherwise the three files and the reported digests, field by field |
| EventChain.ComputeChainHash | lib/ownframework_loop/integrity.py:121-135 | the loop computes the chained hash of the events with their chain field removed |
| EventChain.LastRecordedFor | lib/ownframework_loop/integrity.py:108-118 | the value recorded by the last event that has the field, or none when no event has it |
| EventChain.EventLog.Append | lib/ownframework_loop/state.py:612-643 | an event is appended exactly to a log that is empty or whose recorded tail is its own hash, and it records the hash of the whole longer log, whose tail verifies again; an intact log stays intact |
| EventChain.EventLog.VerifyPrefix | lib/ownframework_loop/program_mission_runtime.py:279-289 | the prefix proof is accepted exactly when the first `count` events hash to it and record its state digest |
| EventChain.ChainBindsHistory | lib/ownframework_loop/integrity.py:121-135 | two logs with equal chain hash, whatever their lengths, have equal events with the chain field removed, or two strings hashed for them collide |
| EventChain.SealedPrefixSurvives | lib/ownframework_loop/program_mission_runtime.py:279-289 | in a longer log a sealed prefix proof still verifies if and only if the recorded tail is the log's own hash, whatever other chain fields say |
| EventChain.SealedPrefixSurvivesAppends | lib/ownframework_loop/program_mission_runtime.py:279-289 | a sealed prefix proof still verifies after any appends |
| EventChain.SealedPrefixIsUnique | lib/ownframework_loop/program_mission_runtime.py:48-56 | a log that meets a sealed prefix proof begins with the sealed events, or there is a collision |
| EventChain.TruncationVerifies | lib/ownframework_loop/integrity.py:121-135 | a log cut off at any event still passes the chain check |
| EventChain.IntactProofExactlyWhen | lib/ownframework_loop/program_mission_runtime.py:279-289 | in an intact log the proofs accepted are exactly those that name the chain field and state digest recorded in an event that is there |
| EventChain.ForgedLogProvesNothing | lib/ownframework_loop/program_mission_runtime.py:279-289 | a log whose recorded tail is not its own hash proves nothing |
| EventChain.RecordedIsLast | lib/ownframework_loop/integrity.py:108-118 | the recorded tail is the last chain field that is not empty |
| EventChain.FirstHashes | lib/ownframework_loop/integrity.py:121-135 | the first event's hash is that of its own text, the next one hashes that hash followed by its text |
| CommandChain.SplitSingleLine | lib/ownframework_loop/external_action.py:277-332 | the loop with its three quote flags gives the stripped non-empty pieces of the recursive cut |
| CommandChain.SplitCommandChain | lib/ownframework_loop/external_action.py:250-275 | the segments of each line that is neither blank nor a comment, in order |
| CommandChain.CutReassembles | lib/ownframework_loop/external_action.py:277-332 | the pieces with the removed separators between them are the input, and the separators are the five tokens |
| CommandChain.PiecesAreClosed | lib/ownframework_loop/external_action.py:288-326 | no quoted or escaped separator splits: at every separator the piece before it has closed its quotes and left no backslash dangling |
| CommandChain.ResplittingIsStable | lib/ownframework_loop/external_action.py:277-332 | splitting any segment again gives that segment alone |
| CommandChain.SemicolonJoins | lib/ownframework_loop/external_action.py:277-332 | split(a;b) is split(a) followed by split(b) for every b exactly when a ends outside quotes and not in a lone backslash |
| CommandChain.LinesAreIndependent | lib/ownframework_loop/external_action.py:250-275 | a command cut at a newline character, either of the two, gives the segments of the lines of its first part followed by those of the lines of its second |
| CommandChain.LinesGiveChain | lib/ownframework_loop/external_action.py:250-275 | the lines of a command give what the command gives, except that a comment alone is dropped as a line and split as a command |
| CommandChain.NewlineJoins | lib/ownframework_loop/external_action.py:250-275 | two commands on two lines, cut by either newline character, split as the two commands if and only if neither is a comment alone |
| CommandChain.OneLineIsSplit | lib/ownframework_loop/external_action.py:250-275 | a command on one line is split as it is, comment or not |
| CommandLaws.AndJoins | lib/ownframework_loop/external_action.py:309-314 | split(a&&b) is split(a) followed by split(b) for every b, for an a that is closed, exactly when a does not end in a lone `&` of its own |
| CommandLaws.AndAfterAmpersand | lib/ownframework_loop/external_action.py:309-314 | and what it is otherwise |
| CommandLaws.OrJoins | lib/ownframework_loop/external_action.py:309-314 | split(a||b) is split(a) followed by split(b) for every closed a and every b |
| CommandLaws.PipeJoins | lib/ownframework_loop/external_action.py:309-326 | so is split(a|b) |
| CommandLaws.AmpersandJoins | lib/ownframework_loop/external_action.py:315-326 | without another `&` at the seam, split(a&b) is split(a) followed by split(b) exactly when the `&` is not beside an arrow |
| CommandLaws.AmpersandsPair | lib/ownframework_loop/external_action.py:309-314 | with one, the two are `&&` |
| CommandLaws.RedirectionsAreWhole | lib/ownframework_loop/external_action.py:315-322 | `2>&1`, `>&2` and `&>x` are single commands |
| CommandLaws.OutputArrow | lib/ownframework_loop/external_action.py:315-322 | so is every redirection of one plain text to another |
| CommandLaws.PlainIsWhole | lib/ownframework_loop/external_action.py:277-332 | text without quotes, backslashes and operators is one piece |
| CommandLaws.QuotedIsWhole | lib/ownframework_loop/external_action.py:288-304 | quoted text is one piece, whatever operators and other quotes are in it |
| CommandLaws.EscapedIsWhole | lib/ownframework_loop/external_action.py:281-287 | an escaped character is one piece, whatever it is |
| ExecutionStart.RunDirectory.EnsureExecutable | lib/ownframework_loop/execution_start.py:261-423 | seal, graph and state are left as after the first `life` steps of the start protocol, with its outcome |
| ExecutionStartRuns.SealsOnce | lib/ownframework_loop/execution_start.py:302-421 | over any interleaving of concurrent, dying and refused calls, with packet and source changing underneath, the seal is written at most once, never over an existing file, and every success returns it |
| ExecutionStartRuns.LeavesPreStartSealed | lib/ownframework_loop/execution_start.py:221-258 | a run is executable only after exactly one activation, made under the durable seal with the parsed program's graph durable; both stay |
| ExecutionStartRuns.ActivatesWhatIsSealed | lib/ownframework_loop/execution_start.py:150-209 | a call that packet and source held still for since its own beginning activates the run while both are the sealed ones, and a sealed program has its graph, whatever changed around other calls |
| ExecutionStartRuns.MaterialisesWhatWasParsed | lib/ownframework_loop/cli.py:222-268 | a call that finds no graph leaves the sealed packet covered exactly when that packet declares none or the graph the call had parsed, plain parsed packets included |
| ExecutionStartRuns.GraphIsTheSealedOnes | lib/ownframework_loop/cli.py:222-268 | for every activation of every run, the sealed packet's graph is durable exactly when that packet declares none, or the graph there before the run, or else that of the first packet whose graph a call wrote, dead calls included |
| ExecutionStartRuns.StartsWithItsGraphExactlyWhen | lib/ownframework_loop/execution_start.py:271-321 | when all calls parse the same graph, or none, a run that starts has its sealed packet's graph exactly when that packet declares none or that one |
| ExecutionStartRuns.PacketSwapLosesTheGraph | lib/ownframework_loop/execution_start.py:271-321 | a concrete run whose packet changes while a call waits for the locks, and which starts under a program seal without its graph |
| ExecutionStartRuns.StartConverges | lib/ownframework_loop/execution_start.py:302-421 | after any interleaving of calls that die anywhere, with packet and source standing still, the next call starts the run under the seal already there, unless a seal exists and the checkout is dirty, and later calls return it and change nothing |
| ExecutionStartRuns.SealsWhatItInspected | lib/ownframework_loop/execution_start.py:342-406 | over every run, whatever changes meanwhile: what a call seals it had inspected with the branch at that head, without tracked changes if checked out, at the spec's commit and branch if the run has them, with the legacy permission if it has neither; and the seal names that head, the request's method and actor, and the packet's branches |
| ExecutionStartAnswers.SucceedsExactlyWhen | lib/ownframework_loop/execution_start.py:261-421 | a call that has the run to itself succeeds exactly when its packet is one to start and either the run has no seal and may get one or what its seal names still stands; every condition is on the files and the source |
| ExecutionStartAnswers.SuccessLeaves | lib/ownframework_loop/execution_start.py:379-421 | the seal, state and graph a success leaves, field by field |
| ExecutionStartAnswers.RefusalLeaves | lib/ownframework_loop/execution_start.py:302-406 | what a refusal leaves: an unsealed run is sealed exactly when it may be, and otherwise nothing is written |
| Limits.EffectiveCap | lib/ownframework_loop/limits.py:80-129 | a declared cap within the envelope is the cap in force, which never passes the absolute envelope; only a packet can widen the emergency cap, and exactly the packets past the envelope are refused |
| Limits.CapsInForce | lib/ownframework_loop/limits.py:80-129 | the four caps in numbers: the packet's own up to 128, 128, 128 and 8, else 32, 32, 32 and 8, and more is refused |
| BuildFinalize.BuildRun.ClaimBuild | lib/ownframework_loop/state.py:2255-2420 | when a pass is claimed, reported again while in flight, or recovered after its counter was lost; the run is blocked exactly when the cap is spent where a pass would have to be funded; the new state in each case |
| BuildFinalize.EveryClaimIsFunded | lib/ownframework_loop/state.py:2245-2298 | over every run, claims of an old generation that lost their counter included, the pass counter equals the claims in the history, or is one behind for a pass in flight within the cap |
| BuildFinalize.AskingHeals | lib/ownframework_loop/state.py:2286-2345 | over every such run, a claim that meets a pass in flight answers with that very pass and leaves its counter right; it is never refused and never blocks the run |
| BuildFinalize.BuildRun.TransitionFundedRepair | lib/ownframework_loop/state.py:1955-2130 | the repair round grows by one together with CHANGES_REQUESTED exactly within the cap, else the run is sealed BLOCKED |
| BuildFinalize.BuildRun.FinalizeBuild | lib/ownframework_loop/build_finalize.py:903-1290 | a finalization asks for changes, sends to review or stops exactly under its stated condition, blocks otherwise, and counts streak and repair rounds accordingly |
| BuildFinalize.EveryRepairIsFunded | lib/ownframework_loop/build_finalize.py:1258-1290 | over every run the repair counter has grown by the number of CHANGES_REQUESTED states and stays within its effective cap |
| BuildFinalize.StreakCountsRepeats | lib/ownframework_loop/build_finalize.py:68-76 | over consecutive builds the streak is the number of immediately preceding identical candidates |
| BuildFinalize.IdenticalCandidatesAreBlocked | lib/ownframework_loop/build_finalize.py:79-87 | an unbroken run of identical candidates needing repair has at most cap + 1 passes, and pass cap + 1 blocks it unless a requested stop is honoured there |
| BuildFinalize.RunsStayWithinThePacket | lib/ownframework_loop/limits.py:80-129 | no run passes the repair rounds and build passes its packet declares, or 32 of each when it declares none |
| BuildFinalize.RepeatsStayWithinThePacket | lib/ownframework_loop/build_finalize.py:79-87 | nor more than one candidate beyond the repeats it declares, or nine when it declares none |
| BuildFinalize.ClaimsInNumbers | lib/ownframework_loop/state.py:2255-2420 | what asking for a pass answers, state by state, in the packet's own number |
| BuildFinalize.FinalizableExactlyWhen | lib/ownframework_loop/build_finalize.py:611-902 | when a finalization is taken on, in the packet's own numbers |
| BuildFinalize.DecisionsInOrder | lib/ownframework_loop/build_finalize.py:952-1144 | what it decides, cause by cause in order of precedence |
| ScopePaths.MatchesByComponents | lib/ownframework_loop/packet.py:733-739 | an accepted entry without surrounding whitespace covers a file exactly when its path components begin the file's |
| ScopePaths.AcceptedIsDeclared | lib/ownframework_loop/packet.py:83-110 | once whitespace is stripped, the matcher's prefix of an accepted entry is the directory or file the validator read |
| ScopePaths.SpellingsCoverTheSame | lib/ownframework_loop/packet.py:720-739 | `d`, `d/`, `./d` and `d/**` cover the same files |
| ScopePaths.ScopeIsDownwardClosed | lib/ownframework_loop/packet.py:742-757 | whatever lies below a covered path is covered |
| ScopePaths.CoversWhatWasValidated | lib/ownframework_loop/packet.py:83-110 | an accepted entry covers what was validated exactly when it has no surrounding whitespace |
| ScopeSpellings.AcceptedExactlyWhen | lib/ownframework_loop/packet.py:83-110 | an entry is accepted exactly when what is left after stripping spells a relative path without dots, doubled slashes, stars, backslashes or NULs, with or without `./` in front and slashes or `/**` behind, not beginning with a tilde; that path is declared |
| ScopeSpellings.FilesMatchAsSpelled | lib/ownframework_loop/packet.py:705-739 | a file matches the same with `./` or a slash in front and slashes behind |
| ScopeSpellings.NothingMatchesNothing | lib/ownframework_loop/packet.py:733-739 | an entry that names nothing matches nothing |

## Left out

- A kill inside one publication, and the `.tmp` file it can leave behind: each publication is one atomic step.
- File modes, ownership, link checks on authority files, fsync, and the lock timeout as anything but a death.
- JSON parsing and the field-shape checks of records, seals, receipts and packets: a malformed file is one case, or absent.
- The before/after `stat` signatures of the tree walk, and names that are not valid text: the tree is static and its names are strings.
- `stable_projection` and `_runtime_only_capability_transition` as computations on dictionaries: a projection is its canonical text, and an edge is runtime-only or not.
- The sources of a version-1 rollover migration: read as one predicate, never appended by the modelled writers.
- Terminal states, stop requests and the derivation of successors, which decide whether a segment may resume at all: part of one evidence predicate.
- RuntimeChainRuns.MissionResolves: nothing is claimed of a migration past the sixteenth, which no resolver reads.
- The creation time of a runtime migration, which makes two otherwise equal migrations differ; it matters only for replaying a write, which the resolver pre-empts.
- ProtectedRecoveryRuns.RetriesConverge: completion is not claimed from the window between ref update and reset, where the code refuses.
- The timestamps of recovery receipts.
- The orphaned-receipt directory scan order of the pending-recovery lookup: receipts are a map from recovery identity.
- `verify_artifact_sha` and `verify_all_artifacts`: one comparison each per artifact.
- ExecutionStartRuns.LeavesPreStartSealed: stopping or blocking an unstarted run, and reopening a blocked program, belong to other owners; the first is an allowed move, the second is not part of this model.
- BuildFinalize.EveryClaimIsFunded: a pass is ended only once its claim was answered, as the dispatcher does; that order is a condition of the run, not derived.
- The binding of a mission segment during a start, the seal's descriptive fields, and the seal's repository path check.
- `spec approve`, which rewrites the seal file: the sealing results cover callers of `ensure_executable` only.
- BuildFinalize.BuildRun.FinalizeBuild: PROGRAM mode, the findings texts, the source ceilings, and what makes each piece of evidence true.
- Guards, regular-expression tables, argument normalizers and the classification of commands in `external_action.py`.
- Secret scanning, validation execution, commissioning, supervisors, adapters and the command-line parser.
