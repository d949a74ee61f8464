# Verified model of boetticher's stateful core

boetticher deploys a small Proxmox lab. Six of its components keep state across
failures, crashes and arbitrary chunking. This project models each of them in
Dafny and proves what it promises over every run, every input or every schedule.

| component | files |
|---|---|
| Deployment journal and temporary Apply authority | `OperationJournal.dfy`, `DeployProtocol.dfy`, `DeploySafety.dfy`, `DeployRuns.dfy`, `TemporaryRoot.dfy` |
| Release bundle: validate, build, import, activate | `ReleaseManifest.dfy`, `ReleaseImport.dfy`, `ReleaseDemands.dfy`, `ReleaseBuild.dfy`, `ReleaseAssembly.dfy`, `ReleaseExamples.dfy`, `ReleaseActivation.dfy` |
| Owned network fixture of the lab speed test | `LabFixture.dfy` |
| Media VM: creation, recovery, formatting | `MediaGuest.dfy`, `MediaLifecycle.dfy` |
| Bounded streaming code | `BoundedOutput.dfy`, `TopTimings.dfy`, `ArchiveExtract.dfy` |
| WireGuard profile parser and printer | `WireGuardProfile.dfy`, `WireGuardMeaning.dfy`, `WireGuardRoundTrip.dfy` |
| Shared text and path functions | `Common.dfy`, `Text.dfy`, `Paths.dfy` |

`dafny verify dfyconfig.toml` checks the whole project.

## How the pieces are modelled

**Deploy protocol.** A `World` holds the journal, the last-applied record, the
set of (place, key) holdings, the guests that exist, and the stage of the
running process. `Next` is total: failures, partial effects, goroutine order and
crashes are choices carried by events, so a run is any sequence of events.
Assumed of the planner: component names are distinct
(internal/model/model.go:1039) and a managed site plans the gateway itself
(internal/model/model.go:1135-1157). One process holds the deployment lock at a time.
Saving and clearing the journal are atomic or fail.

**Release bundle.** An archive is the sequence of its members with the bytes the
stream really holds. Digests, JSON and signatures are parameters; the round trip
assumes of them only what `ReleaseBuild.ReadsBack` states about the one manifest and
signature that are written. `sort.Slice` is any sorted arrangement. Sources do not
change while a build runs. Which numbered host calls fail is a parameter; `fault`
reports that one did, so the contracts say what happens when none does. A directory
tree is a map from paths to bytes, in which a path cannot be both a file and a directory.

**Lab fixture.** `LabHost` is the native surface. A command succeeds, fails
without effect, or fails after its effect. A ghost trace records every kernel
state, so a property of the trace is a property of every point at which the
helper could be killed. Which addresses of the subnet are in use does not change during
a run. The bridge's default VLAN is 1, and the measurement does not change the fixture.

**Media VM.** Each `qm` command is atomic. Every call brings its own media size and
every creation its own image. Tags, network options and volumes are
structured values instead of their text. A `mkfs` that fails leaves the disk
blank, dirty or formatted.

**Streams and archives.** A reader hands out its bytes in pieces of its own
choosing, and never returns nothing without also reporting an end or an error.

**WireGuard profiles.** Text handling (splitting, trimming, numbers, host and
port) is spelled out. Key decoding, CIDR and IP parsing and the digest are
parameters. Profile text is valid UTF-8.

## Where the code differs from what it is meant to do

- A scoped module deployment journals the kind `scoped-module-deploy`, which
  `validateOperationState` (internal/site/operation.go:193-196) refuses, so it
  stops before it arms anything (`DeploySafety.ScopedRunNeverArms`).
- The gateway record (internal/cli/converge.go:802) has no owner, so the
  revocation filter (internal/cli/converge.go:1854) skips it. A committed managed
  run leaves a copy of its key exactly when a re-arm of the gateway took effect
  (`DeploySafety.CommittedRunLeavesKeyIffGatewayRearmed`), and
  `DeploySafety.GatewayCopyCanOutliveCommit` gives such a run.
- The recoverable validator of the media VM accepts partial VMs that recovery
  cannot bring to the exact configuration (`MediaLifecycle.AcceptedButNotRepaired`);
  `MediaGuest.RecoveryGivesExactIff` states which. Which interrupted creations are
  stranded is `MediaLifecycle.InterruptedVmIsRecoverableIff`; the image builder
  (scripts/build-arrstack-vm.sh) does not resize the image it downloads, and only an
  image of the root size rules them out (`MediaLifecycle.AlwaysRecoversIffRootSized`).
- A `mkfs` that stops halfway leaves a media disk that is neither blank nor ext4, and
  no later installation gets past it (`MediaLifecycle.InstallationEndsCleanIff`,
  `MediaLifecycle.MediaIsKept`).
- A diagnostic line longer than 16384 bytes may be kept, kept differently or lost
  depending on how it was split into writes (`BoundedOutput.LongLineDependsOnChunking`);
  `BoundedOutput.CaptureIgnoresChunkingIff` states exactly when that can happen.
- A built release is refused on import when one member path is a directory of
  another, and the builder does emit such a release (`ReleaseExamples.BuildNested`).
- A bracketed endpoint host may carry a colon or leading white space
  (`WireGuardRoundTrip.BracketedHostIsAccepted`); the normalized text of such a
  profile does not read back (`WireGuardRoundTrip.UnstableProfilesOccur`).

## Model

| member | source | states |
|---|---|---|
| `OperationJournal.OperationCleanupGuests` | internal/cli/converge.go:1452-1468 | succeeds exactly when every owned planned guest has a complete identity; the result is the owned guests' identities in plan order |
| `OperationJournal.OwnedIdentitiesExact` | internal/cli/converge.go:1452-1468 | every owned planned guest is journaled, and nothing else is |
| `OperationJournal.RecordsOfPlan` | internal/cli/converge.go:1452-1468 | every owned planned guest has a journal record with its own name, kind, VMID and address, and every record is of such a guest |
| `OperationJournal.ValidateOperationState` | internal/site/operation.go:193-254 | the checks in their order, with the loop over the guests, accept exactly the valid records |
| `OperationJournal.OperationGuestPlans` | internal/cli/converge.go:1470-1485 | succeeds exactly on known kinds, with one guest for each record in its order |
| `OperationJournal.Targets` | internal/cli/converge.go:1852-1862 | the revocation filter keeps exactly the records with an owner and an address |
| `OperationJournal.JournalRoundTrip` | internal/cli/converge.go:1452-1485 | a saved journal decodes without error, and after the filter its targets are exactly the owned planned guests under the recovery owner, with their own names, VMIDs, kinds and addresses |
| `DeploySafety.NamesIdentifyRecords` | internal/cli/converge.go:1806-1812 | registration by name never merges two different records |
| `DeploySafety.RegistrySkipsGateway` | internal/cli/converge.go:795-812 | no record that passes the filter stands for the managed gateway |
| `DeploySafety.DecodedNamesAll` | internal/cli/converge.go:1416-1428 | every journaled guest comes back from the decoder as a revocable target |
| `DeploySafety.SaveKeepsInv` | internal/site/operation.go:132-146 | every journal write of every stage keeps the invariant, whether it takes place, is refused or fails |
| `DeploySafety.LoadKeepsInv` | internal/cli/converge.go:1396-1425 | deciding what to do with an interrupted journal keeps the invariant |
| `DeploySafety.PlanKeepsInv` | internal/cli/converge.go:476-508 | planning and preparing the armed record keeps the invariant |
| `DeploySafety.InstallKeepsInv` | internal/cli/converge.go:509-521 | installing the key on the Host, with or without success, keeps the invariant |
| `DeploySafety.ApplyKeepsInv` | internal/cli/converge.go:1317-1388 | registering, re-arming and waiting for a guest keep the invariant |
| `DeploySafety.RevokeGuestKeepsInv` | internal/cli/converge.go:1874-1896 | one goroutine of the fan-out, whatever its outcome, keeps the invariant |
| `DeploySafety.RevokeHostKeepsInv` | internal/cli/converge.go:1898-1904 | the final revocation on the Host keeps the invariant and fails the run unless everything was revoked |
| `DeploySafety.NextKeepsInv` | internal/cli/converge.go:196-1138 | every event, including a crash at any point, keeps the invariant |
| `DeploySafety.RunsKeepInv` | internal/cli/converge.go:113-170 | the invariant holds after every sequence of events |
| `DeploySafety.LiveKeysAreJournaled` | internal/cli/converge.go:493-519 | over all runs, every live temporary key is named by the journal with its place or is a copy that a committed run left on the gateway, and at most one key of the first kind is live |
| `DeploySafety.LeftByACommit` | internal/cli/converge.go:308-329 | such a copy was left at the commit of its own run, with its last-applied record written |
| `DeploySafety.UnmanagedKeysAreJournaled` | internal/cli/converge.go:493-519 | where no managed gateway is deployed there is no exception: every live key, on any guest, is journaled |
| `DeploySafety.WaitingIsNamed` | internal/cli/converge.go:795-812 | a guest is re-armed only once it is journaled and registered, as a target unless it is the gateway's ownerless record |
| `DeploySafety.GoroutineRevokes` | internal/cli/converge.go:1874-1896 | one successful revocation removes its own key and touches nothing else |
| `DeploySafety.FanOutRevokes` | internal/cli/converge.go:1839-1904 | successful revocations in any order leave pending exactly the untried targets, and no tried target holds the key |
| `DeploySafety.RecoveryBegins` | internal/cli/converge.go:1416-1428 | recovery of an armed journal marks it and starts revoking exactly its targets |
| `DeploySafety.RecoveryEnds` | internal/cli/converge.go:1440-1450 | with nothing pending the Host key goes, then the journal |
| `DeploySafety.RecoveryRevokesEverything` | internal/cli/converge.go:1396-1450 | from every reachable crash state with the same Host address, for every order of the goroutines and every way each succeeds, recovery ends with no journal, no key that journal named, and no key but the gateway copies of earlier committed runs |
| `DeploySafety.EveryRecoveryEndsClean` | internal/cli/converge.go:1396-1450 | whatever events a recovery meets, once it hands over to the next deployment it has ended clean in that sense |
| `DeploySafety.RevokedIsUnnamed` | internal/cli/converge.go:1839-1904 | with every target settled and the Host revoked, nothing the journal names holds its key |
| `DeploySafety.ErrorsStick` | internal/cli/converge.go:113-170 | an error of a run is never forgotten before the run ends |
| `DeploySafety.LastAppliedOnlyFromCleanRun` | internal/cli/converge.go:308-329 | the last-applied record changes only in a run without any failed step in its phases or its cleanup, with its keys already gone, and then it holds that run's revision, digest and bundle |
| `DeployRuns.RecordIsOfItsRun` | internal/cli/converge.go:284-330 | over all histories, a record that is written holds the revision and the bundle of the site that its run deployed and the digest of the plan it made, neither blank |
| `DeployRuns.JournalTellsThePhase` | internal/cli/converge.go:284-521 | over all histories, the phase in the journal on disk is that of the work the run is doing |
| `DeployRuns.FailureIsMarked` | internal/cli/converge.go:298-307 | a failed run marks its journal FAILED and keeps in it what names its keys |
| `DeployRuns.LoadDecides` | internal/cli/converge.go:1396-1425 | whatever journal is found: exactly a valid keyless one of a plan or a failed run is stale, exactly a valid one with a key of this Host is recovered, any other is refused and kept |
| `DeployRuns.UndisturbedRunCommits` | internal/cli/converge.go:196-330 | after every history without a journal, a deployment in which nothing fails commits, whatever it plans and whichever guests it re-arms, in every order of the fan-out: no journal, the record of its own site and plan, its key in no registered target, and no key but gateway copies |
| `DeploySafety.CommittedRunLeavesKeyIffGatewayRearmed` | internal/cli/converge.go:795-812 | a managed run with a fresh key that commits leaves that key somewhere if and only if, during the run, a re-arm of the gateway took effect and the gateway was not destroyed afterwards |
| `DeploySafety.ManagedStep` | internal/cli/converge.go:1317-1388 | one event of a managed run puts a copy on the gateway exactly by an effective re-arm, and removes one exactly by destroying the gateway |
| `DeploySafety.OnlyTheRecordIsTheGateway` | internal/cli/converge.go:795-812 | no other guest of a managed run has the gateway's VMID |
| `DeploySafety.GatewayCopyCanOutliveCommit` | internal/cli/converge.go:802-802 | a concrete failure-free run that commits and leaves its key on the gateway |
| `DeploySafety.ScopedRunNeverArms` | internal/cli/converge.go:1225-1260 | until the next command starts, a scoped deployment adds no key, no journal and no last-applied record, whatever happens |
| `TemporaryRoot.RunGoroutines` | internal/cli/converge.go:1872-1897 | under every schedule each error slot says whether its target was settled, and each target is tried once |
| `TemporaryRoot.RevokeFanOut` | internal/cli/converge.go:1839-1904 | success exactly when each filtered target was revoked directly, through the Host or proven absent, and the Host was revoked; the fallback only after a failed direct try; the Host last |
| `TemporaryRoot.TemporaryRootCleanup.GuestEstablished` | internal/cli/converge.go:1806-1812 | the registry grows by the guest unless its name is already there |
| `TemporaryRoot.TemporaryRootCleanup.Revoke` | internal/cli/converge.go:1814-1833 | everything registered is tried once, and the private identity is wiped whatever happens |
| `GuestInspection.SequentialMeaning` | internal/cli/converge.go:1587-1601 | the plain loop answers with the full map, or with the first failing or repeated entry |
| `GuestInspection.RunWorkers` | internal/cli/converge.go:1564-1586 | under every schedule every guest's result is delivered, unaltered, and at most four workers are busy at once |
| `GuestInspection.InspectDeploymentGuestStates` | internal/cli/converge.go:1547-1601 | up to four workers give the answer of the left-to-right loop |
| `ReleaseManifest.BundlePathIff` | internal/artifacts/release.go:1136-1145 | the accepted paths are exactly those with ordinary components, properly below one of the three content trees, without NUL or backslash |
| `ReleaseManifest.IndexFiles` | internal/artifacts/release.go:560-589 | the loop over files accepts exactly when each passes and paths are distinct, and builds their exact index |
| `ReleaseManifest.ArtifactChecksIff` | internal/artifacts/release.go:606-637 | the checks through the index say that content and evidence members exist and are bound to the artifact |
| `ReleaseManifest.CollectNames` | internal/artifacts/release.go:605-642 | the loop over artifacts accepts exactly when each passes and names are distinct |
| `ReleaseManifest.CheckReferences` | internal/artifacts/release.go:643-651 | in any visiting order: every file belongs to a listed artifact or is a companion |
| `ReleaseManifest.ValidateReleaseManifest` | internal/artifacts/release.go:547-652 | accepts exactly the manifests that meet the declarative `ValidManifest` |
| `ReleaseDemands.ValidManifestIff` | internal/artifacts/release.go:547-652 | a manifest is valid exactly when, read by path components and hexadecimal digits, its fields are complete, it is bound to one controller or built locally, every file is safe and belongs to what is listed, everything listed has its file, and nothing is listed twice |
| `ReleaseImport.ReadHead` | internal/artifacts/release.go:373-408 | a manifest is returned exactly when its bytes are signed by a trusted key and it is valid, compatible and bound to this controller |
| `ReleaseImport.TreeContent` | internal/artifacts/release.go:459-466 | each member's own bytes are found at its path |
| `ReleaseImport.StageMember` | internal/artifacts/release.go:439-466 | one member is staged with exactly its declared bytes, or there is a reason to refuse it, or the host failed |
| `ReleaseImport.RefusedEntry` | internal/artifacts/release.go:439-466 | an archive with a member refused at its turn is not importable at all |
| `ReleaseImport.CountSettles` | internal/artifacts/release.go:468-470 | comparing the two counts decides whether a declared file is missing |
| `ReleaseImport.StageMembers` | internal/artifacts/release.go:425-470 | without a host fault, succeeds exactly when the members are the declared files, once each, complete, within 32 GiB and not nested |
| `ReleaseImport.CheckDigests` | internal/artifacts/release.go:471-480 | in any visiting order: passes only if every declared file has its size and digest, fails only if one has not |
| `ReleaseImport.ReleaseStore.ImportReleaseBundle` | internal/artifacts/release.go:334-489 | on error the destination is as it was; on success a trusted key verified the first member's bytes and the destination is the accepted archive's tree; unless a host call fails, success exactly for an accepted archive and a free destination |
| `ReleaseDemands.AcceptedArchiveIff` | internal/artifacts/release.go:334-489 | for every archive: accepted exactly when it begins with a sound manifest whose exact bytes verify under a trusted key with the signature's key id, made for this controller, and then holds one regular member for each file with its size and digest, nothing else, nothing nested and at most 32 GiB |
| `ReleaseDemands.InstalledIsGenuine` | internal/artifacts/release.go:425-488 | the installed manifest and signature are the archive's first two members, verified, and every declared path holds bytes of the declared size and digest |
| `ReleaseDemands.CompleteReleaseIff` | internal/artifacts/release.go:531-545 | what a complete release is, for every tree, in terms of signature verification, digests and digits alone |
| `ReleaseDemands.MadeForIff` | internal/artifacts/release.go:654-677 | compatible and bound means the same release, API, schema and architecture, and, if bound, this executable up to the case of its digest |
| `ReleaseImport.TotalsAgree` | internal/artifacts/release.go:452-455 | the sizes that were counted add up to the declared ones |
| `ReleaseImport.HeadNamesAreNotMembers` | internal/artifacts/release.go:1136-1145 | no member path touches the manifest or the signature |
| `ReleaseImport.ImportIsSound` | internal/artifacts/release.go:425-488 | whatever the archive, an installed tree is signed and holds the manifest, the signature and exactly the declared files with declared size and digest, at most 32 GiB in total |
| `ReleaseBuild.SortBySorts` | internal/artifacts/release.go:310-311 | the files and artifacts come out in string order |
| `ReleaseBuild.LessIff` | internal/artifacts/release.go:310-311 | the order of the lists is that of strings: the first difference, or the end of the shorter one, decides |
| `ReleaseBuild.SortByKeeps` | internal/artifacts/release.go:310-311 | sorting loses and invents nothing |
| `ReleaseBuild.SortedOrderIsUnique` | internal/artifacts/release.go:310-311 | with distinct keys the sorted order is the only one, so an unstable sort gives it too |
| `ReleaseBuild.SortedSlice` | internal/artifacts/release.go:310-311 | any sorted arrangement of distinct paths is that of the model, and distinctness can be seen on either |
| `ReleaseBuild.SortCommutes` | internal/artifacts/release.go:1054-1062 | the archive's members come in the order of the manifest's files |
| `ReleaseBuild.ReadsBackCanBeMet` | internal/artifacts/release.go:315-326 | for every manifest, digest and evidence rule there is a codec that reads it back, whatever size it takes |
| `ReleaseBuild.KeyIdIff` | internal/artifacts/release.go:1147-1152 | which signing key ids a build accepts |
| `ReleaseBuild.HeadIsAccepted` | internal/artifacts/release.go:315-326 | if the codec reads back this manifest and signature, the importer recovers the manifest exactly when it is at most 1 MiB |
| `ReleaseBuild.SortedAreImportable` | internal/artifacts/release.go:999-1062 | the written members are importable exactly when none is below another |
| `ReleaseBuild.BuiltReleaseImportsIff` | internal/artifacts/release.go:164-328 | a matching, trusting controller accepts an assembled release exactly when its manifest is at most 1 MiB and no member path is a directory of another |
| `ReleaseBuild.BuiltReleaseKeepsBytes` | internal/artifacts/release.go:999-1080 | the installed tree holds every member's own bytes at its path |
| `ReleaseAssembly.Add` | internal/artifacts/release.go:215-219 | a member is appended, or the running total would exceed 32 GiB |
| `ReleaseAssembly.AddQualification` | internal/artifacts/release.go:252-275 | every qualification file has a member at its path below its artifact's evidence directory, or there is a bad one, or the total is too large |
| `ReleaseAssembly.QualificationOkIff` | internal/artifacts/release.go:252-262 | a qualification file is accepted at evidence/ARTIFACT/FILE for a plain file name, and nowhere else |
| `ReleaseAssembly.AddInput` | internal/artifacts/release.go:200-275 | an input's members are added in order and nothing else, or the input is bad, or the total is too large |
| `ReleaseAssembly.GatherInputs` | internal/artifacts/release.go:196-276 | every input is represented and every member comes from an input, or the inputs repeat a name, hold a bad one or are too large |
| `ReleaseAssembly.SortedManifest` | internal/artifacts/release.go:310-311 | the manifest with its lists sorted is the described one, or has a repeated path in every order |
| `ReleaseAssembly.WriteReleaseArchive` | internal/artifacts/release.go:999-1080 | manifest, signature and the members by path, unless a write fails |
| `ReleaseAssembly.BuildReleaseBundle` | internal/artifacts/release.go:164-328 | a built release has a valid manifest with every metadata field in its place, describing its members, and the archive made of them; companions are declared exactly when asked for; unless a host call fails or the archive cannot be written, an error has one of the listed reasons |
| `ReleaseAssembly.QualificationBytes` | internal/artifacts/release.go:252-275 | the skip of a path already taken never drops a qualification file |
| `ReleaseAssembly.BuiltBundleImportsIff` | internal/artifacts/release.go:164-328 | from inputs to import: accepted exactly when the manifest is at most 1 MiB and nothing is nested |
| `ReleaseAssembly.SourcesSurvive` | internal/artifacts/release.go:334-489 | after import each input's artifact, evidence and qualification files and both companion binaries are at the declared paths with exactly the source bytes |
| `ReleaseExamples.RoundTripOccurs` | internal/artifacts/release.go:164-489 | for any plain name and contents there is a built release, a codec and a controller that accepts it |
| `ReleaseExamples.MembersMakeAManifest` | internal/artifacts/release.go:547-652 | bound members of listed inputs, with distinct paths and names, make a valid manifest |
| `ReleaseExamples.NestedIsNotRefused` | internal/artifacts/release.go:164-328 | for any two plain names, the inputs NAME with evidence and NAME.json with a qualification file give the builder no reason to refuse |
| `ReleaseExamples.NestedArchiveIsRefused` | internal/artifacts/release.go:439-466 | an archive with nested members is refused whatever the controller and its keys |
| `ReleaseExamples.BuildNested` | internal/artifacts/release.go:164-328 | unless the write fails, the builder emits a release with a valid manifest that no controller imports |
| `ReleaseActivation.ReleaseTrees.ActivateImportedRelease` | internal/artifacts/release.go:872-896 | success, certain unless a host operation fails, makes the staged tree active; an error leaves the old one active, or whole at `.previous` with nothing active, or the new one active; one failed operation never leaves nothing active; each call is a path of the transition system |
| `ReleaseActivation.ReleaseTrees.RunBundleImport` | internal/cli/bundle.go:93-105 | the active tree is never partial; the kept release stays kept unless the imported one takes its place; staging is emptied unless that fails; each run is a path of the transition system |
| `ReleaseActivation.StepKeepsInv` | internal/artifacts/release.go:872-896 | every step of an import, succeeding or failing, keeps the latest release |
| `ReleaseActivation.CrashKeepsInv` | internal/cli/bundle.go:93-105 | so does a crash in the middle of any of them, removals included |
| `ReleaseActivation.ActivationIsSafe` | internal/artifacts/release.go:872-896 | over all runs the active tree is absent or a verified release, and once one was active, `active` or `active.previous` holds a verified release |
| `ReleaseActivation.ActiveReleaseIsComplete` | internal/cli/bundle.go:93-105 | over all runs of imports by the given controllers, an active tree is exact, intact and signed by a key that one of them trusts, and once there was one, `active` or `active.previous` holds such a tree |
| `LabFixture.SetupStepsAreOwned` | cmd/boetticher-host-speedtest/lab.go:158-218 | each setup command leads from an owned state to an owned one |
| `LabFixture.RemovalKeepsRecoverable` | cmd/boetticher-host-speedtest/lab.go:244-271 | each removal keeps the state recoverable, and removing the namespace removes everything |
| `LabFixture.OwnedIff` | cmd/boetticher-host-speedtest/lab.go:303-343 | ownership, link by link and number by number: no foreign link in the namespace, a matching veth pair, no other bridge or VLAN, no address outside the subnet |
| `LabFixture.SetupCommands` | cmd/boetticher-host-speedtest/lab.go:171-181 | a list of setup steps passes only through recoverable states; success means the effect of all of them, and unless the host fails only a step that the kernel refuses is an error |
| `LabFixture.ChooseLabAddress` | cmd/boetticher-host-speedtest/lab.go:222-242 | unless a probe fails, the first of the five reserved addresses that nobody answers for, or none if all are taken |
| `LabFixture.LabFixture.Setup` | cmd/boetticher-host-speedtest/lab.go:158-218 | every state setup can be stopped in is recoverable; success means all twelve commands in order and a port on exactly the access VLAN with a reserved address; unless the host fails, it succeeds exactly from nothing with one of the five addresses free |
| `LabFixture.LabFixture.Cleanup` | cmd/boetticher-host-speedtest/lab.go:244-271 | success means nothing is left; nothing created means nothing touched; only the two removals are issued; a recoverable state stays recoverable; it succeeds unless the host fails |
| `LabFixture.LabLeftoverOwned` | cmd/boetticher-host-speedtest/lab.go:303-343 | the answer is the ownership predicate whenever every query is answered, and never yes otherwise without it |
| `LabFixture.RecoverLabLeftovers` | cmd/boetticher-host-speedtest/lab.go:274-295 | no command unless the ownership predicate holds, and then only removals; a clean answer means nothing is left; unless the host fails, refused exactly what is not recoverable |
| `LabFixture.RunLabWith` | cmd/boetticher-host-speedtest/lab.go:128-156 | Done means that the measurement ended well on a fixture that was ready, and that both resources are gone; every state on the way is recoverable; unless the host fails, Done is answered exactly from a recoverable start with a free address and a good measurement, and nothing is left whatever is answered |
| `MediaGuest.ExactIsRecoverable` | internal/arrstack/runtime.go:206-317 | the exact configuration passes the recoverable validator |
| `MediaGuest.ExactIff` | internal/arrstack/runtime.go:206-251 | the exact configuration, entry by entry |
| `MediaGuest.RecoverableIff` | internal/arrstack/runtime.go:259-317 | the configurations that recovery accepts, entry by entry: the same identity, and at most one spare volume of this VM instead of the root |
| `MediaGuest.CreateResultOccurs` | internal/arrstack/runtime.go:351-351 | there is a configuration that the creation command may store |
| `MediaGuest.ExecuteKeepsIdentity` | internal/arrstack/runtime.go:401-424 | no command of creation or recovery touches the identity options |
| `MediaGuest.RecoveryRuns` | internal/arrstack/runtime.go:401-424 | the exact outcome of the recovery script on every recoverable disk layout |
| `MediaGuest.RecoveryGivesExactIff` | internal/arrstack/runtime.go:386-424 | for an image of any size, recovery ends in the exact configuration if and only if the root is attached, or comes from an image within the root size, or waits as disk 0 within that size, and the media disk is attached or still pending |
| `MediaLifecycle.GoodIsAccepted` | internal/arrstack/runtime.go:206-317 | every stage of creation but an unresized root is recoverable for a call that asks for the media size it has, and exactly the last is exact |
| `MediaLifecycle.CommandKeepsGood` | internal/arrstack/runtime.go:323-363 | every command of the scripts leads from its stage to the next one, except that a root from too large an image cannot be resized |
| `MediaLifecycle.ScriptFits` | internal/arrstack/runtime.go:401-424 | the recovery script continues exactly where creation stopped |
| `MediaLifecycle.RunsKeepInv` | internal/arrstack/runtime.go:323-363 | the invariant holds over all histories of creation, recovery and installation, whatever sizes their calls use |
| `MediaLifecycle.InterruptedVmIsRecoverableIff` | internal/arrstack/runtime.go:259-363 | whatever sizes earlier calls used and whatever was interrupted, a call finds a VM that recovers to the exact configuration if and only if the root was not left unresized, what a missing root will be made from is within the root size, and a media disk has the size asked for |
| `MediaLifecycle.FormattingIsGuarded` | internal/arrstack/runtime.go:555-564 | over all histories, whatever sizes their calls use, the media disk is allocated and formatted at most once, only under the marker and only when blank, and never after the marker was cleared |
| `MediaLifecycle.ClearedMeansFormatted` | internal/arrstack/runtime.go:555-564 | over all histories, a cleared marker means a disk that was formatted and is ext4, and the marker is missing only if it was cleared |
| `MediaLifecycle.MediaIsKept` | internal/arrstack/runtime.go:723-745 | over all histories, nothing that any later call does changes what a disk that is not blank holds |
| `MediaLifecycle.MediaAlwaysHasSize` | internal/arrstack/runtime.go:323-326 | over all histories, the media disk has at least 1 GiB |
| `MediaLifecycle.InstallationEndsCleanIff` | internal/arrstack/runtime.go:555-564 | after every history, an installation in which nothing fails ends with an ext4 disk, the marker gone and every other entry and tag as it was, if and only if the disk is not a half-written one |
| `MediaLifecycle.RecoveryCompletes` | internal/arrstack/runtime.go:323-424 | after every history, a call that finds a recoverable VM, and in which nothing fails, leaves the exact one, command by command |
| `MediaLifecycle.FirstInstallationFormats` | internal/arrstack/runtime.go:323-564 | creation and first installation in which nothing fails end with the exact VM, a formatted ext4 disk and no marker |
| `MediaLifecycle.AcceptedButNotRepaired` | internal/arrstack/runtime.go:259-317 | a created VM whose root was imported as disk 1 is accepted as recoverable, and its recovery does not give the exact configuration |
| `MediaLifecycle.OtherImageSizesStrand` | internal/arrstack/runtime.go:351-354 | for every other image size, creation stopped after attaching the root leaves a VM that neither validator accepts |
| `MediaLifecycle.AlwaysRecoversIffRootSized` | internal/arrstack/runtime.go:323-363 | over the histories that use one image and one media size, every interrupted VM recovers if and only if the image has the root size |
| `BoundedOutput.RetainSuffix` | internal/ansible/ansible.go:171-180 | the last bytes of everything seen |
| `BoundedOutput.MarkedIff` | internal/ansible/ansible.go:138-141 | a diagnostic line is one in which one of the four marks occurs |
| `BoundedOutput.DiagnosticTextIs` | internal/ansible/ansible.go:114-136 | the diagnostic text of a stream is its complete marked lines, in order, and nothing else |
| `BoundedOutput.MarkedLineIsKept` | internal/ansible/ansible.go:114-136 | a marked line for which there is room is kept whole, after what was kept before it |
| `BoundedOutput.FoldSplit` | internal/ansible/ansible.go:114-136 | scanning in two writes is scanning their concatenation |
| `BoundedOutput.KeptIsClipped` | internal/ansible/ansible.go:114-136 | keeping lines while there is room is clipping the full diagnostic text |
| `BoundedOutput.CutStaysPlain` | internal/ansible/ansible.go:130-141 | cutting the front of a line cannot make it a diagnostic one |
| `BoundedOutput.CaptureIgnoresChunkingIff` | internal/ansible/ansible.go:114-136 | for every stream: at each point of it the kept diagnostics are its clipped diagnostic text for every way of writing it, if and only if no cut can be seen: each over-long diagnostic line comes when the buffer is full, or stays a diagnostic line that begins alike, as far as there is room, however far its front is cut |
| `BoundedOutput.ShortLinesAreInvisible` | internal/ansible/ansible.go:114-136 | streams whose diagnostic lines have at most 16384 bytes are among these |
| `BoundedOutput.InvisibleIsKept` | internal/ansible/ansible.go:114-136 | for such a stream what is kept is the clipped diagnostic text, however it is written |
| `BoundedOutput.VisibleCutIsKept` | internal/ansible/ansible.go:114-136 | for any other stream there is a point and a way of writing up to it that keeps something else |
| `BoundedOutput.CutIsCaptured` | internal/ansible/ansible.go:130-135 | two writes that cut a line anywhere, and what they capture |
| `BoundedOutput.CaptureBounds` | internal/ansible/ansible.go:114-136 | for every stream and every split the scan buffer stays within 16384 bytes and the text is whole lines |
| `BoundedOutput.LongLineTwoWays` | internal/ansible/ansible.go:130-135 | what any longer line becomes in one write and in two |
| `BoundedOutput.LongLineDependsOnChunking` | internal/ansible/ansible.go:130-135 | a concrete longer line that is kept one way and lost the other |
| `BoundedOutput.DrainLines` | internal/ansible/ansible.go:114-136 | the scanning loop consumes every whole line and leaves the unfinished one |
| `BoundedOutput.BoundedOutput.Write` | internal/ansible/ansible.go:88-112 | the stream grows by exactly the chunk and all buffers follow it |
| `BoundedOutput.BoundedOutput.Bytes` | internal/ansible/ansible.go:147-162 | the stream itself up to 65536 bytes, else its first and last 32768 around the marker |
| `BoundedOutput.BoundedOutput.DiagnosticBytes` | internal/ansible/ansible.go:143-145 | within 16384 bytes, empty or newline-terminated, and independent of chunking whenever no cut can be seen |
| `BoundedOutput.Capture` | internal/ansible/ansible.go:88-180 | both of these for any stream and any split into writes |
| `TopTimings.StableSortIsStable` | internal/cli/deploy_report.go:185-190 | descending, with the entries of each duration in their order |
| `TopTimings.StableOrderIsUnique` | internal/cli/deploy_report.go:185-190 | that order is the only one, so the sort is determined by it |
| `TopTimings.TruncateEarly` | internal/cli/deploy_report.go:178-191 | truncating between batches cannot be seen in the final list |
| `TopTimings.TopIs` | internal/cli/deploy_report.go:178-191 | the whole stream up to 4096 entries, else the first 4096 of its one stable descending order |
| `TopTimings.SlowestFirst` | internal/cli/deploy_report.go:185-190 | above the limit both lists hold 4096 entries, longest duration first |
| `TopTimings.TopStep` | internal/cli/deploy_report.go:178-191 | one record call is one step of the whole-stream function |
| `TopTimings.AppendAndTrim` | internal/cli/deploy_report.go:178-191 | the retained list is the whole stream up to 4096 entries, else the first 4096 of its stable sort |
| `TopTimings.DeploymentReport.RecordAnsibleTaskTimings` | internal/cli/deploy_report.go:178-191 | after any sequence of calls the retained tasks are those of the whole stream |
| `TopTimings.DeploymentReport.RecordAnsibleTaskBatches` | internal/cli/deploy_report.go:193-205 | likewise for batches |
| `Paths.CleanIsPlain` | internal/artifacts/builder.go:361-368 | a relative path equal to its lexical cleaning that does not start with ".." has no "..", "." or empty component |
| `Paths.PlainIsClean` | internal/artifacts/builder.go:361-368 | and conversely |
| `ArchiveExtract.ExactReader.Read` | internal/artifacts/builder.go:398-411 | never more than remains, the count exact, and the end of the source before that is an error |
| `ArchiveExtract.CopyExact` | internal/artifacts/builder.go:379-385 | for every short-read behaviour, success means exactly the declared number of bytes; unless the source fails, it succeeds exactly when they are there |
| `ArchiveExtract.PolicyConfines` | internal/artifacts/builder.go:300-314 | both allow-lists stay below fixed directories |
| `ArchiveExtract.ExtractArchive` | internal/artifacts/builder.go:316-391 | only contained paths are written and each file is one declared entry, whatever the archive; success means at most 8192 entries within both budgets, all extracted in order, and unless a host call fails exactly such archives succeed |
| `ArchiveExtract.NotExtractable` | internal/artifacts/builder.go:357-360 | an entry over either budget rules out the whole archive, so stopping there loses nothing |
| `ArchiveExtract.SourceExtractableIff` | internal/artifacts/builder.go:300-308 | what the source policy accepts: at most 8192 entries, 256 MiB, 64 MiB each, ordinary components below ansible/ or pi/kiosk/ |
| `ArchiveExtract.BuilderExtractableIff` | internal/artifacts/builder.go:310-314 | what the builder policy accepts: 32 GiB, 8 GiB each, ordinary components below generated |
| `ArchiveExtract.LastEntryWins` | internal/artifacts/builder.go:379-385 | a name that occurs more than once has the bytes of its last entry |
| `ArchiveExtract.ExtractSourceArchive` | internal/artifacts/builder.go:300-308 | nothing is written outside ansible/ and pi/kiosk/; at most 256 MiB |
| `ArchiveExtract.ExtractNativeBuilderOutput` | internal/artifacts/builder.go:310-314 | nothing is written outside generated/; at most 32 GiB |
| `WireGuardProfile.SplitEndpoint` | internal/airvpn/profile.go:87-90 | a printed endpoint splits into host and port exactly when the host has no colon |
| `WireGuardProfile.EndpointHost` | internal/airvpn/profile.go:1107-1126 | what an accepted endpoint host is |
| `WireGuardProfile.EndpointRoundTrip` | internal/airvpn/profile.go:1107-1126 | an accepted host is accepted again, unchanged, exactly when it has no colon |
| `WireGuardProfile.AddressesRoundTrip` | internal/airvpn/profile.go:1077-1105 | joined addresses are read back as the same list |
| `WireGuardProfile.ValidateAddresses` | internal/airvpn/profile.go:1077-1105 | the IPv4 addresses in order and the first of them, or an error |
| `WireGuardProfile.CheckAllowedIps` | internal/airvpn/profile.go:1011-1030 | exactly one 0.0.0.0/0 and nothing else but, when tolerant, IPv6 |
| `WireGuardProfile.ScanLines` | internal/airvpn/profile.go:941-978 | the loop over lines computes the section maps, or stops at the first refused line |
| `WireGuardProfile.CheckFields` | internal/airvpn/profile.go:979-1044 | the checks after the scan accept exactly the texts that spell a profile |
| `WireGuardProfile.ParseProfile` | internal/airvpn/profile.go:937-1048 | the imperative parser is the function that the round trip is about |
| `WireGuardProfile.ParsedIsValid` | internal/airvpn/profile.go:937-1048 | every accepted profile has clean keys, addresses, host and numbers in range |
| `WireGuardMeaning.KeyValueIff` | internal/airvpn/profile.go:957-965 | a setting is split at its first equals sign and trimmed |
| `WireGuardMeaning.ScanMeans` | internal/airvpn/profile.go:941-978 | the scan accepts exactly the lines that are comments, new sections or known keys not set yet, and finds exactly what each line sets in its section |
| `WireGuardMeaning.ParsedFieldsIff` | internal/airvpn/profile.go:937-1044 | for every input, tolerant or strict: accepted with these fields exactly when it is at most 128 KiB of well-formed lines that spell them: keys, IPv4 addresses in order, MTU 1320 and keepalive 25 or what a line says in range, the endpoint host on port 1637, one default route |
| `WireGuardMeaning.ProfileIff` | internal/airvpn/profile.go:937-1048 | the whole answer for every input: the eleven lines of the normal form and its metadata |
| `WireGuardMeaning.LineEndings` | internal/airvpn/profile.go:946-947 | line endings of either kind and a byte order mark in front make no difference |
| `WireGuardRoundTrip.EntriesAreRead` | internal/airvpn/profile.go:952-978 | any reader that stores one printed entry stores a printed section |
| `WireGuardRoundTrip.TextHasLines` | internal/airvpn/profile.go:1045-1045 | normalized text splits back into its lines, without carriage returns or a byte order mark |
| `WireGuardRoundTrip.LinesAreParsed` | internal/airvpn/profile.go:941-978 | the parser finds in normalized text the values that were printed |
| `WireGuardRoundTrip.PrintedFields` | internal/airvpn/profile.go:979-1044 | everything printed is read back as it was; the endpoint alone decides |
| `WireGuardRoundTrip.HostReadBack` | internal/airvpn/profile.go:1107-1126 | the host is read back exactly when it has no colon and no leading white space |
| `WireGuardRoundTrip.ParseIsIdempotentIff` | internal/airvpn/profile.go:937-1048 | strict parsing of any accepted profile's normalized text returns the same text and metadata exactly when it fits in 128 KiB and the host has no colon and no leading white space |
| `WireGuardRoundTrip.CollectValues` | internal/airvpn/profile.go:67-82 | the second reader's loop collects the values by section and key |
| `WireGuardRoundTrip.ReadWireGuardSettings` | internal/airvpn/profile.go:62-92 | the imperative reader is the function that the read-back is about |
| `WireGuardRoundTrip.SettingsAreRead` | internal/airvpn/profile.go:62-92 | the second reader, on the normalized text of any accepted profile, gives back every field, the host without leading white space, or refuses a host with a colon |
| `WireGuardRoundTrip.SettingsAnswer` | internal/airvpn/profile.go:62-92 | what `WireGuardSettings` answers, for every text |
| `WireGuardRoundTrip.SettingsReadBackIff` | internal/airvpn/profile.go:62-92 | `WireGuardSettings` returns the parsed fields under exactly the same condition |
| `WireGuardRoundTrip.ParsedText` | internal/airvpn/profile.go:937-1048 | what strict parsing makes of a profile laid out like the normal form, for every endpoint text |
| `WireGuardRoundTrip.UnstableProfilesOccur` | internal/airvpn/profile.go:1107-1126 | every profile with a host name is the answer to some input, and with a colon or leading white space in the host its normalized text does not read back |
| `WireGuardRoundTrip.BracketedHostIsAccepted` | internal/airvpn/profile.go:1107-1126 | the excluded hosts do occur: any bracket-free host text is accepted inside brackets |

## Left out

- SSH, the Proxmox API, Ansible, `qm`, `ip` and `bridge` themselves: they are steps that succeed, fail without effect or fail with effect.
- Ed25519, SHA-256, base64, JSON, gzip and tar framing, CIDR and IP parsing: parameters with the laws stated beside them.
- The text of shell commands, `qm config` output, tags and option strings: only their effect and their structured content.
- Clocks, timestamps, deadlines, error wording, reports other than the two top-k lists, and CLI parsing.
- The file-system races that internal/pathguard closes: its operations are taken as atomic writes and renames, and non-atomic removals.
- HTTP services, lab viewer pages, StreamDeck USB, network probes and speed measurement: plumbing around the modelled core.
- The firewall packet suite: its fixture lifecycle is a weaker copy of the lab fixture.
- Client-service reconciliation: mostly comparisons that would add easy members.
- The read side of an imported release (resolving one artifact): it repeats the digest check of the import.
- DeploySafety.LiveKeysAreJournaled: excludes the copies that committed runs left on the gateway, whose record the revocation filter skips; `CommittedRunLeavesKeyIffGatewayRearmed` says exactly when one is left behind.
- DeploySafety.RecoveryRevokesEverything: assumes the journaled Host address is still the site's, as the code demands, and leaves the gateway copies of earlier committed runs.
- ReleaseAssembly.BuildReleaseBundle: sources are fixed during the build, so the second digest check while writing never fails; the file size limit of a rewritten evidence file is the only one checked on inline members, as in the code.
- ReleaseImport.ReleaseStore.ImportReleaseBundle: the hidden staging directory is not modelled; a removal of it that fails leaves it behind.
- ArchiveExtract.ExtractEntry: that a path is already a directory counts as one of the host calls that fail.
- WireGuardProfile.ScanLines: invalid UTF-8 is not modelled.
- LabFixture.RunLabWith: the measurement is a yes-or-no answer that does not change the kernel state.
