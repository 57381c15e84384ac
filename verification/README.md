# Replication receiver and run controller: a verified model

This project models the parts of the ZFS replication controller whose correctness is hardest to see from any one function,
and proves what they promise.

* **Receiver Authorization Snapshots.** Candidates are compiled into grants (`Grants`), the grant set gets a canonical
  identity (`Canonical`), and one writer stages, renames, commits and cleans up generations on a disk whose every step is
  atomic and may fail or be the last (`DiskModel`, `SnapshotState`, `Publication`). `Lifetime` puts many calls and many
  crashing processes together; `Admission` lets a second process read between any two writer steps. `TaskStatus`,
  `StatusReports` and `ReceiverController` carry the result to the Receive Tasks' status, under two kinds of writers.
* **The receiver command language and the Syncoid contract.** Scanner, pipeline parser and policy check
  (`CommandParse`, `CommandAuthorize`), an exact account of what commands can be written (`CommandRoundTrip`) and of what an
  admitted plan can do (`CommandSoundness`), and both sides of the contract: what Syncoid sends for a run is what that run's
  policy admits (`SyncoidContract`, `OptionReading`, `Syncoid`, `Lexemes`, `ContractAgreement`, `DestroyAgreement`).
* **The Replication Run reconciler.** The destination lock as a state machine over all interleavings (`DestinationLock`), one
  reconcile against an arbitrary environment with a recorded trace of reads and writes (`RunApi`, `RunReconciler`), and the
  lease over time (`LeaseTiming`).
* **Schedule ticks** (`Schedule`) and the **failure message** (`Utf8`, `FailureMessage`).

Conventions. Code that updates state is a method proved against a specification function; lemmas then say what that function
means. Error texts are datatypes. Times are integers (nanoseconds). Strings are sequences of Unicode scalar values; where the
program counts bytes, `Text.ByteLength` does. An operation that can fail in the outside world chooses its failure
nondeterministically, so every theorem holds for every pattern of failures; a constant or a parameter (`faulty`, `reliable`,
`world`, `quiet`, `weather`) can rule failures out, and the same contracts then say exactly when an operation succeeds. Two
narrow failures have a switch of their own, so that a concrete run can show them: a tree removal that stops after one path
(`Disk.stuck`), and a lost status write (`StatusLost`).

One idealisation, stated in `Canonical`: SHA-256 and the JSON encoding are taken to be injective, so a grant ID is the task UID
and a snapshot ID is the canonical grant sequence. SSH key parsing and the formatting of known_hosts lines are parameters.

Findings, each with the lemma that states it and one that reaches it:

* A generation left half removed blocks its own snapshot: wanted again, it fails validation until the
  cleanup of some successful replacement, or a reset, has removed it. Without faults this is the only way a replacement fails
  (`Publication.Receiver.Replace`; `Lifetime.HalfRemovedBlocks`).
* A run created with a timestamp and name that come before a contender past the lock displaces it, and this is the only way
  (`DestinationLock.CreationDisplacesIff`; `DestinationLock.EqualTimestampDisplaces`).
* A failed fresh read together with an old cached view lets a second Job's UID overwrite the recorded one
  (`RunReconciler.IdentityKeptIff`).
* A reconcile that creates children returns before its requeue is merged with the lease's. It comes back too late for the lease
  exactly when it found the lease live with less than five seconds of the lease's own delay left
  (`LeaseTiming.InTimeIsLiveIff`; `LeaseTiming.ShortCutLapses`).
* The run controller's unchecked terminal patch can end a re-created Receive Task, exactly when that task was created after the
  copy in the controller's hand was stored (`TaskStatus.ControllerPatchLandsOnOther`, `TaskStatus.FreshTaskIsEndedIff`;
  `TaskStatus.RecreatedTaskIsEnded`).
* When Syncoid finds no compressor but still buffers, its pipeline is refused by its own run's policy
  (`ContractAgreement.ContractAdmitsReceive` says when exactly).
* A source dataset whose name begins with a plus, or with a dash and something more, is valid, and Syncoid takes it for an
  option: it refuses the vector, or is left with fewer than two datasets, and exits. A lone `-` is read as a dataset. Syncoid
  can use the vector if and only if the name is of neither kind (`ContractAgreement.ContractAdmitsReceive`,
  `Syncoid.OptionSourceIsMisread`; `ContractAgreement.MisleadingSources` has `+tank/data`, `--identifier` and `-`).
* An IPv6 receiver address goes into the target word without brackets, and Syncoid cuts the word at its first colon: it goes to
  another host, aims at another dataset, and the run's own policy refuses the pipeline. The target is found if and only if the
  address has no colon and no at-sign (`Syncoid.TargetReadIff`, `ContractAgreement.ContractAdmitsReceive`;
  `ContractAgreement.AddressMisdirects` has `fd00::1`).
* Quoting does not hide a lone `|` or a redirect word from the receiver's parser (`CommandRoundTrip.ExpressibleSteps`).
* A target named `-A`, received without options and with stderr redirected, is refused as an abort
  (`CommandSoundness.ReceiveAcceptedIffLicensed`; `ContractAgreement.DashTargetIsRefused`).
* After a failed status write, a retry under Forbid sees the run it created itself and records the tick as skipped
  (`Schedule.Scheduler.Reconcile`; `Schedule.RetrySkipsItsOwnRun`).
* A run that has waited for its destination keeps saying so: nothing clears the last error until the run ends
  (`RunReconciler.MovesOnIff`).
* Forbid looks at the cached list of runs: while that list is behind, a run can be created beside an active one
  (`Schedule.Scheduler.Reconcile`; `Schedule.StaleListCreatesBeside`).

## Model

| member | source | states |
|---|---|---|
| `Datasets.ValidByComponents` | internal/replication/replication.go:8-22 | a dataset name is valid exactly when every `/`-component is a valid component |
| `Datasets.CharacterIff` | internal/replication/replication.go:8-22 | a character by itself names a dataset exactly when it is no separator, no dot, no blank, no control character, no mark of snapshots or bookmarks, and nothing a shell takes for an operator, a substitution, a quotation or a pattern |
| `Datasets.PathRoundTrip` | internal/replication/replication.go:8-22 | a valid path, written out, is a valid name with exactly those components |
| `Datasets.ContainmentIsPathPrefix` | internal/replication/replication.go:24-28 | containment by string prefix is containment of paths, both directions, on all strings |
| `Datasets.ContainmentIsPartialOrder` | internal/replication/replication.go:24-28 | containment is reflexive, antisymmetric and transitive |
| `Datasets.OverlapIsPathPrefix` | internal/controller/zfsreplication_run_controller.go:941-943 | targets overlap exactly when one component list is a prefix of the other; overlap implies one pool |
| `Datasets.PoolIsFirstComponent` | internal/replication/replication.go:56-61 | the target pool is the first path component |
| `CommandParse.TokenizeReceiverCommand` | internal/receiverauthorization/command_parse.go:9-66 | the scanner loop computes the specification `Tokenize`, errors included |
| `CommandParse.ParseReceiverCommandStep` | internal/receiverauthorization/command_parse.go:91-122 | the step loop computes `ParseStep`: words first, then only redirects |
| `CommandParse.ParseReceiverCommandSteps` | internal/receiverauthorization/command_parse.go:68-89 | the pipeline loop computes `ParseSteps`: the parts between pipes, each parsed |
| `CommandRoundTrip.PrintedCommandParses` | internal/receiverauthorization/command_parse.go:9-122 | quoting and joining any list of well-formed steps, then tokenizing and parsing, gives exactly those steps, redirects included |
| `CommandRoundTrip.ExpressibleSteps` | internal/receiverauthorization/command_parse.go:9-122 | a list of steps is the meaning of some command line if and only if it is nonempty and its words are argument words |
| `CommandRoundTrip.CanonicalSpelling` | internal/receiverauthorization/command_parse.go:9-122 | every accepted command line has a canonical spelling with the same meaning |
| `CommandRoundTrip.TokenizedIff` | internal/receiverauthorization/command_parse.go:9-66 | a line is taken if and only if it is not blank, closes its quotes, has no backquote or dollar sign anywhere, no line end inside quotes and no `;`, `(`, `)` or `<` outside them, and each of its tokens is an argument word, a pipe or one of the three redirects |
| `CommandAuthorize.ValidateMbufferStep` | internal/receiverauthorization/command_authorize.go:243-267 | the index loop decides `MbufferStepAllowed` |
| `CommandAuthorize.CheckReceiveFlags` | internal/receiverauthorization/command_authorize.go:316-333 | the flag loop finds the first refused flag and, when there is none, whether `-u` was seen |
| `CommandAuthorize.ValidateZFSReceiveStep` | internal/receiverauthorization/command_authorize.go:295-339 | the receive check computes `ReceiveError`, which `ReceiveAcceptedIffLicensed` characterises |
| `CommandAuthorize.AuthorizeReceiverCommand` | internal/receiverauthorization/command_authorize.go:12-72 | the mutually recursive authorizer terminates and computes `Authorize`, which `CommandSoundness.AdmittedIff` and `CommandSoundness.BatchAdmittedIff` characterise |
| `CommandAuthorize.AuthorizeReceiverCommandBatch` | internal/receiverauthorization/command_authorize.go:74-101 | the batch loop computes `AuthorizeBatch`; its parts contain no `;` |
| `CommandSoundness.ReceiveAcceptedIffLicensed` | internal/receiverauthorization/command_authorize.go:295-339 | a receive step is accepted exactly when its effect is licensed bit by bit, but for the one spelling named above |
| `CommandSoundness.DestroyAcceptedIffLicensed` | internal/receiverauthorization/command_authorize.go:341-370 | a destroy step is accepted exactly when it destroys a dataset at or below the target under AllowDestroy, or only licensed snapshots of the target itself |
| `CommandSoundness.BatchIsPointwise` | internal/receiverauthorization/command_authorize.go:74-109 | a command line with `;` is admitted exactly when it is 1 to 32 commands, each admitted by itself and each a destroy; the plan is the list of theirs |
| `CommandSoundness.AnsweredIff` | internal/receiverauthorization/command_authorize.go:40-56 | the receiver answers a command itself, and as what, exactly by its words: Exit for `exit` or `exit 0`, Echo of exactly the words after `echo -n`, Lookup of exactly the named word for mbuffer or the policy's own compressor, ProcessList for `ps -Ao args=` |
| `CommandSoundness.AdmittedIff` | internal/receiverauthorization/command_authorize.go:12-72 | for every text without `;`, every policy and every plan: it is admitted as that plan if and only if it has at most 8192 bytes, the policy is usable, and its parsed words mean that plan: one of the four answers, one of the five queries or the pool query about the policy's own dataset and pool, the feature check, a licensed destroy, or a licensed receive behind nothing, a buffer, the policy's decompressor or both |
| `CommandSoundness.BatchAdmittedIff` | internal/receiverauthorization/command_authorize.go:74-109 | for every text with `;`: it is admitted as a batch if and only if it has at most 8192 bytes and is 1 to 32 commands, each admitted by itself as one licensed destroy |
| `CommandSoundness.BuffersIff` | internal/receiverauthorization/command_authorize.go:243-280 | mbuffer's words are let through exactly when they spell a list of `-q`, `-Q` and sizes for `-s`, `-m` or `-P`, in the same word or the next |
| `CommandSoundness.TableIff` | internal/syncoid/compression.go:19-112 | the table allows exactly the eleven listed decompressor calls |
| `CommandSoundness.AdmittedPlansAreLicensed` | internal/receiverauthorization/command_authorize.go:12-370 | for every string and policy: an admitted plan has at most three steps a pipeline, only the last may change anything, batches are flat, and every effect is licensed; the effect of a stage depends on all its words, and a word it cannot account for is not licensed |
| `CommandSoundness.AdmittedStagesFilter` | internal/receiverauthorization/command_authorize.go:204-293 | in every admitted plan, a stage other than zfs and zpool is an mbuffer whose every word only tunes it (no word names a file or an address), a decompressor call of the table, or one of the fixed grep and ps calls |
| `CommandSoundness.QueryAcceptedIffLicensed` | internal/receiverauthorization/command_authorize.go:161-175 | a zfs get is accepted exactly when it is one of five queries and asks about the policy's dataset |
| `CommandSoundness.AdmittedQueries` | internal/receiverauthorization/command_authorize.go:161-202 | in every admitted plan, a zfs get asks about the policy's dataset in one of the five known forms, and a zpool step is the one feature query about its pool |
| `SyncoidContract.OwnershipIsDisjoint` | internal/syncoid/contract.go:204-208 | identifiers of equal length never own the same snapshot |
| `SyncoidContract.RelationshipIdentifierValid` | internal/syncoid/contract.go:177-202 | every relationship identifier is valid and all have one length |
| `SyncoidContract.NormalizeSnapshotPatterns` | internal/syncoid/contract.go:210-221 | the nested loops compute `NormalizePatterns`, which `PatternLaws` determines |
| `Text.TrimSpaceMeans` | internal/syncoid/contract.go:213-217 | what trimming leaves neither begins nor ends with white space, and only white space was taken from the two ends |
| `SyncoidContract.PatternLaws` | internal/syncoid/contract.go:210-221 | the laws that determine the normalized patterns: pattern by pattern, line by line, and a line becomes what is left of it without the white space at its ends, or nothing |
| `SyncoidContract.TranslatedAsAsked` | internal/syncoid/contract.go:53-134 | a run is translated exactly when its datasets are valid and its compression is known; then every option and every permission of the receiver says what the spec's own field says: destruction, deletion of target snapshots and no sync snapshots only when set to true, no rollback, unmounted and resumable unless set to false |
| `SyncoidContract.Arguments` | internal/syncoid/contract.go:136-175 | the appended argument vector is `ArgumentsFor`, which `Syncoid.SyncoidReadsContract` and `Syncoid.VectorSays` read back |
| `Syncoid.SyncoidReadsContract` | internal/syncoid/contract.go:95-175 | Syncoid reads the whole vector as the settings the contract meant, unless the source name begins like an option, and then it refuses the vector or has fewer than two datasets; it finds the target in the last word exactly when the address is plain |
| `Syncoid.VectorSays` | internal/syncoid/contract.go:95-175 | for every translated run whose source does not begin like an option: a setting is read out of its vector if and only if the run's own spec asks for it, word by word, and nothing else is read |
| `OptionReading.ReadPrefix` | cmd/zfsrep-sender/testdata/syncoid-2.3.0:12-31 | whatever follows them, the words the contract spells are each read as it meant them; abbreviations, case, plus and dash, `--`, and options that take the next word are all part of the reading |
| `OptionReading.OptionLeavesFewer` | cmd/zfsrep-sender/testdata/syncoid-2.3.0:12-31 | any word that begins like an option, before one dataset, is refused or leaves at most that one |
| `OptionReading.DoubleDashEnds` | cmd/zfsrep-sender/testdata/syncoid-2.3.0:12-31 | a source named `--` ends the options and leaves the target as the only dataset |
| `Syncoid.OptionSourceIsMisread` | cmd/zfsrep-sender/testdata/syncoid-2.3.0:24-83 | with such a source name the whole vector is refused or leaves fewer than two datasets, where Syncoid needs exactly two |
| `Syncoid.TargetReadIff` | cmd/zfsrep-sender/testdata/syncoid-2.3.0:1784-1799 | the host and the dataset written into the last word are read out of it exactly when the host has no colon and no at-sign |
| `Syncoid.AddressIsCut` | cmd/zfsrep-sender/testdata/syncoid-2.3.0:1792-1799 | a host with a colon is cut at the first one, and the rest of it goes to the dataset |
| `Lexemes.RenderedCommandParses` | internal/receiverauthorization/command_parse.go:9-122 | blank-separated text with quoted words, trimmed or not, is read as the steps its tokens spell |
| `ContractAgreement.TableAgrees` | internal/syncoid/compression.go:19-112 | for every supported compression the decompressor Syncoid picks is one the table allows |
| `ContractAgreement.ReceiveCommandParses` | cmd/zfsrep-sender/testdata/syncoid-2.3.0:908-933 | the receive pipeline text Syncoid assembles is parsed as exactly the steps it means, for any target that is one word |
| `ContractAgreement.ReceiveCommandAdmittedIff` | internal/receiverauthorization/command_authorize.go:204-339 | for all settings and policies, that pipeline is admitted if and only if target, mounting, resume, rollback and each stage are granted |
| `ContractAgreement.ContractAdmitsReceive` | internal/syncoid/contract.go:53-175 | for every translated run: Syncoid can use that run's own argument vector if and only if the source name does not begin like an option; it then finds the run's target if and only if the receiver's address is plain; and the pipeline built from it is admitted under the run's own policy if and only if the address is plain and it does not buffer without the agreed compressor; `SyncoidContract.TranslatedAsAsked` ties both sides to the run's spec |
| `ContractAgreement.MisleadingSources` | cmd/zfsrep-sender/testdata/syncoid-2.3.0:12-83 | three translated runs: from `+tank/data` the vector is refused, from `--identifier` no dataset is left, from `-` it is read as it was meant |
| `ContractAgreement.AddressMisdirects` | internal/controller/sender_job.go:34-39 | for every translated run whose receiver is at fd00::1: Syncoid goes to the host fd00, aims at a dataset that begins with `:1:`, and the run's policy refuses the pipeline |
| `ContractAgreement.DashTargetIsRefused` | internal/receiverauthorization/command_authorize.go:295-308 | a translated run with target `-A` whose plain receive is granted in every respect and refused as an abort |
| `DestroyAgreement.PruneAdmittedIff` | cmd/zfsrep-sender/testdata/syncoid-2.3.0:1690-1722 | a prune command is admitted exactly when it has at most 32 destroys and every snapshot is licensed |
| `DestroyAgreement.PruneBatchesKeep` | cmd/zfsrep-sender/testdata/syncoid-2.3.0:1690-1722 | the batches hold 1 to 11 snapshots each and together exactly the given ones |
| `DestroyAgreement.ContractAdmitsPruning` | internal/syncoid/contract.go:53-93 | every prune batch of snapshots named `syncoid_<the run's identifier>_...` is admitted exactly when the run makes sync snapshots or may delete target snapshots |
| `DestroyAgreement.ContractAdmitsCleanup` | internal/syncoid/contract.go:53-93 | listed-snapshot deletion, forced destroy and abandoned receive are admitted when the run's own options ask for them, and the last two only then |
| `DestroyAgreement.RunAdmitsDestroys` | internal/syncoid/contract.go:53-134 | for every translated run, from its own spec: pruning its sync snapshots is admitted exactly unless `noSyncSnap` is true and `deleteTargetSnapshots` is not, the forced destroy exactly when `forceDelete` is true, abandoning a receive exactly unless `receiveResumable` is false, and deleting listed snapshots when `deleteTargetSnapshots` is true |
| `DestroyAgreement.AbortAdmittedIff` | internal/receiverauthorization/command_authorize.go:295-308 | an abandoned receive is admitted exactly for the policy's dataset under a resumable policy |
| `DestroyAgreement.ForceDestroyAdmittedIff` | cmd/zfsrep-sender/testdata/syncoid-2.3.0:600-616 | the forced destroy, trailing separator included, is admitted exactly under AllowDestroy at or below the target |
| `Grants.CompileCandidates` | internal/receiverauthorization/grant.go:69-126 | the loops over candidates and owner maps, in any map order: a candidate is accepted exactly when it is eligible and shares no UID or key; accepted candidates and grants correspond one to one, and each grant carries its own candidate's canonical key, expiry and every permission, an empty compression becoming `none` |
| `Grants.RejectAmbiguous` | internal/receiverauthorization/grant.go:102-119 | exactly the indices that share a claim with another index are rejected |
| `Grants.JudgedSound` | internal/receiverauthorization/grant.go:128-196 | a candidate by itself is accepted exactly under the listed conditions, the lease in (now, now + 35 min] among them |
| `Grants.AcceptedExactly` | internal/receiverauthorization/grant.go:69-151 | a candidate is accepted exactly when it is valid by itself and no other submitted index, valid or not, shares its UID or canonical key |
| `Grants.RejectedDeservedly` | internal/receiverauthorization/grant.go:69-196 | every reason given for a rejection is true of its candidate; a shared key is reported before a shared UID, and both before anything else |
| `Grants.AcceptedDistinct` | internal/receiverauthorization/grant.go:120-124 | accepted grants have pairwise distinct nonempty UIDs and distinct keys |
| `Grants.AddingIsIsolated` | internal/receiverauthorization/grant.go:69-126 | adding a candidate that shares no UID or key with candidate i leaves i's verdict unchanged |
| `Grants.ReorderedGrants` | internal/receiverauthorization/grant.go:69-126 | the accepted grants are the same set in every order of submission |
| `Canonical.CanonicalIsSorted` | internal/receiverauthorization/snapshot.go:210-221 | the canonical sequence is sorted and a permutation of the grants |
| `Canonical.IdentityIsTheGrantSet` | internal/receiverauthorization/snapshot.go:210-221 | two grant lists have one identity exactly when they hold the same grants |
| `Canonical.ExpiryIsNeverLate` | internal/receiverauthorization/snapshot.go:246-250 | sshd accepts a published key exactly before the deadline's own second begins, so never at or after the deadline |
| `Canonical.OwnSecondIsTooLate` | internal/receiverauthorization/snapshot.go:246-250 | publishing the deadline's own second would be accepted at the deadline |
| `Canonical.ManifestListsGrants` | internal/receiverauthorization/snapshot.go:223-256 | the lines of a rendered manifest and the grants correspond one to one: each line has its grant's key, its own task's ID, the header's snapshot ID, and an expiry sshd accepts only before that grant's deadline |
| `ManifestText.IdentityText` | internal/receiverauthorization/snapshot.go:264-274 | an identity is exactly `snapshot-` and 64 lower-case hexadecimal digits |
| `ManifestText.HeaderRoundTrip` | internal/receiverauthorization/snapshot.go:223-274 | a manifest text parses to an identity exactly when it is the rendering of that valid identity |
| `DiskModel.Disk.RemoveTree` | internal/receiverauthorization/snapshot.go:599-626 | removal goes path by path, children first, in any order, and may stop anywhere; nothing outside the tree changes |
| `SnapshotState.SoundMeans` | internal/receiverauthorization/snapshot.go:320-357 | in a sound state a present manifest names a generation with an identical manifest copy and exactly the grants of that identity |
| `SnapshotState.PublishingKeepsSound` | internal/receiverauthorization/snapshot.go:314-316 | renaming a fully staged generation into place keeps every state sound and makes it complete |
| `SnapshotState.CommitKeepsSound` | internal/receiverauthorization/snapshot.go:384-386 | renaming a complete snapshot's manifest over the old one keeps the state sound |
| `SnapshotState.ShrinkingKeepsSound` | internal/receiverauthorization/snapshot.go:390-410 | removing any part of a generation that is not active keeps the state sound |
| `Publication.ActiveGenerationStays` | internal/receiverauthorization/snapshot.go:390-410 | while the manifest stays, every path of its generation stays with the same content |
| `Publication.Receiver.Reset` | internal/receiverauthorization/snapshot.go:46-60 | every state of a reset is sound and, once the manifest is gone, has none; on success nothing of the runtime directory is left; only a fault makes it fail |
| `Publication.Receiver.ReadGenerationGrants` | internal/receiverauthorization/snapshot.go:565-597 | success returns exactly the grants stored, each under its own ID; a published generation is unreadable only by a fault |
| `Publication.Receiver.ValidateGeneration` | internal/receiverauthorization/snapshot.go:320-357 | without a fault, a generation passes exactly when it is complete |
| `Publication.Receiver.ActiveUsable` | internal/receiverauthorization/snapshot.go:62-92 | without a fault, the snapshot is usable exactly when there is a manifest; usable means published and complete |
| `Publication.Receiver.MaterializeGeneration` | internal/receiverauthorization/snapshot.go:276-318 | success implies a complete generation; without a fault it fails exactly when an incomplete one is in the way; in every state on the way the manifest is untouched and the disk sound |
| `Publication.Receiver.CommitManifest` | internal/receiverauthorization/snapshot.go:359-388 | the manifest switches once, at the rename; only a fault makes the commit fail, and then the manifest never changed |
| `Publication.Receiver.CleanupRetiredGenerations` | internal/receiverauthorization/snapshot.go:390-410 | cleanup leaves the manifest alone in every state; without a warning, which takes a fault, only the active generation is left |
| `Publication.Receiver.Activate` | internal/receiverauthorization/snapshot.go:164-208 | failure leaves the manifest as it was in every state; success switches it once to the canonical snapshot, and Changed says whether it differed; without a fault it succeeds exactly when no incomplete generation of that identity is in the way |
| `Publication.Receiver.RecordAndReturnPreviouslyObservedLapses` | internal/receiverauthorization/snapshot.go:129-142 | returns the earlier lapses and adds exactly this call's |
| `Publication.FilterInPlace` | internal/receiverauthorization/snapshot.go:144-152 | compacting the array in place keeps exactly the grants that have not lapsed, in order |
| `Publication.NextLeaseDeadline` | internal/receiverauthorization/snapshot.go:154-162 | the loop finds the minimum expiry, none for no grants |
| `Publication.PublishedAdmits` | internal/receiverauthorization/snapshot.go:210-256 | when the compiled snapshot is published, the manifest's lines and the grant files both correspond one to one to the accepted, unlapsed candidates: each line admits its candidate's canonical key to the grant of its own task until the second of its deadline begins, and that grant holds its own permissions |
| `Publication.Receiver.Replace` | internal/receiverauthorization/snapshot.go:106-127 | an error leaves the manifest unchanged and says truly whether it is usable; success publishes exactly the accepted, unlapsed candidates: each line of the manifest carries one candidate's canonical key, its own task's ID, the snapshot's ID and an expiry accepted only before its deadline, each grant file one candidate's permissions; the outcomes say which, and the next deadline is the first of theirs; without a fault it succeeds exactly when no half-removed generation of that identity is in the way |
| `Lifetime.OutcomeIffGranted` | internal/receiverauthorization/snapshot.go:106-127 | a candidate's outcome is empty exactly when the published snapshot holds a grant for its UID |
| `Lifetime.LapsedIsRefused` | internal/receiverauthorization/snapshot.go:108-152 | a UID submitted with a passed expiry, in this call or an earlier one, is neither granted nor accepted |
| `Lifetime.ResubmissionKeepsIdentity` | internal/receiverauthorization/snapshot.go:106-127 | the same candidates in any order at the same instant ask for the same snapshot |
| `Lifetime.ReplaceTwice` | internal/receiverauthorization/snapshot.go:106-127 | a successful replacement by any permutation right after a successful one reports no change |
| `Lifetime.Serve` | internal/receiverauthorization/snapshot.go:108-152 | over any calls, clocks and failures of one process, once a UID has lapsed no later call accepts it and no snapshot published by a later call holds a grant for it; every such snapshot was on the disk; without faults every call is answered |
| `Lifetime.RunProcesses` | internal/receiverauthorization/snapshot.go:44-60 | over any number of processes, from any sound directory, each of which may die in any state: every state of the directory is sound, and lapses are permanent within each process, in outcomes and in published grants |
| `Lifetime.HalfRemovedBlocks` | internal/receiverauthorization/snapshot.go:314-410 | a run of three replacements on a disk whose cleanup stops after one path: the first snapshot, asked for again, fails |
| `Admission.RequireActiveSnapshot` | internal/receiverauthorization/authorization.go:121-141 | success names an instant at which the expected snapshot was active |
| `Admission.VerifySnapshotGrantSet` | internal/receiverauthorization/snapshot.go:550-597 | success means that the generation's directory once listed exactly the IDs of the snapshot's grants and each of their files held that very grant, so a set read back different is refused; with nothing changing, verification of the active snapshot succeeds, unless a read fails |
| `Admission.ReadGrantPolicy` | internal/receiverauthorization/authorization.go:237-277 | the policy returned is that of the snapshot's grant with the referenced ID, valid at the sampled clock; with nothing changing the answer is exact |
| `Admission.Admit` | internal/receiverauthorization/authorization.go:81-119 | a returned plan implies that at the recheck instant the referenced snapshot is active and holds the grant, unexpired at the sampled clock, and the command is authorized under exactly its policy; with nothing changing and reliable reads the answer for a valid grant is exactly the authorizer's |
| `Admission.AdmitDuringRun` | internal/receiverauthorization/authorization.go:81-119 | the same against any run of writer processes, from any sound directory, however many commits, cleanups and crashes fall between the reads |
| `Admission.AdmittedIsLicensed` | internal/receiverauthorization/authorization.go:81-119 | an admitted plan does only what the active snapshot's one grant with that ID licenses |
| `ReceiverController.ListReceiveTaskCandidates` | cmd/zfsrep-receiver/main.go:264-288 | the two slices stay parallel and hold exactly this node's nonterminal tasks, in order, each candidate with its task's own UID, key, expiry and policy and the receiver's prefixes |
| `ReceiverController.AuthorizationController.HandlePublicationFailure` | cmd/zfsrep-receiver/authorization_controller.go:133-145 | an unusable snapshot ends startup or is fatal; a usable one is retained |
| `ReceiverController.AuthorizationController.Reconcile` | cmd/zfsrep-receiver/authorization_controller.go:74-131 | one reconcile, the status patches included: Ready is written only for UIDs the snapshot now published grants, and each such task is let in with its own key, until its own deadline, for what its own spec permits within the receiver's prefixes; the next wake is never, at once or after exactly the time left, as the first granted lease requires; no retry is asked for only when all retired generations are gone, and without faults exactly when every listed task was there to be told; when nobody interferes every listed task that is still there ends Ready or Failed, Ready exactly when that snapshot grants it, a refused one with the reason it was refused for, and no other task changes; startup is told the result, and success only with a complete snapshot; an intact snapshot on a disk without faults is never fatal |
| `ReceiverController.ReconcileAll` | cmd/zfsrep-receiver/authorization_controller.go:55-145 | over startup and any number of reconciles, with other writers of the statuses in between: startup is told the result of the first reconcile and of no other, the first is never fatal, and every Ready written for a UID follows a state of the directory whose published snapshot granted that UID |
| `StatusReports.TaskStore.PatchTask` | cmd/zfsrep-receiver/main.go:290-341 | whatever other writers do between the read and the patch, Ready is recorded only for the UID it was owed to; when nobody interferes exactly the addressed task, if it has not ended, says the verdict, and an error is returned exactly when it is absent |
| `StatusReports.TaskStore.ReportAll` | cmd/zfsrep-receiver/authorization_controller.go:99-111 | the reports in order: an error does not stop the others; when nobody interferes every addressed task says its verdict, no other task changes, and there is no error exactly when every addressed name is there |
| `TaskStatus.ReceiverPatchIsExact` | cmd/zfsrep-receiver/main.go:290-341 | a receiver patch lands only on the very version it read: the same incarnation, still nonterminal |
| `TaskStatus.TerminalStaysTerminal` | internal/controller/zfsreplication_run_controller.go:848-866 | whoever writes, a terminal incarnation stays terminal |
| `TaskStatus.TerminalForGood` | cmd/zfsrep-receiver/main.go:290-341 | in every interleaving, an incarnation once terminal is gone, replaced or terminal still |
| `TaskStatus.ReadyFollowsSnapshot` | cmd/zfsrep-receiver/authorization_controller.go:99-111 | in every interleaving, whenever Ready is written for a UID, some earlier state of the receiver's directory had a published snapshot with a grant for that very UID |
| `TaskStatus.ControllerPatchLandsOnOther` | internal/controller/zfsreplication_run_controller.go:848-866 | after any execution, the controller's patch stores a version of an incarnation other than the one it was computed from if and only if there is a task under that name, it was created after the copy in the controller's hand was stored, and the copy does not already say what the patch says |
| `TaskStatus.FreshTaskIsEndedIff` | internal/controller/zfsreplication_run_controller.go:848-866 | after any execution, that patch ends a fresh task if and only if the task was created since, is not terminal, and the copy's phase is not the one patched |
| `TaskStatus.RecreatedTaskIsEnded` | internal/controller/zfsreplication_run_controller.go:848-866 | a run of steps in which a re-created task is ended by a patch meant for its predecessor |
| `DestinationLock.DestinationLocked` | internal/controller/zfsreplication_run_controller.go:921-939 | the loop finds a blocking run exactly when one is listed |
| `DestinationLock.BlocksIff` | internal/controller/zfsreplication_run_controller.go:921-955 | a run holds another back exactly when it is another run that has not ended, receives on the same node with one component list a prefix of the other, and has started, or else was created earlier; without two different creation times the names decide |
| `DestinationLock.CreationDisplacesIff` | internal/controller/zfsreplication_run_controller.go:945-955 | in any state of an execution nothing past the lock is locked; after a creation, with any timestamp, something is, if and only if the new run comes before a contender past the lock |
| `DestinationLock.CreationKeepsInvIff` | internal/controller/zfsreplication_run_controller.go:945-955 | a creation keeps the invariant exactly when it is dated and the new run comes before no contender past the lock |
| `DestinationLock.LaterCreationIsSafe` | internal/controller/zfsreplication_run_controller.go:945-955 | creation in order of timestamp and name respects every contender past the lock |
| `DestinationLock.StepKeepsInv` | internal/controller/zfsreplication_run_controller.go:64-81 | every step of every interleaving keeps the lock's invariant |
| `DestinationLock.LockIsSafe` | internal/controller/zfsreplication_run_controller.go:64-81 | in every reachable state no two contenders are past the lock, and none past it is locked |
| `DestinationLock.NeverPushedBack` | internal/controller/zfsreplication_run_controller.go:64-81 | a started run is never put back to Pending |
| `DestinationLock.WaitingPointsBack` | internal/controller/zfsreplication_run_controller.go:945-955 | waiting always points to an earlier run, so it has no cycles |
| `DestinationLock.SomeRunIsFree` | internal/controller/zfsreplication_run_controller.go:921-955 | the earliest waiting run is held back only by runs past the lock, and some active run is always free |
| `DestinationLock.EqualTimestampDisplaces` | internal/controller/zfsreplication_run_controller.go:945-955 | in the state three actual steps reach, a newcomer with the started run's timestamp displaces it exactly when its name is the smaller |
| `RunReconciler.Reconciler.ReconcileRunReceiveTaskLease` | internal/controller/zfsreplication_run_controller.go:405-451 | a renewal is written exactly as `Lease` calls for on a fresh read of the run's own task; in a store at rest the answer is `LeaseIn` |
| `RunReconciler.Reconciler.EnsurePreSenderChildren` | internal/controller/zfsreplication_run_controller.go:314-403 | children count as present only when both were read, are the run's own, and carry one public key; in a store at rest exactly then, and otherwise the missing child is made or the mismatch refused |
| `RunReconciler.Reconciler.ReadyReceiveTask` | internal/controller/zfsreplication_run_controller.go:583-668 | a task counts as ready only after fresh reads show it the run's own, Ready, unexpired and filled in, and its exact Pod ready; in a store at rest exactly then |
| `RunReconciler.Reconciler.EnsureRunKnownHosts` | internal/controller/zfsreplication_run_controller.go:670-699 | known_hosts equals the endpoint's line, or was just rewritten to it |
| `RunReconciler.Reconciler.ReceiveTaskEligibleForSender` | internal/controller/zfsreplication_run_controller.go:227-246 | the same task UID is read afresh, nonterminal and unexpired |
| `RunReconciler.Reconciler.EnsureSenderStarted` | internal/controller/zfsreplication_run_controller.go:160-225 | a sender Job is asked for only last, with the whole evidence before it, in order, and from a current view only after ReceiverReady, the Pod and the address are recorded; in a store at rest exactly when every stage allows it |
| `RunReconciler.Reconciler.FinishFromSenderJob` | internal/controller/zfsreplication_run_controller.go:248-284 | the run ends as the Job did; Succeeded needs a Job with successes and no failure; in a store at rest a failed Job whose message can be read ends it as Failed with that message, a successful one as Succeeded, and the task is marked to match |
| `RunReconciler.Reconciler.BindSenderJobIdentity` | internal/controller/zfsreplication_run_controller.go:546-562 | binding writes the Job's UID exactly when the local view has none |
| `RunReconciler.Reconciler.Reconcile` | internal/controller/zfsreplication_run_controller.go:48-151 | sender gate and execution identity for one reconcile: every Job request follows the evidence; with a known view a recorded UID stays, no Job is asked for, and another or no Job ends the run as Failed; Succeeded is written only from an owned Job with the recorded UID; in a store at rest a Job is asked for if and only if the run is free, unbound and every stage allows it; past the lease it asks to come back no later than the lease allows, except from the branch that creates children; every expiry it writes is one lease after the clock read just before; from a current view of a store at rest its whole move is `Ruled`: an ended run marks its task Completed or Failed to match and deletes the Secret, an invalid one ends as Failed, one behind the destination lock waits as Pending, names a listed run that blocks it and comes back after five seconds, and a free one moves as `MoveIn` says; start and completion times are written once |
| `RunReconciler.MovesOnIff` | internal/controller/zfsreplication_run_controller.go:82-151 | a free run becomes Succeeded exactly by an owned Job with the recorded or a first UID that has successes and no failure, and Running exactly by one that has not ended while the lease is not refused; after asking for its sender it comes back within a second; while it goes on its last error stays what it was |
| `RunReconciler.ReconcileAll` | internal/controller/zfsreplication_run_controller.go:82-131 | over any number of reconciles from any cached views, with fresh reads succeeding, the UID is written once and no Job is asked for afterwards |
| `RunReconciler.ChainIsLawful` | internal/controller/zfsreplication_run_controller.go:546-562 | write-once statuses and requests made in time give a lawful trace |
| `RunReconciler.IdentityKeptIff` | internal/controller/zfsreplication_run_controller.go:878-887 | the recorded UID survives every possible Job exactly when the fresh read succeeded or the local view already carried it |
| `LeaseTiming.RenewalMovesForward` | internal/controller/zfsreplication_run_controller.go:405-464 | a lease is held or renewed exactly while live, and a renewal moves it strictly forward |
| `LeaseTiming.OutlivesIff` | internal/controller/zfsreplication_run_controller.go:433-451 | the lease outlives the next reconcile exactly when that one is less than ten minutes late |
| `LeaseTiming.LeaseNeverLapses` | internal/controller/zfsreplication_run_controller.go:405-478 | over any sequence of reconciles with the outcomes `Reconcile` promises, each less than ten minutes later than asked and none from the short branch: a lease live at the first is live at every one, and its expiry never goes back |
| `LeaseTiming.InTimeIsLiveIff` | internal/controller/zfsreplication_run_controller.go:140-151 | every reconcile less than ten minutes later than asked finds the lease live, if and only if this one did not create children with less than five seconds of the lease's delay left |
| `LeaseTiming.ReconcileRounds` | internal/controller/zfsreplication_run_controller.go:48-151 | the rounds of actual reconciles, from any cached views, are of that kind: in time and off the short branch they keep the lease live throughout |
| `LeaseTiming.ShortCutLapses` | internal/controller/zfsreplication_run_controller.go:140-142 | a reconcile against a concrete store that takes the short branch, and a next one in time that finds the lease lapsed |
| `LeaseTiming.HorizonToleratesFiveMinutes` | internal/receiverauthorization/grant.go:189-194 | every expiry a reconcile writes, creating the task or renewing it, is one lease after the clock it had just read, and passes the receiver's horizon exactly when the receiver's clock is at most five minutes behind that one |
| `Schedule.DueAndNext` | internal/controller/cron.go:20-28 | for any schedule, the loop terminates with the last tick in (last, now], if any, and the first tick after it all |
| `Schedule.DueIsDetermined` | internal/controller/cron.go:20-28 | the tick found due does not depend on where the search started |
| `Schedule.Scheduler.PruneTerminalRuns` | internal/controller/zfsreplication_schedule_controller.go:178-218 | deletes ended runs of one kind, each older than every one that stays, down to the limit exactly, and nothing else |
| `Schedule.OlderByTimes` | internal/controller/zfsreplication_schedule_controller.go:195-218 | of two ended runs the one without any time is the older, then the one completed earlier (created, if it has no completion time), then the one created earlier, then the one first by name |
| `Schedule.OlderIsStrictOrder` | internal/controller/zfsreplication_schedule_controller.go:195-211 | this is a strict total order on runs of different names, so the oldest are determined |
| `Schedule.Scheduler.HasActiveRun` | internal/controller/zfsreplication_schedule_controller.go:142-153 | reports exactly whether the cached list has a labelled run that is active |
| `Schedule.Scheduler.Reconcile` | internal/controller/zfsreplication_schedule_controller.go:30-97 | only the due tick is recorded; a run is created only for it, only when it has none, and under Forbid only when the cached list shows no labelled run active; an invalid or suspended schedule creates nothing; only ended runs are dropped; in fine weather the tick is recorded, its run exists or was skipped, and of each kind of ended run exactly as many are left as the limit allows; in any weather the ones dropped are older than every one that stays; with the status write lost all but the record is done |
| `Schedule.LastTimeNeverGoesBack` | internal/controller/zfsreplication_schedule_controller.go:55-97 | from any view the recorded tick never goes back while the clock has reached it, and from a current view it goes strictly forward |
| `Schedule.ReconcileAll` | internal/controller/zfsreplication_schedule_controller.go:30-97 | over any reconciles at nondecreasing clocks, from any cached last time and any cached list, in any weather, from an empty store: the last schedule time never decreases, no tick ever has two runs, and every run is created when its tick has none |
| `Schedule.RetrySkipsItsOwnRun` | internal/controller/zfsreplication_schedule_controller.go:55-97 | two reconciles, the status write lost in the first: the second finds the run the first created, makes none and records the tick as skipped |
| `Schedule.StaleListCreatesBeside` | internal/controller/zfsreplication_schedule_controller.go:73-97 | two reconciles under Forbid with nothing going wrong: the list of the second is behind, and a second active run is created beside the first |
| `Utf8.ValidIffEncoded` | internal/syncoidruntime/runtime.go:91-102 | bytes are valid exactly when they encode some string, as section 3 of RFC 3629 defines it |
| `FailureMessage.RepairKeepsValid` | internal/syncoidruntime/runtime.go:91-93 | a valid message is not changed by the repair |
| `FailureMessage.CharacterIsKept` | internal/syncoidruntime/runtime.go:91-93 | a character at the front is kept, and what follows is repaired by itself |
| `FailureMessage.RunBecomesOne` | internal/syncoidruntime/runtime.go:91-93 | a whole run of bytes at which no character begins becomes one replacement character, and what follows is repaired by itself |
| `FailureMessage.FieldsAreLaid` | internal/syncoidruntime/runtime.go:91-95 | the fields are the words of the message, all of them and in order, each from one space to the next |
| `FailureMessage.OneLineIsSingle` | internal/syncoidruntime/runtime.go:91-95 | the joined fields are one line with single blanks, empty exactly when nothing but space was said |
| `FailureMessage.NormalizeFailureMessage` | internal/syncoidruntime/runtime.go:91-102 | the loop terminates with the whole line, or its longest valid prefix within 4096 bytes, at most 3 bytes shorter |
| `FailureMessage.FailedOutcome` | internal/syncoidruntime/runtime.go:80-89 | the published message is nonempty, one line, valid UTF-8 and at most 4096 bytes; the exit code is the given one if that is positive, and 1 otherwise |

## Left out

- Kubernetes client plumbing, RBAC, manifests, logging, manager and sshd startup, process execution, SSH key generation: I/O and libraries whose code is not part of this model.
- SSH public-key parsing and known_hosts formatting: parameters (`KeyReader`, `HostLine`).
- JSON encoding of grants and SHA-256: the ideal identity of `Canonical`; grant files hold grants, and a torn file does not decode.
- Symlink, mode and ownership checks, and anyone but the receiver writing to the runtime directory. An absent path is always reported as absent.
- Lexicographic order of hashed grant IDs: the model sorts by UID; no theorem depends on which total order it is.
- Calendar formatting of the OpenSSH expiry and the forced-command text of manifest lines: a line is its fields; `ManifestText` covers the header as text.
- Raw command bytes that are no UTF-8: a command is a sequence of characters.
- Reading options under a locale, and a number that ends in a line break; Syncoid's privilege elevation, its send side, how it reaches a source named like a remote one, and the dataset queries it makes: not needed for the two sides to agree.
- ContractAdmitsReceive: admission for a host of other characters than those of addresses and host names is left open; the program checks only that the host is not empty.
- Agreement with POSIX shell quoting: it does not hold, see the findings.
- Whether a spec is valid beyond the parts `Translate` checks (`validateRunSpec`): a flag of the reconciler.
- A run object re-created under its name during a reconcile, garbage collection after its deletion, and cached nonterminal views of a terminal run: the reconciler's theorems speak of one run object.
- The message chosen among terminated sender Pods: an arbitrary text that may fail to be read.
- Endpoint, host key and Pod fields of a task's Ready status: whether they already match, so that nothing is sent, is left open in `PatchTask`.
- The receiver's directory changing while statuses are patched: one process writes both, one after the other.
- LeaseNeverLapses: that a renewal, once written, is what the next reconcile reads is part of its premise, and so is a next reconcile at all; nobody else writes a task's expiry in the program, but a user may.
- What makes a schedule's spec invalid (concurrency policy, history limits, the cron text): one of the three answers `Spec` allows.
- The schedule's other cached reads: whether a tick's run exists, and which ended runs there are to prune, are read from the store itself.
- Injectivity of run names: `nameOf` is a parameter; two ticks of one name would share one run.
- Execution of admitted plans: `CommandSoundness` gives each argument vector its meaning.
- Eventual success of a replacement whose generation was left half removed: it does not hold, and `Publication.Receiver.Replace` says exactly when a replacement succeeds.
- OutcomeIffGranted: says whether, not why, a candidate is refused; `Grants.RejectedDeservedly` and `Lifetime.LapsedIsRefused` say why.
