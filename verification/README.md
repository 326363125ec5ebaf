# Release, qualification and evidence: a verified model

This project models the parts of the gripsack repository that decide whether a release may go out, and
proves what they promise. The parts are crash-safe protocols, a byte codec, resolvers and checkers over
paths, trees and graphs, and a few text algorithms. One module stands for one source file or for one of its
concerns.

- **Dispatching a release** (`ReleaseOperator`, `OperatorHost`, `Durable`). The durable request record, the
  lock, the paging reconciliation and the one POST are a state machine over volatile, durable and remote
  state. A crash may come between any two effects; a power loss may undo a rename whose directory was not
  synced. The class `Operator` is the code, and its log is proved to be a run of the machine.
- **Running a partition once** (`PartitionLifecycle`, `PartitionController`, `PartitionReports`). The
  journal, the success marker, the report, the log and the owned container, with kills, power losses and a
  clock. The class `Controller` is `execute`.
- **Publishing packages** (`ReleasePublish`, `RegistryClient`). Admission of a bundle, the retrying client,
  and the resumable loop that records only what it observed.
- **Archives** (`Ustar`, `Paths`, `ArchiveFormat`, `ArchiveStreams`, `ArchiveRoundTrip`, `ArchiveReader`,
  `ArchiveWriter`, `NameOrder`, `TextEncoding`). The USTAR Interchange Format of the pax utility in POSIX.1-2017,
  byte for byte: the writer, the bounded reader, which streams it accepts, and that one undoes the other.
- **Source aliases** (`PathResolution`, `SourceAliases`). The worklist against pathname resolution, section
  4.13 of POSIX.1-2017 Base Definitions, over numbered directories.
- **Source proofs** (`GitObjects`, `SourceProof`, `SourceRetention`, `SourceVisit`, `SourceExamples`). Git
  inclusion proofs, built and checked, under an injective digest.
- **Orders and closures** (`Digraph`, `PackageOrder`, `Delivery`, `ProofCatalog`).
- **Proof sources and results** (`TlaLexer`, `TlaSource`, `TlaTheorems`, `TlaEvidence`).
- **Small cores** (`Fields`, `CounterStore`, `CiGate`).

Where the code and what it says of itself differ, the code is modelled, the difference is shown on a
concrete input or run, and it is proved when it shows:

- A power loss between `os.replace` and the directory sync can take a request back from uncertain to
  prepared, and nothing else can. Nothing has been sent then, so the promise of one POST still holds.
- A verifier that works from a stale copy can replace a recorded run id when two runs carry one title. The id
  is replaced exactly when the adopted run is another one than the recorded, which the code does not compare.
- `reset_unfinished` unlinks the report but does not sync the directory it was in. After a power loss the
  report of an earlier container can be back and be marked as the result of the next one. A container that
  can be started can be marked with another one's report exactly when an admissible one is there then.
- `source_aliases` reports a cycle whenever a link is followed twice, also without a cycle; and it accepts a
  link target with a slash after a file, which pathname resolution refuses. An alias that the operating system
  resolves to a regular file of the source is accepted exactly if that follows no link twice and takes only what
  is tracked. An accepted alias is what the operating system finds exactly if every link that it meets as the
  last piece ends without a slash or dot.
- `retain_source` refuses empty files, which `source_proof` would accept; otherwise it builds a proof exactly
  when one from the same objects would be accepted. It also follows directories deeper than the 32 levels
  that `source_proof` allows in a whole tree.
- `source_tokens` does not count a newline after a backslash inside of a string. A token's line is right exactly
  when no string before it has one.

`dafny verify dfyconfig.toml` checks the whole project.

## Model

| member | source | states |
|---|---|---|
| ReleaseOperator.ScanPage | scripts/release_operator.py:279-285 | one page is accepted exactly when every claim on it is a valid run and all claims, with what was found before, name one run |
| ReleaseOperator.Reconcile | scripts/release_operator.py:265-288 | the paging loop is conclusive exactly when the history is complete within ten pages and all claims agree; then it names a claiming run if one is listed and none only when none is |
| ReleaseOperator.InvariantStep | scripts/release_operator.py:306-353 | every effect of any invocation, crash or power loss keeps: while any version on disk is absent or prepared, nothing was sent |
| ReleaseOperator.RunKeepsInvariant | scripts/release_operator.py:306-353 | that invariant holds in every world of every run |
| ReleaseOperator.AtMostOneDispatch | scripts/release_operator.py:336-346 | over every interleaving, crash, lost response and stale listing at most one dispatch POST is sent, and none while a version on disk says absent or prepared |
| ReleaseOperator.PostsGrow | scripts/release_operator.py:336-346 | a POST is sent from a world without one and is never forgotten |
| ReleaseOperator.BackToPrepared | scripts/release_operator.py:174-190 | only a power loss before the directory sync takes a record back to prepared, and then nothing has been sent |
| ReleaseOperator.BackToPreparedIff | scripts/release_operator.py:174-190 | an effect takes a record back exactly when it is a power loss that reveals an older, unsent version; one can be revealed only before the sync and before any POST |
| ReleaseOperator.PowerLossCanUndoUncertain | scripts/release_operator.py:174-190 | such a run exists: killed after the rename to uncertain, before the sync |
| ReleaseOperator.RecordedStep | scripts/release_operator.py:466-472 | a recorded run id is gone after an effect exactly when a verifier adopts another run, which the code does not check, or a power loss reveals a version without it |
| ReleaseOperator.StaysIff | scripts/release_operator.py:466-472 | a recorded run id stays over any part of any run exactly when none of these happens in it |
| ReleaseOperator.RunIdWriteOnce | scripts/release_operator.py:265-288 | if every run that was searched for was found in a listing that shows one run under the title, only an unsynced power loss takes a recorded run id away |
| ReleaseOperator.StaleVerifierReplacesRun | scripts/release_operator.py:454-472 | with two runs under one title a verifier holding a stale copy replaces the recorded run |
| OperatorHost.LogIsRun | scripts/release_operator.py:306-353 | whatever the code does is a run of the state machine, so all theorems about runs hold of it |
| OperatorHost.HostSendsOnce | scripts/release_operator.py:306-353 | all invocations together send at most one POST |
| OperatorHost.HostRunIdWriteOnce | scripts/release_operator.py:265-288 | every run that any invocation searched for was found in the listing it was given; so if those listings show one run under the title, only an unsynced power loss takes a recorded run id away |
| OperatorHost.DecidesOnce | scripts/release_operator.py:306-353 | the record and the answers of GitHub determine what an invocation comes to |
| OperatorHost.Operator.DispatchAdmitted | scripts/release_operator.py:306-353 | one invocation only performs allowed effects, sends at most one POST, none when the record was not prepared, and leaves the durable record that belongs to its answer: submitted after an accepted dispatch, reconciled with the run after an existing one, and the phase that it reports as unknown; it is kept waiting exactly while the lock is held, ends early only if it is killed, and otherwise comes to what the record and the answers decide: the run that is found, one accepted dispatch of a prepared request without a run, or unknown |
| OperatorHost.Operator.Submit | scripts/release_operator.py:336-353 | the uncertain record is durable before the only POST |
| OperatorHost.Operator.AdoptVerifiedRun | scripts/release_operator.py:448-473 | the record update of consumer verification sends nothing, and ends with the run that was found for the copied record durably adopted only if that was successful, or refuses |
| PartitionLifecycle.OwnedStep | scripts/local_ci_partition.py:103-151 | every effect keeps: each journal that a crash can reveal names the only existing container |
| PartitionLifecycle.TimedStep | scripts/local_ci_partition.py:232-241 | every effect keeps: all journals of an attempt that a crash can reveal agree on its one budget, which is the one its container started under |
| PartitionLifecycle.ClockedStep | scripts/local_ci_partition.py:177-181 | every effect keeps: budgets start and executions end at the monotonic clock of their boot, and a running container was started on this boot |
| PartitionLifecycle.MarkedStep | scripts/local_ci_checkpoints.py:162-214 | every effect keeps: any success marker that a crash can reveal was earned, and its files are as it records them |
| PartitionLifecycle.RunKeepsInvariant | scripts/local_ci_partition.py:184-276 | all of these hold in every world of every run |
| PartitionLifecycle.OneOwnedContainer | scripts/local_ci_partition.py:103-151 | at most one owned container exists at a time and it is the one that any surviving journal names |
| PartitionLifecycle.StartedOnce | scripts/local_ci_partition.py:232-243 | a container that was started cannot be started again |
| PartitionLifecycle.BudgetIsPermanent | scripts/local_ci_partition.py:199-243 | a start and deadline are written once: executions are never forgotten, re-timed or started again, and every journal of an existing started container carries its budget |
| PartitionLifecycle.MarkersAreEarned | scripts/local_ci_checkpoints.py:162-214 | a marker exists only after a real exit 0, no OOM kill and no error, between the start and the deadline of the original budget and on its boot, observed after that exit and before the deadline, and with an admitted report |
| PartitionLifecycle.CompletedIsImmutable | scripts/local_ci_partition.py:186-197 | once complete, no later effect changes attempt, report or log |
| PartitionController.LogIsRun | scripts/local_ci_partition.py:184-276 | whatever `execute` does is a run of the state machine |
| PartitionController.Controller.Execute | scripts/local_ci_partition.py:184-276 | one call, with kills and power losses anywhere, only performs safe effects, keeps what is complete, and returns a result only with a durable, earned marker for it and no owned container left; unless it was complete before, the result was read from the clock in this very call; a fresh result is the report of its own container; it reattaches exactly when the attempt is not given up, has this mount and its container; and it is done unless it was killed, a command failed, the log could not be read, the boot changed under the attempt, the deadline had come, or the ended container does not qualify, and after the last three the failure is journalled and no owned container left |
| PartitionController.Controller.Create | scripts/local_ci_partition.py:128-151 | a durable intent, the container, its durable identity; the journal is durable before any execution |
| PartitionController.Controller.Inspect | scripts/local_ci_partition.py:103-119 | gives the journalled container, or none only when there is none |
| PartitionController.Controller.RemoveOwned | scripts/local_ci_partition.py:122-125 | afterwards no owned container is left |
| PartitionController.Controller.JournalBudget | scripts/local_ci_partition.py:232-238 | the budget starts when the call reads the clock, on this boot, ends the timeout later, and is durable before the only start |
| PartitionController.Controller.RetainLogs | scripts/local_ci_partition.py:154-174 | exactly the retained text and the directory are durable before the marker, and nothing else changed |
| PartitionController.Controller.MarkComplete | scripts/local_ci_checkpoints.py:179-196 | the marker is written only for a qualifying result and an admitted report, and records that result and the journal, report and log as they are |
| PartitionController.Controller.Finished | scripts/local_ci_partition.py:191-197 | a completed partition is returned as recorded; only an exited container may be left and is removed |
| PartitionController.Controller.Restart | scripts/local_ci_partition.py:208-222 | a fresh attempt starts without the unfinished report, with a created container that its journal names |
| PartitionReports.MarkedReportIsOwn | scripts/local_ci_checkpoints.py:216-224 | another container's report is marked only if it was there, and admissible, when the marked container started |
| PartitionReports.EarlierReportCanBeMarked | scripts/local_ci_checkpoints.py:154-196 | an admissible report that is there when a container starts can be the one that is marked |
| PartitionReports.CanMarkForeignIff | scripts/local_ci_checkpoints.py:216-224 | so in any reachable world a container that can be started can be marked with another one's report exactly when such a report is there and admissible |
| PartitionReports.StaleReportCanBeMarked | scripts/local_ci_checkpoints.py:216-224 | three calls and a power loss, effect by effect, show it: the report of a failed attempt is unlinked but its directory not synced, the power loss brings it back, and reattachment does not reset |
| PartitionReports.BootsGrow | scripts/local_ci_partition.py:177-181 | boot identities are never reused, so a power loss shows in the boot of the observation |
| ReleasePublish.PreparePackages | scripts/release_publish.py:238-274 | accepts exactly the bundles with unique names whose payloads and metadata are as declared, whose dependency lists are exactly the bundled ones, and which list every dependency before its dependent |
| ReleasePublish.ComposeIsSublist | scripts/release_publish.py:527-540 | what is composed from completed packages is an order-preserving part of the manifest records |
| ReleasePublish.ComposeMember | scripts/release_publish.py:527-540 | a package is listed exactly when it is completed |
| ReleasePublish.ComposeComplete | scripts/release_publish.py:541-542 | as many records as packages means that all are completed |
| RegistryClient.Registry.Ask | scripts/release_publish.py:288-324 | a GET is tried at most four times, a PUT at most once; only a transient failure is tried again, it is given up only after the last attempt, and the answer is the last reply |
| RegistryClient.Registry.CrateIndex | scripts/release_publish.py:326-353 | success means that the index was received in this call with one entry of the version, the prepared crate, not yanked; it fails only for a wrong reply, four transient failures in a row, or an index that four times did not list the version; at most sixteen requests, none of them an upload |
| RegistryClient.Registry.RemoteDigest | scripts/release_publish.py:355-393 | a digest is returned only after the metadata, for a crate the index, and exactly the prepared bytes were received in this call; nothing is returned only when the registry knows no such version |
| RegistryClient.Registry.PublishPackage | scripts/release_publish.py:431-453 | at most one PUT, a constant number of requests, and success only with the prepared digest and an observation of the bytes |
| RegistryClient.Registry.CheckResume | scripts/release_publish.py:509-523 | a result is resumed exactly when it is of this bundle and lists an ordered, duplicate-free part of its records |
| RegistryClient.Registry.PublishBundle | scripts/release_publish.py:501-543 | every version ever written is an ordered part of the manifest and never lists the package in flight; complete is written only when every package was observed in this run; with both registries selected every bundled dependency was observed before an upload; a successful run leaves a result of this bundle that lists, in order, exactly the packages that were selected or resumed, complete exactly if these are all; a run that may start fails only for a reply that no further attempt can mend, a GET that failed four times in a row, an index or, after an upload, metadata that did not show the package four times, a resumed package that is gone, a changed payload or a missing token, and then the result lists exactly what had been observed up to there |
| RegistryClient.Registry.VerifyAll | scripts/release_publish.py:525-540 | the same for one pass over the manifest, whatever was resumed and selected |
| RegistryClient.PlacesAreForced | scripts/release_publish.py:514-523 | the places that the resume check finds are the only ones an ordered placement can have |
| Ustar.OctalRoundTrip | scripts/release_prepare.py:111-122 | an octal field reads back as the number written |
| Ustar.OctalLeads | scripts/release_prepare.py:111-122 | the first octal digit counts most |
| Ustar.BigEndianLeads | scripts/release_manifest.py:395 | in base 256 the first byte counts most |
| Ustar.HeaderIsUstar | scripts/release_prepare.py:111-122 | every header written has the fields of the format at their offsets: name, mode 0644, owner, size, time, type, magic, prefix, and a checksum that is the sum of the bytes with blanks in its place |
| Ustar.DecodesIff | scripts/release_manifest.py:395 | any block is read exactly if its numeric fields are numbers as Python takes them, its names are UTF-8, and its checksum is the sum of its bytes with blanks in that place, unsigned or signed |
| Ustar.DirectoryReads | scripts/release_manifest.py:395-398 | a directory's header gives the name without the slash at its end, also in the old format that marks it by the slash alone |
| Ustar.HeaderRoundTrip | scripts/release_prepare.py:119-122 | reading the header written for a name gives back the name, split over two fields or not, the size and a regular type |
| Paths.ParentIsSafe | scripts/release_manifest.py:89-94 | the ancestors of a safe path are safe |
| ArchiveFormat.AcceptedIsWellFormed | scripts/release_manifest.py:393-418 | an accepted archive leaves only safe paths below the destination, each inside directories |
| ArchiveFormat.EndBound | scripts/release_manifest.py:394-414 | the members of any stream take at most 1023 bytes each beyond their payload, within the member and byte bounds |
| ArchiveFormat.LimitAdmitsConforming | scripts/release_manifest.py:370-372 | the expansion limit refuses no archive that the member rules accept, with two zero blocks and filling to a whole record |
| ArchiveStreams.AcceptedStreamIff | scripts/release_manifest.py:385-418 | any stream, whoever wrote it, is accepted exactly if it is a layout of readable members and two or more zero blocks, whose members are files and directories of safe, different paths within the bounds, none below a file; what is extracted are exactly these files and directories and the directories above them |
| ArchiveStreams.TakenIff | scripts/release_manifest.py:395-418 | one member is taken exactly if it goes with all members before it, in whatever order they came |
| ArchiveRoundTrip.WrittenIsReadBack | scripts/release_prepare.py:109-123 | extraction of the bytes written for any admissible files gives exactly those files and the directories on the way |
| ArchiveRoundTrip.AcceptedIffConforming | scripts/release_manifest.py:393-418 | a written archive is accepted exactly when its files keep the bounds and the path rules |
| ArchiveRoundTrip.HoldsUnique | scripts/release_manifest.py:393-418 | the files determine the extracted tree |
| ArchiveReader.Stream.BoundedRead | scripts/release_manifest.py:375-382 | a read gives the next bytes within the limit, and fails only for an oversized request, a damaged stream or one beyond the limit |
| ArchiveReader.Extraction.Payload | scripts/release_manifest.py:408-414 | the block loop writes exactly the next bytes of the stream into the file |
| ArchiveReader.Extraction.Trailing | scripts/release_manifest.py:387-391 | the archive ends exactly with zeros up to the end of the stream |
| ArchiveReader.Extraction.Run | scripts/release_manifest.py:362-421 | an existing destination stays as it was; otherwise the destination ends as the whole archive or not at all; at most the limit and one block is read and at most the maximum written |
| ArchiveWriter.DeterministicArchive | scripts/release_prepare.py:109-123 | succeeds exactly for trees without links and special files whose files USTAR can carry, and writes their sorted archive |
| ArchiveWriter.ListingOrderIrrelevant | scripts/release_prepare.py:114 | the archive does not depend on the order in which the directory was listed |
| ArchiveWriter.TreeRoundTrip | scripts/release_prepare.py:109-123 | any directory tree of files and folders within the bounds is archived, accepted, and extracted to exactly its files |
| NameOrder.LessIff | scripts/release_prepare.py:114 | a name is before another exactly if it is a proper prefix or has the smaller byte where they first differ, the separator of paths being the smallest |
| TextEncoding.OrderIsCodePoints | scripts/release_prepare.py:114 | the bytes of two texts are in the order of their code points |
| TextEncoding.Utf8Iff | scripts/release_evidence.py:42 | exactly the encodings of texts can be decoded |
| NameOrder.SortAscends | scripts/release_prepare.py:114 | sorting distinct names gives them in ascending order |
| NameOrder.SortUnique | scripts/release_prepare.py:114 | the sorted order depends on the names alone |
| PathResolution.ResolvesIsReaches | scripts/release_prepare.py:46-75 | a resolution that ends at a file has had the file's name as its last piece |
| PathResolution.ReachesResolvesIff | scripts/release_prepare.py:46-75 | and if it comes to the file's name, it ends at the file exactly if every link met as the last piece before has a target without a slash or dot at its end |
| PathResolution.RepeatedNeverReaches | scripts/release_prepare.py:58-59 | a resolution that has followed a link twice has come to no last name without that, and never will |
| PathResolution.AtFolderInjective | scripts/release_prepare.py:50-67 | a directory has one path without links, so removing a name is going to the parent |
| SourceAliases.Resolve | scripts/release_prepare.py:50-72 | terminates on every finite set of links, never leaves the source, and accepts an alias exactly if step-by-step resolution comes to the name of a tracked regular file, with no link followed twice, every link on the way tracked as one and every directory entered one of tracked paths; the target is then that file, whatever else lies in the working tree |
| SourceAliases.Aliases | scripts/release_prepare.py:35-75 | the result maps exactly the tracked links, each to such a file, and is refused exactly if one of them has none |
| SourceAliases.TargetIsResolution | scripts/release_prepare.py:35-75 | the target is the file that the operating system finds exactly if every link met as the last piece has a target without a slash or dot at its end |
| SourceAliases.LostIsUnresolved | scripts/release_prepare.py:35-75 | what comes to no name of a file is no file that the operating system finds below the source without following a link twice |
| SourceAliases.RepeatedIsInaccessible | scripts/release_prepare.py:58-59 | every alias whose resolution follows a link twice is refused, with or without a cycle |
| SourceAliases.FoundIsAccepted | scripts/release_prepare.py:35-75 | an alias that the operating system resolves to a regular file below the source is accepted exactly if that follows no link twice and takes only what is tracked |
| SourceAliases.RepeatedLinkIsRefused | scripts/release_prepare.py:58-59 | on a concrete tree a link is followed twice without any cycle: the operating system resolves it and it is refused as a cycle, whatever is tracked |
| SourceAliases.TrailingSlashIsTaken | scripts/release_prepare.py:62-64 | a target with a slash after a file is refused by the operating system and accepted here |
| GitObjects.FramedInjective | scripts/release_evidence.py:33-34 | the framing with kind and length loses nothing |
| GitObjects.FramedIs | scripts/release_evidence.py:33-34 | what is hashed is the kind's word, a space, the length in decimal without leading zeros, a NUL and the bytes |
| GitObjects.SpellsIffHex | scripts/release_evidence.py:44 | the name of an object is the one text of hexadecimal digits in lower case in which every byte of the digest is sixteen times its first digit plus its second |
| GitObjects.ParseTreeIsTree | scripts/release_evidence.py:37-46 | the reader takes exactly the encodings of trees with distinct, admissible names, and gives their entries, each child named by the hexadecimal digits of its twenty bytes |
| GitObjects.TreeUnique | scripts/release_evidence.py:37-46 | an encoding has one dictionary |
| GitObjects.TreeEntries | scripts/release_evidence.py:37-46 | accepts exactly the encodings of trees and gives the mode of every entry and the hexadecimal digits of its child |
| SourceProof.DecodeTrees | scripts/release_evidence.py:56-60 | every retained tree is decoded when all have their digests, and otherwise one has not or is no tree |
| SourceProof.ConstantsSpelled | scripts/release_evidence.py:54-84 | the modes and the word before the tree are the texts of the format |
| SourceProof.BlobAtIff | scripts/release_evidence.py:74-80 | a path names a blob exactly if there are objects on the way, each a tree in which the next name is a directory, and the last a regular file |
| SourceProof.Walk | scripts/release_evidence.py:74-80 | the walk finds the blob of a regular file, or nothing |
| SourceProof.CheckFiles | scripts/release_evidence.py:73-86 | accepts exactly the proofs whose files are the listed ones, each with the bytes of its blob |
| SourceProof.CheckGiven | scripts/release_evidence.py:49-87 | accepts exactly the proofs of the files for the commit |
| SourceProof.ProofsAgree | scripts/release_evidence.py:49-87 | under an injective digest any two accepted proofs for a commit name the same tree and hold the same bytes under every shared path |
| SourceProof.SafeNamesIsSafePath | scripts/release_manifest.py:89-94 | a path is safe as a text exactly when its names are |
| SourceRetention.WalkRetaining | scripts/release_verify.py:62-75 | the cached walk finds the same blob as the repository has, and retains every tree on the way |
| SourceRetention.RetainSource | scripts/release_verify.py:37-78 | succeeds exactly when every listed path is safe and names a non-empty, bounded regular file through bounded trees, and then retains the repository's bytes |
| SourceRetention.RetainedIsAccepted | scripts/release_verify.py:37-78 | every proof built from a Git repository is accepted for its commit and files |
| SourceRetention.RetainableIffProvable | scripts/release_verify.py:48-50 | a proof can be built exactly when one made of the repository's bytes would be accepted and no listed file is empty |
| SourceVisit.Visit | scripts/release_evidence.py:62-71 | succeeds exactly on trees of directories and regular files at most 32 levels down whose order does not crowd, and then lists every file once, in that order |
| SourceVisit.CheckWhole | scripts/release_evidence.py:49-87 | an accepted proof without a file list shows every file of the tree and nothing else in it; a proof that shows this is refused exactly if a directory is entered, in the order of the encodings, when more than 4096 files are listed before it |
| SourceVisit.RetainedWholeIsAccepted | scripts/release_verify.py:57-78 | a proof of all files of a clean tree, built from a Git repository, is accepted as a proof of the whole tree |
| SourceVisit.OrderlyIsShallow | scripts/release_evidence.py:64-65 | an orderly tree has no directory more than 32 levels down |
| SourceExamples.WholeIsShallow | scripts/release_evidence.py:64-65 | a proof accepted for the whole tree has no file more than 32 directories down |
| SourceExamples.DeepFileIsRetained | scripts/release_verify.py:62-77 | a Git repository with a file 33 directories down: it is retained and accepted for that file, and no whole tree with it is ever accepted |
| SourceExamples.EmptyFileIsRefused | scripts/release_verify.py:48-50 | a Git repository with an empty file: it cannot be retained, and a proof of it from the same objects is accepted |
| Digraph.StuckIsCyclic | scripts/release_inventory.py:99-101 | where every package still depends on another one left, there is a cycle |
| PackageOrder.Emit | scripts/release_inventory.py:97-104 | terminates, reports a cycle exactly when there is one, and otherwise gives every package once, by level and name, with sorted dependencies |
| PackageOrder.EmissionUnique | scripts/release_prepare.py:98-106 | that order depends on the graph alone, so both inventories give the same and no map order matters |
| PackageOrder.LevelUnique | scripts/release_prepare.py:98-106 | the level of a package is determined by the graph |
| PackageOrder.AdmitOrder | scripts/release_manifest.py:127-141 | accepts exactly the bounded lists of distinct names in which every dependency is listed once and comes before |
| PackageOrder.EmissionIsOrdered | scripts/release_inventory.py:97-110 | what the rounds give is in dependency order, also with the SDK package after it |
| PackageOrder.EmissionIsAdmitted | scripts/release_manifest.py:127-141 | so `package_order` accepts it exactly when there are at most 4096 packages, with the SDK among them or not |
| Delivery.Peel | scripts/check_delivery.py:93-99 | terminates and reports a cycle exactly when the prerequisites have one |
| Delivery.Claimed | scripts/check_delivery.py:250-262 | terminates with exactly the least set around the claim that is closed under active prerequisites |
| Delivery.AddNeeded | scripts/check_delivery.py:254-262 | one milestone's prerequisites are added, and nothing that a closed set could do without |
| ProofCatalog.Loader.Visit | scripts/tlaps_catalog.py:65-90 | terminates; success lists the module after its imports and keeps what was listed, failure shows a reached module that is wrong or a cycle |
| ProofCatalog.LoadCatalog | scripts/tlaps_catalog.py:60-98 | accepts exactly the catalogs whose reached modules are fine and acyclic and whose registered units are the theorem-bearing ones; the sources are then the reached local modules, once, each import before its importer |
| ProofCatalog.UnitsKeepOrder | scripts/tlaps_catalog.py:82-90 | the units stand in the order in which their modules were listed |
| ProofCatalog.AdmittedIsSound | scripts/tlaps_catalog.py:92-98 | a list in dependency order that has the roots shows that there is no reachable cycle, and has exactly the reached modules |
| ProofCatalog.CycleIsUnsound | scripts/tlaps_catalog.py:70-71 | a reachable import cycle is never accepted |
| TlaLexer.SourceTokens | scripts/tlaps_source.py:19-64 | terminates, and gives the tokens and lines of the source's lexical steps, or fails where they end in a string or a comment |
| TlaLexer.StringEndIs | scripts/tlaps_source.py:42-50 | a string ends at the first quote that no odd number of backslashes stands before, and is unfinished exactly if there is none or such a newline comes first |
| TlaLexer.IdLengthIs | scripts/tlaps_source.py:55-58 | an identifier takes all the characters that it can |
| TlaLexer.ChunksJoin | scripts/tlaps_source.py:19-64 | the steps take the whole source |
| TlaLexer.TokenLines | scripts/tlaps_source.py:19-64 | tokens are in order where they say, lines do not go down, and a line is one plus the newlines before exactly when no string before it took a newline with it, and less otherwise |
| TlaLexer.LinesWithoutEscapes | scripts/tlaps_source.py:44-49 | in a source without a backslash before a newline every line is one plus the newlines before |
| TlaLexer.EscapedNewlineIsLost | scripts/tlaps_source.py:44-49 | an escaped newline in a string is not counted |
| TlaSource.CommentIsSpace | scripts/tlaps_source.py:28-41 | replacing a whole, possibly nested, comment outside of strings by a space leaves the token values, and the failure, as they were |
| TlaSource.StepLocal | scripts/tlaps_source.py:26-61 | a lexical step depends on no more than the character after it |
| TlaTheorems.ModuleDependencies | scripts/tlaps_source.py:67-82 | gives, each once, exactly the names that stand after an `INSTANCE` or in the comma chain after an `EXTENDS`, and fails exactly when a name is missing there |
| TlaTheorems.CommentKeepsImports | scripts/tlaps_source.py:67-82 | a comment more or less does not change what a module imports |
| TlaTheorems.TheoremRanges | scripts/tlaps_source.py:85-102 | the ranges of all named declarations, refused exactly when there are no tokens or a name is missing or repeated |
| TlaTheorems.DeclarationsAre | scripts/tlaps_source.py:89-95 | every keyword declares the name after it, in order and with its line, unless one has none |
| TlaTheorems.LineCountIs | scripts/tlaps_source.py:100 | the lines of a text are those that end, and one more if the last does not |
| TlaTheorems.RangesCover | scripts/tlaps_source.py:96-102 | every line from the first keyword's to the last of the text belongs to a theorem |
| TlaTheorems.RangesDisjoint | scripts/tlaps_source.py:96-102 | no line belongs to two theorems |
| TlaEvidence.Parse | scripts/tlaps_evidence.py:29-63 | accepts exactly the runs with readable blocks, one count, obligations that stay where they are, and as many of them as counted |
| TlaEvidence.AdmitPositive | scripts/tlaps_evidence.py:65-77 | accepts exactly a clean exit over the floor, with every obligation freshly proved and one inside each required theorem |
| TlaEvidence.PositiveCoversTheorems | scripts/tlaps_evidence.py:65-77 | an accepted run has a proved obligation of its own for each required theorem, so at least as many as there are theorems |
| Fields.LevenshteinIsDistance | typescript/src/fields.ts:8-25 | the recurrence is the length of a shortest script of insertions, deletions and substitutions |
| Fields.EditDistance | typescript/src/fields.ts:8-25 | the two-row loop computes that length |
| Fields.DistanceZero | typescript/src/fields.ts:8-25 | the distance is zero exactly for equal texts |
| Fields.DistanceSymmetric | typescript/src/fields.ts:8-25 | the distance is symmetric |
| Fields.TriangleInequality | typescript/src/fields.ts:8-25 | the distance obeys the triangle inequality |
| Fields.Closest | typescript/src/fields.ts:37-40 | the suggestion is the first known name at the least distance, when that is at most two |
| Fields.RejectUnknownFields | typescript/src/fields.ts:30-47 | accepts exactly known keys, and otherwise names an unknown key and its closest known name |
| CounterStore.Store.Increment | examples/hooks/counter_store.py:20-77 | a call leaves the tables and answers as specified whether it is answered, lost before the commit or after it; every failure rolls back |
| CounterStore.CalledKeeps | examples/hooks/counter_store.py:55-76 | a call keeps each counter equal to its receipts; reuse, overflow and replay change nothing, and a receipt always has its counter's row |
| CounterStore.CalledAnswers | examples/hooks/counter_store.py:20-77 | a call changes the tables exactly for a valid new identity below the limit whose commit is not lost, and then adds one to its counter and to no other; the answer says so and gives the value of the counter afterwards |
| CounterStore.HistoryConsistent | examples/hooks/counter_store.py:55-76 | after any serialized history each counter is the number of receipts for it |
| CounterStore.CountedOnce | examples/hooks/counter_store.py:58-68 | an intent changes the tables at most once |
| CounterStore.ValueIsChanges | examples/hooks/counter_store.py:58-70 | a counter's value is the number of calls that changed it |
| CounterStore.ReplayIsIdempotent | examples/hooks/counter_store.py:58-71 | a replay changes nothing and answers with the current value |
| CiGate.Admit | scripts/check_ci_gate.py:121-145 | accepts exactly the reports of all 96 partitions, each once, with one inventory per scenario |
| CiGate.CutsPartition | scripts/check_ci_gate.py:108-111 | the shards' lists are the residues: every cut of the inventory is in one list and no other |
| CiGate.EveryCutOnce | scripts/check_ci_gate.py:86-145 | in an accepted set every cut of a scenario's inventory was made by exactly one report for each fault, and no other cut was made |

## Left out

General:

- Message texts, exception classes and the order in which refusals are found: a refusal is one value where no
  caller tells them apart.
- Time as such: delays between retries, time stamps and durations. Waiting is an answer of the environment.
- File ownership, modes, descriptors and locks as system calls: the lock of a request is a holder, the rest is not
  modelled.
- Torn contents of a file that is written under a temporary name and synced before its rename.
- Digests of receipts and records are modelled by the contents that they determine; where bytes are hashed the
  digest is a function, injective by hypothesis.

Release operator and publication:

- ReleaseOperator.AtMostOneDispatch: one request identity; others share no state with it.
- ReleaseOperator.RunIdWriteOnce: under the hypothesis that the listings show one run under the title, because
  without it the claim is false, as ReleaseOperator.StaleVerifierReplacesRun shows; the exact condition is
  ReleaseOperator.StaysIff.
- OperatorHost.Operator.AdoptVerifiedRun: only the update of the record; running the consumers and the second
  reconciliation after it change nothing durable here.
- `observe`, `durations` and the host check of `release_operator.py`, and the JSON shape of its records.
- ReleasePublish.PreparePackages: what `crate_metadata` and `npm_metadata` read from a payload is a parameter.
- RegistryClient.Registry.PublishBundle: a result names packages by their names, which are unique in an admitted
  bundle; the lock on the result file and the bytes of requests are not modelled.

Partitions:

- PartitionController.Controller.Execute: Docker is an environment whose commands are atomic but may go unreported;
  labels, mounts, limits and environment of the container are one fact, that it is the journal's own.
- PartitionReports.StaleReportCanBeMarked: a run of the state machine in the order of the code; that `execute` can
  be made to perform it is not stated as a call of the method, whose contract leaves open what happens when it fails.
- PartitionLifecycle.CompletedIsImmutable: until a power loss when the marker's directory is not synced yet.
- The locks and the schema of `Checkpoints`, and the sizes of its files.

Archives and paths:

- ArchiveReader.Extraction.Run: gzip is a layer that gives the bytes or fails; a kill during extraction, which
  leaves a part of the destination, and limits of the file system are left out.
- ArchiveWriter.DeterministicArchive: file contents do not change while they are read.
- SourceAliases.Resolve: the checkout does not change while it is read; limits on the number of links that the
  operating system follows are left out.
- `cargo_inventory` before its loop, and the assembly of releases, are metadata handling.

Proofs, orders and evidence:

- SourceProof.CheckGiven: a path is the list of its names, and references are already resolved to bytes.
- SourceRetention.RetainSource: Git answers from a fixed set of objects.
- PackageOrder.Emit: on dependency maps that are closed, which both inventories check before the loop; one method
  stands for the loop that is written twice.
- ProofCatalog.LoadCatalog: what the source readers make of a module is a parameter, the schema of the catalog is
  checked before, and the floors of obligations are not used by the search.
- TlaEvidence.Parse: the blocks are already split into fields; the rejection of mutants in `mutant` is left out.
- The other checks of `check_delivery.py` and `check_ci_gate.py`, and the types of report fields.
- CounterStore.Store.Increment: SQLite commits atomically and serializes writers; the directory and file of the
  database are left out.
- Fields.Closest: the stable sort is the choice of the first least element.
- The Rust crates, the mutation and smoke runners, signing and attestation.
