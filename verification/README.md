# Works on my whiteboard: verified models

This project models the parts of the repository whose correctness finite tests cannot settle, and proves
their central properties for all inputs, all runs and, where other parties act, all interleavings. It
checks with `dafny verify dfyconfig.toml`.

## What is modelled

**Durable publication** (`DurableDisk`, `CrashRecovery`, `AnchoredDirectory`, `WriteForecast`, `ImmutableWrite`,
`WriteMishaps`, `PublishSnapshot`, `SnapshotConflict`). The disk is a map of inodes, the live and the durable directory entries and the entry changes not yet synced. A
writer acts on it through a directory handle whose oracle decides, at every operation, which steps other
writers and foreign programs take first, whether the operation fails, and whether a failing operation took
effect all the same, perhaps with an error that echoes the effect. `ImmutableWrite` is the staged no-replace
write, step by step. Its contract, `Reported`, ties result, error and directory together, and names the
only two mishaps that go unnoticed; `WriteForecast` tells from the starting disk and the oracle whether the
write succeeds, where it stops otherwise, and what its error mentions. `DurableDisk` proves what every interleaving and every crash point
keeps, and `CrashRecovery` that writers can go on after any number of crashes. A foreign program that edits the directory outside the protocol sets a
`tampered` mark, and no promise about the target is made from there on.

**The error walk** (`ErrorWalk`, `ErrorClass`, `ErrorTree`). An untrusted error value is seen only through
a function that unwraps one step, so it may be cyclic or branch without end. The stack walk is proved
against the preorder of its unfolding, and every class against a description by paths.

**Releases** (`Evidence`, `ReleaseContract`, `ReleaseBuild`, `ReleaseAudit`, `ReleaseRoundTrip`,
`ManifestRead`, `CanonicalText`, `InputDigest`). Builder and auditor are modelled separately, as the
repository writes them, and meet in the predicate `Bound`. Each kind of diagnostic is proved to be reported
exactly when it is warranted, and reporting nothing to be equivalent to `Bound` and an exhaustive store.

**Diffs and reports** (`Decimals`, `RecordDiff`, `SnapshotDiff`, `DiffText`, `MarkdownTable`, `ClaimMarkers`).

**Rate limiting** (`GoNumbers`, `EagerBucket`, `TokenBucket`, `ReferenceBucket`, `KeyedBuckets`,
`LimiterRuns`, `Limiter`). The meaning of a bucket is an eager one that lives through every nanosecond. The
lab's lazy class is proved equal to it in 64-bit arithmetic that is checked not to wrap, and the composed
limiters are proved equal to state machines over eager buckets.

**Graphs, aliases, matrix, scheduler** (`Ordering`, `DependencyCycle`, `CatalogGraph`, `Alias`, `Matrix`,
`LogicalTime`, `Runner`).

Code that changes state step by step is a class or a method with loops here too, and is proved against a
specification function; the theorems are lemmas about those functions. Branches that the proofs show to be
unreachable are kept as `assert false`.

## Properties that do not hold as stated

- `RetryAfter` is not always a wait after which the same request succeeds. It is, exactly when all missing
  intervals together fit a `time.Duration` (`EagerBucket.RetryAfterExact`); `EagerBucket.RetryAfterCanOverflow`
  is a run of a new bucket on which the advised retry is rejected as an overflow.
- The bucket and the reference bucket agree on a run exactly when every proper request comes within a
  `time.Duration` of the grid point before the previous one (`ReferenceBucket.AgreeOnRuns`);
  `ReferenceBucket.ImplementationsDiffer` is a run on which the bucket refuses what the reference grants.
- An extra observation can change later outcomes. It changes none in a run exactly when every call it could
  matter to, up to the first within reach of the bucket left alone, comes no earlier than the observation, and
  those before that one stay out of reach with it too (`EagerBucket.ExtraObservation`, for one later observation `EagerBucket.ObservationIsInvisible`);
  `EagerBucket.ObservationCanRescue` is a pair on which it does.
- `Installed` may be false although the target is this writer's file: exactly when the link fails after taking
  effect on a free target and the look that should reconcile it fails too. The error then says that
  reconciliation failed (`ImmutableWrite.Install`; for the whole write `WriteMishap(…) == Slipped`, a function
  of the starting disk and the oracle). `WriteMishaps.InstallUnnoticed` is such a run.
- A leftover temporary file may be missing from the error: exactly when its create failed after taking effect,
  since that failure alone is reported without a cleanup (`ImmutableWrite.CreateStep`; for the whole write
  `WriteMishap(…) == Stranded`). `WriteMishaps.LeaveFileBehind` is such a run.
- A table cell does not always tell the value it prints: a line break and the text `<br>` look alike
  (`MarkdownTable.BreakCollides`). Values are printed alike exactly when they agree up to that and up to how
  their lines end (`MarkdownTable.CellTellsValue`).
- The dependency-cycle diagnostic cannot be produced: every edge of a graph built from a catalog leads to a
  lower kind of node (`CatalogGraph.DependencyCycleOf`).

## Model

| member | source | states |
|---|---|---|
| ImmutableWrite.WriteNoReplaceWithParent | internal/immutablefile/write.go:242-394 | Under any faults, cancellation and interference: nil comes exactly in the runs in which nothing stands in the way (`Unhindered`), and otherwise the stage and the causes of the error, and the number of operations, are those that `WriteEnding` tells from the starting disk and the oracle; an ordinary conflict returns the bare sentinel, joined only by a failed close. `Result.Installed` equals the error's, a target published before or during the write is never changed, installed means the target is this writer's file, nil means it is durable under no other name, and an "exists" error means there is a target. A leftover goes unnamed, and an installation unnoticed, exactly in the runs that `WriteMishap` tells. Unless the error mentions a failed removal or directory sync, or the create stranded its file, no crash brings a temporary name back |
| WriteForecast.SucceedsExactly | internal/immutablefile/write.go:242-394 | The write ends well if and only if the caller's arguments are in order, the target is free when looked for and when linked, the last draw creates a file, and no operation of the way through fails, is cut short or finds the context cancelled, the close of the parent included |
| WriteMishaps.DisturbOnce | internal/immutablefile/write.go:242-394 | A run of the whole write for every turn that may be disturbed: a disturbance at its k-th operation ends it at that operation's stage, and without one it publishes durably and returns nil |
| WriteMishaps.DisturbCleanup | internal/immutablefile/write.go:300-307 | Runs in which the cleanup is disturbed too: the close, the removal or the directory sync takes over the stage, the last one to fail |
| ImmutableWrite.CreateStep | internal/immutablefile/write.go:288-291 | A failed create ends the write without a cleanup, at its own stage; it leaves a file exactly if the last draw, which is determined by the starting disk and the oracle, took effect on a free name |
| AnchoredDirectory.Directory.CreateTemp | internal/immutablefile/write.go:121-140 | At most 128 draws, as many as find their name taken; which disk the last one meets is a function of the starting disk and the oracle, and it alone decides between a new file, a stranded one and nothing |
| WriteMishaps.LeaveFileBehind | internal/immutablefile/write.go:288-291 | A run of the whole write that ends at the create stage with its file in the directory and not in the error |
| WriteMishaps.InstallUnnoticed | internal/immutablefile/write.go:349-359 | A run of the whole write from an empty directory that reports nothing installed while the target is its file, whether the link's error says "exists" or not |
| ImmutableWrite.Install | internal/immutablefile/write.go:144-174 | A true result comes exactly with a link that worked, or took effect and is seen by the second look; a false one means the target is not this file, except exactly when the link fails after taking effect on a target that is free once the others have acted, and the second look fails; then the error says that reconciliation failed. What the error mentions is told from the disk met and the oracle |
| ImmutableWrite.Reconcile | internal/immutablefile/write.go:155-174 | Installed exactly when the link succeeded or the target turns out to be the expected file; nil only when both; the leaves of the error for every combination |
| ImmutableWrite.CleanupFailure | internal/immutablefile/write.go:538-558 | The result and the error keep the installed flag and every leaf of the original error; the stage and what is added are exact: a second removal only after a refused first one, each refusal and a failed sync named, the last failure giving the stage. Other files stay untouched, and the temporary file is gone for good, also after a crash, or the error says what failed |
| ImmutableWrite.FillTemporary | internal/immutablefile/write.go:309-326 | Success, exactly when none of its turns fails or is short, leaves a temporary file with the whole data; any failure is fully reported, with the stage and the causes foretold for it |
| ImmutableWrite.SealTemporary | internal/immutablefile/write.go:327-348 | Success, exactly when none of its turns fails and the file is regular, leaves a synced, inspected temporary file with the whole data, not yet linked; any failure is fully reported, with the stage and the causes foretold for it |
| ImmutableWrite.InstallTemporary | internal/immutablefile/write.go:349-359 | Not installed is fully reported, with the exists sentinel joined exactly to a link conflict; installed leaves the target and the temporary name bound to the file |
| ImmutableWrite.RemoveStep | internal/immutablefile/write.go:366-371 | Called only once the target's entry is on stable storage; success leaves the target as the file's only name, failure keeps the temporary name on record |
| ImmutableWrite.Settle | internal/immutablefile/write.go:360-393 | Nil exactly when no install error is left over and the anchor, the context, both directory syncs and the removal give no trouble; otherwise the stage and the causes foretold; in any case nil means that every recovery has the target |
| ImmutableWrite.CloseParent | internal/immutablefile/write.go:263-278 | The deferred close keeps the whole report; its own failure joins the error, or is one at its own stage if there was none |
| AnchoredDirectory.Directory.LinkNames | internal/immutablefile/write.go:144-174 | The link never replaces a target; what it answers is determined by the disk met and the oracle; after an error it happened exactly if the call took effect on a target that was free once the others had acted, even when the error says that the name exists |
| DurableDisk.StepKeepsSound | internal/immutablefile/write.go:242-394 | Every protocol step keeps a target complete, synced and bound as it was |
| DurableDisk.RunKeepsSound | internal/immutablefile/write.go:242-394 | Over every interleaving of writers the disk stays sound and an existing target is never rebound |
| DurableDisk.CrashSafety | internal/immutablefile/write.go:242-394 | At any crash point of any interleaving the recovered target is absent or holds one writer's whole payload |
| DurableDisk.PublishedIsForever | internal/immutablefile/write.go:366-393 | A durable target survives every later run and the crash after it as the same file |
| DurableDisk.GuaranteeIsRely | internal/immutablefile/write.go:242-394 | Every step of one writer keeps what any other writer at work relies on |
| CrashRecovery.RecoveryKeepsSound | internal/immutablefile/write.go:242-394 | Whatever a crash leaves of a sound disk is sound again, with the same target or none, and with it if it was durable |
| CrashRecovery.SomethingRecovers | internal/immutablefile/write.go:242-394 | Every sound disk can be recovered |
| CrashRecovery.LifeKeepsSound | internal/immutablefile/write.go:242-394 | Over every interleaving of writers' steps with any number of crashes, a target is always one writer's whole payload |
| CrashRecovery.SuccessIsForever | internal/immutablefile/write.go:366-393 | A durable publication stays the same whole file, on stable storage and under no other name, through every later life with crashes |
| CrashRecovery.OneInstallerForever | internal/immutablefile/write.go:349-359 | After one writer's durable success, across crashes, nobody else finds the target to be theirs |
| DurableDisk.DurableMeans | internal/immutablefile/write.go:366-393 | Once durable, every recovery has the target with the writer's whole payload, under no other name |
| DurableDisk.NoTraceMeans | internal/immutablefile/write.go:538-558 | Once the directory has forgotten a writer's temporary names, no recovery has one of them for a file of its |
| DurableDisk.AtMostOneInstaller | internal/immutablefile/write.go:349-359 | Two writers that each find the target to be theirs, at any two points of a run, are the same writer |
| PublishSnapshot.PureConflictIsSafe | internal/release/storage.go:718-747 | A certified pure conflict means this writer installed nothing, left nothing behind, and the target is another writer's complete, synced file |
| PublishSnapshot.ConflictClass | internal/immutablefile/write.go:282-283 | The error of a write that finds the target taken stays within the inspection budget and is a pure conflict, or one with an additional failure exactly if closing the parent failed too |
| PublishSnapshot.PublishManifest | internal/release/storage.go:77-127 | Write and classification together: no error exactly for an unhindered run, a pure conflict whenever the target is found taken and the parent closes, and a pure conflict is safe in the sense above |
| PublishSnapshot.SuccessOutlivesCrashes | internal/immutablefile/write.go:242-394 | A write that returned nil has published its payload for good, whatever writers and crashes follow |
| PublishSnapshot.WriteManifest | internal/release/storage.go:95-125 | The joined error is nil exactly when the write is unhindered and both verifications and the close succeed; it is recognised as a pure conflict exactly when the writer's error is one and nothing else failed, which is so whenever the target is found taken and nothing fails, and then retrying is safe |
| SnapshotConflict.IsPureSnapshotExists | internal/release/storage.go:695-716 | On any error graph, also a cyclic one, true exactly when fewer than 64 unary wrappers enclose the certificate |
| SnapshotConflict.RecognisedExactly | internal/release/storage.go:108-125 | Joined with any other failure a certified conflict is no longer recognised |
| ErrorWalk.Inspection.Inspect | internal/release/storage.go:749-801 | Terminates on any error graph with visited plus stacked nodes within the limit; malformed exactly when the unfolding exceeds depth 64 or 256 nodes; otherwise the analysis is the fold over the whole unfolding |
| ErrorWalk.Inspection.AppendChildren | internal/release/storage.go:803-818 | Pushes all causes in order when they fit the remaining budget, and marks the walk malformed exactly when they do not |
| ErrorClass.ClassifyManifestWriterError | internal/release/storage.go:718-747 | The class is the one read off the whole unfolding, which `ClassExactly` describes by paths; malformed exactly when it exceeds the budget |
| ErrorClass.ClassExactly | internal/release/storage.go:718-866 | Every class, told by what unwrapping reaches: unsafe exactly if an unsafe path, an invalid write or a lookalike is reached, with an operational companion exactly if anything else that failed is; an impure conflict exactly if an exists value but no unsafe one is reached and the conflict is not pure; operational exactly if neither is |
| ErrorClass.PureExistsExactly | internal/release/storage.go:718-866 | Pure exists if and only if every reached value is benign (leaves are the three exists sentinels, writer errors are not installed, agree with the result and stand at validate-path or install) and exactly one path leads to a writer error |
| ErrorTree.MentionedIsReached | internal/release/storage.go:749-866 | Every leaf of an error value is reached by unwrapping |
| ErrorTree.ReachedIsMentioned | internal/release/storage.go:749-866 | Every leaf reached by unwrapping is one that the error value carries |
| ErrorTree.JoinLeaves | internal/immutablefile/write.go:472-487 | Joining and double wrapping carry exactly the leaves of their arguments |
| EagerBucket.RunConserves | labs/primitives/token-bucket/bucket.go:57-115 | Over every run tokens are conserved (initial plus refill ticks is available plus granted plus capped off) and stay within capacity |
| EagerBucket.WindowRateBound | labs/primitives/token-bucket/bucket.go:57-115 | In every window [t1, t2] of every run, from any bucket, at most the capacity plus the refill grid points in (t1, t2] is granted |
| EagerBucket.CallsRateBound | labs/primitives/token-bucket/bucket.go:57-115 | Any stretch of calls whose first one is decided is granted at most the capacity plus the grid points after that call |
| EagerBucket.AvailableMeans | labs/primitives/token-bucket/bucket.go:85-95 | An observation that is answered reports the number n such that a request at that instant is granted if and only if it is for at most n tokens |
| EagerBucket.RemainingMeans | labs/primitives/token-bucket/bucket.go:57-83 | The tokens a decision leaves are what the next request at that instant could take, and with what was granted they make up what was there; only a denial advises a wait |
| EagerBucket.StepCases | labs/primitives/token-bucket/bucket.go:57-115 | A call is rejected for its amount, for going back in time or for being out of reach, in this order, without changing the bucket, and is answered otherwise |
| EagerBucket.RetryAfterExact | labs/primitives/token-bucket/bucket.go:70-82 | After a denial no shorter wait is granted; waiting exactly that long is granted if and only if the missing intervals fit a Duration |
| EagerBucket.RetryAfterCanOverflow | labs/primitives/token-bucket/bucket.go:117-129 | A run of a new bucket: after a denial the request is rejected as an overflow once the advised wait is over |
| EagerBucket.ObservationIsInvisible | labs/primitives/token-bucket/bucket.go:97-115 | An extra observation leaves a later outcome as it was if and only if that one fits without it or does not fit even with it |
| EagerBucket.ObservationCanRescue | labs/primitives/token-bucket/bucket.go:97-115 | An observation that turns a later overflow into an answer |
| EagerBucket.ExtraObservation | labs/primitives/token-bucket/bucket.go:85-115 | For every run of calls, an extra observation before it changes none of its decisions and errors if and only if it is harmless, a condition on the calls' instants and the grid alone |
| EagerBucket.HarmlessBeforeOverflow | labs/primitives/token-bucket/bucket.go:85-115 | It is harmless whenever the run goes on from there and reaches no overflow |
| TokenBucket.LazyRefill | labs/primitives/token-bucket/bucket.go:97-115 | Whole intervals since the anchor, capped, are what an eager bucket gains tick by tick |
| TokenBucket.Bucket.ObserveLocked | labs/primitives/token-bucket/bucket.go:97-115 | The lazy observation equals the eager one in state, error and remainder, and keeps the anchor on the creation grid |
| TokenBucket.Bucket.Take | labs/primitives/token-bucket/bucket.go:57-83 | State, decision and error equal the eager bucket's |
| TokenBucket.Bucket.Available | labs/primitives/token-bucket/bucket.go:85-95 | State, count and error equal the eager bucket's, whose count is what a caller can take (`EagerBucket.AvailableMeans`) |
| TokenBucket.Bucket.New | labs/primitives/token-bucket/bucket.go:40-55 | A valid configuration creates a full bucket whose grid starts there; an invalid one says which part is |
| TokenBucket.RetryAfter | labs/primitives/token-bucket/bucket.go:117-129 | The saturated time to the needed grid point, with no intermediate overflow |
| ReferenceBucket.Reference.Take | labs/primitives/token-bucket/run.go:277-311 | The reference implementation computes the reference function |
| ReferenceBucket.AgreeOnRequest | labs/primitives/token-bucket/run.go:277-311 | One request: same decision or error, and matching states, exactly when it is improper, goes back in time or is within a Duration of the anchor |
| ReferenceBucket.AgreeOnRuns | labs/primitives/token-bucket/run.go:257-311 | Whole runs: identical decisions and errors if and only if the instants of the proper requests stay within a Duration of the grid point before the previous one |
| ReferenceBucket.ImplementationsDiffer | labs/primitives/token-bucket/run.go:257-311 | A run from a new bucket on which the two differ |
| KeyedBuckets.Projection | labs/scenarios/distributed-rate-limiter/limiter.go:87-100 | In any interleaving of keys the decisions for one key, and its final bucket, are those of one bucket fed only that key's requests |
| KeyedBuckets.KeyBound | labs/scenarios/distributed-rate-limiter/limiter.go:87-100 | In every window [t1, t2] of every run, from any buckets, one key is granted at most the capacity plus its bucket's grid points in (t1, t2], and nothing without a bucket |
| KeyedBuckets.TotalBound | labs/scenarios/distributed-rate-limiter/limiter.go:261-289 | In every window of every run, from any buckets, n keys together are granted at most n times a capacity plus a token per interval begun |
| KeyedBuckets.FreshKeysEmptyTheirBuckets | labs/scenarios/distributed-rate-limiter/limiter.go:271-289 | n new keys are granted n capacities at one instant, which attains the bound |
| LimiterRuns.OnlyHealthyRequestsCount | labs/scenarios/distributed-rate-limiter/limiter.go:67-101 | Over any run with outages and toggles, buckets and healthy replies are those of the healthy requests alone |
| LimiterRuns.TenantSeesOneBucket | labs/scenarios/distributed-rate-limiter/limiter.go:129-203 | A tenant's shared decisions equal those of one bucket fed only the tenant's healthy requests |
| LimiterRuns.OutagesLeaveNoTrace | labs/scenarios/distributed-rate-limiter/limiter.go:129-148 | Removing all outage requests from a run changes neither the coordinator's state nor a healthy request |
| LimiterRuns.ReplyMeans | labs/scenarios/distributed-rate-limiter/limiter.go:165-203 | Which requests are refused for which reason, and which are answered without the coordinator: exactly the proper ones during an outage, allowed exactly under fail-open, with the documented reason |
| LimiterRuns.AnswerMeans | labs/scenarios/distributed-rate-limiter/limiter.go:165-203 | An answer's remaining count is what the tenant could take next at that instant, and its wait is one before which the same request is not granted |
| LimiterRuns.GrantedExactly | labs/scenarios/distributed-rate-limiter/limiter.go:165-203 | In every window, granted is what the coordinator grants, plus under fail-open exactly what is asked during outages |
| LimiterRuns.SharedBound | labs/scenarios/distributed-rate-limiter/limiter.go:165-203 | In every window of every run, from any coordinator, fail-closed grants a tenant at most the capacity plus its bucket's grid points in the window; fail-open exceeds that only by the window's outage amounts |
| LimiterRuns.NewTenantBound | labs/scenarios/distributed-rate-limiter/limiter.go:165-203 | A tenant first seen within the window is granted a token per full interval only |
| LimiterRuns.PerNodeBound | labs/scenarios/distributed-rate-limiter/limiter.go:250-289 | In every window of every run, from any buckets, per-node limiting grants a tenant at most its allowance times the nodes it uses in the window |
| LimiterRuns.NodeAnswerMeans | labs/scenarios/distributed-rate-limiter/limiter.go:250-289 | The same of an answer of a node's own limiter |
| LimiterRuns.NewLimiterBound | labs/scenarios/distributed-rate-limiter/limiter.go:250-289 | From a new limiter whose requests fall within the window each node adds full intervals only |
| LimiterRuns.PerNodeBoundIsAttained | labs/scenarios/distributed-rate-limiter/limiter.go:250-289 | n fresh nodes grant one tenant n capacities at one instant, which attains the bound |
| Limiter.BucketTable.Take | labs/scenarios/distributed-rate-limiter/limiter.go:87-100 | Creating and taking in place equals the keyed specification; other keys' buckets are untouched |
| Limiter.SharedCoordinator.Take | labs/scenarios/distributed-rate-limiter/limiter.go:67-101 | Refuses exactly the invalid inputs, leaving state alone, and otherwise takes from the tenant's bucket |
| Limiter.AvailabilityCoordinator.Take | labs/scenarios/distributed-rate-limiter/limiter.go:129-148 | Unavailable exactly for a valid request while down, and then the delegate is untouched |
| Limiter.CoordinatedLimiter.Allow | labs/scenarios/distributed-rate-limiter/limiter.go:165-203 | State and reply equal the system's step under either policy |
| Limiter.PerNodeLimiter.Allow | labs/scenarios/distributed-rate-limiter/limiter.go:250-289 | State and reply equal the per-node step |
| DependencyCycle.FirstDependencyCycle | internal/validator/graph.go:165-199 | A nonempty result is a closed walk of real edges without repeats; an empty one comes exactly for an acyclic graph and yields a topological order |
| DependencyCycle.OrderedIsAcyclic | internal/validator/graph.go:165-199 | A graph with a topological order has no cycle |
| CatalogGraph.BuildRequiredDependencyGraph | internal/validator/graph.go:124-163 | The edges are exactly the catalog's requirements; each node has its targets sorted, as often as its manifest lists them |
| CatalogGraph.TargetsExactly | internal/validator/graph.go:124-163 | An edge is wanted if and only if a manifest requires it: a case its principles and labs, a principle its labs, a lab the required adapters of its runs, through aliases |
| CatalogGraph.DependencyCycleOf | internal/validator/graph.go:116-122 | No catalog's graph has a cycle |
| Alias.NewAliasSet | internal/catalog/alias.go:25-88 | With well-formed entries it fails exactly when some kind's aliases form a cycle, which is exhibited from the named key on; otherwise every alias leads, link by link, to its recorded terminal, and the entries are sorted |
| Alias.Resolution.CacheTerminal | internal/catalog/alias.go:59-80 | The memoised resolution of an alias is the end of its chain, or a cycle through the key that is named |
| Alias.LeadsOnce | internal/catalog/alias.go:59-80 | Naive chain following ends at one place only |
| Alias.ResolvedIsAcyclic | internal/catalog/alias.go:82-87 | Aliases that all lead somewhere contain no cycle |
| Alias.ResolveIsIdempotent | internal/catalog/alias.go:124-132 | An unsupported kind is refused; otherwise resolving follows the chain to an id that is no alias, so resolving again changes nothing |
| Alias.ValidateCanonical | internal/catalog/alias.go:96-122 | Succeeds exactly when no alias shadows a canonical id and every terminal is one of its own kind; otherwise names the first offender in order and why |
| Alias.CanonicalAliases | internal/catalog/alias.go:96-132 | After validation succeeds every alias resolves to a canonical id of its own kind and canonical ids are fixed points |
| Matrix.BuildRequiredMatrix | internal/validator/matrix.go:23-187 | A cell is in the matrix if and only if a valid run of an eligible lab requires it (`IsRequired`, over the catalog alone): with its lab, run, binding and claim ids, workload, faults and assertions, as the run's baseline, one of its variants or a required adapter; no six-field key twice, strictly increasing in the releases' canonical order |
| Matrix.CellExactly | internal/validator/matrix.go:97-166 | The cells emitted for a lab are exactly the required ones, role by role |
| Matrix.AppendRun | internal/validator/matrix.go:136-166 | One cell per baseline, variant and required adapter; the duplicate-key branch is unreachable |
| Matrix.RunCellsDistinct | internal/validator/matrix.go:97-166 | The cells of a run have distinct keys and name their lab and a run id that occurs once |
| Matrix.CheckRun | internal/validator/matrix.go:70-134 | A run is kept exactly when its id is unique, its binding fits, its selections are distinct implementations and its adapters are distinct and usable |
| Matrix.FieldsBeforeIsLess | internal/validator/matrix.go:176-185 | The matrix comparison is the lexicographic order that releases require |
| Runner.Run | labs/harness/runner.go:22-110 | For a valid specification the result is the meaning of the one schedule of its events; the clock-advance failure is unreachable |
| Runner.OneSchedule | labs/harness/runner.go:37-45 | Events with distinct keys have one schedule, however they are listed |
| Runner.RunsInOrder | labs/harness/runner.go:37-45 | Earlier events run first, at one instant by phase, within a phase by sequence number |
| Runner.ListingIrrelevant | labs/harness/runner.go:37-110 | The result is the same for every permutation of the events |
| Runner.ValidityIgnoresListing | labs/harness/runner.go:125-197 | A valid specification stays valid under every permutation of its events |
| Runner.PassedMeans | labs/harness/runner.go:63-109 | Passed if and only if every action and assertion succeeds, and then every event ran and the run ends at the start plus the largest offset |
| Runner.FailedRun | labs/harness/runner.go:63-74 | A run whose k-th action is the first to fail ends there: k + 1 events executed, the clock at that event, the state that action left, no assertions and one diagnostic that names the event |
| Runner.FinishedRun | labs/harness/runner.go:82-109 | A run without a failing action checks every assertion on the final state: results in order with their ids and messages, a stock message for a blank failure, and one diagnostic for each failing assertion, in order |
| Runner.ValidateSpec | labs/harness/runner.go:125-197 | Accepts exactly the specifications with stable identities, a positive deadline, valid events with distinct keys, and distinct assertions |
| LogicalTime.EventTimeRepresentable | labs/harness/runner.go:199-205 | Adding and taking back an offset works exactly when the instant is representable |
| ReleaseContract.ValidateManifest | internal/release/validate.go:14-53 | Accepts exactly the manifests whose header and selections are valid, new and each after its predecessor |
| ReleaseContract.ValidateExpectedCells | internal/release/validate.go:88-114 | Accepts exactly the valid, distinct, canonically ordered cells of one profile |
| ReleaseContract.RecordMatchesExpected | internal/release/validate.go:218-270 | True exactly for a sealed, safe, passed record that repeats its definition, and tells unsafe text apart |
| ReleaseContract.CompareCellRole | internal/release/validate.go:328-340 | The sign is the lexicographic order of the seven fields |
| ReleaseContract.BeforeMeans | internal/release/validate.go:328-340 | The order compares lab, run, binding, claim, implementation, adapter and role, the first difference deciding |
| ReleaseBuild.Build | internal/release/build.go:10-83 | Succeeds exactly when every expected cell has a matching record among equally many coherent ones; the manifest then binds a permutation of the records, and the extra-cells and final validation failures are unreachable; every refusal names something that is wrong with the inputs |
| ReleaseBuild.OrderIrrelevant | internal/release/build.go:21-45 | Whether a manifest can be built does not depend on the order of the records |
| ReleaseBuild.BoundUnique | internal/release/build.go:47-82 | Two snapshots bound over the same records, in any order, are the same |
| ReleaseBuild.BoundRebuilds | internal/release/build.go:47-82 | The records of any bound snapshot, in any order, build exactly its manifest |
| ReleaseBuild.ValidateBoundSnapshot | internal/release/audit.go:253-280 | Accepts exactly manifests, cells and records that agree position by position |
| ReleaseAudit.AuditSnapshot | internal/release/audit.go:38-217 | A diagnostic is reported if and only if what it says is so (`Warranted`, over the manifest, the definitions and the store alone), as often as it is found and in canonical order; the snapshot is returned exactly when the store holds a bound snapshot with no other record of its run set, which is exactly when nothing is found and nothing fails |
| ReleaseAudit.FoundExactly | internal/release/audit.go:46-205 | For each of the 26 kinds of diagnostic, when it is found: missing evidence, for example, exactly if some selection names the record and loading it fails as not found, and neither as unusable nor by cancellation |
| ReleaseAudit.StorePrints | internal/release/audit.go:331-368 | Missing evidence, unusable evidence and unusable history are reported, with the code and message printed for each, exactly for the failures of the store that mean so |
| ReleaseAudit.OperationalExactly | internal/release/audit.go:106-205 | The audit is not carried out exactly if there is no store to load from, or a load or the listing was cancelled, failed as an I/O error or failed for an unknown reason |
| ReleaseAudit.CleanExactly | internal/release/audit.go:46-205 | Finding nothing, operably, is equivalent to a bound snapshot in an exhaustive store |
| ReleaseAudit.Align | internal/release/audit.go:207-251 | After a clean audit alignment and binding always succeed |
| ReleaseAudit.ClassifySelected | internal/release/audit.go:331-350 | A load failure is always reported, as a diagnostic or as operational, and cancellation is only operational; which diagnostic it is, `StorePrints` says |
| ReleaseAudit.ClassifyList | internal/release/audit.go:352-368 | A listing failure is always reported, as a diagnostic or as operational, and cancellation is only operational; which diagnostic it is, `StorePrints` says |
| ReleaseRoundTrip.BoundIsAccepted | internal/release/audit.go:106-217 | A bound snapshot whose records are the store's records of their run set is accepted and returned |
| ReleaseRoundTrip.AcceptedRebuilds | internal/release/build.go:10-83 | Whatever an audit accepts rebuilds exactly the audited manifest |
| ReleaseRoundTrip.BuildThenAudit | internal/release/build.go:10-83 | A built manifest audits without diagnostics and binds its own inputs |
| ReleaseRoundTrip.AuditThenBuild | internal/release/audit.go:38-217 | Building from what an audit returned reproduces the manifest |
| ManifestRead.ReadManifestBytes | internal/release/storage.go:270-306 | The buffered loop computes the specified outcome within the size limit; the no-room branch is unreachable |
| ManifestRead.Buffer.Append | internal/release/storage.go:308-329 | Appends in place or after growing, never beyond the limit |
| ManifestRead.ReadsExactly | internal/release/storage.go:270-306 | However the reader cuts a file up, it is read exactly if it fits and refused otherwise |
| ManifestRead.StopsAt | internal/release/storage.go:270-306 | The first reply after which reading does not go on decides how it ends: cancelled, a dishonest count, too large, the data up to there at the end of the file, a failure, or no progress |
| ManifestRead.NeverTooLong | internal/release/storage.go:270-306 | No reader makes it return more than the limit |
| CanonicalText.Encode | internal/release/canonical.go:21-45 | The canonical text exactly for valid manifests |
| CanonicalText.SelectionSpelled | internal/release/canonical.go:31-43 | Which field each value of a selection is written under, in order |
| CanonicalText.GoldenText | internal/release/canonical_test.go:17-32 | The frozen example of the format, byte for byte |
| CanonicalText.TextRoundTrip | internal/release/canonical.go:21-65 | A line parser inverts the encoding, including quoted words and the empty adapter id |
| CanonicalText.TextIsInjective | internal/release/canonical.go:21-65 | Two valid manifests have the same text only if they are equal |
| CanonicalText.AcceptedTextsAreUnique | internal/release/canonical.go:67-164 | Accepted texts are equal exactly when their manifests are, and each has one meaning |
| CanonicalText.UnquotedIsString | internal/release/canonical.go:55-65 | An unquoted value is plain-safe and resolves to no null, boolean, integer or float under section 10.3.2 of YAML 1.2.2 |
| CanonicalText.Decode | internal/release/canonical.go:67-164 | Around any YAML reader, only canonical text is accepted, and all of it that the reader understands; size and non-canonical refusals come exactly when they apply |
| InputDigest.ComputeEntries | internal/inputdigest/digest.go:53-84 | Rejects exactly invalid entries, then exactly duplicate paths, and otherwise streams the framed entries in path order |
| InputDigest.ListingIrrelevant | internal/inputdigest/digest.go:65-83 | The preimage is the same for every listing of the entries |
| InputDigest.PreimageDeterminesEntries | internal/inputdigest/digest.go:53-99 | Two preimages are equal if and only if the entries are, as multisets of path, mode and data |
| InputDigest.FramedUnambiguous | internal/inputdigest/digest.go:90-99 | A value framed by its eight-byte length can be read back from the front of any bytes |
| InputDigest.BigEndianSpells | internal/inputdigest/digest.go:90-94 | A length is written in bytes, the highest first |
| InputDigest.GoldenPreimage | internal/inputdigest/digest_test.go:9-13 | The bytes hashed for the frozen example of a file and a script, modes included |
| SnapshotDiff.BuildDiff | internal/report/diff.go:103-164 | Succeeds exactly for two bound snapshots of the same input and the same expected cells; the repeated-cell, unmatched-cell and assertion branches are unreachable; the rows are those of the aligned records; every refusal names a real difference |
| DiffText.BuildCheckedDiff | internal/report/diff.go:103-171 | The same with the last check of the finished diff, which never refuses it |
| DiffText.ValidateDiff | internal/report/dynamic_text.go:221-310 | Accepts exactly the diffs with a valid header, a status that fits, distinct cells and rows whose changes are real, distinct, exact and presentable |
| DiffText.DiffPasses | internal/report/dynamic_text.go:221-349 | Every diff of compatible bound snapshots passes: no unit, CPU or definition can differ, deltas are exact and every text was accepted with its record |
| SnapshotDiff.DiffIsPatch | internal/report/diff.go:103-208 | Applying the rows to the left records gives the right ones' measurements, environment, messages, conclusion and limitations |
| SnapshotDiff.NoChangesExactly | internal/report/diff.go:154-157 | No changes if and only if every compared field of every cell agrees |
| SnapshotDiff.DiffSwaps | internal/report/diff.go:103-208 | Swapping the sides swaps every change of every row |
| SnapshotDiff.OnlyValuesChange | internal/report/diff.go:187-245 | Between bound snapshots no metric appears or disappears and no limitation changes |
| SnapshotDiff.SameDefinition | internal/release/validate.go:218-270 | Two records that match one definition agree in everything but identity, run set, input digest, environment, measured values, messages, conclusion and content digest |
| RecordDiff.DeltaNegates | internal/report/diff.go:247-251 | A delta is the exact difference, and swapping the sides negates it |
| RecordDiff.BuildDiffRow | internal/report/diff.go:187-208 | Fails exactly when the assertions are not the same passed ones; otherwise gives the row and whether anything changed |
| RecordDiff.DiffMeasurements | internal/report/diff.go:210-245 | The changed measurements in increasing order of id |
| RecordDiff.RowIsPatch | internal/report/diff.go:187-208 | One row turns the left record's compared fields into the right one's, and is empty exactly when they agree |
| RecordDiff.RowLists | internal/report/diff.go:187-245 | A change is listed if and only if the two records differ there, under its own id or field name, with the left and the right value and the difference |
| MarkdownTable.EscapeMarkdownTableCell | internal/report/markdown.go:167-194 | The loop computes the escaped cell |
| MarkdownTable.EscapedPipes | internal/report/markdown.go:167-194 | Every pipe of an escaped cell follows an odd run of backslashes, and no CR or LF survives |
| MarkdownTable.CellTellsValue | internal/report/markdown.go:167-194 | A cell can be read back to the value up to how lines end and up to `<br>`; two values are printed alike if and only if they agree up to that |
| MarkdownTable.BreakCollides | internal/report/markdown.go:181-182 | Two values that are printed alike: a line break and the text `<br>` |
| MarkdownTable.WriteRow | internal/report/markdown.go:50-53 | The printed row is the join of the escaped cells |
| MarkdownTable.RowSplitsIntoCells | internal/report/markdown.go:50-53 | A printed row splits at its unescaped pipes (section 4.10 of GitHub Flavored Markdown 0.29) into exactly its cells, and holds no control character |
| ClaimMarkers.ScanClaimMarkers | internal/content/tags.go:177-211 | The jumping scan terminates and returns, in order, exactly the well-formed bracketed markers, and exactly the malformed lookalikes |
| ClaimMarkers.ParseExactly | internal/content/tags.go:213-233 | Parsing finds a marker exactly when the text spells it |
| Ordering.Sort | internal/release/audit.go:374-382 | What the repository relies on in the library's sort: the result is sorted and a permutation |
| Ordering.SortedUnique | internal/release/audit.go:374-382 | A strictly sorted sequence is determined by its elements |

## Left out

- ImmutableWrite.WriteNoReplaceWithParent: the checks on the destination path and the opening of the directory chain are one parameter saying how far they got; the mode bits have no effect beyond their error.
- AnchoredDirectory.Directory.CreateTemp: temporary names carry 128 random bits, so the model lets a name be drawn by its one author only; an exclusive create that reports the name as taken has not created it, which is what `O_EXCL` promises.
- DurableDisk.CrashSafety: a run in which a foreign program edited the directory is excluded, because the repository makes no promise about it.
- ErrorClass.ClassifyManifestWriterError: the class stands for the sentinels of the wrapped result, and pass-through and I/O failures are one class.
- Runner.Run: cancellation between events, the seed and the recorder are left out; a deterministic state transformer stands for each action.
- Limiter.CoordinatedLimiter.Allow: cancellation is left out, and the linear unwrapping that recognises the unavailability sentinel is one case of the coordinator's answer.
- ReleaseAudit.AuditSnapshot: cancellation between loads is one kind of load failure; the profile message omits the two profiles; the binding seal is left out.
- ReleaseContract.ValidateExpectedCells: checks on texts, times and workload identities are one flag of the cell; order, profile and distinct ids are modelled.
- Evidence.Encodable: sealing, JSON, regular expressions and the text rules are predicates on one string each; diagnostics, of which a passed record may have some, the finish time and the source commit are left out.
- DiffText.ValidateDiff: the role, workload, fault and assertion ids of a row's cell are not part of the modelled row.
- PublishSnapshot.WriteManifest: whether the directory chain verifies, is unchanged and closes are parameters; opening it is left out.
- CanonicalText.Decode: the YAML library is a parameter; lower-casing is ASCII.
- InputDigest.ComputeEntries: SHA-256 is left out, so the result is the bytes it hashes, and path validity is a predicate.
- Matrix.BuildRequiredMatrix: its diagnostics are left out, and so is the completeness of fields that the matrix does not depend on.
- MarkdownTable.EscapeMarkdownTableCell: text is valid Unicode, so no replacement characters arise.
- ClaimMarkers.ScanClaimMarkers: which malformed text resembles a marker depends on Unicode tables and is a parameter.
- Locks and wall-clock time: a locked method is one atomic step, and instants are unbounded integers except where Go saturates.
- The loading, syncing and directory-chain parts of the release storage: handle plumbing around the modelled cores.
- Command line, Git inspection, Markdown and link walking, report rendering beyond table rows, and the frozen experiment data: independent lookups or finite constants.
