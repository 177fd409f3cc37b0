# Residual resource cleaner: decision logic

This project models the decision logic of a stateless Azure cleaner. The
cleaner's only memory is cloud tags. It reclaims two kinds of leftovers, and
both follow one rule: mark a candidate the first time it is seen, and delete it
the second time.

- **Protection filter** (`Protection`, `protection.dfy`). `IsProtected` decides
  whether a resource group must be kept. A group is kept if its name starts
  with `MC_`, if it is the recorder group `residualrgrecorder`, if the MD5 hex
  digest of its name is one of six fixed hashes, or if it has a
  `do_not_delete` tag. MD5 is a function parameter. The lower-case hex
  encoding of the 16-byte digest is modelled exactly, together with its
  decoder and both round trips.
- **Runner-name pattern** (`RunnerNamePattern`, `runner_name.dfy`). The key
  test `[a-z0-9_]{15}` is applied as an unanchored search. It is modelled as a
  left-to-right scan, which is proved equal to "the key contains 15
  consecutive characters from `[a-z0-9_]`".
- **Resource-group mark/sweep** (`GroupSweep`, `group_sweep.dfy`). The
  registry is the recorder group's tag map. `PurgeResidualResourceGroups` is
  the loop over the listed groups:
  - a protected group is skipped;
  - a registered group is scheduled for deletion and unregistered;
  - any other group is registered while the registry holds at most 50
    entries.

  The loop is proved equal to `Sweep`, a left fold of the per-group step
  `Visit`. The lemmas state what a pass does to the registry and which
  deletions it schedules.
- **Runner-pool reconciliation** (`PoolReconcile`, `pool_reconcile.dfy`).
  `ReconcilePool` handles one pool. Its three loops (runners, old tags,
  marked names) produce the purge calls and the rewritten tag map.
  `PurgeRunnerPools` runs it for every pool, and skips a pool whose runners
  cannot be fetched.

Three behaviours of the code are easy to miss:

- The resource-group pass does **no** stale-entry pruning. A registry key
  that names no listed group is kept unchanged.
- The capacity test is `len <= 50` before an insertion. A registry of 50
  entries therefore still admits one more, and a pass can leave 51 entries
  (`AdmitsAtCap`). The bound proved is `max(initial size, 51)`.
- A pool tag key that fails the pattern, such as a short runner name, is
  copied into every rebuilt tag map. This holds even after the runner's purge
  succeeds, so such a key is never cleared (`ShortNameLingers`).

Three of the group-pass properties assume that the listing names each group
only once; Azure guarantees this within a subscription. These are the
two-sighting rule, "a new group is registered" and "a registered group is
unregistered". The lemma
`DuplicateListingDeletesAtOnce` shows the dependence: the same unprotected
group listed twice is registered and deleted in one pass. The per-runner
properties likewise assume unique runner ids and names within one listing.

## Model

| member | source | states |
|---|---|---|
| `Protection.HexEncode` | pkg/residual_resource_group_cleaner.go:50-53 | the hex text has two characters per digest byte, all lower-case hex, high nibble first |
| `Protection.DecodeEncode` | pkg/residual_resource_group_cleaner.go:52 | decoding the hex text of any byte string gives the bytes back |
| `Protection.EncodeDecode` | pkg/residual_resource_group_cleaner.go:52 | every even-length lower-case hex string is the encoding of its decoding |
| `Protection.HexEncodeInjective` | pkg/residual_resource_group_cleaner.go:50-53 | two digests have the same hex text iff they are equal |
| `Protection.Md5Hash` | pkg/residual_resource_group_cleaner.go:50-53 | the digest text is exactly 32 lower-case hex characters and decodes to the digest |
| `Protection.HashRuleIsDigestMembership` | pkg/residual_resource_group_cleaner.go:25-43 | the hash rule fires iff the name's digest is one of the digests the six listed hex strings stand for |
| `Protection.IsProtected` | pkg/residual_resource_group_cleaner.go:34-48 | the four early-return tests in source order; its contract is `IsProtectedIff`: protected iff a rule holds |
| `Protection.IsProtectedIff` | pkg/residual_resource_group_cleaner.go:34-48 | a group is protected iff at least one of the four rules holds (prefix `MC_`, recorder name, listed digest, `do_not_delete` key) |
| `Protection.SystemPrefixProtected` | pkg/residual_resource_group_cleaner.go:35-37 | a name starting with `MC_` is protected whatever its tags |
| `Protection.RecorderProtected` | pkg/residual_resource_group_cleaner.go:38-40 | the recorder group `residualrgrecorder` is always protected |
| `Protection.ListedDigestProtected` | pkg/residual_resource_group_cleaner.go:41-43 | a name whose digest decodes from one of the listed hashes is protected |
| `Protection.DoNotDeleteProtected` | pkg/residual_resource_group_cleaner.go:44-46 | a `do_not_delete` tag key protects the group, whatever its value |
| `Protection.ProtectionReadsNameAndTags` | pkg/residual_resource_group_cleaner.go:34-48 | groups that agree on name and tags get the same verdict; id, type and location are never read |
| `RunnerNamePattern.ScanFromCorrect` | main.go:15 | a scan that has already seen `run` class characters succeeds iff a prefix completes the run or the rest contains a run of 15 |
| `RunnerNamePattern.MatchesRunnerName` | main.go:101 | the key test is true iff the key contains 15 consecutive characters from `[a-z0-9_]` |
| `RunnerNamePattern.ShortKeyNeverMatches` | main.go:101-102 | a key shorter than 15 characters is never claimed by the pattern |
| `RunnerNamePattern.GeneratedNameMatches` | main.go:15 | the generated runner name `abc123def456789` is claimed |
| `RunnerNamePattern.EmbeddedNameMatches` | main.go:101 | a key that merely contains a 15-character run is claimed, because the match is not anchored |
| `GroupSweep.PurgeResidualResourceGroups` | main.go:38-62 | the loop yields the fold of the per-group step; the registry stays within max(initial size, 51); with one entry per name, the deletions are the unprotected groups registered before the pass, in listing order |
| `GroupSweep.SweepCapacity` | main.go:59-61 | a pass never makes the registry larger than max(initial size, 51) |
| `GroupSweep.SweepLeavesOtherKeys` | main.go:40-62 | a key naming no unprotected listed group is neither deleted nor changed: protected groups keep their entry and there is no pruning |
| `GroupSweep.SweepNewKeys` | main.go:59-61 | every key a pass adds or changes names an unprotected listed group and carries the pass's timestamp |
| `GroupSweep.SweepDeletesUnprotected` | main.go:41-57 | every scheduled deletion names an unprotected listed group |
| `GroupSweep.SweepDeletesRegistered` | main.go:44-57 | with one entry per name, the deletions are exactly the unprotected groups registered before the pass, in listing order |
| `GroupSweep.DoomedMembers` | main.go:41-57 | a name is due for deletion iff it was registered and names an unprotected listed group |
| `GroupSweep.TwoSightingRule` | main.go:44-61 | a listed group is deleted iff it is unprotected and was registered before the pass; a group seen for the first time is not deleted |
| `GroupSweep.SweepUnregistersDeleted` | main.go:44-57 | an unprotected registered group is absent from the registry after the pass, whatever its deletion's outcome |
| `GroupSweep.SweepRegistersNew` | main.go:44-61 | with one entry per name, an unprotected group not registered before the pass is registered, stamped with the pass's timestamp, iff the registry held at most 50 entries when the loop reached it |
| `GroupSweep.TwoPasses` | main.go:44-61 | a new unprotected group is registered, not deleted, on pass one; on pass two it is deleted and the registry is as before |
| `GroupSweep.AdmitsAtCap` | main.go:59 | at exactly 50 entries a new group is still admitted, giving 51 |
| `GroupSweep.SkipsWhenFull` | main.go:59-61 | above 50 entries a new group is neither registered nor deleted |
| `GroupSweep.DuplicateListingDeletesAtOnce` | main.go:40-61 | an unprotected group listed twice is registered and deleted in the same pass |
| `PoolReconcile.ReconcilePool` | main.go:77-107 | the purge calls are those of allocated, already-recorded runners, and the new tags are the foreign old tags plus the marked names stamped `now` |
| `PoolReconcile.TriageRunners` | main.go:84-98 | the runner loop purges exactly the allocated recorded runners and marks the new ones and those whose purge failed |
| `PoolReconcile.KeepForeignTags` | main.go:99-104 | the copy loop keeps exactly the old entries whose key the pattern does not claim, values unchanged |
| `PoolReconcile.StampMarked` | main.go:105-107 | every marked name is added with the timestamp, overriding a kept entry |
| `PoolReconcile.RebuiltTagsContents` | main.go:99-107 | a key is in the rewritten tags iff it is a foreign old key or a marked name; marked names carry `now`, other keys their old value |
| `PoolReconcile.PurgeCallsMembers` | main.go:84-98 | an id is purged iff some allocated runner with that id is already recorded |
| `PoolReconcile.MarkedNamesMembers` | main.go:84-98 | a name is marked iff some allocated runner with that name is new or had its purge fail |
| `PoolReconcile.PurgeCount` | main.go:88-94 | with unique runners, each runner gets exactly one purge if allocated and recorded, and none otherwise |
| `PoolReconcile.MarkedRunner` | main.go:88-97 | with unique runners, a runner is marked iff it is allocated and either new or its purge failed |
| `PoolReconcile.NotAllocatedIgnored` | main.go:84-87 | a runner that is not exactly `Allocated` is never purged and contributes no tag |
| `PoolReconcile.FirstSighting` | main.go:88-92 | an allocated runner not yet recorded is not purged, and its name is a key of the new tags stamped `now` |
| `PoolReconcile.SecondSighting` | main.go:88-107 | an allocated recorded runner is purged exactly once and re-marked iff the purge failed; for a claimed name, that decides its key |
| `PoolReconcile.PurgesAreDue` | main.go:84-94 | every purge is of an allocated runner already recorded in the tags; a corollary of `PurgeCallsMembers` |
| `PoolReconcile.ForeignKeyPersists` | main.go:99-104 | an unclaimed old key survives with its value, even when its runner was purged |
| `PoolReconcile.ShortNameLingers` | main.go:99-104 | a recorded runner `runner-1` is purged successfully and its key still stays |
| `PoolReconcile.RunnerLifecycle` | main.go:84-107 | an allocated runner with a generated name is marked on pass one without purge, purged on pass two, and kept iff the purge failed |
| `PoolReconcile.PurgeRunnerPools` | main.go:76-110 | the pool loop produces the pool-by-pool outcome, with fetch failures skipped |
| `PoolReconcile.WritesAreFetchedPools` | main.go:76-110 | a tag write exists iff it is for a listed pool whose runners were fetched, and it carries that pool's rebuilt tags |
| `PoolReconcile.FailedFetchSkipsPool` | main.go:79-83 | a pool whose runners cannot be fetched gets no purge and no tag write |

## Left out

- Azure client code is left out: `NewClient`, `GetRunners`, `PurgeRunner`, `UpgradePoolTags`, `GetRunnerPool`, `ListPools` (with its paging), `EnsureResidualCleanerResourceGroup`, `ListAllResourceGroups`, `UpgradeResidualResourceGroupTags` and `DeleteResourceGroup`. All of it is network I/O. The model sees only its results: the listing, the fetched runners (`listRunners`) and whether a purge fails (`purgeFails`).
- The outcome of a resource-group deletion is not modelled. The deleting goroutine (main.go:46-55) may start before or after the registry entry is removed at main.go:56; nothing orders the two. Either way the goroutine never reads or writes the recorder's tags, only the shared `err`, so its outcome cannot affect the registry.
- GroupSweep.PurgeResidualResourceGroups: a deletion is recorded with the name of the group being visited when it is scheduled. The goroutine reads `rg.Name` only when it runs, so this assumes each loop iteration has its own range variable, as in Go 1.22 and later. The module's Go version (go.mod) is not part of this model. Under older Go semantics a goroutine could read a later group's name, for example deleting a protected `MC_` group listed after a registered one; `TwoSightingRule` and `SweepDeletesUnprotected` do not cover that case.
- The goroutines, the `sync.WaitGroup` and the `err` variable shared between goroutines are left out because they are concurrency. Scheduled deletions become an ordered output sequence.
- The MD5 computation is a foreign cryptographic primitive. It is the parameter `md5`, and every property holds for any digest function.
- `time.Now`, `strconv.FormatInt` and `.UTC().String()` are left out. The timestamp is the parameter `now`, and one pass uses one value. The code reads the clock at each insertion, but stored timestamps are only ever tested for key presence, never read back.
- The general regular-expression engine is left out. Only the one fixed pattern is modelled.
- `main`, `readEssentialEnv` and the panics on environment, listing and registry-write errors are left out: they are CLI and environment handling. The tag-write result, which the pool loop discards, is not modelled either.
- The recorder group is always given as an existing map. The nil-map write that a freshly created recorder could hit is not modelled.
- pkg/runner_pool_cleaner.go is not part of this model, apart from the field layout of runners and pools. Its own `runnerNameRegex` is not used by the decision logic.
