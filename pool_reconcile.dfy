/**
 The runner-pool reclaimer.  For each pool it looks at the runners that are
 currently allocated: a runner whose name is not yet a tag key of the pool is
 marked (its name is re-written as a key with a fresh timestamp); a runner whose
 name is already a key is purged, and marked again only if the purge failed.
 The pool's tags are then rebuilt: every key the runner-name pattern claims is
 dropped, every other key is kept with its value, and every marked name is
 added with the timestamp.

 Tag values are of any type in the cleaner, hence the type parameter V; the
 timestamp is a parameter `now`, and whether a purge fails is the oracle
 `purgeFails`, keyed by runner id.
 */
module PoolReconcile {
  import opened RunnerNamePattern

  const AllocatedStatus: string := "Allocated"

  datatype Runner = Runner(id: string, name: string, status: string)

  datatype Pool<V> = Pool(name: string, resourceGroup: string, location: string, id: string, tags: map<string, V>)

  datatype Option<T> = None | Some(value: T)

  predicate IsAllocated(r: Runner)
  {
    r.status == AllocatedStatus
  }

  /** A purge is issued for an allocated runner already recorded in the tags. */
  predicate PurgeDue<V>(tags: map<string, V>, r: Runner)
  {
    IsAllocated(r) && r.name in tags
  }

  /** An allocated runner stays marked when it is new, or when its purge failed. */
  predicate StaysMarked<V>(tags: map<string, V>, r: Runner, purgeFails: string -> bool)
  {
    IsAllocated(r) && (r.name !in tags || purgeFails(r.id))
  }

  /** The ids purged, in runner order. */
  function PurgeCalls<V>(tags: map<string, V>, runners: seq<Runner>): seq<string>
    decreases |runners|
  {
    if runners == [] then []
    else
      var r := runners[|runners| - 1];
      var front := PurgeCalls(tags, runners[..|runners| - 1]);
      if PurgeDue(tags, r) then front + [r.id] else front
  }

  /** The names to be marked, in runner order. */
  function MarkedNames<V>(tags: map<string, V>, runners: seq<Runner>, purgeFails: string -> bool): seq<string>
    decreases |runners|
  {
    if runners == [] then []
    else
      var r := runners[|runners| - 1];
      var front := MarkedNames(tags, runners[..|runners| - 1], purgeFails);
      if StaysMarked(tags, r, purgeFails) then front + [r.name] else front
  }

  /** The tags the pattern does not claim, unchanged. */
  function ForeignTags<V>(tags: map<string, V>): map<string, V>
  {
    map k | k in tags && !MatchesRunnerName(k) :: tags[k]
  }

  /** The rewritten tag map. */
  function RebuiltTags<V>(tags: map<string, V>, marked: seq<string>, now: V): map<string, V>
  {
    ForeignTags(tags) + map n | n in marked :: now
  }

  /** The cleaner's per-pool body: one loop over the runners, then the tag
      rebuild. */
  method ReconcilePool<V>(tags: map<string, V>, runners: seq<Runner>, purgeFails: string -> bool, now: V)
    returns (purges: seq<string>, newTags: map<string, V>)
    ensures purges == PurgeCalls(tags, runners)
    ensures newTags == RebuiltTags(tags, MarkedNames(tags, runners, purgeFails), now)
  {
    var marked: seq<string>;
    purges, marked := TriageRunners(tags, runners, purgeFails);
    newTags := KeepForeignTags(tags);
    newTags := StampMarked(newTags, marked, now);
  }

  /** The loop over the runners: purge the recorded ones, collect the names to
      mark. */
  method TriageRunners<V>(tags: map<string, V>, runners: seq<Runner>, purgeFails: string -> bool)
    returns (purges: seq<string>, marked: seq<string>)
    ensures purges == PurgeCalls(tags, runners)
    ensures marked == MarkedNames(tags, runners, purgeFails)
  {
    purges, marked := [], [];
    for i := 0 to |runners|
      invariant purges == PurgeCalls(tags, runners[..i])
      invariant marked == MarkedNames(tags, runners[..i], purgeFails)
    {
      var r := runners[i];
      assert runners[..i + 1][..i] == runners[..i];
      if r.status != AllocatedStatus {
        continue;
      }
      if r.name !in tags {
        marked := marked + [r.name];
        continue;
      }
      purges := purges + [r.id];
      if purgeFails(r.id) {
        marked := marked + [r.name];
      }
    }
    assert runners[..|runners|] == runners;
  }

  /** The loop over the old tags: copy every key the pattern does not claim. */
  method KeepForeignTags<V>(tags: map<string, V>) returns (kept: map<string, V>)
    ensures kept == ForeignTags(tags)
  {
    kept := map[];
    var keys := tags.Keys;
    while keys != {}
      invariant keys <= tags.Keys
      invariant kept == map k | k in tags.Keys - keys && !MatchesRunnerName(k) :: tags[k]
      decreases keys
    {
      var key :| key in keys;
      if !MatchesRunnerName(key) {
        kept := kept[key := tags[key]];
      }
      keys := keys - {key};
    }
  }

  /** The loop over the marked names: stamp each one with `now`. */
  method StampMarked<V>(kept: map<string, V>, marked: seq<string>, now: V) returns (tags: map<string, V>)
    ensures tags == kept + map n | n in marked :: now
  {
    tags := kept;
    for j := 0 to |marked|
      invariant tags == kept + map n | n in marked[..j] :: now
    {
      assert forall n :: n in marked[..j + 1] <==> n in marked[..j] || n == marked[j];
      tags := tags[marked[j] := now];
    }
    assert marked[..|marked|] == marked;
  }

  // ---------------------------------------------------------------------------
  // The rewritten tag map, as a set
  // ---------------------------------------------------------------------------

  /** A key survives the rebuild iff it is a foreign old key or a marked name;
      marked names carry the timestamp, foreign keys their old value. */
  lemma RebuiltTagsContents<V>(tags: map<string, V>, marked: seq<string>, now: V, k: string)
    ensures k in RebuiltTags(tags, marked, now) <==>
      (k in tags && !MatchesRunnerName(k)) || k in marked
    ensures k in marked ==> RebuiltTags(tags, marked, now)[k] == now
    ensures k in tags && !MatchesRunnerName(k) && k !in marked ==>
      RebuiltTags(tags, marked, now)[k] == tags[k]
  {
  }

  // ---------------------------------------------------------------------------
  // Which runners are purged and which are marked
  // ---------------------------------------------------------------------------

  lemma {:induction false} PurgeCallsMembers<V>(tags: map<string, V>, runners: seq<Runner>, id: string)
    ensures id in PurgeCalls(tags, runners) <==>
      exists j :: 0 <= j < |runners| && runners[j].id == id && PurgeDue(tags, runners[j])
  {
    if runners != [] {
      var front := runners[..|runners| - 1];
      PurgeCallsMembers(tags, front, id);
      if exists j :: 0 <= j < |runners| && runners[j].id == id && PurgeDue(tags, runners[j]) {
        var j :| 0 <= j < |runners| && runners[j].id == id && PurgeDue(tags, runners[j]);
        if j < |front| {
          assert front[j] == runners[j];
        }
      }
      if exists j :: 0 <= j < |front| && front[j].id == id && PurgeDue(tags, front[j]) {
        var j :| 0 <= j < |front| && front[j].id == id && PurgeDue(tags, front[j]);
        assert runners[j] == front[j];
      }
    }
  }

  lemma {:induction false} MarkedNamesMembers<V>(tags: map<string, V>, runners: seq<Runner>, purgeFails: string -> bool, n: string)
    ensures n in MarkedNames(tags, runners, purgeFails) <==>
      exists j :: 0 <= j < |runners| && runners[j].name == n && StaysMarked(tags, runners[j], purgeFails)
  {
    if runners != [] {
      var front := runners[..|runners| - 1];
      MarkedNamesMembers(tags, front, purgeFails, n);
      if exists j :: 0 <= j < |runners| && runners[j].name == n && StaysMarked(tags, runners[j], purgeFails) {
        var j :| 0 <= j < |runners| && runners[j].name == n && StaysMarked(tags, runners[j], purgeFails);
        if j < |front| {
          assert front[j] == runners[j];
        }
      }
      if exists j :: 0 <= j < |front| && front[j].name == n && StaysMarked(tags, front[j], purgeFails) {
        var j :| 0 <= j < |front| && front[j].name == n && StaysMarked(tags, front[j], purgeFails);
        assert runners[j] == front[j];
      }
    }
  }

  /** Runner ids and names are unique within one listing. */
  predicate UniqueRunners(runners: seq<Runner>)
  {
    forall i, j :: 0 <= i < j < |runners| ==>
      runners[i].id != runners[j].id && runners[i].name != runners[j].name
  }

  /** A runner gets exactly one purge when it is allocated and already recorded,
      and none otherwise. */
  lemma {:induction false} PurgeCount<V>(tags: map<string, V>, runners: seq<Runner>, i: int)
    requires UniqueRunners(runners) && 0 <= i < |runners|
    ensures multiset(PurgeCalls(tags, runners))[runners[i].id] ==
      if PurgeDue(tags, runners[i]) then 1 else 0
  {
    var front := runners[..|runners| - 1];
    var last := runners[|runners| - 1];
    assert UniqueRunners(front) by {
      forall a, b | 0 <= a < b < |front|
        ensures front[a].id != front[b].id && front[a].name != front[b].name
      {
        assert front[a] == runners[a] && front[b] == runners[b];
      }
    }
    if i == |runners| - 1 {
      forall j | 0 <= j < |front|
        ensures front[j].id != last.id
      {
        assert front[j] == runners[j];
      }
      PurgeCallsMembers(tags, front, last.id);
    } else {
      assert front[i] == runners[i];
      PurgeCount(tags, front, i);
    }
  }

  /** A runner stays marked exactly when StaysMarked says so for it. */
  lemma MarkedRunner<V>(tags: map<string, V>, runners: seq<Runner>, purgeFails: string -> bool, i: int)
    requires UniqueRunners(runners) && 0 <= i < |runners|
    ensures runners[i].name in MarkedNames(tags, runners, purgeFails) <==>
      StaysMarked(tags, runners[i], purgeFails)
  {
    MarkedNamesMembers(tags, runners, purgeFails, runners[i].name);
  }

  /** A runner that is not allocated is never purged and adds no tag: its name
      is a key afterwards only if it was a foreign key before. */
  lemma NotAllocatedIgnored<V>(tags: map<string, V>, runners: seq<Runner>, purgeFails: string -> bool, now: V, i: int)
    requires UniqueRunners(runners) && 0 <= i < |runners|
    requires !IsAllocated(runners[i])
    ensures runners[i].id !in PurgeCalls(tags, runners)
    ensures var n := runners[i].name;
      var newTags := RebuiltTags(tags, MarkedNames(tags, runners, purgeFails), now);
      (n in newTags <==> n in tags && !MatchesRunnerName(n))
      && (n in newTags ==> newTags[n] == tags[n])
  {
    PurgeCount(tags, runners, i);
    MarkedRunner(tags, runners, purgeFails, i);
  }

  /** First sighting: an allocated runner not yet recorded is not purged, and
      its name is a key of the rewritten tags, stamped `now`. */
  lemma FirstSighting<V>(tags: map<string, V>, runners: seq<Runner>, purgeFails: string -> bool, now: V, i: int)
    requires UniqueRunners(runners) && 0 <= i < |runners|
    requires IsAllocated(runners[i]) && runners[i].name !in tags
    ensures runners[i].id !in PurgeCalls(tags, runners)
    ensures var newTags := RebuiltTags(tags, MarkedNames(tags, runners, purgeFails), now);
      runners[i].name in newTags && newTags[runners[i].name] == now
  {
    PurgeCount(tags, runners, i);
    MarkedRunner(tags, runners, purgeFails, i);
  }

  /** Second sighting: an allocated runner already recorded is purged exactly
      once, and its name is marked again iff that purge failed.  For a name
      the pattern claims, that decides whether it is a key afterwards. */
  lemma SecondSighting<V>(tags: map<string, V>, runners: seq<Runner>, purgeFails: string -> bool, now: V, i: int)
    requires UniqueRunners(runners) && 0 <= i < |runners|
    requires IsAllocated(runners[i]) && runners[i].name in tags
    ensures multiset(PurgeCalls(tags, runners))[runners[i].id] == 1
    ensures runners[i].name in MarkedNames(tags, runners, purgeFails) <==> purgeFails(runners[i].id)
    ensures MatchesRunnerName(runners[i].name) ==>
      (runners[i].name in RebuiltTags(tags, MarkedNames(tags, runners, purgeFails), now) <==>
       purgeFails(runners[i].id))
  {
    PurgeCount(tags, runners, i);
    MarkedRunner(tags, runners, purgeFails, i);
  }

  /** Every purge is of an allocated runner that was already recorded: the
      "only if" half of PurgeCallsMembers, stated on its own as a corollary. */
  lemma PurgesAreDue<V>(tags: map<string, V>, runners: seq<Runner>, id: string)
    requires id in PurgeCalls(tags, runners)
    ensures exists j :: 0 <= j < |runners| && runners[j].id == id && IsAllocated(runners[j]) && runners[j].name in tags
  {
    PurgeCallsMembers(tags, runners, id);
  }

  /** A key the pattern does not claim survives every rebuild with its value,
      even when it names a runner that was just purged: such a key is never
      cleared by the reclaimer. */
  lemma ForeignKeyPersists<V>(tags: map<string, V>, runners: seq<Runner>, purgeFails: string -> bool, now: V, k: string)
    requires k in tags && !MatchesRunnerName(k)
    requires forall j :: 0 <= j < |runners| && runners[j].name == k ==> !StaysMarked(tags, runners[j], purgeFails)
    ensures var newTags := RebuiltTags(tags, MarkedNames(tags, runners, purgeFails), now);
      k in newTags && newTags[k] == tags[k]
  {
    MarkedNamesMembers(tags, runners, purgeFails, k);
  }

  /** The short-name case: a runner named "runner-1" recorded in the tags is
      purged successfully, yet its key stays. */
  lemma ShortNameLingers(tags: map<string, string>, id: string, purgeFails: string -> bool, now: string)
    requires "runner-1" in tags && !purgeFails(id)
    ensures var runners := [Runner(id, "runner-1", AllocatedStatus)];
      && PurgeCalls(tags, runners) == [id]
      && var newTags := RebuiltTags(tags, MarkedNames(tags, runners, purgeFails), now);
      && "runner-1" in newTags && newTags["runner-1"] == tags["runner-1"]
  {
    var runners := [Runner(id, "runner-1", AllocatedStatus)];
    assert runners[..0] == [];
    ShortKeyNeverMatches("runner-1");
    ForeignKeyPersists(tags, runners, purgeFails, now, "runner-1");
  }

  /** Two passes over one allocated runner with a generated name: marked on
      the first, purged on the second, kept marked only if the purge failed. */
  lemma RunnerLifecycle(tags: map<string, string>, r: Runner, purgeFails: string -> bool, now1: string, now2: string)
    requires IsAllocated(r) && MatchesRunnerName(r.name) && r.name !in tags
    ensures var first := RebuiltTags(tags, MarkedNames(tags, [r], purgeFails), now1);
      && PurgeCalls(tags, [r]) == []
      && r.name in first
      && PurgeCalls(first, [r]) == [r.id]
      && (r.name in RebuiltTags(first, MarkedNames(first, [r], purgeFails), now2) <==> purgeFails(r.id))
  {
    assert [r][..0] == [];
    var first := RebuiltTags(tags, MarkedNames(tags, [r], purgeFails), now1);
    assert MarkedNames(tags, [r], purgeFails) == [r.name];
    assert r.name in first;
  }

  // ---------------------------------------------------------------------------
  // All pools
  // ---------------------------------------------------------------------------

  datatype PurgeCall<V> = PurgeCall(pool: Pool<V>, runnerId: string)

  datatype TagWrite<V> = TagWrite(pool: Pool<V>, tags: map<string, V>)

  datatype PoolsOutcome<V> = PoolsOutcome(purges: seq<PurgeCall<V>>, writes: seq<TagWrite<V>>)

  function PurgesIn<V>(pool: Pool<V>, ids: seq<string>): (calls: seq<PurgeCall<V>>)
    ensures |calls| == |ids|
    ensures forall j :: 0 <= j < |ids| ==> calls[j] == PurgeCall(pool, ids[j])
  {
    seq(|ids|, j requires 0 <= j < |ids| => PurgeCall(pool, ids[j]))
  }

  /** What reconciling one pool issues, given its fetched runners. */
  function PoolOutcome<V>(pool: Pool<V>, runners: seq<Runner>, purgeFails: (Pool<V>, string) -> bool, now: V): PoolsOutcome<V>
  {
    var fails := (id: string) => purgeFails(pool, id);
    PoolsOutcome(
      PurgesIn(pool, PurgeCalls(pool.tags, runners)),
      [TagWrite(pool, RebuiltTags(pool.tags, MarkedNames(pool.tags, runners, fails), now))])
  }

  /** The whole pass, pool by pool; a pool whose runners cannot be fetched is
      skipped without any purge or tag write. */
  function PoolsPass<V>(pools: seq<Pool<V>>, listRunners: Pool<V> -> Option<seq<Runner>>,
                        purgeFails: (Pool<V>, string) -> bool, now: V): PoolsOutcome<V>
    decreases |pools|
  {
    if pools == [] then PoolsOutcome([], [])
    else
      var front := PoolsPass(pools[..|pools| - 1], listRunners, purgeFails, now);
      var pool := pools[|pools| - 1];
      match listRunners(pool)
      case None => front
      case Some(runners) =>
        var o := PoolOutcome(pool, runners, purgeFails, now);
        PoolsOutcome(front.purges + o.purges, front.writes + o.writes)
  }

  method PurgeRunnerPools<V>(pools: seq<Pool<V>>, listRunners: Pool<V> -> Option<seq<Runner>>,
                             purgeFails: (Pool<V>, string) -> bool, now: V)
    returns (purges: seq<PurgeCall<V>>, writes: seq<TagWrite<V>>)
    ensures PoolsOutcome(purges, writes) == PoolsPass(pools, listRunners, purgeFails, now)
  {
    purges, writes := [], [];
    for i := 0 to |pools|
      invariant PoolsOutcome(purges, writes) == PoolsPass(pools[..i], listRunners, purgeFails, now)
    {
      var pool := pools[i];
      assert pools[..i + 1][..i] == pools[..i];
      var fetched := listRunners(pool);
      if fetched.None? {
        continue;
      }
      var ids, tags := ReconcilePool(pool.tags, fetched.value, (id: string) => purgeFails(pool, id), now);
      purges := purges + PurgesIn(pool, ids);
      writes := writes + [TagWrite(pool, tags)];
    }
    assert pools[..|pools|] == pools;
  }

  /** Every tag write is for a listed pool whose runners were fetched, and
      carries that pool's rebuilt tags; every listed pool whose runners were
      fetched gets such a write. */
  lemma {:induction false} WritesAreFetchedPools<V>(pools: seq<Pool<V>>, listRunners: Pool<V> -> Option<seq<Runner>>,
                                                   purgeFails: (Pool<V>, string) -> bool, now: V, w: TagWrite<V>)
    ensures w in PoolsPass(pools, listRunners, purgeFails, now).writes <==>
      exists i :: 0 <= i < |pools| && pools[i] == w.pool && listRunners(w.pool).Some? &&
        w.tags == RebuiltTags(w.pool.tags,
                              MarkedNames(w.pool.tags, listRunners(w.pool).value, (id: string) => purgeFails(w.pool, id)),
                              now)
  {
    if pools != [] {
      var front := pools[..|pools| - 1];
      WritesAreFetchedPools(front, listRunners, purgeFails, now, w);
      forall i | 0 <= i < |front| ensures front[i] == pools[i] { }
    }
  }

  /** A pool whose runners cannot be fetched gets no purge and no tag write. */
  lemma {:induction false} FailedFetchSkipsPool<V>(pools: seq<Pool<V>>, listRunners: Pool<V> -> Option<seq<Runner>>,
                                                  purgeFails: (Pool<V>, string) -> bool, now: V, pool: Pool<V>)
    requires listRunners(pool).None?
    ensures forall c :: c in PoolsPass(pools, listRunners, purgeFails, now).purges ==> c.pool != pool
    ensures forall w :: w in PoolsPass(pools, listRunners, purgeFails, now).writes ==> w.pool != pool
  {
    if pools != [] {
      FailedFetchSkipsPool(pools[..|pools| - 1], listRunners, purgeFails, now, pool);
    }
  }
}
