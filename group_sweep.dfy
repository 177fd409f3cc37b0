/**
 The resource-group reclaimer's mark/sweep pass over the recorder registry.

 The registry is the tag map of the recorder group: key = candidate group
 name, value = the time it was first seen.  One pass visits the listed groups
 in order: a protected group is skipped; a registered one is scheduled for
 deletion and unregistered; any other is registered if the registry holds at
 most RegistryCap entries at that moment.  Deletions run in the background in
 the cleaner; here they are the sequence of names scheduled, in order.
 */
module GroupSweep {
  import opened Protection

  /** The registry admits a new key while it has at most this many entries. */
  const RegistryCap: nat := 50

  type Registry = map<string, string>

  /** The registry and the deletions scheduled so far. */
  datatype PassState = PassState(registry: Registry, deletions: seq<string>)

  function Max(a: int, b: int): int
  {
    if a < b then b else a
  }

  /** One iteration of the loop, on the group g. */
  function Visit(p: PassState, g: ResourceGroup, now: string, md5: string -> Digest): PassState
  {
    if IsProtected(g, md5) then p
    else if g.name in p.registry then PassState(p.registry - {g.name}, p.deletions + [g.name])
    else if |p.registry| <= RegistryCap then PassState(p.registry[g.name := now], p.deletions)
    else p
  }

  /** The whole pass: Visit folded over the listing from the left. */
  function Sweep(registry: Registry, groups: seq<ResourceGroup>, now: string, md5: string -> Digest): PassState
    decreases |groups|
  {
    if groups == [] then PassState(registry, [])
    else Visit(Sweep(registry, groups[..|groups| - 1], now, md5), groups[|groups| - 1], now, md5)
  }

  /** The cleaner's loop: the registry is updated in place, deletions are
      scheduled as they are decided. */
  method PurgeResidualResourceGroups(registry: Registry, groups: seq<ResourceGroup>, now: string, md5: string -> Digest)
    returns (newRegistry: Registry, deletions: seq<string>)
    ensures PassState(newRegistry, deletions) == Sweep(registry, groups, now, md5)
    ensures |newRegistry| <= Max(|registry|, RegistryCap + 1)
    ensures DistinctNames(groups) ==> deletions == Doomed(registry, groups, md5)
  {
    newRegistry, deletions := registry, [];
    var i := 0;
    while i < |groups|
      invariant 0 <= i <= |groups|
      invariant PassState(newRegistry, deletions) == Sweep(registry, groups[..i], now, md5)
    {
      var rg := groups[i];
      assert groups[..i + 1][..i] == groups[..i];
      if IsProtected(rg, md5) {
        i := i + 1;
        continue;
      }
      if rg.name in newRegistry {
        deletions := deletions + [rg.name];
        newRegistry := newRegistry - {rg.name};
        i := i + 1;
        continue;
      }
      if |newRegistry| <= RegistryCap {
        newRegistry := newRegistry[rg.name := now];
      }
      i := i + 1;
    }
    assert groups[..|groups|] == groups;
    SweepCapacity(registry, groups, now, md5);
    if DistinctNames(groups) {
      SweepDeletesRegistered(registry, groups, now, md5);
    }
  }

  // ---------------------------------------------------------------------------
  // Properties of one pass
  // ---------------------------------------------------------------------------

  /** The registry never grows past the larger of its initial size and
      RegistryCap + 1: an insertion happens only at size <= RegistryCap. */
  lemma {:induction false} SweepCapacity(registry: Registry, groups: seq<ResourceGroup>, now: string, md5: string -> Digest)
    ensures |Sweep(registry, groups, now, md5).registry| <= Max(|registry|, RegistryCap + 1)
  {
    if groups != [] {
      var p := Sweep(registry, groups[..|groups| - 1], now, md5);
      var g := groups[|groups| - 1];
      SweepCapacity(registry, groups[..|groups| - 1], now, md5);
      if !IsProtected(g, md5) && g.name in p.registry {
        assert (p.registry - {g.name}).Keys == p.registry.Keys - {g.name};
      }
    }
  }

  /** True when some unprotected listed group carries the name k. */
  predicate NamesUnprotected(groups: seq<ResourceGroup>, k: string, md5: string -> Digest)
  {
    exists i :: 0 <= i < |groups| && groups[i].name == k && !IsProtected(groups[i], md5)
  }

  /** Splitting off the last listed group. */
  lemma NamesUnprotectedSplit(groups: seq<ResourceGroup>, k: string, md5: string -> Digest)
    requires groups != []
    ensures var g := groups[|groups| - 1];
      NamesUnprotected(groups, k, md5) <==>
        NamesUnprotected(groups[..|groups| - 1], k, md5) || (g.name == k && !IsProtected(g, md5))
  {
    var front := groups[..|groups| - 1];
    if NamesUnprotected(groups, k, md5) {
      var i :| 0 <= i < |groups| && groups[i].name == k && !IsProtected(groups[i], md5);
      if i < |front| {
        assert front[i] == groups[i];
      }
    }
    if NamesUnprotected(front, k, md5) {
      var i :| 0 <= i < |front| && front[i].name == k && !IsProtected(front[i], md5);
      assert groups[i] == front[i];
    }
  }

  /** A key that names no unprotected listed group — a protected group's entry,
      or an entry for a group that no longer exists — is neither deleted nor
      changed: the pass does no pruning. */
  lemma {:induction false} SweepLeavesOtherKeys(registry: Registry, groups: seq<ResourceGroup>, now: string, md5: string -> Digest, k: string)
    requires !NamesUnprotected(groups, k, md5)
    ensures var p := Sweep(registry, groups, now, md5);
      && (k in p.registry <==> k in registry)
      && (k in registry ==> p.registry[k] == registry[k])
      && k !in p.deletions
  {
    if groups != [] {
      var front := groups[..|groups| - 1];
      NamesUnprotectedSplit(groups, k, md5);
      SweepLeavesOtherKeys(registry, front, now, md5, k);
    }
  }

  /** Every key the pass added is the name of an unprotected listed group and
      carries the pass's timestamp. */
  lemma {:induction false} SweepNewKeys(registry: Registry, groups: seq<ResourceGroup>, now: string, md5: string -> Digest, k: string)
    requires k in Sweep(registry, groups, now, md5).registry
    requires k !in registry || Sweep(registry, groups, now, md5).registry[k] != registry[k]
    ensures NamesUnprotected(groups, k, md5)
    ensures Sweep(registry, groups, now, md5).registry[k] == now
  {
    var front := groups[..|groups| - 1];
    var p := Sweep(registry, front, now, md5);
    var g := groups[|groups| - 1];
    if k in p.registry && (k !in registry || p.registry[k] != registry[k]) {
      SweepNewKeys(registry, front, now, md5, k);
      var i :| 0 <= i < |front| && front[i].name == k && !IsProtected(front[i], md5);
      assert groups[i] == front[i];
    } else {
      assert g.name == k && !IsProtected(g, md5);
    }
  }

  /** Each deletion names an unprotected listed group. */
  lemma {:induction false} SweepDeletesUnprotected(registry: Registry, groups: seq<ResourceGroup>, now: string, md5: string -> Digest, n: string)
    requires n in Sweep(registry, groups, now, md5).deletions
    ensures NamesUnprotected(groups, n, md5)
  {
    if !NamesUnprotected(groups, n, md5) {
      SweepLeavesOtherKeys(registry, groups, now, md5, n);
    }
  }

  // ---------------------------------------------------------------------------
  // The two-sighting rule, for a listing with one entry per name
  // ---------------------------------------------------------------------------

  predicate DistinctNames(groups: seq<ResourceGroup>)
  {
    forall i, j :: 0 <= i < j < |groups| ==> groups[i].name != groups[j].name
  }

  /** In a listing with one entry per name, no earlier group shares the last one's name. */
  lemma LastNameIsFresh(groups: seq<ResourceGroup>, md5: string -> Digest)
    requires DistinctNames(groups) && groups != []
    ensures !NamesUnprotected(groups[..|groups| - 1], groups[|groups| - 1].name, md5)
    ensures DistinctNames(groups[..|groups| - 1])
  {
    var front := groups[..|groups| - 1];
    forall i | 0 <= i < |front|
      ensures front[i].name != groups[|groups| - 1].name
    {
      assert front[i] == groups[i];
    }
  }

  /** The names that a pass must delete: unprotected groups already registered
      before the pass, in listing order. */
  function Doomed(registry: Registry, groups: seq<ResourceGroup>, md5: string -> Digest): (names: seq<string>)
    decreases |groups|
  {
    if groups == [] then []
    else
      var g := groups[|groups| - 1];
      var front := Doomed(registry, groups[..|groups| - 1], md5);
      if !IsProtected(g, md5) && g.name in registry then front + [g.name] else front
  }

  /** With one listing entry per name, a pass deletes exactly the unprotected
      groups that were registered before it began.  In particular a group seen
      for the first time is never deleted in that pass, and a protected group
      is never deleted. */
  lemma {:induction false} SweepDeletesRegistered(registry: Registry, groups: seq<ResourceGroup>, now: string, md5: string -> Digest)
    requires DistinctNames(groups)
    ensures Sweep(registry, groups, now, md5).deletions == Doomed(registry, groups, md5)
  {
    if groups != [] {
      var front := groups[..|groups| - 1];
      var g := groups[|groups| - 1];
      LastNameIsFresh(groups, md5);
      SweepDeletesRegistered(registry, front, now, md5);
      SweepLeavesOtherKeys(registry, front, now, md5, g.name);
    }
  }

  lemma {:induction false} DoomedMembers(registry: Registry, groups: seq<ResourceGroup>, md5: string -> Digest, n: string)
    ensures n in Doomed(registry, groups, md5) <==>
      n in registry && NamesUnprotected(groups, n, md5)
  {
    if groups != [] {
      var front := groups[..|groups| - 1];
      DoomedMembers(registry, front, md5, n);
      NamesUnprotectedSplit(groups, n, md5);
    }
  }

  /** The two-sighting rule: a group whose name was not registered before the
      pass is not deleted by it, and neither is a protected group. */
  lemma TwoSightingRule(registry: Registry, groups: seq<ResourceGroup>, now: string, md5: string -> Digest, i: int)
    requires DistinctNames(groups) && 0 <= i < |groups|
    ensures groups[i].name in Sweep(registry, groups, now, md5).deletions <==>
      groups[i].name in registry && !IsProtected(groups[i], md5)
  {
    var n := groups[i].name;
    SweepDeletesRegistered(registry, groups, now, md5);
    DoomedMembers(registry, groups, md5, n);
    if NamesUnprotected(groups, n, md5) {
      var j :| 0 <= j < |groups| && groups[j].name == n && !IsProtected(groups[j], md5);
      assert i == j;
    }
  }

  /** An unprotected group that was registered is unregistered by the pass,
      whatever becomes of its deletion. */
  lemma {:induction false} SweepUnregistersDeleted(registry: Registry, groups: seq<ResourceGroup>, now: string, md5: string -> Digest, i: int)
    requires DistinctNames(groups) && 0 <= i < |groups|
    requires groups[i].name in registry && !IsProtected(groups[i], md5)
    ensures groups[i].name !in Sweep(registry, groups, now, md5).registry
  {
    var front := groups[..|groups| - 1];
    var g := groups[|groups| - 1];
    var p := Sweep(registry, front, now, md5);
    LastNameIsFresh(groups, md5);
    if i == |groups| - 1 {
      SweepLeavesOtherKeys(registry, front, now, md5, g.name);
    } else {
      assert front[i] == groups[i];
      SweepUnregistersDeleted(registry, front, now, md5, i);
    }
  }

  /** The mark half of the rule: with one listing entry per name, an
      unprotected group that was not registered is registered by the pass,
      stamped with its timestamp, exactly when the registry held at most
      RegistryCap entries when the loop reached it. */
  lemma {:induction false} SweepRegistersNew(registry: Registry, groups: seq<ResourceGroup>, now: string, md5: string -> Digest, i: int)
    requires DistinctNames(groups) && 0 <= i < |groups|
    requires groups[i].name !in registry && !IsProtected(groups[i], md5)
    ensures var p := Sweep(registry, groups, now, md5);
      groups[i].name in p.registry <==> |Sweep(registry, groups[..i], now, md5).registry| <= RegistryCap
    ensures var p := Sweep(registry, groups, now, md5);
      groups[i].name in p.registry ==> p.registry[groups[i].name] == now
  {
    var front := groups[..|groups| - 1];
    var g := groups[|groups| - 1];
    var p := Sweep(registry, front, now, md5);
    assert Sweep(registry, groups, now, md5) == Visit(p, g, now, md5);
    LastNameIsFresh(groups, md5);
    if i == |groups| - 1 {
      assert groups[..i] == front;
      SweepLeavesOtherKeys(registry, front, now, md5, g.name);
    } else {
      assert front[i] == groups[i] && front[..i] == groups[..i];
      SweepRegistersNew(registry, front, now, md5, i);
      VisitKeepsOtherKeys(p, g, now, md5, groups[i].name);
    }
  }

  /** One step touches only the key of the group it visits. */
  lemma VisitKeepsOtherKeys(p: PassState, g: ResourceGroup, now: string, md5: string -> Digest, k: string)
    requires g.name != k
    ensures var q := Visit(p, g, now, md5);
      && (k in q.registry <==> k in p.registry)
      && (k in p.registry ==> q.registry[k] == p.registry[k])
  {
  }

  // ---------------------------------------------------------------------------
  // Scenarios
  // ---------------------------------------------------------------------------

  /** A pass over a one-group listing is a single step. */
  lemma SweepOne(registry: Registry, g: ResourceGroup, now: string, md5: string -> Digest)
    ensures Sweep(registry, [g], now, md5) == Visit(PassState(registry, []), g, now, md5)
  {
    assert [g][..0] == [];
  }

  /** A new unprotected group is registered on the first pass and deleted and
      unregistered on the second. */
  lemma TwoPasses(registry: Registry, g: ResourceGroup, now1: string, now2: string, md5: string -> Digest)
    requires !IsProtected(g, md5) && g.name !in registry && |registry| <= RegistryCap
    ensures var first := Sweep(registry, [g], now1, md5);
      && first.deletions == []
      && first.registry == registry[g.name := now1]
      && var second := Sweep(first.registry, [g], now2, md5);
      && second.deletions == [g.name]
      && second.registry == registry
  {
    SweepOne(registry, g, now1, md5);
    var first := Sweep(registry, [g], now1, md5);
    SweepOne(first.registry, g, now2, md5);
    assert first.registry - {g.name} == registry;
  }

  /** The capacity test admits one more key at exactly RegistryCap entries, so a
      registry of 50 grows to 51. */
  lemma AdmitsAtCap(registry: Registry, g: ResourceGroup, now: string, md5: string -> Digest)
    requires !IsProtected(g, md5) && g.name !in registry && |registry| == RegistryCap
    ensures |Sweep(registry, [g], now, md5).registry| == RegistryCap + 1
  {
    SweepOne(registry, g, now, md5);
  }

  /** Above that, a new group is neither registered nor deleted. */
  lemma SkipsWhenFull(registry: Registry, g: ResourceGroup, now: string, md5: string -> Digest)
    requires !IsProtected(g, md5) && g.name !in registry && |registry| > RegistryCap
    ensures Sweep(registry, [g], now, md5) == PassState(registry, [])
  {
    SweepOne(registry, g, now, md5);
  }

  /** The two-sighting rule rests on the listing naming each group once: the
      same unprotected group listed twice is registered and deleted in one pass. */
  lemma DuplicateListingDeletesAtOnce(g: ResourceGroup, now: string, md5: string -> Digest)
    requires !IsProtected(g, md5)
    ensures Sweep(map[], [g, g], now, md5).deletions == [g.name]
  {
    var empty := PassState(map[], []);
    SweepOne(map[], g, now, md5);
    assert Visit(empty, g, now, md5) == PassState(map[g.name := now], []);
    assert [g, g][..1] == [g];
    assert Sweep(map[], [g, g], now, md5) == Visit(PassState(map[g.name := now], []), g, now, md5);
  }
}
