/** With working storage, reference counting keeps exactly the reachable layers. */
module LayerReachability {
  import opened Wrappers
  import opened ChainIDs
  import opened Pointers
  import opened LayerModel
  import opened LayerInvariant
  import opened LayerRuns

  /** A layer somebody asked for: through a handle, a mount or an operation in flight. */
  ghost predicate Root(core: Core, holds: Holds, c: ChainID) {
    && c in core.layers
    && (core.layers[c].refs != {}
        || (exists n :: n in core.mounts && core.mounts[n].parent == Some(c))
        || (exists t :: t in holds && holds[t] == Some(c)))
  }

  /** `c` is a root or an ancestor of one. */
  ghost predicate Needed(core: Core, holds: Holds, c: ChainID) {
    exists r :: Root(core, holds, r) && AncestorOrSelf(c, r)
  }

  lemma {:induction false} AncestorsAreShorter(a: ChainID, c: ChainID)
    requires AncestorOrSelf(a, c)
    ensures |Diffs(a)| <= |Diffs(c)|
    ensures a != c ==> |Diffs(a)| < |Diffs(c)|
  {
    if a != c { AncestorsAreShorter(a, c.parent); }
  }

  /** The chain of every stored layer is stored. */
  lemma {:induction false} ChainsAreComplete(core: Core, holds: Holds, a: ChainID, c: ChainID)
    requires WellKeyed(core.layers) && Closed(core, holds)
    requires c in core.layers && AncestorOrSelf(a, c)
    ensures a in core.layers
    decreases c
  {
    if a != c {
      PointsWithin(LayerParents(core.layers), core.layers.Keys, c);
      ChainsAreComplete(core, holds, a, c.parent);
    }
  }

  /** The stored descendants of `c`, itself included. */
  ghost function Above(core: Core, c: ChainID): set<ChainID> {
    set x | x in core.layers && AncestorOrSelf(c, x)
  }

  lemma ChildIsHigher(core: Core, c: ChainID, x: ChainID)
    requires c in core.layers && x in core.layers && ParentOf(x) == Some(c)
    ensures |Above(core, x)| < |Above(core, c)|
  {
    forall y | y in Above(core, x) ensures y in Above(core, c) { AncestorTransitive(c, x, y); }
    if AncestorOrSelf(x, c) { AncestorsAreShorter(x, c); }
    assert c in Above(core, c) && c !in Above(core, x);
    ProperSubsetIsSmaller(Above(core, x), Above(core, c));
  }

  lemma ProperSubsetIsSmaller(a: set<ChainID>, b: set<ChainID>)
    requires a < b
    ensures |a| < |b|
  {
    assert b == a + (b - a);
  }

  /** A used layer that is no root has a child. */
  lemma UsedByChild(core: Core, holds: Holds, c: ChainID) returns (x: ChainID)
    requires Counted(core, holds, None) && c in core.layers && core.layers[c].refCount > 0 && !Root(core, holds, c)
    ensures x in core.layers && core.layers[x].parent == Some(c)
  {
    var mounts, held := Pointing(MountParents(core.mounts), c), Pointing(holds, c);
    assert forall n :: n in mounts ==> n in core.mounts && core.mounts[n].parent == Some(c);
    assert mounts == {} && held == {};
    assert core.layers[c].refCount == Uses(core, holds, c);
    x :| x in Pointing(LayerParents(core.layers), c);
  }

  lemma FindRoot(core: Core, holds: Holds, c: ChainID) returns (r: ChainID)
    requires WellKeyed(core.layers) && Counted(core, holds, None) && NoGarbage(core) && c in core.layers
    ensures Root(core, holds, r) && AncestorOrSelf(c, r)
    decreases |Above(core, c)|
  {
    if Root(core, holds, c) {
      r := c;
    } else {
      var x := UsedByChild(core, holds, c);
      ChildIsHigher(core, c, x);
      r := FindRoot(core, holds, x);
      AncestorTransitive(c, x, r);
    }
  }

  lemma NeededIsStored(core: Core, holds: Holds, c: ChainID)
    requires WellKeyed(core.layers) && Closed(core, holds) && Needed(core, holds, c)
    ensures c in core.layers
  {
    hide WellKeyed;
    hide Closed;
    hide AncestorOrSelf;
    var r :| Root(core, holds, r) && AncestorOrSelf(c, r);
    ChainsAreComplete(core, holds, c, r);
  }

  lemma StoredIsNeeded(core: Core, holds: Holds, c: ChainID)
    requires WellKeyed(core.layers) && Counted(core, holds, None) && NoGarbage(core) && c in core.layers
    ensures Needed(core, holds, c)
  {
    hide WellKeyed;
    hide Counted;
    hide NoGarbage;
    hide Root;
    hide AncestorOrSelf;
    var r := FindRoot(core, holds, c);
  }

  /** layerMap is exactly the set of ancestors of roots: no layer is deleted early and none stays behind. */
  lemma LayersAreTheNeededOnes(core: Core, holds: Holds)
    requires Inv(core, holds) && NoGarbage(core)
    ensures forall c :: c in core.layers <==> Needed(core, holds, c)
  {
    hide Inv;
    hide Counted;
    hide Closed;
    hide WellKeyed;
    hide NoGarbage;
    hide Needed;
    InvParts(core, holds);
    forall c ensures c in core.layers <==> Needed(core, holds, c) {
      if c in core.layers { StoredIsNeeded(core, holds, c); }
      if Needed(core, holds, c) { NeededIsStored(core, holds, c); }
    }
  }

  // ---------------------------------------------------------------- along runs

  predicate RemovalsSucceed(e: Event) {
    match e
    case ReleaseHandle(_, failing) => failing == {}
    case Unwind(_, failing) => failing == {}
    case _ => true
  }

  lemma NextLeavesNoGarbage(s: Sys, e: Event)
    requires SysInv(s) && WellKeyed(s.core.layers)
    requires NoGarbage(s.core) && RemovalsSucceed(e)
    ensures NoGarbage(Next(s, e).core)
  {
    hide Inv;
    hide InvOwing;
    hide WellKeyed;
    hide Depth;
    hide ReleaseLayer;
    hide Release;
    hide SaveMountMeta;
    hide Commit;
    hide Get;
    match e
    case ReleaseHandle(h, failing) =>
      ReleaseHandleKeepsInv(s.core, Holdings(s.ops), h, failing);
    case Unwind(t, failing) =>
      if t in s.ops && s.ops[t].stage.Unwinding? && s.ops[t].parent.Some? {
        TakeToken(s.core, s.ops, t);
        ReleaseKeepsInv(s.core, Holdings(s.ops - {t}), s.ops[t].parent.value, failing);
      }
    case RegisterBegin(_, _, _, _, _) =>
    case RegisterAbort(_) =>
    case RegisterCommit(t, diff, size, ok) =>
      if t in s.ops && s.ops[t].stage.Registering? {
        CommitFrame(s.core, s.ops[t].parent, diff, size, s.ops[t].stage.cacheID, s.ops[t].stage.descriptor, ok);
      }
    case GetLayer(c) => GetFrame(s.core, c);
    case MountBegin(_, _, _, _) =>
    case MountAbort(_) =>
    case MountCommit(_, _, _) =>
    case GetRW(_) =>
    case ReleaseRW(_, _, _) =>
  }

  lemma {:induction false} RunLeavesNoGarbage(s: Sys, events: seq<Event>)
    requires SysInv(s) && NoGarbage(s.core)
    requires forall i :: 0 <= i < |events| ==> RemovalsSucceed(events[i])
    ensures NoGarbage(Run(s, events).core)
    decreases |events|
  {
    hide SysInv;
    hide NoGarbage;
    hide Next;
    if events != [] {
      InvGivesKeys(s);
      NextKeepsInv(s, events[0]);
      NextLeavesNoGarbage(s, events[0]);
      RunLeavesNoGarbage(Next(s, events[0]), events[1..]);
    }
  }

  /**
    From the empty store, in every run whose removals succeed: at every point layerMap is exactly
    the ancestors of layers with a handle, a mount or an operation in flight.
  */
  lemma ReferenceCountingIsReachability(events: seq<Event>)
    requires forall i :: 0 <= i < |events| ==> RemovalsSucceed(events[i])
    ensures SysInv(Start)
    ensures var r := Run(Start, events);
            forall c :: c in r.core.layers <==> Needed(r.core, Holdings(r.ops), c)
  {
    StartInv();
    RunLeavesNoGarbage(Start, events);
    LayersAreTheNeededOnes(Run(Start, events).core, Holdings(Run(Start, events).ops));
  }

  /** Release removes exactly the layers that nobody else needs. */
  lemma ReleaseRemovesTheUnneeded(core: Core, holds: Holds, h: Handle)
    requires Inv(core, holds) && WellKeyed(core.layers) && NoGarbage(core) && Retains(core, h)
    ensures var (core', removed, err) := Release(core, h, {});
            && err.NoError?
            && (forall c :: c in core.layers ==> (c in Chains(removed) <==> !Needed(Dereference(core, h), holds, c)))
            && core'.layers.Keys == core.layers.Keys - Chains(removed)
  {
    hide Inv;
    hide NoGarbage;
    hide Needed;
    hide OnlyReleased;
    hide WellKeyed;
    hide Release;
    ReleaseHandleKeepsInv(core, holds, h, {});
    var (core', removed, err) := Release(core, h, {});
    LayersAreTheNeededOnes(core', holds);
    ReleaseShape(core, holds, h);
    forall c | c in core.layers ensures Needed(core', holds, c) <==> Needed(Dereference(core, h), holds, c) {
      SameRoots(Dereference(core, h), core', holds, c);
    }
  }

  lemma ReleaseShape(core: Core, holds: Holds, h: Handle)
    requires Inv(core, holds) && WellKeyed(core.layers) && Retains(core, h)
    ensures OnlyReleased(Dereference(core, h), Release(core, h, {}).0)
    ensures Inv(Release(core, h, {}).0, holds)
    ensures Release(core, h, {}).0.layers.Keys <= core.layers.Keys
  {
    hide InvOwing;
    hide ReleaseLayer;
    hide WellKeyed;
    HandleToToken(core, holds, h);
    ReleaseKeepsInv(Dereference(core, h), holds, h.chain, {});
  }

  lemma SameRoots(a: Core, b: Core, holds: Holds, c: ChainID)
    requires OnlyReleased(a, b) && Inv(b, holds)
    ensures Needed(a, holds, c) <==> Needed(b, holds, c)
  {
    forall r | Root(a, holds, r) ensures Root(b, holds, r) {
      forall n | n in b.mounts && b.mounts[n].parent == Some(r) ensures r in b.layers {
        PointsWithin(MountParents(b.mounts), b.layers.Keys, n);
      }
      forall t | t in holds && holds[t] == Some(r) ensures r in b.layers {
        PointsWithin(holds, b.layers.Keys, t);
      }
    }
  }

  // ---------------------------------------------------------------- handles are safe with their owner

  lemma ReleaseKeepsOtherHandles(core: Core, holds: Holds, g: Handle, failing: set<ChainID>, h: Handle)
    requires Inv(core, holds) && WellKeyed(core.layers) && Retains(core, h) && g != h
    ensures Retains(Release(core, g, failing).0, h)
  {
    hide InvOwing;
    hide ReleaseLayer;
    hide WellKeyed;
    if Retains(core, g) {
      HandleToToken(core, holds, g);
      ReleaseKeepsInv(Dereference(core, g), holds, g.chain, failing);
      assert h.id in Dereference(core, g).layers[h.chain].refs;
    }
  }

  lemma UnwindKeepsHandles(s: Sys, t: nat, failing: set<ChainID>, h: Handle)
    requires SysInv(s) && WellKeyed(s.core.layers) && Retains(s.core, h)
    ensures Retains(Next(s, Unwind(t, failing)).core, h)
  {
    hide Inv;
    hide InvOwing;
    hide ReleaseLayer;
    hide WellKeyed;
    if t in s.ops && s.ops[t].stage.Unwinding? && s.ops[t].parent.Some? {
      TakeToken(s.core, s.ops, t);
      ReleaseKeepsInv(s.core, Holdings(s.ops - {t}), s.ops[t].parent.value, failing);
    }
  }

  /** No event but the release of this very handle takes it from its owner. */
  lemma HandleStays(s: Sys, e: Event, h: Handle)
    requires SysInv(s) && WellKeyed(s.core.layers) && Retains(s.core, h)
    requires e.ReleaseHandle? ==> e.handle != h
    ensures Retains(Next(s, e).core, h)
  {
    hide Inv;
    hide WellKeyed;
    hide Depth;
    hide ReleaseLayer;
    hide Release;
    hide SaveMountMeta;
    match e
    case ReleaseHandle(g, failing) => ReleaseKeepsOtherHandles(s.core, Holdings(s.ops), g, failing, h);
    case Unwind(t, failing) => UnwindKeepsHandles(s, t, failing, h);
    case RegisterBegin(_, _, _, _, _) =>
    case RegisterAbort(_) =>
    case RegisterCommit(_, _, _, _) =>
    case GetLayer(_) =>
    case MountBegin(_, _, _, _) =>
    case MountAbort(_) =>
    case MountCommit(_, _, _) =>
    case GetRW(_) =>
    case ReleaseRW(_, _, _) =>
  }

  /** As long as a handle is not released, the whole chain of its layer stays in the store. */
  lemma {:induction false} HeldChainsStay(s: Sys, events: seq<Event>, h: Handle, a: ChainID)
    requires SysInv(s) && Retains(s.core, h) && AncestorOrSelf(a, h.chain)
    requires forall i :: 0 <= i < |events| && events[i].ReleaseHandle? ==> events[i].handle != h
    ensures Retains(Run(s, events).core, h) && a in Run(s, events).core.layers
    decreases |events|
  {
    if events == [] {
      ChainsAreComplete(s.core, Holdings(s.ops), a, h.chain);
    } else {
      hide Next;
      InvGivesKeys(s);
      NextKeepsInv(s, events[0]);
      HandleStays(s, events[0], h);
      HeldChainsStay(Next(s, events[0]), events[1..], h, a);
    }
  }
}
