/**
  layerStore as an object whose methods update its maps in place, proved against the critical
  sections of LayerModel. The operations that span several critical sections (registration,
  creating and releasing a mount) are shown here without interference, as particular runs of
  LayerRuns; LayerRuns covers every other interleaving of the same sections.
*/
module LayerStores {
  import opened Wrappers
  import opened ChainIDs
  import opened Pointers
  import opened LayerModel
  import opened LayerInvariant
  import opened LayerRuns
  import opened LayerDepth
  import opened LayerMetadata
  import opened LayerRestart
  import opened LayerMounts

  /** `s` lists the elements of `all`, each once. */
  ghost predicate Lists<T(!new)>(s: seq<T>, all: set<T>) {
    && (forall i, j :: 0 <= i < j < |s| ==> s[i] != s[j])
    && (forall x :: x in all <==> x in s)
  }

  lemma MountInsertPointing(mounts: map<string, Mount>, n: string, m: Mount)
    requires n !in mounts
    ensures forall k :: |Pointing(MountParents(mounts[n := m]), k)| == |Pointing(MountParents(mounts), k)| + At(m.parent, k)
  {
    forall k ensures |Pointing(MountParents(mounts[n := m]), k)| == |Pointing(MountParents(mounts), k)| + At(m.parent, k) {
      assert MountParents(mounts[n := m]) == MountParents(mounts)[n := m.parent];
      PointingInsert(MountParents(mounts), n, m.parent, k);
    }
  }

  /** Every count is the number of pointers of `m` at the layer. */
  ghost predicate CountedBy<K>(layers: map<ChainID, Layer>, m: map<K, Option<ChainID>>) {
    forall k :: k in layers ==> layers[k].refCount == |Pointing(m, k)|
  }

  /** Layers that nothing points at come in with a count of zero. */
  lemma CountedByMore<K>(before: map<ChainID, Layer>, after: map<ChainID, Layer>, m: map<K, Option<ChainID>>)
    requires CountedBy(before, m) && Within(m, before.Keys) && before.Keys <= after.Keys
    requires forall k :: k in after ==> after[k].refCount == if k in before then before[k].refCount else 0
    ensures CountedBy(after, m)
  {}

  lemma CountedByOneMore<K>(before: map<ChainID, Layer>, after: map<ChainID, Layer>, m: map<K, Option<ChainID>>, x: K, parent: Option<ChainID>)
    requires CountedBy(before, m) && before.Keys == after.Keys && x !in m
    requires forall k :: k in after ==> after[k].refCount == before[k].refCount + At(parent, k)
    ensures CountedBy(after, m[x := parent])
  {
    hide Pointing;
    forall k | k in after ensures after[k].refCount == |Pointing(m[x := parent], k)| { PointingInsert(m, x, parent, k); }
  }

  /** The same for the pointers of layers and of mounts together. */
  ghost predicate CountedByBoth(layers: map<ChainID, Layer>, parents: map<ChainID, Option<ChainID>>, mounts: map<string, Mount>) {
    forall k :: k in layers ==> layers[k].refCount == |Pointing(parents, k)| + |Pointing(MountParents(mounts), k)|
  }

  lemma CountedByOneMount(before: map<ChainID, Layer>, after: map<ChainID, Layer>, parents: map<ChainID, Option<ChainID>>,
                          mounts: map<string, Mount>, n: string, m: Mount)
    requires CountedByBoth(before, parents, mounts) && before.Keys == after.Keys && n !in mounts
    requires forall k :: k in after ==> after[k].refCount == before[k].refCount + At(m.parent, k)
    ensures CountedByBoth(after, parents, mounts[n := m])
  {
    hide Pointing;
    MountInsertPointing(mounts, n, m);
  }

  /** The store when no operation is in flight. */
  function Idle(core: Core): Sys {
    Sys(core, map[], None, false)
  }

  lemma IdleInv(core: Core)
    requires Inv(core, map[])
    ensures SysInv(Idle(core))
  {
    assert Holdings(map[]) == map[];
  }

  lemma RunThree(s: Sys, e0: Event, e1: Event, e2: Event)
    requires SysInv(s)
    ensures Run(s, [e0, e1, e2]) == Then(Then(Then(s, e0), e1), e2)
  {
    hide SysInv;
    hide Then;
    assert [e0, e1, e2][1..] == [e1, e2] && [e1, e2][1..] == [e2] && [e2][1..] == [];
    assert Run(Then(Then(s, e0), e1), [e2]) == Run(Then(Then(Then(s, e0), e1), e2), []);
  }

  /** Giving back a hold on a layer that has another use restores the store. */
  lemma HoldThenRelease(core: Core, c: ChainID, failing: set<ChainID>)
    requires WellKeyed(core.layers) && c in core.layers && core.layers[c].refCount > 0
    ensures WellKeyed(Hold(core, c).layers)
    ensures LayerModel.ReleaseLayer(Hold(core, c), c, failing) == ReleaseResult(core, [], Released)
  {
    var held := Hold(core, c);
    assert WellKeyed(held.layers);
    assert ReleaseStep(held, c, [], 0, failing) == Stop(ReleaseResult(Drop(held, c), [], Released));
    assert Drop(held, c).layers == core.layers;
  }

  lemma {:induction false} DepthIgnoresCounts(a: map<ChainID, Layer>, b: map<ChainID, Layer>, c: ChainID)
    requires WellKeyed(a) && WellKeyed(b) && c in a
    requires a.Keys == b.Keys && forall k :: k in a ==> a[k].parent == b[k].parent
    ensures Depth(a, c) == Depth(b, c)
    decreases c
  {
    if a[c].parent.Some? && a[c].parent.value in a { DepthIgnoresCounts(a, b, a[c].parent.value); }
  }

  function HoldParentOf(core: Core, parent: Option<ChainID>): (r: Core)
    requires parent.Some? ==> parent.value in core.layers
    ensures WellKeyed(core.layers) ==> WellKeyed(r.layers)
  {
    if parent.Some? then Hold(core, parent.value) else core
  }

  function ReleaseParentOf(core: Core, parent: Option<ChainID>, failing: set<ChainID>): Core
    requires WellKeyed(core.layers)
  {
    if parent.Some? then LayerModel.ReleaseLayer(core, parent.value, failing).core else core
  }

  /**
    A registration without interference. `work` is the diff and size that the driver and the tar
    stream yield, if none of them fails.
  */
  function Registration(core: Core, parent: Option<ChainID>, cacheID: string, descriptor: string, migration: bool,
                        work: Option<(DiffID, int)>, commitOK: bool, failing: set<ChainID>): (Core, Option<Handle>)
    requires WellKeyed(core.layers)
  {
    if parent.Some? && parent.value !in core.layers then (core, None)
    else
      var held := HoldParentOf(core, parent);
      if work.None? || (!migration && TooDeep(held, parent)) then (ReleaseParentOf(held, parent, failing), None)
      else
        var (core', r) := LayerModel.Commit(held, parent, work.value.0, work.value.1, cacheID, descriptor, commitOK);
        match r
        case New(h) => (core', Some(h))
        case Existing(h) => (ReleaseParentOf(core', parent, failing), Some(h))
        case CommitFailed => (ReleaseParentOf(core', parent, failing), None)
  }

  function RegistrationEvents(parent: Option<ChainID>, cacheID: string, descriptor: string, migration: bool,
                              work: Option<(DiffID, int)>, commitOK: bool, failing: set<ChainID>): seq<Event>
  {
    [RegisterBegin(0, parent, cacheID, descriptor, migration),
     if work.None? then RegisterAbort(0) else RegisterCommit(0, work.value.0, work.value.1, commitOK),
     Unwind(0, failing)]
  }

  /** The first event of a registration that finds its parent. */
  lemma RegistrationBegins(core: Core, parent: Option<ChainID>, cacheID: string, descriptor: string, migration: bool)
    requires Inv(core, map[]) && WellKeyed(core.layers) && SysInv(Idle(core))
    requires parent.Some? ==> parent.value in core.layers
    ensures var stage := if !migration && TooDeep(HoldParentOf(core, parent), parent) then Unwinding else Registering(cacheID, descriptor);
            Then(Idle(core), RegisterBegin(0, parent, cacheID, descriptor, migration))
            == Sys(HoldParentOf(core, parent), map[][0 := Op(stage, parent)], None, false)
  {
    hide SysInv;
    hide WellKeyed;
    hide Depth;
    hide Inv;
    if parent.Some? { DepthIgnoresHold(core, parent.value); }
  }

  /** The last event of an operation that has nothing left to do but to give its parent back. */
  lemma UnwindEnds(s: Sys, core: Core, parent: Option<ChainID>, lock: Option<nat>, failing: set<ChainID>)
    requires SysInv(s) && WellKeyed(core.layers)
    requires s == Sys(core, map[][0 := Op(Unwinding, parent)], lock, false) && (lock == None || lock == Some(0))
    ensures Then(s, Unwind(0, failing)) == Idle(ReleaseParentOf(core, parent, failing))
  {
    hide SysInv;
    hide WellKeyed;
    hide LayerModel.ReleaseLayer;
    UnwindIsNormal(s, failing);
  }

  /** A registration without interference is a run of its events. */
  lemma RegistrationIsARun(core: Core, parent: Option<ChainID>, cacheID: string, descriptor: string, migration: bool,
                           work: Option<(DiffID, int)>, commitOK: bool, failing: set<ChainID>)
    requires Inv(core, map[]) && WellKeyed(core.layers)
    ensures SysInv(Idle(core))
    ensures Run(Idle(core), RegistrationEvents(parent, cacheID, descriptor, migration, work, commitOK, failing))
            == Idle(Registration(core, parent, cacheID, descriptor, migration, work, commitOK, failing).0)
  {
    hide SysInv;
    hide WellKeyed;
    hide LayerModel.ReleaseLayer;
    hide LayerModel.Commit;
    hide Depth;
    hide Inv;
    hide TooDeep;
    IdleInv(core);
    var e := RegistrationEvents(parent, cacheID, descriptor, migration, work, commitOK, failing);
    var s := Idle(core);
    RunThree(s, e[0], e[1], e[2]);
    if parent.None? || parent.value in core.layers {
      var held := HoldParentOf(core, parent);
      RegistrationBegins(core, parent, cacheID, descriptor, migration);
      var s1 := Then(s, e[0]);
      var s2 := Then(s1, e[1]);
      InvGivesKeys(s2);
      if 0 in s2.ops { UnwindEnds(s2, s2.core, parent, None, failing); }
    }
  }

  lemma DepthIgnoresHold(core: Core, c: ChainID)
    requires WellKeyed(core.layers) && c in core.layers
    ensures WellKeyed(Hold(core, c).layers) && Depth(Hold(core, c).layers, c) == Depth(core.layers, c)
  {
    DepthIgnoresCounts(core.layers, Hold(core, c).layers, c);
  }

  lemma UnwindIsNormal(s: Sys, failing: set<ChainID>)
    requires SysInv(s)
    ensures !Then(s, Unwind(0, failing)).panicked
  {}

  /** A layer without uses, which is there only because an earlier removal of it failed. */
  predicate Leftover(core: Core, parent: Option<ChainID>) {
    parent.Some? && parent.value in core.layers && core.layers[parent.value].refCount == 0
  }

  /** The release of a leftover layer that works removes it. */
  lemma LeftoverGoes(core: Core, holds: Holds, c: ChainID, failing: set<ChainID>)
    requires Inv(core, holds) && WellKeyed(core.layers) && c in core.layers && core.layers[c].refCount == 0
    ensures WellKeyed(Hold(core, c).layers)
    ensures var core' := LayerModel.ReleaseLayer(Hold(core, c), c, failing).core;
            if c in failing then core' == core else c !in core'.layers
  {
    hide Closed;
    hide Fresh;
    hide MetadataOf;
    UnusedIsUnpointed(core, holds, c);
    var held := Hold(core, c);
    assert WellKeyed(held.layers);
    var dropped := Drop(held, c);
    assert dropped.layers == core.layers;
    var gone := Remove(dropped, c);
    var step := ReleaseStep(held, c, [], 0, failing);
    if c !in failing && step.Continue? { ReleaseFromShape(step.core, step.parent, step.removed, 1, failing); }
  }

  /** Holding a layer and giving it back leaves the store as it was, exactly unless that removes a leftover layer. */
  lemma HoldReleaseExactly(core: Core, holds: Holds, parent: Option<ChainID>, failing: set<ChainID>)
    requires Inv(core, holds) && WellKeyed(core.layers) && Present(core, parent)
    ensures ReleaseParentOf(HoldParentOf(core, parent), parent, failing) == core <==> !(Leftover(core, parent) && parent.value !in failing)
    ensures Leftover(core, parent) && parent.value !in failing ==>
              parent.value !in ReleaseParentOf(HoldParentOf(core, parent), parent, failing).layers
  {
    hide Inv;
    hide WellKeyed;
    hide LayerModel.ReleaseLayer;
    if Leftover(core, parent) {
      LeftoverGoes(core, holds, parent.value, failing);
    } else if parent.Some? {
      HoldThenRelease(core, parent.value, failing);
    }
  }

  lemma CommitRetains(core: Core, parent: Option<ChainID>, diff: DiffID, size: int, cacheID: string, descriptor: string, commitOK: bool)
    ensures var (core', r) := LayerModel.Commit(core, parent, diff, size, cacheID, descriptor, commitOK);
            if r.CommitFailed? then core' == core
            else r.handle == Handle(core.next, Extend(parent, diff)) && Retains(core', r.handle)
  {}

  lemma ReleaseRetains(core: Core, holds: Holds, c: ChainID, failing: set<ChainID>, h: Handle)
    requires InvOwing(core, holds, Some(c)) && WellKeyed(core.layers) && Retains(core, h)
    ensures Retains(LayerModel.ReleaseLayer(core, c, failing).core, h)
  {
    hide InvOwing;
    hide WellKeyed;
    hide LayerModel.ReleaseLayer;
    ReleaseKeepsInv(core, holds, c, failing);
  }

  /**
    A registration that fails leaves the store as it was, exactly unless its parent is a leftover
    layer, which then goes if it can; one that succeeds hands out the layer of its content.
  */
  lemma RegistrationAllOrNothing(core: Core, parent: Option<ChainID>, cacheID: string, descriptor: string, migration: bool,
                                 work: Option<(DiffID, int)>, commitOK: bool, failing: set<ChainID>)
    requires Inv(core, map[]) && WellKeyed(core.layers)
    ensures var (core', h) := Registration(core, parent, cacheID, descriptor, migration, work, commitOK, failing);
            && Inv(core', map[])
            && (h.None? ==> (core' == core <==> !(Leftover(core, parent) && parent.value !in failing)))
            && (h.Some? ==> work.Some? && h.value == Handle(core.next, Extend(parent, work.value.0)) && Retains(core', h.value))
  {
    hide Inv;
    hide WellKeyed;
    hide InvOwing;
    hide LayerModel.ReleaseLayer;
    hide LayerModel.Commit;
    hide Retains;
    hide Depth;
    hide Run;
    RegistrationIsARun(core, parent, cacheID, descriptor, migration, work, commitOK, failing);
    var (core', h) := Registration(core, parent, cacheID, descriptor, migration, work, commitOK, failing);
    assert Holdings(map[]) == map[];
    if parent.None? || parent.value in core.layers {
      var held := HoldParentOf(core, parent);
      assert held.next == core.next;
      if h.None? {
        if work.Some? && (migration || !TooDeep(held, parent)) {
          CommitRetains(held, parent, work.value.0, work.value.1, cacheID, descriptor, commitOK);
          var (added, r) := LayerModel.Commit(held, parent, work.value.0, work.value.1, cacheID, descriptor, commitOK);
          assert r.CommitFailed? && core' == ReleaseParentOf(held, parent, failing);
        } else {
          assert core' == ReleaseParentOf(held, parent, failing);
        }
        HoldReleaseExactly(core, map[], parent, failing);
      } else {
        var (added, r) := LayerModel.Commit(held, parent, work.value.0, work.value.1, cacheID, descriptor, commitOK);
        CommitRetains(held, parent, work.value.0, work.value.1, cacheID, descriptor, commitOK);
        if !r.New? && parent.Some? {
          HoldParent(core, map[], parent);
          CommitKeepsInv(held, map[], parent, work.value.0, work.value.1, cacheID, descriptor, commitOK);
          ReleaseRetains(added, map[], parent.value, failing, h.value);
        }
      }
    }
  }

  /**
    A registration succeeds exactly when its parent is stored, its work does not fail, the chain does
    not get longer than the limit unless it is a migration, and the layer is there already or the
    metadata can be committed.
  */
  lemma RegistrationSucceedsExactly(core: Core, parent: Option<ChainID>, cacheID: string, descriptor: string, migration: bool,
                                    work: Option<(DiffID, int)>, commitOK: bool, failing: set<ChainID>)
    requires Inv(core, map[]) && WellKeyed(core.layers)
    ensures Registration(core, parent, cacheID, descriptor, migration, work, commitOK, failing).1.Some? <==>
              && (parent.Some? ==> parent.value in core.layers)
              && work.Some?
              && (migration || |DiffsOf(parent)| < 125)
              && (Extend(parent, work.value.0) in core.layers || commitOK)
  {
    hide Inv;
    hide WellKeyed;
    hide LayerModel.ReleaseLayer;
    hide Depth;
    InvParts(core, map[]);
    if parent.Some? && parent.value in core.layers {
      DepthIgnoresHold(core, parent.value);
      DepthIsChainLength(core, map[], parent.value);
    }
  }

  /** The store with one layer more, which is exactly as it was registered; all other layers stay as they are but for their counts. */
  ghost predicate Registers(core: Core, core': Core, c: ChainID, l: Layer) {
    && c in core'.layers && core'.layers[c] == l
    && c in core'.layerMeta && core'.layerMeta[c] == LayerMeta(l.diff, l.parent, l.cacheID, l.size, l.descriptor)
    && core'.layers.Keys == core.layers.Keys + {c}
    && forall k :: k in core.layers ==> StoreLayer(core'.layers[k]) == StoreLayer(core.layers[k]) && core'.layers[k].refs == core.layers[k].refs
  }

  /**
    What a registration that succeeds stores: a new layer with this diff, parent, size, cache
    identifier and descriptor, and one handle; a layer that is there already keeps its own.
  */
  lemma RegistrationStores(core: Core, parent: Option<ChainID>, cacheID: string, descriptor: string, migration: bool,
                           work: Option<(DiffID, int)>, commitOK: bool, failing: set<ChainID>)
    requires Inv(core, map[]) && WellKeyed(core.layers)
    ensures var (core', h) := Registration(core, parent, cacheID, descriptor, migration, work, commitOK, failing);
            h.Some? ==>
              && work.Some?
              && var c := Extend(parent, work.value.0);
                 if c !in core.layers then Registers(core, core', c, Layer(work.value.0, parent, cacheID, work.value.1, descriptor, 1, {core.next}))
                 else
                   && c in core'.layers && StoreLayer(core'.layers[c]) == StoreLayer(core.layers[c])
                   && core'.layers[c].refs == core.layers[c].refs + {core.next}
  {
    hide Inv;
    hide WellKeyed;
    hide InvOwing;
    hide LayerModel.ReleaseLayer;
    hide Depth;
    hide LayerModel.Commit;
    hide Registers;
    var (core', h) := Registration(core, parent, cacheID, descriptor, migration, work, commitOK, failing);
    if h.Some? {
      var c := Extend(parent, work.value.0);
      var held := HoldParentOf(core, parent);
      CommitStores(core, parent, work.value.0, work.value.1, cacheID, descriptor, commitOK);
      if c in core.layers && parent.Some? {
        var added := LayerModel.Commit(held, parent, work.value.0, work.value.1, cacheID, descriptor, commitOK).0;
        HoldParent(core, map[], parent);
        CommitKeepsInv(held, map[], parent, work.value.0, work.value.1, cacheID, descriptor, commitOK);
        ReleaseKeepsInv(added, map[], parent.value, failing);
      }
    }
  }

  lemma CommitStores(core: Core, parent: Option<ChainID>, diff: DiffID, size: int, cacheID: string, descriptor: string, commitOK: bool)
    requires parent.Some? ==> parent.value in core.layers
    ensures var c := Extend(parent, diff);
            var (added, r) := LayerModel.Commit(HoldParentOf(core, parent), parent, diff, size, cacheID, descriptor, commitOK);
            && (c in core.layers ==>
                  && r.Existing? && c in added.layers && StoreLayer(added.layers[c]) == StoreLayer(core.layers[c])
                  && added.layers[c].refs == core.layers[c].refs + {core.next})
            && (c !in core.layers ==>
                  && !r.Existing?
                  && (r.New? ==> Registers(core, added, c, Layer(diff, parent, cacheID, size, descriptor, 1, {core.next}))))
  {
    var c, held := Extend(parent, diff), HoldParentOf(core, parent);
    assert held.layers.Keys == core.layers.Keys;
    if c !in core.layers && commitOK {
      var added := LayerModel.Commit(held, parent, diff, size, cacheID, descriptor, commitOK).0;
      assert {} + {core.next} == {core.next};
      assert added.layers.Keys == core.layers.Keys + {c};
    }
  }

  const DIFF: DiffID := "diff"

  /** A layer whose removal fails when its only handle is released stays as a leftover. */
  const LEFTOVER_CORE := Core(map[Base(DIFF) := Layer(DIFF, None, "", 0, "", 0, {})], map[], map[Base(DIFF) := LayerMeta(DIFF, None, "", 0, "")], map[], 1)

  /** A run that leaves a layer behind, and a failing registration on it that takes it away. */
  lemma FailedRegistrationTakesLeftover()
    ensures SysInv(Start)
    ensures Run(Start, [RegisterBegin(0, None, "", "", false), RegisterCommit(0, DIFF, 0, true), ReleaseHandle(Handle(0, Base(DIFF)), {Base(DIFF)})])
            == Idle(LEFTOVER_CORE)
    ensures WellKeyed(LEFTOVER_CORE.layers)
    ensures Registration(LEFTOVER_CORE, Some(Base(DIFF)), "", "", false, None, true, {}) == (Core(map[], map[], map[], map[], 1), None)
  {
    hide Inv;
    hide Depth;
    hide MetadataOf;
    StartInv();
    var c := Base(DIFF);
    var e0, e1, e2 := RegisterBegin(0, None, "", "", false), RegisterCommit(0, DIFF, 0, true), ReleaseHandle(Handle(0, c), {c});
    RunThree(Start, e0, e1, e2);
    var s1 := Then(Start, e0);
    assert s1 == Sys(EmptyCore, map[0 := Op(Registering("", ""), None)], None, false);
    var s2 := Then(s1, e1);
    var used := LEFTOVER_CORE.(layers := map[c := Layer(DIFF, None, "", 0, "", 1, {0})]);
    assert {} + {0} == {0};
    assert s2.core.layers == used.layers && s2.core.layerMeta == used.layerMeta;
    assert s2.core == used && s2.ops == map[];
    var freed := LEFTOVER_CORE.(layers := map[c := Layer(DIFF, None, "", 0, "", 1, {})]);
    assert Dereference(used, Handle(0, c)) == freed;
    assert WellKeyed(freed.layers) && Drop(freed, c) == LEFTOVER_CORE;
    assert Hold(LEFTOVER_CORE, c) == freed;
    assert Remove(LEFTOVER_CORE, c) == Core(map[], map[], map[], map[], 1);
  }

  /** CreateRWLayer without interference; `work` is the init layer ("" for none), if the driver does not fail. */
  function MountCreation(core: Core, name: string, parent: Option<ChainID>, mountID: string,
                         work: Option<string>, fault: SaveFault, failing: set<ChainID>): (Core, Option<MountRef>)
    requires WellKeyed(core.layers)
  {
    if name in core.mounts || (parent.Some? && parent.value !in core.layers) then (core, None)
    else
      var held := HoldParentOf(core, parent);
      if work.None? then (ReleaseParentOf(held, parent, failing), None)
      else
        var (core', r) := LayerModel.SaveMount(held, name, mountID, work.value, parent, fault);
        if r.Some? then (core', r) else (ReleaseParentOf(core', parent, failing), None)
  }

  /** ReleaseRWLayer without interference. */
  function MountRemoval(core: Core, ref: MountRef, removalOK: bool, failing: set<ChainID>): (Core, MountRelease)
    requires WellKeyed(core.layers)
  {
    var (core', r) := LayerModel.ReleaseMount(core, ref, removalOK);
    (if r.Unmounted? then ReleaseParentOf(core', r.parent, failing) else core', r)
  }

  /** Mount operations without interference are runs of their events. */
  lemma MountCreationIsARun(core: Core, name: string, parent: Option<ChainID>, mountID: string,
                            work: Option<string>, fault: SaveFault, failing: set<ChainID>)
    requires Inv(core, map[]) && WellKeyed(core.layers)
    ensures SysInv(Idle(core))
    ensures Run(Idle(core), [MountBegin(0, name, parent, mountID),
                             if work.None? then MountAbort(0) else MountCommit(0, work.value, fault),
                             Unwind(0, failing)])
            == Idle(MountCreation(core, name, parent, mountID, work, fault, failing).0)
  {
    hide SysInv;
    hide WellKeyed;
    hide LayerModel.ReleaseLayer;
    hide LayerModel.SaveMount;
    hide Inv;
    IdleInv(core);
    var s := Idle(core);
    var e1 := if work.None? then MountAbort(0) else MountCommit(0, work.value, fault);
    RunThree(s, MountBegin(0, name, parent, mountID), e1, Unwind(0, failing));
    var s1 := Then(s, MountBegin(0, name, parent, mountID));
    var s2 := Then(s1, e1);
    UnwindIsNormal(s2, failing);
    if name !in core.mounts && (parent.None? || parent.value in core.layers) {
      assert s1 == Sys(HoldParentOf(core, parent), map[][0 := Op(Mounting(name, mountID), parent)], Some(0), false);
    }
  }

  /**
    A mount creation that fails leaves layers and mounts as they were, exactly unless its parent is a
    leftover layer, which then goes if it can; what it leaves of the mount's metadata is what saveMount
    had written. From metadata in step, nothing at all has changed exactly if moreover saveMount was
    not cut short after its first write. A creation that succeeds mounts what was asked for.
  */
  lemma MountCreationAllOrNothing(core: Core, name: string, parent: Option<ChainID>, mountID: string,
                                  work: Option<string>, fault: SaveFault, failing: set<ChainID>)
    requires Inv(core, map[]) && WellKeyed(core.layers)
    ensures var (core', r) := MountCreation(core, name, parent, mountID, work, fault, failing);
            var goes := name !in core.mounts && Leftover(core, parent) && parent.value !in failing;
            var saves := name !in core.mounts && Present(core, parent) && work.Some?;
            var meta := if saves then SaveMountMeta(core.mountMeta, name, Mount(mountID, work.value, parent, {}), fault).0 else core.mountMeta;
            && Inv(core', map[])
            && (r.None? ==> (core' == core.(mountMeta := meta) <==> !goes))
            && (r.None? && Untorn(core) ==> (core' == core <==> !goes && !(saves && CutShort(work.value, parent, fault))))
            && (r.Some? ==> saves && name in core'.mounts && core'.mounts[name] == Mount(mountID, work.value, parent, {core.next}))
  {
    hide Inv;
    hide WellKeyed;
    hide LayerModel.ReleaseLayer;
    hide Run;
    hide Untorn;
    hide HoldParentOf;
    hide ReleaseParentOf;
    MountCreationIsARun(core, name, parent, mountID, work, fault, failing);
    assert Holdings(map[]) == map[];
    if name !in core.mounts && Present(core, parent) {
      HoldParentIs(core, parent);
      HoldReleaseExactly(core, map[], parent, failing);
      if work.Some? {
        var meta := SaveMountMeta(core.mountMeta, name, Mount(mountID, work.value, parent, {}), fault).0;
        OtherMetadataKeepsInv(core, meta);
        HoldParentIs(core.(mountMeta := meta), parent);
        HoldReleaseExactly(core.(mountMeta := meta), map[], parent, failing);
        if Untorn(core) { SaveMountChangesNothing(core, name, mountID, work.value, parent, fault); }
      }
    }
  }

  lemma HoldParentIs(core: Core, parent: Option<ChainID>)
    requires Present(core, parent)
    ensures HoldParentOf(core, parent) == core.(layers := HoldParentOf(core, parent).layers)
    ensures forall meta :: HoldParentOf(core.(mountMeta := meta), parent) == HoldParentOf(core, parent).(mountMeta := meta)
  {}

  lemma OtherMetadataKeepsInv(core: Core, meta: map<string, MountMeta>)
    requires Inv(core, map[])
    ensures Inv(core.(mountMeta := meta), map[])
  {
    SaveFailedCounted(core, map[], None, core.(mountMeta := meta));
  }

  lemma SaveMountChangesNothing(core: Core, name: string, mountID: string, initID: string, parent: Option<ChainID>, fault: SaveFault)
    requires Untorn(core) && name !in core.mounts
    ensures var (meta, ok) := SaveMountMeta(core.mountMeta, name, Mount(mountID, initID, parent, {}), fault);
            !ok ==> (meta == core.mountMeta <==> !CutShort(initID, parent, fault))
  {
    var meta := SaveMountMeta(core.mountMeta, name, Mount(mountID, initID, parent, {}), fault).0;
    if CutShort(initID, parent, fault) { assert name in meta && name !in core.mountMeta; }
  }

  lemma MountRemovalIsARun(core: Core, ref: MountRef, removalOK: bool, failing: set<ChainID>)
    requires Inv(core, map[]) && WellKeyed(core.layers)
    ensures SysInv(Idle(core))
    ensures Run(Idle(core), [ReleaseRW(0, ref, removalOK), Unwind(0, failing), Unwind(0, failing)])
            == Idle(MountRemoval(core, ref, removalOK, failing).0)
  {
    hide SysInv;
    hide WellKeyed;
    hide LayerModel.ReleaseLayer;
    hide LayerModel.ReleaseMount;
    hide Inv;
    IdleInv(core);
    var s := Idle(core);
    RunThree(s, ReleaseRW(0, ref, removalOK), Unwind(0, failing), Unwind(0, failing));
    var s1 := Then(s, ReleaseRW(0, ref, removalOK));
    UnwindIsNormal(s1, failing);
    var (core', r) := LayerModel.ReleaseMount(core, ref, removalOK);
    if r.Unmounted? {
      assert s1 == Sys(core', map[][0 := Op(Unwinding, r.parent)], Some(0), false);
    } else {
      assert s1 == Idle(core');
    }
  }

  /**
    A mount removal as a whole: the mounts are as ReleaseMountExactly says, layers change exactly when
    the mount goes with its last reference, and then, with working storage, none stays unused.
  */
  lemma MountRemovalExactly(core: Core, ref: MountRef, removalOK: bool, failing: set<ChainID>)
    requires Inv(core, map[]) && WellKeyed(core.layers) && RetainsMount(core, ref)
    ensures var (core', r) := MountRemoval(core, ref, removalOK, failing);
            var m := core.mounts[ref.name];
            && Inv(core', map[])
            && (r == Unmounted(m.parent) <==> m.refs == {ref.id} && removalOK)
            && core'.mounts == (if m.refs != {ref.id} then core.mounts[ref.name := m.(refs := m.refs - {ref.id})]
                                else if removalOK then core.mounts - {ref.name} else core.mounts)
            && (!(m.refs == {ref.id} && removalOK) ==> core'.layers == core.layers)
            && (m.refs == {ref.id} && removalOK && m.parent.None? ==> core'.layers == core.layers)
            && (m.refs == {ref.id} && removalOK && failing == {} && NoGarbage(core) ==> NoGarbage(core'))
  {
    hide Inv;
    hide WellKeyed;
    hide InvOwing;
    hide LayerModel.ReleaseLayer;
    hide Run;
    MountRemovalIsARun(core, ref, removalOK, failing);
    assert Holdings(map[]) == map[];
    ReleaseMountExactly(core, ref, removalOK);
    ReleaseMountKeepsInv(core, map[], ref, removalOK);
    var (core1, r) := LayerModel.ReleaseMount(core, ref, removalOK);
    if r.Unmounted? && r.parent.Some? { ReleaseKeepsInv(core1, map[], r.parent.value, failing); }
  }

  class LayerStore {
    var layerMap: map<ChainID, Layer>
    var mounts: map<string, Mount>
    var layerMeta: map<ChainID, LayerMeta>
    var mountMeta: map<string, MountMeta>
    var next: nat

    ghost function Abs(): Core
      reads this
    {
      Core(layerMap, mounts, layerMeta, mountMeta, next)
    }

    constructor Empty()
      ensures Abs() == EmptyCore
    {
      layerMap, mounts, layerMeta, mountMeta, next := map[], map[], map[], map[], 0;
    }

    // -------------------------------------------------------------- read-only layers

    /** getWithoutLock. */
    method GetWithoutLock(c: ChainID) returns (found: bool)
      modifies this`layerMap
      ensures found == (c in old(layerMap))
      ensures Abs() == if found then LayerModel.Hold(old(Abs()), c) else old(Abs())
    {
      found := c in layerMap;
      if found {
        layerMap := layerMap[c := layerMap[c].(refCount := layerMap[c].refCount + 1)];
      }
    }

    /** roLayer.getReference. */
    method GetReference(c: ChainID) returns (h: Handle)
      requires c in layerMap
      modifies this`layerMap, this`next
      ensures Abs() == Reference(old(Abs()), c)
      ensures h == Handle(old(next), c)
    {
      layerMap := layerMap[c := layerMap[c].(refs := layerMap[c].refs + {next})];
      h := Handle(next, c);
      next := next + 1;
    }

    /** Get. */
    method Get(c: ChainID) returns (h: Option<Handle>)
      modifies this`layerMap, this`next
      ensures (Abs(), h) == LayerModel.Get(old(Abs()), c)
    {
      var found := GetWithoutLock(c);
      if !found { return None; }
      var ref := GetReference(c);
      h := Some(ref);
    }

    /** The layers whose loss releaseLayer reports, and how it ended. */
    method ReleaseLayer(c: ChainID, failing: set<ChainID>) returns (removed: seq<Metadata>, outcome: Outcome)
      requires WellKeyed(layerMap)
      modifies this`layerMap, this`layerMeta
      ensures ReleaseResult(Abs(), removed, outcome) == LayerModel.ReleaseLayer(old(Abs()), c, failing)
    {
      var l := c;
      var depth := 0;
      removed := [];
      while true
        invariant WellKeyed(layerMap)
        invariant ReleaseFrom(Abs(), l, removed, depth, failing) == LayerModel.ReleaseLayer(old(Abs()), c, failing)
        invariant mounts == old(mounts) && mountMeta == old(mountMeta) && next == old(next)
        decreases |layerMap|
      {
        ghost var before := Abs();
        ghost var iteration := ReleaseStep(before, l, removed, depth, failing);
        if l !in layerMap { return removed, ParentMissing; }
        if layerMap[l].refCount == 0 { return removed, LayerNotRetained; }
        layerMap := layerMap[l := layerMap[l].(refCount := layerMap[l].refCount - 1)];
        if layerMap[l].refCount != 0 { return removed, Released; }
        if |removed| == 0 && depth > 0 { return removed, LayerHasChild; }
        if layerMap[l].refs != {} { return removed, LayerReferenced; }
        if l in failing { return [], RemovalFailed; }
        removed := removed + [MetadataOf(layerMap, l)];
        var parent := layerMap[l].parent;
        layerMeta := layerMeta - {l};
        layerMap := layerMap - {l};
        if parent.None? { return removed, Released; }
        assert iteration == Continue(Abs(), parent.value, removed);
        depth := depth + 1;
        l := parent.value;
      }
    }

    /** Release. */
    method Release(h: Handle, failing: set<ChainID>) returns (removed: seq<Metadata>, err: ReleaseError)
      requires WellKeyed(layerMap)
      modifies this`layerMap, this`layerMeta
      ensures (Abs(), removed, err) == LayerModel.Release(old(Abs()), h, failing)
    {
      if h.chain !in layerMap { return [], NoError; }
      if h.id !in layerMap[h.chain].refs { return [], NotRetained; }
      layerMap := layerMap[h.chain := layerMap[h.chain].(refs := layerMap[h.chain].refs - {h.id})];
      var outcome;
      removed, outcome := ReleaseLayer(h.chain, failing);
      err := ErrorOf(outcome);
    }

    /** The locked part of a registration. */
    method Commit(parent: Option<ChainID>, diff: DiffID, size: int, cacheID: string, descriptor: string, commitOK: bool) returns (r: Registered)
      modifies this`layerMap, this`layerMeta, this`next
      ensures (Abs(), r) == LayerModel.Commit(old(Abs()), parent, diff, size, cacheID, descriptor, commitOK)
    {
      var c := Extend(parent, diff);
      var exists_ := GetWithoutLock(c);
      if exists_ {
        var h := GetReference(c);
        return Existing(h);
      }
      if !commitOK { return CommitFailed; }
      var l := Layer(diff, parent, cacheID, size, descriptor, 1, {});
      layerMeta := layerMeta[c := StoreLayer(l)];
      layerMap := layerMap[c := l];
      var h := GetReference(c);
      r := New(h);
    }

    /**
      registerWithDescriptor (and RegisterByGraphID when `migration`): hold the parent, do the work,
      then commit or roll back.
    */
    method Register(parent: Option<ChainID>, cacheID: string, descriptor: string, migration: bool,
                    work: Option<(DiffID, int)>, commitOK: bool, failing: set<ChainID>) returns (h: Option<Handle>)
      requires WellKeyed(layerMap)
      modifies this
      ensures (Abs(), h) == Registration(old(Abs()), parent, cacheID, descriptor, migration, work, commitOK, failing)
    {
      var tooDeep := false;
      if parent.Some? {
        var found := GetWithoutLock(parent.value);
        if !found { return None; }
        tooDeep := !migration && Depth(layerMap, parent.value) >= MAX_LAYER_DEPTH;
      }
      var r := CommitFailed;
      if !tooDeep && work.Some? {
        r := Commit(parent, work.value.0, work.value.1, cacheID, descriptor, commitOK);
      }
      if !r.New? && parent.Some? {
        var _, _ := ReleaseLayer(parent.value, failing);
      }
      h := if r.CommitFailed? then None else Some(r.handle);
    }

    // -------------------------------------------------------------- mounts

    /** saveMount of a new mount, with its first reference. */
    method SaveMount(name: string, mountID: string, initID: string, parent: Option<ChainID>, fault: SaveFault) returns (r: Option<MountRef>)
      modifies this`mounts, this`mountMeta, this`next
      ensures (Abs(), r) == LayerModel.SaveMount(old(Abs()), name, mountID, initID, parent, fault)
    {
      if fault.AtMountID? { return None; }
      var before := if name in mountMeta then mountMeta[name] else MountMeta("", "", None);
      mountMeta := mountMeta[name := before.(mountID := mountID)];
      if initID != "" {
        if fault.AtInitID? { return None; }
        mountMeta := mountMeta[name := mountMeta[name].(initID := initID)];
      }
      if parent.Some? {
        if fault.AtParent? {
          assert mountMeta == SaveMountMeta(old(mountMeta), name, Mount(mountID, initID, parent, {}), fault).0;
          return None;
        }
        mountMeta := mountMeta[name := mountMeta[name].(parent := parent)];
      }
      assert mountMeta == SaveMountMeta(old(mountMeta), name, Mount(mountID, initID, parent, {}), fault).0;
      mounts := mounts[name := Mount(mountID, initID, parent, {next})];
      r := Some(MountRef(next, name));
      next := next + 1;
    }

    /** CreateRWLayer. */
    method CreateRWLayer(name: string, parent: Option<ChainID>, mountID: string, work: Option<string>, fault: SaveFault,
                         failing: set<ChainID>) returns (r: Option<MountRef>)
      requires WellKeyed(layerMap)
      modifies this
      ensures (Abs(), r) == MountCreation(old(Abs()), name, parent, mountID, work, fault, failing)
    {
      if name in mounts { return None; }
      if parent.Some? {
        var found := GetWithoutLock(parent.value);
        if !found { return None; }
      }
      r := None;
      if work.Some? { r := SaveMount(name, mountID, work.value, parent, fault); }
      if r.None? && parent.Some? {
        var _, _ := ReleaseLayer(parent.value, failing);
      }
    }

    /** GetRWLayer. */
    method GetRWLayer(name: string) returns (r: Option<MountRef>)
      modifies this`mounts, this`next
      ensures (Abs(), r) == LayerModel.GetMount(old(Abs()), name)
    {
      if name !in mounts { return None; }
      mounts := mounts[name := mounts[name].(refs := mounts[name].refs + {next})];
      r := Some(MountRef(next, name));
      next := next + 1;
    }

    /** ReleaseRWLayer. */
    method ReleaseRWLayer(ref: MountRef, removalOK: bool, failing: set<ChainID>) returns (r: MountRelease)
      requires WellKeyed(layerMap)
      modifies this
      ensures (Abs(), r) == MountRemoval(old(Abs()), ref, removalOK, failing)
    {
      if ref.name !in mounts { return NoSuchMount; }
      var m := mounts[ref.name];
      if ref.id !in m.refs { return MountNotRetained; }
      mounts := mounts[ref.name := m.(refs := m.refs - {ref.id})];
      if mounts[ref.name].refs != {} { return StillMounted; }
      if !removalOK {
        // retakeReference
        mounts := mounts[ref.name := mounts[ref.name].(refs := mounts[ref.name].refs + {ref.id})];
        assert mounts[ref.name].refs == m.refs && mounts == old(mounts);
        return MountRemovalFailed;
      }
      mountMeta := mountMeta - {ref.name};
      mounts := mounts - {ref.name};
      assert mounts == old(mounts) - {ref.name};
      if m.parent.Some? {
        var _, _ := ReleaseLayer(m.parent.value, failing);
      }
      r := Unmounted(m.parent);
    }

    // -------------------------------------------------------------- restart

    /** The part of layerMap that has been loaded so far. */
    ghost predicate Loading(bad: set<ChainID>)
      reads this`layerMap, this`layerMeta
    {
      && MetaKeyed(layerMeta)
      && (forall c :: c in layerMap ==> Loadable(layerMeta, bad, c) && layerMap[c] == LoadedLayer(layerMeta[c], layerMap[c].refCount))
      && (forall a, c :: c in layerMap && AncestorOrSelf(a, c) ==> a in layerMap)
    }

    /** loadLayer: it loads a layer with its ancestors, or nothing. */
    method LoadLayer(c: ChainID, bad: set<ChainID>) returns (ok: bool)
      requires Loading(bad)
      modifies this`layerMap
      ensures Loading(bad)
      ensures ok == Loadable(layerMeta, bad, c)
      ensures ok ==> c in layerMap
      ensures old(layerMap.Keys) <= layerMap.Keys
      ensures forall k :: k in old(layerMap) ==> layerMap[k] == old(layerMap)[k]
      ensures forall k :: k in layerMap && k !in old(layerMap) ==> layerMap[k].refCount == 0
      decreases c
    {
      if c in layerMap { return true; }
      if c !in layerMeta || c in bad { return false; }
      var m := layerMeta[c];
      if m.parent.Some? {
        var loaded := LoadLayer(m.parent.value, bad);
        if !loaded { return false; }
      }
      layerMap := layerMap[c := LoadedLayer(m, 0)];
      ok := true;
    }

    /** `l.parent.referenceCount++`. */
    method CountParent(parent: Option<ChainID>, bad: set<ChainID>)
      requires Loading(bad)
      requires parent.Some? ==> parent.value in layerMap
      modifies this`layerMap
      ensures Loading(bad)
      ensures layerMap.Keys == old(layerMap.Keys)
      ensures forall k :: k in layerMap ==> layerMap[k].refCount == old(layerMap)[k].refCount + At(parent, k)
    {
      if parent.Some? {
        layerMap := layerMap[parent.value := layerMap[parent.value].(refCount := layerMap[parent.value].refCount + 1)];
      }
    }

    /** What the first loop of NewStoreFromGraphDriver has done after the layers `listed`. */
    ghost predicate LayersLoaded(bad: set<ChainID>, listed: map<ChainID, Option<ChainID>>)
      reads this
    {
      && Loading(bad)
      && (forall c :: c in listed ==> c in layerMap && layerMeta[c].parent == listed[c])
      && CountedBy(layerMap, listed)
    }

    lemma ListedWithin(bad: set<ChainID>, listed: map<ChainID, Option<ChainID>>)
      requires LayersLoaded(bad, listed)
      ensures Within(listed, layerMap.Keys)
    {
      forall k | k !in layerMap ensures Pointing(listed, k) == {} {
        forall c | c in listed ensures listed[c] != Some(k) { ParentIsLoaded(bad, c); }
      }
    }

    lemma ParentIsLoaded(bad: set<ChainID>, c: ChainID)
      requires Loading(bad) && c in layerMap
      ensures c in layerMeta && (layerMeta[c].parent.Some? ==> layerMeta[c].parent.value in layerMap)
    {
      assert Loadable(layerMeta, bad, c);
      if layerMeta[c].parent.Some? { assert AncestorOrSelf(layerMeta[c].parent.value, c); }
    }

    /** One iteration of the first loop. */
    method LoadListedLayer(c: ChainID, bad: set<ChainID>, ghost listed: map<ChainID, Option<ChainID>>) returns (ghost listed': map<ChainID, Option<ChainID>>)
      requires LayersLoaded(bad, listed) && c !in listed
      modifies this`layerMap
      ensures listed' == if Loadable(layerMeta, bad, c) then listed[c := layerMeta[c].parent] else listed
      ensures LayersLoaded(bad, listed')
    {
      hide Pointing;
      hide MetaKeyed;
      hide AncestorOrSelf;
      hide Loadable;
      hide CountedBy;
      hide Within;
      ListedWithin(bad, listed);
      ghost var before := layerMap;
      var ok := LoadLayer(c, bad);
      CountedByMore(before, layerMap, listed);
      listed' := listed;
      if ok {
        ParentIsLoaded(bad, c);
        ghost var loaded := layerMap;
        CountParent(layerMeta[c].parent, bad);
        CountedByOneMore(loaded, layerMap, listed, c, layerMeta[c].parent);
        listed' := listed[c := layerMeta[c].parent];
      }
    }

    /** What the second loop of NewStoreFromGraphDriver keeps: all loadable layers, counted by children and mounts. */
    ghost predicate MountsLoaded(bad: set<ChainID>)
      reads this
    {
      && Loading(bad)
      && (forall c :: Loadable(layerMeta, bad, c) ==> c in layerMap)
      && CountedByBoth(layerMap, LoadedParents(layerMeta, bad), mounts)
    }

    /** Once all layers are loaded, loading the parent of a mount only looks it up. */
    method LoadMountParent(parent: Option<ChainID>, bad: set<ChainID>) returns (ok: bool)
      requires Loading(bad) && forall c :: Loadable(layerMeta, bad, c) ==> c in layerMap
      modifies this`layerMap
      ensures layerMap == old(layerMap) && Loading(bad)
      ensures ok == (parent.Some? ==> Loadable(layerMeta, bad, parent.value))
      ensures ok && parent.Some? ==> parent.value in layerMap
    {
      ok := true;
      if parent.Some? {
        ok := LoadLayer(parent.value, bad);
        assert layerMap.Keys == old(layerMap.Keys);
      }
    }

    /** loadMount of a mount that is not there yet. */
    method LoadMount(n: string, bad: set<ChainID>, badMounts: set<string>)
      requires MountsLoaded(bad) && n !in mounts
      modifies this`layerMap, this`mounts
      ensures MountsLoaded(bad)
      ensures mounts == if MountLoadable(layerMeta, mountMeta, bad, badMounts, n) then old(mounts)[n := LoadedMount(mountMeta[n])] else old(mounts)
    {
      hide Pointing;
      hide MetaKeyed;
      hide Loadable;
      hide LoadedParents;
      hide AncestorOrSelf;
      hide CountedByBoth;
      hide Loading;
      if n !in mountMeta || n in badMounts { return; }
      var m := mountMeta[n];
      var ok := LoadMountParent(m.parent, bad);
      if !ok { return; }
      ghost var before := layerMap;
      CountParent(m.parent, bad);
      CountedByOneMount(before, layerMap, LoadedParents(layerMeta, bad), mounts, n, LoadedMount(m));
      mounts := mounts[n := LoadedMount(m)];
    }

    /** The loadable ones among the first layers listed. */
    ghost function Listed(bad: set<ChainID>, ids: seq<ChainID>): map<ChainID, Option<ChainID>>
      reads this
      requires MetaKeyed(layerMeta)
    {
      map c | c in ids && Loadable(layerMeta, bad, c) :: layerMeta[c].parent
    }

    lemma ListedOneMore(bad: set<ChainID>, ids: seq<ChainID>, c: ChainID)
      requires MetaKeyed(layerMeta) && c !in ids
      ensures c !in Listed(bad, ids)
      ensures Listed(bad, ids + [c]) == if Loadable(layerMeta, bad, c) then Listed(bad, ids)[c := layerMeta[c].parent] else Listed(bad, ids)
    {
      hide MetaKeyed;
    }

    lemma AllListed(bad: set<ChainID>, ids: seq<ChainID>)
      requires MetaKeyed(layerMeta) && LayersLoaded(bad, Listed(bad, ids)) && Lists(ids, layerMeta.Keys) && mounts == map[]
      ensures MountsLoaded(bad)
    {
      hide MetaKeyed;
      assert Listed(bad, ids) == LoadedParents(layerMeta, bad);
      assert forall k :: Pointing(MountParents(map[]), k) == {};
      forall c | Loadable(layerMeta, bad, c) ensures c in layerMap { assert c in Listed(bad, ids); }
    }

    lemma NothingListed(bad: set<ChainID>)
      requires MetaKeyed(layerMeta) && layerMap == map[]
      ensures LayersLoaded(bad, map[])
    {}

    method LoadLayers(ids: seq<ChainID>, bad: set<ChainID>)
      requires MetaKeyed(layerMeta) && layerMap == map[] && Lists(ids, layerMeta.Keys)
      requires mounts == map[]
      modifies this`layerMap
      ensures MountsLoaded(bad)
    {
      hide MountsLoaded;
      hide Loadable;
      hide Loading;
      hide CountedBy;
      ghost var listed: map<ChainID, Option<ChainID>> := map[];
      NothingListed(bad);
      for i := 0 to |ids|
        invariant LayersLoaded(bad, listed)
        invariant listed == Listed(bad, ids[..i])
      {
        assert ids[..i + 1] == ids[..i] + [ids[i]];
        ListedOneMore(bad, ids[..i], ids[i]);
        listed := LoadListedLayer(ids[i], bad, listed);
      }
      assert ids[..|ids|] == ids;
      AllListed(bad, ids);
    }

    /** The loadable ones among the first mounts listed. */
    ghost function ListedMounts(bad: set<ChainID>, badMounts: set<string>, names: seq<string>): map<string, Mount>
      reads this
      requires MetaKeyed(layerMeta)
    {
      map n | n in names && MountLoadable(layerMeta, mountMeta, bad, badMounts, n) :: LoadedMount(mountMeta[n])
    }

    lemma ListedOneMoreMount(bad: set<ChainID>, badMounts: set<string>, names: seq<string>, n: string)
      requires MetaKeyed(layerMeta) && n !in names
      ensures n !in ListedMounts(bad, badMounts, names)
      ensures ListedMounts(bad, badMounts, names + [n]) ==
              if MountLoadable(layerMeta, mountMeta, bad, badMounts, n) then ListedMounts(bad, badMounts, names)[n := LoadedMount(mountMeta[n])]
              else ListedMounts(bad, badMounts, names)
    {
      hide MetaKeyed;
    }

    lemma RestoredIsRestarted(bad: set<ChainID>, badMounts: set<string>, names: seq<string>)
      requires MountsLoaded(bad) && Lists(names, mountMeta.Keys) && mounts == ListedMounts(bad, badMounts, names) && next == 0
      ensures Abs() == Restarted(layerMeta, mountMeta, bad, badMounts)
    {
      hide MetaKeyed;
      hide Pointing;
      assert mounts == LoadedMounts(layerMeta, mountMeta, bad, badMounts);
      assert layerMap == Restarted(layerMeta, mountMeta, bad, badMounts).layers;
    }

    /** NewStoreFromGraphDriver: the same store for every order in which layers and mounts are listed. */
    constructor Restore(layerMeta: map<ChainID, LayerMeta>, mountMeta: map<string, MountMeta>, bad: set<ChainID>, badMounts: set<string>,
                        ids: seq<ChainID>, names: seq<string>)
      requires MetaKeyed(layerMeta)
      requires Lists(ids, layerMeta.Keys) && Lists(names, mountMeta.Keys)
      ensures Abs() == Restarted(layerMeta, mountMeta, bad, badMounts)
    {
      this.layerMeta, this.mountMeta, layerMap, mounts, next := layerMeta, mountMeta, map[], map[], 0;
      new;
      hide MountsLoaded;
      hide Restarted;
      hide MetaKeyed;
      hide MountLoadable;
      LoadLayers(ids, bad);
      for i := 0 to |names|
        invariant this.layerMeta == layerMeta && this.mountMeta == mountMeta && next == 0
        invariant MountsLoaded(bad)
        invariant mounts == ListedMounts(bad, badMounts, names[..i])
      {
        assert names[..i + 1] == names[..i] + [names[i]];
        ListedOneMoreMount(bad, badMounts, names[..i], names[i]);
        LoadMount(names[i], bad, badMounts);
        assert mounts == ListedMounts(bad, badMounts, names[..i + 1]);
      }
      assert names[..|names|] == names;
      RestoredIsRestarted(bad, badMounts, names);
    }
  }
}
