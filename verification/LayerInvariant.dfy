/**
  Every critical section of the layer store keeps the invariant. A use of a layer is treated as a
  token: `InvOwing(core, holds, owed)` says that the counts are exact except for one token on
  `owed`, and each lemma says where a token comes from or where it goes.
*/
module LayerInvariant {
  import opened Wrappers
  import opened ChainIDs
  import opened Pointers
  import opened LayerModel

  type Holds = map<nat, Option<ChainID>>

  lemma EmptyCoreInv()
    ensures Inv(EmptyCore, map[])
  {}

  lemma InvFacts(core: Core, holds: Holds, owed: Option<ChainID>)
    requires InvOwing(core, holds, owed)
    ensures WellKeyed(core.layers) && Present(core, owed)
    ensures owed.None? ==> Inv(core, holds)
  {}

  lemma RefsAreOld(core: Core, holds: Holds, owed: Option<ChainID>, c: ChainID)
    requires InvOwing(core, holds, owed) && c in core.layers
    ensures forall i :: i in core.layers[c].refs ==> i < core.next
  {}

  lemma InvParts(core: Core, holds: Holds)
    requires Inv(core, holds)
    ensures WellKeyed(core.layers) && Closed(core, holds) && Fresh(core) && Counted(core, holds, None)
  {}

  // ---------------------------------------------------------------- one layer's count and handles change

  /** `l` differs from the stored layer `c` in its count and handles only. */
  ghost predicate Recounts(layers: map<ChainID, Layer>, c: ChainID, l: Layer) {
    c in layers && StoreLayer(l) == StoreLayer(layers[c])
  }

  lemma RecountSameParents(layers: map<ChainID, Layer>, c: ChainID, l: Layer)
    requires Recounts(layers, c, l)
    ensures LayerParents(layers[c := l]) == LayerParents(layers)
  {}

  lemma RecountCounted(core: Core, holds: Holds, owed: Option<ChainID>, c: ChainID, l: Layer, core': Core, owed': Option<ChainID>)
    requires Counted(core, holds, owed)
    requires Recounts(core.layers, c, l) && core'.layers == core.layers[c := l] && core'.mounts == core.mounts
    requires l.refCount + |core.layers[c].refs| + At(owed, c) == core.layers[c].refCount + |l.refs| + At(owed', c)
    requires forall k :: k != c ==> At(owed, k) == At(owed', k)
    ensures Counted(core', holds, owed')
  {
    RecountSameParents(core.layers, c, l);
    forall k | k in core'.layers ensures core'.layers[k].refCount == Uses(core', holds, k) + At(owed', k) {
      assert core.layers[k].refCount == Uses(core, holds, k) + At(owed, k);
    }
  }

  lemma RecountFresh(core: Core, c: ChainID, l: Layer, core': Core)
    requires Fresh(core) && c in core.layers
    requires core.next <= core'.next && core' == core.(layers := core.layers[c := l], next := core'.next)
    requires forall i :: i in l.refs ==> i < core'.next
    ensures Fresh(core')
  {}

  lemma RecountClosed(core: Core, holds: Holds, c: ChainID, l: Layer, core': Core)
    requires Closed(core, holds) && WellKeyed(core.layers) && Recounts(core.layers, c, l)
    requires core' == core.(layers := core.layers[c := l], next := core'.next)
    ensures Closed(core', holds) && WellKeyed(core'.layers)
  {
    RecountSameParents(core.layers, c, l);
    assert core'.layers.Keys == core.layers.Keys;
  }

  lemma RecountKeepsInv(core: Core, holds: Holds, owed: Option<ChainID>, c: ChainID, l: Layer, core': Core, owed': Option<ChainID>)
    requires InvOwing(core, holds, owed)
    requires Recounts(core.layers, c, l)
    requires core.next <= core'.next && core' == core.(layers := core.layers[c := l], next := core'.next)
    requires forall i :: i in l.refs ==> i < core'.next
    requires l.refCount + |core.layers[c].refs| + At(owed, c) == core.layers[c].refCount + |l.refs| + At(owed', c)
    requires forall k :: k != c ==> At(owed, k) == At(owed', k)
    requires Present(core, owed')
    ensures InvOwing(core', holds, owed')
  {
    RecountClosed(core, holds, c, l, core');
    RecountFresh(core, c, l, core');
    RecountCounted(core, holds, owed, c, l, core', owed');
  }

  /** get: the caller owns a token on the layer it looked up. */
  lemma HoldMakesToken(core: Core, holds: Holds, c: ChainID)
    requires Inv(core, holds) && c in core.layers
    ensures InvOwing(Hold(core, c), holds, Some(c))
  {
    hide InvOwing;
    RefsAreOld(core, holds, None, c);
    RecountKeepsInv(core, holds, None, c, Hold(core, c).layers[c], Hold(core, c), Some(c));
  }

  /** getReference: the token becomes a handle. */
  lemma TokenToHandle(core: Core, holds: Holds, c: ChainID)
    requires InvOwing(core, holds, Some(c))
    ensures Inv(Reference(core, c), holds)
  {
    hide InvOwing;
    InvFacts(core, holds, Some(c));
    RefsAreOld(core, holds, Some(c), c);
    var l := Reference(core, c).layers[c];
    assert core.next !in core.layers[c].refs;
    RecountKeepsInv(core, holds, Some(c), c, l, Reference(core, c), None);
  }

  lemma HandleToToken(core: Core, holds: Holds, h: Handle)
    requires Inv(core, holds) && Retains(core, h)
    ensures InvOwing(Dereference(core, h), holds, Some(h.chain))
  {
    hide InvOwing;
    RefsAreOld(core, holds, None, h.chain);
    var l := Dereference(core, h).layers[h.chain];
    assert core.layers[h.chain].refs == l.refs + {h.id};
    RecountKeepsInv(core, holds, None, h.chain, l, Dereference(core, h), Some(h.chain));
  }

  lemma DropSpendsToken(core: Core, holds: Holds, c: ChainID)
    requires InvOwing(core, holds, Some(c))
    ensures core.layers[c].refCount > 0
    ensures Inv(Drop(core, c), holds)
  {
    assert core.layers[c].refCount == Uses(core, holds, c) + 1;
    RecountKeepsInv(core, holds, Some(c), c, Drop(core, c).layers[c], Drop(core, c), None);
  }

  // ---------------------------------------------------------------- tokens held by operations in flight

  /** A token may be parked with an operation in flight, and taken back from it. */
  lemma TokenToOperation(core: Core, holds: Holds, owed: Option<ChainID>, t: nat)
    requires InvOwing(core, holds, owed) && t !in holds
    ensures Inv(core, holds[t := owed])
  {
    hide Fresh;
    forall c ensures |Pointing(holds[t := owed], c)| == |Pointing(holds, c)| + At(owed, c) {
      PointingInsert(holds, t, owed, c);
    }
  }

  lemma OperationToToken(core: Core, holds: Holds, t: nat)
    requires Inv(core, holds) && t in holds
    ensures InvOwing(core, holds - {t}, holds[t])
  {
    if holds[t].Some? { PointsWithin(holds, core.layers.Keys, t); }
    forall c ensures |Pointing(holds - {t}, c)| + At(holds[t], c) == |Pointing(holds, c)| {
      PointingRemove(holds, t, c);
    }
  }

  // ---------------------------------------------------------------- layers come and go

  lemma RemoveParents(layers: map<ChainID, Layer>, c: ChainID)
    requires c in layers
    ensures LayerParents(layers - {c}) == LayerParents(layers) - {c}
    ensures forall k :: |Pointing(LayerParents(layers - {c}), k)| + At(layers[c].parent, k) == |Pointing(LayerParents(layers), k)|
  {
    var parents := LayerParents(layers);
    assert LayerParents(layers - {c}) == parents - {c};
    forall k ensures |Pointing(parents - {c}, k)| + At(layers[c].parent, k) == |Pointing(parents, k)| {
      PointingRemove(parents, c, k);
    }
  }

  lemma UnusedIsUnpointed(core: Core, holds: Holds, c: ChainID)
    requires Counted(core, holds, None) && c in core.layers && core.layers[c].refCount == 0
    ensures core.layers[c].refs == {}
    ensures Pointing(LayerParents(core.layers), c) == {}
    ensures Pointing(MountParents(core.mounts), c) == {}
    ensures Pointing(holds, c) == {}
  {
    assert Uses(core, holds, c) == 0;
  }

  lemma ParentIsStored(core: Core, holds: Holds, c: ChainID)
    requires Closed(core, holds) && c in core.layers
    ensures Present(core, core.layers[c].parent)
  {
    if core.layers[c].parent.Some? { PointsWithin(LayerParents(core.layers), core.layers.Keys, c); }
  }

  /** A layer without uses can go; what it held on its parent becomes a token. */
  lemma RemoveFreesParent(core: Core, holds: Holds, c: ChainID)
    requires Inv(core, holds) && c in core.layers && core.layers[c].refCount == 0
    ensures core.layers[c].refs == {}
    ensures InvOwing(Remove(core, c), holds, core.layers[c].parent)
  {
    hide Counted;
    hide Closed;
    hide Fresh;
    InvParts(core, holds);
    ParentIsStored(core, holds, c);
    UnusedIsUnpointed(core, holds, c);
    assert core.layers[c].parent != Some(c);
    RemoveFresh(core, c);
    RemoveClosed(core, holds, c);
    RemoveCounted(core, holds, c);
  }

  lemma RemoveFresh(core: Core, c: ChainID)
    requires Fresh(core) && c in core.layers
    ensures Fresh(Remove(core, c))
  {}

  lemma RemoveClosed(core: Core, holds: Holds, c: ChainID)
    requires Closed(core, holds) && c in core.layers
    requires Pointing(LayerParents(core.layers), c) == {}
    requires Pointing(MountParents(core.mounts), c) == {}
    requires Pointing(holds, c) == {}
    ensures Closed(Remove(core, c), holds)
  {
    var gone := Remove(core, c);
    RemoveParents(core.layers, c);
    forall k | k !in gone.layers ensures Pointing(LayerParents(gone.layers), k) == {} {
      assert Pointing(LayerParents(core.layers), k) == {};
    }
  }

  lemma RemoveCounted(core: Core, holds: Holds, c: ChainID)
    requires Counted(core, holds, None) && c in core.layers
    ensures Counted(Remove(core, c), holds, core.layers[c].parent)
  {
    var gone := Remove(core, c);
    RemoveParents(core.layers, c);
    forall k | k in gone.layers ensures gone.layers[k].refCount == Uses(gone, holds, k) + At(core.layers[c].parent, k) {
      assert core.layers[k].refCount == Uses(core, holds, k);
    }
  }

  /** The store with a new layer that nobody uses yet but its creator. */
  function Added(core: Core, c: ChainID, l: Layer): Core {
    core.(layers := core.layers[c := l], layerMeta := core.layerMeta[c := StoreLayer(l)])
  }

  lemma AddParents(layers: map<ChainID, Layer>, c: ChainID, l: Layer)
    requires c !in layers
    ensures LayerParents(layers[c := l]) == LayerParents(layers)[c := l.parent]
    ensures forall k :: |Pointing(LayerParents(layers[c := l]), k)| == |Pointing(LayerParents(layers), k)| + At(l.parent, k)
  {
    var parents := LayerParents(layers);
    assert LayerParents(layers[c := l]) == parents[c := l.parent];
    forall k ensures |Pointing(parents[c := l.parent], k)| == |Pointing(parents, k)| + At(l.parent, k) {
      PointingInsert(parents, c, l.parent, k);
    }
  }

  lemma AddCounted(core: Core, holds: Holds, c: ChainID, l: Layer)
    requires Closed(core, holds) && Counted(core, holds, l.parent)
    requires c !in core.layers && l.parent != Some(c) && l.refCount == 1 && l.refs == {}
    ensures Counted(Added(core, c, l), holds, Some(c))
  {
    var added := Added(core, c, l);
    AddParents(core.layers, c, l);
    forall k | k in added.layers ensures added.layers[k].refCount == Uses(added, holds, k) + At(Some(c), k) {
      if k != c { assert core.layers[k].refCount == Uses(core, holds, k) + At(l.parent, k); }
    }
  }

  lemma AddClosed(core: Core, holds: Holds, c: ChainID, l: Layer)
    requires Closed(core, holds) && Present(core, l.parent) && c !in core.layers
    ensures Closed(Added(core, c, l), holds)
  {
    var added := Added(core, c, l);
    AddParents(core.layers, c, l);
    forall k | k !in added.layers ensures Pointing(LayerParents(added.layers), k) == {} {
      assert Pointing(LayerParents(core.layers), k) == {};
    }
  }

  lemma AddKeepsInv(core: Core, holds: Holds, c: ChainID, l: Layer)
    requires InvOwing(core, holds, l.parent)
    requires c !in core.layers && c == Extend(l.parent, l.diff) && l.refCount == 1 && l.refs == {}
    ensures InvOwing(Added(core, c, l), holds, Some(c))
  {
    hide Counted;
    hide Closed;
    AddClosed(core, holds, c, l);
    AddCounted(core, holds, c, l);
  }

  /** Commit of a new layer: the token on the parent becomes the child's, the creator gets a handle. */
  lemma CommitMovesToken(core: Core, holds: Holds, parent: Option<ChainID>, diff: DiffID, size: int, cacheID: string, descriptor: string)
    requires InvOwing(core, holds, parent)
    requires Extend(parent, diff) !in core.layers
    ensures Inv(Commit(core, parent, diff, size, cacheID, descriptor, true).0, holds)
  {
    var c := Extend(parent, diff);
    var l := Layer(diff, parent, cacheID, size, descriptor, 1, {});
    hide InvOwing;
    AddKeepsInv(core, holds, c, l);
    TokenToHandle(Added(core, c, l), holds, c);
  }

  /** Commit in all its outcomes: the token goes to the child, or stays to be released. */
  lemma CommitKeepsInv(core: Core, holds: Holds, parent: Option<ChainID>, diff: DiffID, size: int,
                       cacheID: string, descriptor: string, commitOK: bool)
    requires InvOwing(core, holds, parent)
    ensures var (core', r) := Commit(core, parent, diff, size, cacheID, descriptor, commitOK);
            InvOwing(core', holds, if r.New? then None else parent)
  {
    var c := Extend(parent, diff);
    if c in core.layers {
      GetKeepsInv(core, holds, parent, c);
    } else if commitOK {
      CommitMovesToken(core, holds, parent, diff, size, cacheID, descriptor);
    }
  }

  lemma GetRecounts(core: Core, c: ChainID)
    requires c in core.layers
    ensures var l := core.layers[c].(refCount := core.layers[c].refCount + 1, refs := core.layers[c].refs + {core.next});
            Get(core, c).0 == core.(layers := core.layers[c := l], next := core.next + 1)
  {}

  /** Get keeps the invariant, whatever else is owed. */
  lemma GetKeepsInv(core: Core, holds: Holds, owed: Option<ChainID>, c: ChainID)
    requires InvOwing(core, holds, owed) && c in core.layers
    ensures InvOwing(Get(core, c).0, holds, owed)
  {
    hide InvOwing;
    hide Get;
    InvFacts(core, holds, owed);
    RefsAreOld(core, holds, owed, c);
    GetRecounts(core, c);
    var l := core.layers[c].(refCount := core.layers[c].refCount + 1, refs := core.layers[c].refs + {core.next});
    assert core.next !in core.layers[c].refs;
    RecountKeepsInv(core, holds, owed, c, l, core.(layers := core.layers[c := l], next := core.next + 1), owed);
  }

  // ---------------------------------------------------------------- mounts

  lemma MountCounted(core: Core, holds: Holds, name: string, m: Mount, core': Core)
    requires Counted(core, holds, m.parent) && name !in core.mounts
    requires core'.layers == core.layers && core'.mounts == core.mounts[name := m]
    ensures Counted(core', holds, None)
    ensures Within(MountParents(core.mounts), core.layers.Keys) && Present(core, m.parent) ==> Within(MountParents(core'.mounts), core.layers.Keys)
  {
    var parents := MountParents(core.mounts);
    assert MountParents(core'.mounts) == parents[name := m.parent];
    forall k ensures |Pointing(parents[name := m.parent], k)| == |Pointing(parents, k)| + At(m.parent, k) {
      PointingInsert(parents, name, m.parent, k);
    }
    forall k | k in core'.layers ensures core'.layers[k].refCount == Uses(core', holds, k) {
      assert core.layers[k].refCount == Uses(core, holds, k) + At(m.parent, k);
    }
    if Within(parents, core.layers.Keys) && Present(core, m.parent) {
      forall k | k !in core.layers ensures Pointing(MountParents(core'.mounts), k) == {} {
        assert Pointing(parents, k) == {};
      }
    }
  }

  lemma UnmountCounted(core: Core, holds: Holds, name: string, core': Core)
    requires Counted(core, holds, None) && name in core.mounts
    requires core'.layers == core.layers && core'.mounts == core.mounts - {name}
    ensures Counted(core', holds, core.mounts[name].parent)
    ensures Within(MountParents(core.mounts), core.layers.Keys) ==>
              Within(MountParents(core'.mounts), core.layers.Keys) && Present(core, core.mounts[name].parent)
  {
    var parents := MountParents(core.mounts);
    var parent := core.mounts[name].parent;
    assert MountParents(core'.mounts) == parents - {name};
    forall k ensures |Pointing(parents - {name}, k)| + At(parent, k) == |Pointing(parents, k)| {
      PointingRemove(parents, name, k);
    }
    forall k | k in core'.layers ensures core'.layers[k].refCount == Uses(core', holds, k) + At(parent, k) {
      assert core.layers[k].refCount == Uses(core, holds, k);
    }
    if Within(parents, core.layers.Keys) {
      if parent.Some? { PointsWithin(parents, core.layers.Keys, name); }
      forall k | k !in core.layers ensures Pointing(MountParents(core'.mounts), k) == {} {
        assert Pointing(parents, k) == {};
      }
    }
  }

  lemma AddMountFresh(core: Core, name: string, m: Mount, core': Core)
    requires Fresh(core) && name !in core.mounts && m.refs == {core.next}
    requires core'.layers == core.layers && core'.mounts == core.mounts[name := m] && core'.next == core.next + 1
    ensures Fresh(core')
  {}

  lemma SaveMountKeepsInv(core: Core, holds: Holds, name: string, mountID: string, initID: string, parent: Option<ChainID>, fault: SaveFault)
    requires InvOwing(core, holds, parent) && name !in core.mounts
    ensures var (core', r) := SaveMount(core, name, mountID, initID, parent, fault);
            InvOwing(core', holds, if r.Some? then None else parent)
  {
    var core' := SaveMount(core, name, mountID, initID, parent, fault).0;
    if SaveMount(core, name, mountID, initID, parent, fault).1.Some? {
      var m := Mount(mountID, initID, parent, {core.next});
      AddMountFresh(core, name, m, core');
      MountCounted(core, holds, name, m, core');
    } else {
      SaveFailedCounted(core, holds, parent, core');
    }
  }

  lemma SaveFailedCounted(core: Core, holds: Holds, owed: Option<ChainID>, core': Core)
    requires Counted(core, holds, owed)
    requires core'.layers == core.layers && core'.mounts == core.mounts
    ensures Counted(core', holds, owed)
  {
    forall k | k in core'.layers ensures core'.layers[k].refCount == Uses(core', holds, k) + At(owed, k) {
      assert core.layers[k].refCount == Uses(core, holds, k) + At(owed, k);
    }
  }

  /** Changing the references of a mount changes no count. */
  lemma RemountKeepsInv(core: Core, holds: Holds, name: string, refs: set<nat>, core': Core)
    requires Inv(core, holds) && name in core.mounts
    requires core.next <= core'.next && forall i :: i in refs ==> i < core'.next
    requires core' == core.(mounts := core.mounts[name := core.mounts[name].(refs := refs)], next := core'.next)
    ensures Inv(core', holds)
  {
    assert MountParents(core'.mounts) == MountParents(core.mounts);
    forall k | k in core'.layers ensures core'.layers[k].refCount == Uses(core', holds, k) {
      assert core.layers[k].refCount == Uses(core, holds, k);
    }
  }

  lemma GetMountKeepsInv(core: Core, holds: Holds, name: string)
    requires Inv(core, holds)
    ensures Inv(GetMount(core, name).0, holds)
  {
    if name in core.mounts {
      RemountKeepsInv(core, holds, name, core.mounts[name].refs + {core.next}, GetMount(core, name).0);
    }
  }

  lemma ReleaseMountKeepsInv(core: Core, holds: Holds, ref: MountRef, removalOK: bool)
    requires Inv(core, holds)
    ensures var (core', r) := ReleaseMount(core, ref, removalOK);
            InvOwing(core', holds, if r.Unmounted? then r.parent else None)
  {
    var (core', r) := ReleaseMount(core, ref, removalOK);
    if r.Unmounted? {
      UnmountCounted(core, holds, ref.name, core');
    } else if r.StillMounted? {
      RemountKeepsInv(core, holds, ref.name, core.mounts[ref.name].refs - {ref.id}, core');
    }
  }

  /** Looking up and registering a layer leaves mounts alone and adds no unused layer. */
  lemma GetFrame(core: Core, c: ChainID)
    ensures var core' := Get(core, c).0;
            && core'.mounts == core.mounts && core'.mountMeta == core.mountMeta
            && core'.layers.Keys == core.layers.Keys
            && (NoGarbage(core) ==> NoGarbage(core'))
  {}

  lemma CommitFrame(core: Core, parent: Option<ChainID>, diff: DiffID, size: int, cacheID: string, descriptor: string, commitOK: bool)
    ensures var core' := Commit(core, parent, diff, size, cacheID, descriptor, commitOK).0;
            && core'.mounts == core.mounts && core'.mountMeta == core.mountMeta
            && core'.layers.Keys <= core.layers.Keys + {Extend(parent, diff)}
            && (NoGarbage(core) ==> NoGarbage(core'))
  {
    GetFrame(core, Extend(parent, diff));
  }

  // ---------------------------------------------------------------- releaseLayer

  /**
    What a release leaves alone: mounts, every layer with a handle, and every surviving layer but
    for its count.
  */
  ghost predicate OnlyReleased(core: Core, core': Core) {
    && core'.mounts == core.mounts && core'.mountMeta == core.mountMeta && core'.next == core.next
    && core'.layers.Keys <= core.layers.Keys
    && (forall c :: c in core.layers && core.layers[c].refs != {} ==> c in core'.layers)
    && (forall c :: c in core'.layers ==>
          StoreLayer(core'.layers[c]) == StoreLayer(core.layers[c]) && core'.layers[c].refs == core.layers[c].refs)
  }

  /** No layer is kept without a use. */
  ghost predicate NoGarbage(core: Core) {
    forall c :: c in core.layers ==> core.layers[c].refCount > 0
  }

  ghost function Chains(removed: seq<Metadata>): set<ChainID> {
    set i | 0 <= i < |removed| :: removed[i].chain
  }

  lemma ChainsAppend(removed: seq<Metadata>, m: Metadata)
    ensures Chains(removed + [m]) == Chains(removed) + {m.chain}
  {
    var all := removed + [m];
    assert all[|removed|] == m;
    assert forall i :: 0 <= i < |removed| ==> all[i] == removed[i];
    forall x | x in Chains(removed) ensures x in Chains(all) {
      var i :| 0 <= i < |removed| && removed[i].chain == x;
      assert all[i].chain == x;
    }
  }

  /** What one iteration does: it only lowers counts and removes layers, and reports the layer it removed. */
  ghost predicate ShapeOf(core: Core, removed: seq<Metadata>, core': Core, removed': seq<Metadata>) {
    && OnlyReleased(core, core')
    && Chains(removed') == Chains(removed) + (core.layers.Keys - core'.layers.Keys)
    && (NoGarbage(core) ==> NoGarbage(core'))
  }

  lemma OnlyReleasedReflexive(core: Core)
    ensures OnlyReleased(core, core)
  {}

  lemma DropShape(core: Core, c: ChainID, removed: seq<Metadata>)
    requires c in core.layers && core.layers[c].refCount > 0
    ensures OnlyReleased(core, Drop(core, c))
    ensures core.layers[c].refCount > 1 ==> ShapeOf(core, removed, Drop(core, c), removed)
  {}

  lemma RemoveShape(core: Core, c: ChainID, removed: seq<Metadata>, m: Metadata)
    requires c in core.layers && core.layers[c].refCount > 0 && core.layers[c].refs == {} && m.chain == c
    ensures OnlyReleased(core, Remove(Drop(core, c), c))
    ensures ShapeOf(core, removed, Remove(Drop(core, c), c), removed + [m])
  {
    ChainsAppend(removed, m);
    assert core.layers.Keys - Remove(Drop(core, c), c).layers.Keys == {c};
  }

  lemma ReleaseStepShape(core: Core, c: ChainID, removed: seq<Metadata>, depth: nat, failing: set<ChainID>)
    requires WellKeyed(core.layers)
    ensures match ReleaseStep(core, c, removed, depth, failing)
            case Stop(r) =>
              && OnlyReleased(core, r.core)
              && (r.outcome.Released? ==> ShapeOf(core, removed, r.core, r.removed))
              && (failing == {} ==> !r.outcome.RemovalFailed?)
            case Continue(core', p, removed') => ShapeOf(core, removed, core', removed')
  {
    hide OnlyReleased;
    hide ShapeOf;
    hide ChainSize;
    OnlyReleasedReflexive(core);
    if c in core.layers && core.layers[c].refCount > 0 {
      DropShape(core, c, removed);
      var m := MetadataOf(Drop(core, c).layers, c);
      if core.layers[c].refCount == 1 && core.layers[c].refs == {} { RemoveShape(core, c, removed, m); }
    }
  }

  lemma OnlyReleasedTransitive(a: Core, b: Core, c: Core)
    requires OnlyReleased(a, b) && OnlyReleased(b, c)
    ensures OnlyReleased(a, c)
    ensures a.layers.Keys - c.layers.Keys == (a.layers.Keys - b.layers.Keys) + (b.layers.Keys - c.layers.Keys)
  {}

  lemma {:induction false} ReleaseFromShape(core: Core, c: ChainID, removed: seq<Metadata>, depth: nat, failing: set<ChainID>)
    requires WellKeyed(core.layers)
    ensures var r := ReleaseFrom(core, c, removed, depth, failing);
            && OnlyReleased(core, r.core)
            && (r.outcome.Released? ==> ShapeOf(core, removed, r.core, r.removed))
            && (failing == {} ==> !r.outcome.RemovalFailed?)
    decreases |core.layers|
  {
    ReleaseStepShape(core, c, removed, depth, failing);
    match ReleaseStep(core, c, removed, depth, failing)
    case Stop(_) =>
    case Continue(core', p, removed') =>
      ReleaseFromShape(core', p, removed', depth + 1, failing);
      var r := ReleaseFrom(core', p, removed', depth + 1, failing);
      OnlyReleasedTransitive(core, core', r.core);
      assert NoGarbage(core) ==> NoGarbage(core');
  }

  /** No iteration panics, and the token moves up to the parent. */
  lemma ReleaseStepKeepsInv(core: Core, holds: Holds, c: ChainID, removed: seq<Metadata>, depth: nat, failing: set<ChainID>)
    requires InvOwing(core, holds, Some(c))
    requires |removed| > 0 || depth == 0
    ensures match ReleaseStep(core, c, removed, depth, failing)
            case Stop(r) => r.outcome.Normal() && Inv(r.core, holds)
            case Continue(core', p, removed') => InvOwing(core', holds, Some(p)) && |removed'| > 0
  {
    hide InvOwing;
    hide Inv;
    hide WellKeyed;
    hide MetadataOf;
    InvFacts(core, holds, Some(c));
    DropSpendsToken(core, holds, c);
    if core.layers[c].refCount == 1 {
      var gone := Remove(Drop(core, c), c);
      RemoveFreesParent(Drop(core, c), holds, c);
      InvFacts(gone, holds, core.layers[c].parent);
    }
  }

  lemma {:induction false} ReleaseFromKeepsInv(core: Core, holds: Holds, c: ChainID, removed: seq<Metadata>, depth: nat, failing: set<ChainID>)
    requires InvOwing(core, holds, Some(c))
    requires |removed| > 0 || depth == 0
    ensures ReleaseFrom(core, c, removed, depth, failing).outcome.Normal()
    ensures Inv(ReleaseFrom(core, c, removed, depth, failing).core, holds)
    decreases |core.layers|
  {
    hide InvOwing;
    hide Inv;
    hide WellKeyed;
    InvFacts(core, holds, Some(c));
    ReleaseStepKeepsInv(core, holds, c, removed, depth, failing);
    match ReleaseStep(core, c, removed, depth, failing)
    case Stop(_) =>
    case Continue(core', p, removed') => ReleaseFromKeepsInv(core', holds, p, removed', depth + 1, failing);
  }

  /**
    Spending a token through releaseLayer keeps every count exact and never panics; it only lowers
    counts and removes layers, reports exactly the layers it removed, and with working storage
    leaves no garbage.
  */
  lemma ReleaseKeepsInv(core: Core, holds: Holds, c: ChainID, failing: set<ChainID>)
    requires InvOwing(core, holds, Some(c))
    ensures var r := ReleaseLayer(core, c, failing);
            && r.outcome.Normal()
            && Inv(r.core, holds)
            && OnlyReleased(core, r.core)
            && (r.outcome.Released? ==> Chains(r.removed) == core.layers.Keys - r.core.layers.Keys)
            && (failing == {} ==> r.outcome.Released?)
            && (failing == {} && NoGarbage(core) ==> NoGarbage(r.core))
  {
    ReleaseFromKeepsInv(core, holds, c, [], 0, failing);
    ReleaseFromShape(core, c, [], 0, failing);
  }
}
