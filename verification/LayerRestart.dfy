/**
  What NewStoreFromGraphDriver rebuilds from persisted metadata, as a function of that metadata, and
  how it relates to the store that wrote it.
*/
module LayerRestart {
  import opened Wrappers
  import opened ChainIDs
  import opened Pointers
  import opened LayerModel
  import opened LayerInvariant
  import opened LayerRuns
  import opened LayerMetadata

  /** loadLayer succeeds on `c`: the metadata of it and all its ancestors is there and readable. */
  predicate Loadable(meta: map<ChainID, LayerMeta>, bad: set<ChainID>, c: ChainID)
    requires MetaKeyed(meta)
    decreases c
  {
    && c in meta && c !in bad
    && (meta[c].parent.Some? ==> Loadable(meta, bad, meta[c].parent.value))
  }

  /** Exactly the layers load all of whose chain is in the metadata and readable. */
  lemma {:induction false} LoadableExactly(meta: map<ChainID, LayerMeta>, bad: set<ChainID>, c: ChainID)
    requires MetaKeyed(meta)
    ensures Loadable(meta, bad, c) <==> forall a :: AncestorOrSelf(a, c) ==> a in meta && a !in bad
    decreases c
  {
    assert AncestorOrSelf(c, c);
    if c.Chained? {
      LoadableExactly(meta, bad, c.parent);
      assert forall a :: AncestorOrSelf(a, c) <==> a == c || AncestorOrSelf(a, c.parent);
    }
  }

  /** A mount loads exactly if its own metadata is readable and all layers below it load. */
  lemma MountLoadableExactly(meta: map<ChainID, LayerMeta>, mountMeta: map<string, MountMeta>, bad: set<ChainID>, badMounts: set<string>, n: string)
    requires MetaKeyed(meta)
    ensures MountLoadable(meta, mountMeta, bad, badMounts, n) <==>
              && n in mountMeta && n !in badMounts
              && (mountMeta[n].parent.Some? ==> forall a :: AncestorOrSelf(a, mountMeta[n].parent.value) ==> a in meta && a !in bad)
  {
    if n in mountMeta && mountMeta[n].parent.Some? { LoadableExactly(meta, bad, mountMeta[n].parent.value); }
  }

  predicate MountLoadable(meta: map<ChainID, LayerMeta>, mountMeta: map<string, MountMeta>, bad: set<ChainID>, badMounts: set<string>, n: string)
    requires MetaKeyed(meta)
  {
    && n in mountMeta && n !in badMounts
    && (mountMeta[n].parent.Some? ==> Loadable(meta, bad, mountMeta[n].parent.value))
  }

  /** A layer as loadLayer creates it, counted `n` times. */
  function LoadedLayer(m: LayerMeta, n: nat): Layer {
    Layer(m.diff, m.parent, m.cacheID, m.size, m.descriptor, n, {})
  }

  function LoadedMount(m: MountMeta): Mount {
    Mount(m.mountID, m.initID, m.parent, {})
  }

  ghost function LoadedParents(meta: map<ChainID, LayerMeta>, bad: set<ChainID>): map<ChainID, Option<ChainID>>
    requires MetaKeyed(meta)
  {
    map c | c in meta && Loadable(meta, bad, c) :: meta[c].parent
  }

  ghost function LoadedMounts(meta: map<ChainID, LayerMeta>, mountMeta: map<string, MountMeta>, bad: set<ChainID>, badMounts: set<string>): map<string, Mount>
    requires MetaKeyed(meta)
  {
    map n | n in mountMeta && MountLoadable(meta, mountMeta, bad, badMounts, n) :: LoadedMount(mountMeta[n])
  }

  /** The store after a restart, when `bad` layers and `badMounts` cannot be read. */
  ghost function Restarted(meta: map<ChainID, LayerMeta>, mountMeta: map<string, MountMeta>, bad: set<ChainID>, badMounts: set<string>): Core
    requires MetaKeyed(meta)
  {
    var parents := LoadedParents(meta, bad);
    var mounts := LoadedMounts(meta, mountMeta, bad, badMounts);
    Core(map c | c in meta && Loadable(meta, bad, c) ::
           LoadedLayer(meta[c], |Pointing(parents, c)| + |Pointing(MountParents(mounts), c)|),
         mounts, meta, mountMeta, 0)
  }

  // ---------------------------------------------------------------- what a restart keeps

  lemma RestartedLayers(meta: map<ChainID, LayerMeta>, mountMeta: map<string, MountMeta>, bad: set<ChainID>, badMounts: set<string>)
    requires MetaKeyed(meta)
    ensures var core := Restarted(meta, mountMeta, bad, badMounts);
            && (forall c :: c in core.layers <==> Loadable(meta, bad, c))
            && (forall c :: c in core.layers ==> c in meta && core.layers[c].refs == {} && StoreLayer(core.layers[c]) == meta[c])
            && LayerParents(core.layers) == LoadedParents(meta, bad)
            && core.mounts == LoadedMounts(meta, mountMeta, bad, badMounts)
            && core.layerMeta == meta && core.mountMeta == mountMeta
  {
    hide MetaKeyed;
    hide Pointing;
    var core := Restarted(meta, mountMeta, bad, badMounts);
    forall c ensures c in core.layers <==> Loadable(meta, bad, c) {}
    assert LayerParents(core.layers) == LoadedParents(meta, bad);
  }

  lemma RestartedCount(meta: map<ChainID, LayerMeta>, mountMeta: map<string, MountMeta>, bad: set<ChainID>, badMounts: set<string>, c: ChainID)
    requires MetaKeyed(meta) && Loadable(meta, bad, c)
    ensures var core := Restarted(meta, mountMeta, bad, badMounts);
            c in core.layers && core.layers[c].refCount == |Pointing(LoadedParents(meta, bad), c)| + |Pointing(MountParents(core.mounts), c)|
  {
    hide Pointing;
    hide MetaKeyed;
  }

  lemma LoadedWithin(meta: map<ChainID, LayerMeta>, mountMeta: map<string, MountMeta>, bad: set<ChainID>, badMounts: set<string>, c: ChainID)
    requires MetaKeyed(meta) && !Loadable(meta, bad, c)
    ensures Pointing(LoadedParents(meta, bad), c) == {}
    ensures Pointing(MountParents(LoadedMounts(meta, mountMeta, bad, badMounts)), c) == {}
  {
    hide MetaKeyed;
    forall k ensures k !in Pointing(LoadedParents(meta, bad), c) {}
    forall n ensures n !in Pointing(MountParents(LoadedMounts(meta, mountMeta, bad, badMounts)), c) {}
  }

  /** Counts after a restart are exact, even when some metadata could not be read. */
  lemma RestartCounts(meta: map<ChainID, LayerMeta>, mountMeta: map<string, MountMeta>, bad: set<ChainID>, badMounts: set<string>)
    requires MetaKeyed(meta)
    ensures var core := Restarted(meta, mountMeta, bad, badMounts);
            WellKeyed(core.layers) && Closed(core, map[]) && Fresh(core) && Counted(core, map[], None)
  {
    hide Restarted;
    hide Loadable;
    hide LoadedParents;
    hide Pointing;
    var core := Restarted(meta, mountMeta, bad, badMounts);
    RestartedLayers(meta, mountMeta, bad, badMounts);
    NobodyHolds();
    assert WellKeyed(core.layers);
    forall c | c !in core.layers ensures Pointing(LayerParents(core.layers), c) == {} && Pointing(MountParents(core.mounts), c) == {} {
      LoadedWithin(meta, mountMeta, bad, badMounts, c);
    }
    forall n | n in core.mounts ensures core.mounts[n].refs == {} {
      assert core.mounts[n] == LoadedMount(mountMeta[n]);
    }
    forall c | c in core.layers ensures core.layers[c].refCount == Uses(core, map[], c) {
      RestartedCount(meta, mountMeta, bad, badMounts, c);
    }
  }

  lemma NobodyHolds()
    ensures forall c :: Pointing<nat>(map[], c) == {}
  {}

  /** Whatever could not be read, runs may start from the restarted store. */
  lemma RestartedStoreRuns(meta: map<ChainID, LayerMeta>, mountMeta: map<string, MountMeta>, bad: set<ChainID>, badMounts: set<string>)
    requires MetaKeyed(meta)
    ensures SysInv(Sys(Restarted(meta, mountMeta, bad, badMounts), map[], None, false))
  {
    hide Restarted;
    hide Closed;
    hide Fresh;
    hide Counted;
    RestartCounts(meta, mountMeta, bad, badMounts);
    assert Holdings(map[]) == map[];
  }

  lemma {:induction false} EveryLayerLoads(core: Core, holds: Holds, c: ChainID)
    requires Mirrored(core) && WellKeyed(core.layers) && Closed(core, holds) && c in core.layers && MetaKeyed(core.layerMeta)
    ensures Loadable(core.layerMeta, {}, c)
    decreases c
  {
    assert core.layerMeta[c] == StoreLayer(core.layers[c]);
    ParentIsStored(core, holds, c);
    if core.layers[c].parent.Some? { EveryLayerLoads(core, holds, c.parent); }
  }

  lemma MetadataIsKeyed(core: Core)
    requires Mirrored(core) && WellKeyed(core.layers)
    ensures MetaKeyed(core.layerMeta)
  {
    forall c | c in core.layerMeta ensures c == Extend(core.layerMeta[c].parent, core.layerMeta[c].diff) {
      assert core.layerMeta[c] == StoreLayer(core.layers[c]);
    }
  }

  lemma EveryMountLoads(core: Core, holds: Holds, n: string)
    requires Mirrored(core) && WellKeyed(core.layers) && Closed(core, holds) && n in core.mountMeta && MetaKeyed(core.layerMeta)
    ensures MountLoadable(core.layerMeta, core.mountMeta, {}, {}, n)
  {
    var parent := core.mountMeta[n].parent;
    if parent.Some? {
      PointsWithin(MountParents(core.mounts), core.layers.Keys, n);
      EveryLayerLoads(core, holds, parent.value);
    }
  }

  /** saveMount left something behind that the running store does not know of. */
  ghost predicate Torn(core: Core, n: string) {
    n in core.mountMeta && !(n in core.mounts && core.mountMeta[n] == StoreMount(core.mounts[n]))
  }

  /** The same layers and mounts, regardless of counts and handles. */
  ghost predicate SameLayers(a: map<ChainID, Layer>, b: map<ChainID, Layer>) {
    a.Keys == b.Keys && forall c :: c in a ==> StoreLayer(a[c]) == StoreLayer(b[c])
  }

  ghost predicate SameMounts(a: map<string, Mount>, b: map<string, Mount>) {
    a.Keys == b.Keys && forall n :: n in a ==> StoreMount(a[n]) == StoreMount(b[n])
  }

  lemma RestartMirrors(core: Core, holds: Holds)
    requires Mirrored(core) && WellKeyed(core.layers) && Closed(core, holds) && MetaKeyed(core.layerMeta)
    ensures var core' := Restarted(core.layerMeta, core.mountMeta, {}, {});
            && SameLayers(core'.layers, core.layers)
            && Mirrored(core')
            && core'.mounts.Keys == core.mountMeta.Keys
            && (forall n :: n in core'.mounts ==> core'.mounts[n] == LoadedMount(core.mountMeta[n]))
  {
    hide Closed;
    hide WellKeyed;
    hide MetaKeyed;
    hide Loadable;
    hide MountLoadable;
    hide Restarted;
    hide LoadedParents;
    RestartedLayers(core.layerMeta, core.mountMeta, {}, {});
    var core' := Restarted(core.layerMeta, core.mountMeta, {}, {});
    forall c | c in core.layers ensures c in core'.layers { EveryLayerLoads(core, holds, c); }
    forall n | n in core.mountMeta ensures n in core'.mounts { EveryMountLoads(core, holds, n); }
    assert core'.mounts.Keys == core.mountMeta.Keys;
  }

  /**
    Restart round trip, from any state of any run, operations in flight included: the same layers
    with their parents, sizes, cache identifiers and descriptors, every mount with its parent and
    mount identifier, counts equal to children plus mounts, and an invariant that further runs
    keep. The mounts are the same exactly when the metadata holds nothing that no mount has.
  */
  lemma RestartRestores(core: Core, holds: Holds)
    requires Inv(core, holds) && Mirrored(core)
    ensures MetaKeyed(core.layerMeta)
    ensures var core' := Restarted(core.layerMeta, core.mountMeta, {}, {});
            && Inv(core', map[]) && Mirrored(core')
            && SameLayers(core'.layers, core.layers)
            && core.mounts.Keys <= core'.mounts.Keys
            && (forall n :: n in core.mounts ==>
                  core'.mounts[n].parent == core.mounts[n].parent && core'.mounts[n].mountID == core.mounts[n].mountID)
            && (forall n :: n in core'.mounts && n !in core.mounts ==> core'.mounts[n].parent.None?)
            && (SameMounts(core'.mounts, core.mounts) <==> !exists n :: Torn(core, n))
  {
    hide Counted;
    hide Closed;
    hide WellKeyed;
    hide Fresh;
    hide MetaKeyed;
    hide Restarted;
    hide SameMounts;
    hide Torn;
    InvParts(core, holds);
    MetadataIsKeyed(core);
    RestartMirrors(core, holds);
    RestartCounts(core.layerMeta, core.mountMeta, {}, {});
    TornOrSame(core, Restarted(core.layerMeta, core.mountMeta, {}, {}));
  }

  lemma TornOrSame(core: Core, core': Core)
    requires Mirrored(core) && core'.mounts.Keys == core.mountMeta.Keys
    requires forall n :: n in core'.mounts ==> core'.mounts[n] == LoadedMount(core.mountMeta[n])
    ensures SameMounts(core'.mounts, core.mounts) <==> !exists n :: Torn(core, n)
  {
    if SameMounts(core'.mounts, core.mounts) {
      forall n ensures !Torn(core, n) {
        if n in core.mountMeta { assert StoreMount(core'.mounts[n]) == core.mountMeta[n]; }
      }
    } else if !exists n :: Torn(core, n) {
      forall n | n in core'.mounts ensures n in core.mounts && StoreMount(core'.mounts[n]) == StoreMount(core.mounts[n]) {
        assert !Torn(core, n);
      }
    }
  }

  // ---------------------------------------------------------------- restarts after runs

  ghost predicate Untorn(core: Core) {
    core.mountMeta.Keys == core.mounts.Keys && forall n :: n in core.mounts ==> core.mountMeta[n] == StoreMount(core.mounts[n])
  }

  /** A write of saveMount fails after the first one has been done. */
  predicate CutShort(initID: string, parent: Option<ChainID>, fault: SaveFault) {
    (initID != "" && fault.AtInitID?) || (parent.Some? && fault.AtParent?)
  }

  /** Saving a mount leaves metadata that no mount has exactly when it is cut short after its first write. */
  lemma SaveMountStaysUntornExactly(core: Core, name: string, mountID: string, initID: string, parent: Option<ChainID>, fault: SaveFault)
    requires Untorn(core) && name !in core.mounts
    ensures Untorn(SaveMount(core, name, mountID, initID, parent, fault).0) <==> !CutShort(initID, parent, fault)
  {
    var core' := SaveMount(core, name, mountID, initID, parent, fault).0;
    if CutShort(initID, parent, fault) { assert name in core'.mountMeta && name !in core'.mounts; }
  }

  lemma GetMountStaysUntorn(core: Core, name: string)
    requires Untorn(core)
    ensures Untorn(GetMount(core, name).0)
  {}

  lemma ReleaseMountStaysUntorn(core: Core, ref: MountRef, removalOK: bool)
    requires Untorn(core)
    ensures Untorn(ReleaseMount(core, ref, removalOK).0)
  {}

  lemma SameMountsStayUntorn(core: Core, core': Core)
    requires Untorn(core) && core'.mounts == core.mounts && core'.mountMeta == core.mountMeta
    ensures Untorn(core')
  {}

  /** The event ends a mount creation by a save that is cut short. */
  predicate TearsMount(s: Sys, e: Event) {
    e.MountCommit? && e.t in s.ops && s.ops[e.t].stage.Mounting? && CutShort(e.initID, s.ops[e.t].parent, e.fault)
  }

  lemma NextStaysUntorn(s: Sys, e: Event)
    requires SysInv(s) && WellKeyed(s.core.layers) && Untorn(s.core)
    ensures Untorn(Next(s, e).core) <==> !TearsMount(s, e)
  {
    hide Inv;
    hide WellKeyed;
    hide Untorn;
    hide SaveMount;
    hide GetMount;
    hide ReleaseMount;
    if e.MountCommit? {
      if e.t in s.ops && s.ops[e.t].stage.Mounting? {
        SaveMountStaysUntornExactly(s.core, s.ops[e.t].stage.name, s.ops[e.t].stage.mountID, e.initID, s.ops[e.t].parent, e.fault);
      }
    } else if e.GetRW? {
      GetMountStaysUntorn(s.core, e.name);
    } else if e.ReleaseRW? {
      ReleaseMountStaysUntorn(s.core, e.ref, e.removalOK);
    } else {
      NextKeepsMounts(s, e);
      SameMountsStayUntorn(s.core, Next(s, e).core);
    }
  }

  lemma NextKeepsMounts(s: Sys, e: Event)
    requires SysInv(s) && WellKeyed(s.core.layers)
    requires !e.MountCommit? && !e.GetRW? && !e.ReleaseRW?
    ensures Next(s, e).core.mounts == s.core.mounts && Next(s, e).core.mountMeta == s.core.mountMeta
  {
    hide Inv;
    hide InvOwing;
    hide WellKeyed;
    hide Depth;
    hide ReleaseLayer;
    hide Release;
    hide Commit;
    hide Get;
    if e.ReleaseHandle? {
      ReleaseKeepsMounts(s.core, Holdings(s.ops), e.handle, e.failing);
    } else if e.Unwind? && e.t in s.ops && s.ops[e.t].stage.Unwinding? && s.ops[e.t].parent.Some? {
      TakeToken(s.core, s.ops, e.t);
      ReleaseKeepsInv(s.core, Holdings(s.ops - {e.t}), s.ops[e.t].parent.value, e.failing);
    } else if e.RegisterCommit? && e.t in s.ops && s.ops[e.t].stage.Registering? {
      CommitFrame(s.core, s.ops[e.t].parent, e.diff, e.size, s.ops[e.t].stage.cacheID, s.ops[e.t].stage.descriptor, e.commitOK);
    } else if e.GetLayer? {
      GetFrame(s.core, e.chain);
    }
  }

  lemma ReleaseKeepsMounts(core: Core, holds: Holds, h: Handle, failing: set<ChainID>)
    requires Inv(core, holds) && WellKeyed(core.layers)
    ensures var core' := Release(core, h, failing).0;
            core'.mounts == core.mounts && core'.mountMeta == core.mountMeta
  {
    hide InvOwing;
    hide ReleaseLayer;
    hide WellKeyed;
    if Retains(core, h) {
      HandleToToken(core, holds, h);
      ReleaseKeepsInv(Dereference(core, h), holds, h.chain, failing);
    }
  }

  lemma {:induction false} RunStaysUntorn(s: Sys, events: seq<Event>)
    requires SysInv(s) && Untorn(s.core)
    requires forall i :: 0 <= i < |events| && events[i].MountCommit? ==> events[i].fault.NoFault? || events[i].fault.AtMountID?
    ensures Untorn(Run(s, events).core)
    decreases |events|
  {
    hide SysInv;
    hide Untorn;
    hide Next;
    if events != [] {
      InvGivesKeys(s);
      NextKeepsInv(s, events[0]);
      NextStaysUntorn(s, events[0]);
      RunStaysUntorn(Next(s, events[0]), events[1..]);
    }
  }

  /** A restart after any run without a torn mount brings back exactly the layers and mounts of that run. */
  lemma RestartAfterRun(events: seq<Event>)
    requires forall i :: 0 <= i < |events| && events[i].MountCommit? ==> events[i].fault.NoFault? || events[i].fault.AtMountID?
    ensures SysInv(Start)
    ensures var core := Run(Start, events).core;
            && MetaKeyed(core.layerMeta)
            && var core' := Restarted(core.layerMeta, core.mountMeta, {}, {});
               SameLayers(core'.layers, core.layers) && SameMounts(core'.mounts, core.mounts) && SysInv(Sys(core', map[], None, false)) && Mirrored(core')
  {
    hide Inv;
    hide Run;
    hide Restarted;
    hide MetaKeyed;
    hide SameLayers;
    StartInv();
    RunStaysUntorn(Start, events);
    StartIsMirrored();
    RunKeepsMetadata(Start, events);
    var core := Run(Start, events).core;
    RestartRestores(core, Holdings(Run(Start, events).ops));
    assert forall n :: !Torn(core, n);
    assert Holdings(map[]) == map[];
  }

  /** A restart that brings back a mount that never was: the creation of `name` failed when the second write did. */
  lemma TornMountComesBack(name: string, mountID: string, initID: string)
    requires initID != ""
    ensures SysInv(Start)
    ensures var core := Run(Start, [MountBegin(0, name, None, mountID), MountCommit(0, initID, AtInitID)]).core;
            && MetaKeyed(core.layerMeta)
            && name !in core.mounts && name in Restarted(core.layerMeta, core.mountMeta, {}, {}).mounts
  {
    hide Inv;
    hide Restarted;
    hide MetaKeyed;
    hide SameMounts;
    hide SameLayers;
    StartInv();
    var e0, e1 := MountBegin(0, name, None, mountID), MountCommit(0, initID, AtInitID);
    assert [e0, e1][1..] == [e1] && [e1][1..] == [];
    var s1 := Then(Start, e0);
    assert s1 == Sys(EmptyCore, map[][0 := Op(Mounting(name, mountID), None)], Some(0), false);
    var s2 := Then(s1, e1);
    assert Run(s1, [e1]) == Run(s2, []) == s2;
    assert name in s2.core.mountMeta && name !in s2.core.mounts;
    StartIsMirrored();
    RunKeepsMetadata(Start, [e0, e1]);
    RestartRestores(s2.core, Holdings(s2.ops));
    InvParts(s2.core, Holdings(s2.ops));
    RestartMirrors(s2.core, Holdings(s2.ops));
  }

  // ---------------------------------------------------------------- any number of restarts

  /** The time from one start of the daemon to the next: what cannot be read at the start, and what happens then. */
  datatype Session = Session(bad: set<ChainID>, badMounts: set<string>, events: seq<Event>)

  /** The store as a session starts with it, on the metadata that `core` left behind. */
  ghost function Reboot(core: Core, session: Session): (s: Sys)
    requires MetaKeyed(core.layerMeta)
    ensures SysInv(s) && MetaKeyed(s.core.layerMeta)
  {
    RestartedStoreRuns(core.layerMeta, core.mountMeta, session.bad, session.badMounts);
    Sys(Restarted(core.layerMeta, core.mountMeta, session.bad, session.badMounts), map[], None, false)
  }

  /** The state at the end of the last session; each may end at any point, operations in flight included. */
  ghost function Sessions(core: Core, sessions: seq<Session>): (s: Sys)
    requires MetaKeyed(core.layerMeta) && sessions != []
    ensures SysInv(s) && MetaKeyed(s.core.layerMeta)
    decreases |sessions|
  {
    var n := |sessions| - 1;
    var before := if n == 0 then core else Sessions(core, sessions[..n]).core;
    RunKeepsMetadata(Reboot(before, sessions[n]), sessions[n].events);
    Run(Reboot(before, sessions[n]), sessions[n].events)
  }

  /**
    Over any number of sessions, each with any run and any metadata unreadable at its start, every
    reference count is the number of handles, child layers, mounts and operations in flight, and no
    release has panicked.
  */
  lemma CountsAreExactAcrossRestarts(core: Core, sessions: seq<Session>)
    requires MetaKeyed(core.layerMeta) && sessions != []
    ensures var r := Sessions(core, sessions);
            && !r.panicked
            && forall c :: c in r.core.layers ==>
                 r.core.layers[c].refCount ==
                   |r.core.layers[c].refs|
                   + |set k | k in r.core.layers && r.core.layers[k].parent == Some(c)|
                   + |set n | n in r.core.mounts && r.core.mounts[n].parent == Some(c)|
                   + |set t | t in r.ops && r.ops[t].parent == Some(c)|
  {
    hide SysInv;
    hide Restarted;
    hide MetaKeyed;
    hide Run;
    var n := |sessions| - 1;
    var before := if n == 0 then core else Sessions(core, sessions[..n]).core;
    ReferenceCountsAreExact(Reboot(before, sessions[n]), sessions[n].events);
  }
}
