/** What runs do to the metadata of layers and mounts: it mirrors the store, and stays filed under chain identifiers. */
module LayerMetadata {
  import opened Wrappers
  import opened ChainIDs
  import opened LayerModel
  import opened LayerInvariant
  import opened LayerRuns

  /** Persisted layers are filed under the identifier of their chain. */
  ghost predicate MetaKeyed(meta: map<ChainID, LayerMeta>) {
    forall c :: c in meta ==> c == Extend(meta[c].parent, meta[c].diff)
  }

  /** From `core` to `core'` the metadata stays in step with the store, if it was, and well filed. */
  ghost predicate KeepsMetadata(core: Core, core': Core) {
    (Mirrored(core) ==> Mirrored(core')) && (MetaKeyed(core.layerMeta) ==> MetaKeyed(core'.layerMeta))
  }

  lemma RecountKeepsMetadata(core: Core, c: ChainID, l: Layer, core': Core)
    requires Recounts(core.layers, c, l)
    requires core' == core.(layers := core.layers[c := l], next := core'.next)
    ensures KeepsMetadata(core, core')
  {
    assert core'.layers.Keys == core.layers.Keys;
  }

  lemma GetKeepsMetadata(core: Core, c: ChainID)
    ensures KeepsMetadata(core, Get(core, c).0)
  {
    if c in core.layers {
      var l := core.layers[c].(refCount := core.layers[c].refCount + 1, refs := core.layers[c].refs + {core.next});
      GetRecounts(core, c);
      RecountKeepsMetadata(core, c, l, core.(layers := core.layers[c := l], next := core.next + 1));
    }
  }

  lemma AddKeepsMetadata(core: Core, c: ChainID, l: Layer)
    requires c == Extend(l.parent, l.diff)
    ensures KeepsMetadata(core, Added(core, c, l))
  {}

  lemma CommitKeepsMetadata(core: Core, parent: Option<ChainID>, diff: DiffID, size: int, cacheID: string, descriptor: string, commitOK: bool)
    ensures KeepsMetadata(core, Commit(core, parent, diff, size, cacheID, descriptor, commitOK).0)
  {
    hide KeepsMetadata;
    hide Get;
    var c := Extend(parent, diff);
    NothingKeepsMetadata(core);
    GetKeepsMetadata(core, c);
    if c !in core.layers && commitOK {
      var l := Layer(diff, parent, cacheID, size, descriptor, 1, {});
      var added := Added(core, c, l);
      AddKeepsMetadata(core, c, l);
      RecountKeepsMetadata(added, c, Reference(added, c).layers[c], Reference(added, c));
      KeepsMetadataTransitive(core, added, Reference(added, c));
    }
  }

  lemma NothingKeepsMetadata(core: Core)
    ensures KeepsMetadata(core, core)
  {}

  lemma KeepsMetadataTransitive(a: Core, b: Core, c: Core)
    requires KeepsMetadata(a, b) && KeepsMetadata(b, c)
    ensures KeepsMetadata(a, c)
  {}

  lemma RemoveKeepsMetadata(core: Core, c: ChainID)
    requires c in core.layers
    ensures KeepsMetadata(core, Remove(core, c))
  {
    assert (core.layerMeta - {c}).Keys == core.layerMeta.Keys - {c};
    assert (core.layers - {c}).Keys == core.layers.Keys - {c};
  }

  lemma ReleaseStepKeepsMetadata(core: Core, c: ChainID, removed: seq<Metadata>, depth: nat, failing: set<ChainID>)
    requires WellKeyed(core.layers)
    ensures match ReleaseStep(core, c, removed, depth, failing)
            case Stop(r) => KeepsMetadata(core, r.core)
            case Continue(core', _, _) => KeepsMetadata(core, core')
  {
    hide KeepsMetadata;
    hide WellKeyed;
    hide MetadataOf;
    NothingKeepsMetadata(core);
    if c in core.layers && core.layers[c].refCount > 0 {
      var dropped := Drop(core, c);
      RecountKeepsMetadata(core, c, dropped.layers[c], dropped);
      RemoveKeepsMetadata(dropped, c);
      KeepsMetadataTransitive(core, dropped, Remove(dropped, c));
    }
  }

  lemma {:induction false} ReleaseFromKeepsMetadata(core: Core, c: ChainID, removed: seq<Metadata>, depth: nat, failing: set<ChainID>)
    requires WellKeyed(core.layers)
    ensures KeepsMetadata(core, ReleaseFrom(core, c, removed, depth, failing).core)
    decreases |core.layers|
  {
    hide KeepsMetadata;
    ReleaseStepKeepsMetadata(core, c, removed, depth, failing);
    match ReleaseStep(core, c, removed, depth, failing)
    case Stop(_) =>
    case Continue(core', p, removed') =>
      ReleaseFromKeepsMetadata(core', p, removed', depth + 1, failing);
      KeepsMetadataTransitive(core, core', ReleaseFrom(core', p, removed', depth + 1, failing).core);
  }

  lemma ReleaseKeepsMetadata(core: Core, h: Handle, failing: set<ChainID>)
    requires WellKeyed(core.layers)
    ensures KeepsMetadata(core, Release(core, h, failing).0)
  {
    hide KeepsMetadata;
    hide ReleaseFrom;
    NothingKeepsMetadata(core);
    if Retains(core, h) {
      var core' := Dereference(core, h);
      RecountKeepsMetadata(core, h.chain, core'.layers[h.chain], core');
      assert WellKeyed(core'.layers);
      ReleaseFromKeepsMetadata(core', h.chain, [], 0, failing);
      KeepsMetadataTransitive(core, core', ReleaseLayer(core', h.chain, failing).core);
    }
  }

  lemma SaveMountKeepsMetadata(core: Core, name: string, mountID: string, initID: string, parent: Option<ChainID>, fault: SaveFault)
    requires name !in core.mounts
    ensures KeepsMetadata(core, SaveMount(core, name, mountID, initID, parent, fault).0)
  {}

  lemma GetMountKeepsMetadata(core: Core, name: string)
    ensures KeepsMetadata(core, GetMount(core, name).0)
  {}

  lemma ReleaseMountKeepsMetadata(core: Core, ref: MountRef, removalOK: bool)
    ensures KeepsMetadata(core, ReleaseMount(core, ref, removalOK).0)
  {}

  /** A use more or less of a layer is not persisted. */
  lemma EnterKeepsMetadata(s: Sys, t: nat, stage: Stage, parent: Option<ChainID>)
    ensures KeepsMetadata(s.core, Enter(s, t, stage, parent).core)
  {
    hide KeepsMetadata;
    NothingKeepsMetadata(s.core);
    if parent.Some? && parent.value in s.core.layers {
      var core' := Hold(s.core, parent.value);
      RecountKeepsMetadata(s.core, parent.value, core'.layers[parent.value], core');
    }
  }

  lemma MountEventKeepsMetadata(s: Sys, e: Event)
    requires SysInv(s) && WellKeyed(s.core.layers)
    requires e.MountBegin? || e.MountAbort? || e.MountCommit? || e.GetRW? || e.ReleaseRW?
    ensures KeepsMetadata(s.core, Next(s, e).core)
  {
    hide KeepsMetadata;
    hide Inv;
    hide WellKeyed;
    hide SaveMount;
    hide GetMount;
    hide ReleaseMount;
    NothingKeepsMetadata(s.core);
    match e
    case MountBegin(t, name, parent, mountID) => EnterKeepsMetadata(s, t, Mounting(name, mountID), parent);
    case MountAbort(_) =>
    case MountCommit(t, initID, fault) =>
      if t in s.ops && s.ops[t].stage.Mounting? {
        SaveMountKeepsMetadata(s.core, s.ops[t].stage.name, s.ops[t].stage.mountID, initID, s.ops[t].parent, fault);
      }
    case GetRW(name) => GetMountKeepsMetadata(s.core, name);
    case ReleaseRW(t, ref, ok) => ReleaseMountKeepsMetadata(s.core, ref, ok);
  }

  /** Every critical section keeps the metadata in step with the store. */
  lemma NextKeepsMetadata(s: Sys, e: Event)
    requires SysInv(s) && WellKeyed(s.core.layers)
    ensures KeepsMetadata(s.core, Next(s, e).core)
  {
    hide KeepsMetadata;
    hide SysInv;
    hide WellKeyed;
    hide Depth;
    hide ReleaseFrom;
    hide Release;
    hide Commit;
    hide Get;
    NothingKeepsMetadata(s.core);
    match e
    case RegisterBegin(t, parent, cacheID, descriptor, migration) =>
      EnterKeepsMetadata(s, t, if !migration && TooDeep(s.core, parent) then Unwinding else Registering(cacheID, descriptor), parent);
    case RegisterAbort(_) =>
    case RegisterCommit(t, diff, size, ok) =>
      if t in s.ops && s.ops[t].stage.Registering? {
        CommitKeepsMetadata(s.core, s.ops[t].parent, diff, size, s.ops[t].stage.cacheID, s.ops[t].stage.descriptor, ok);
      }
    case GetLayer(c) => GetKeepsMetadata(s.core, c);
    case ReleaseHandle(h, failing) => ReleaseKeepsMetadata(s.core, h, failing);
    case Unwind(t, failing) =>
      if t in s.ops && s.ops[t].parent.Some? { ReleaseFromKeepsMetadata(s.core, s.ops[t].parent.value, [], 0, failing); }
    case _ => MountEventKeepsMetadata(s, e);
  }

  lemma {:induction false} RunKeepsMetadata(s: Sys, events: seq<Event>)
    requires SysInv(s)
    ensures KeepsMetadata(s.core, Run(s, events).core)
    decreases |events|
  {
    hide KeepsMetadata;
    hide SysInv;
    hide Next;
    if events == [] {
      NothingKeepsMetadata(s.core);
    } else {
      InvGivesKeys(s);
      NextKeepsInv(s, events[0]);
      NextKeepsMetadata(s, events[0]);
      RunKeepsMetadata(Next(s, events[0]), events[1..]);
      KeepsMetadataTransitive(s.core, Next(s, events[0]).core, Run(s, events).core);
    }
  }

  lemma StartIsMirrored()
    ensures Mirrored(Start.core) && MetaKeyed(Start.core.layerMeta)
  {}
}
