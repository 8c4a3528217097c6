/**
  The state of the layer store (layer/layer_store.go, layer/ro_layer.go, layer/mounted_layer.go,
  layer/migration.go) as a value, and what each critical section does to it.

  A `*roLayer` held by a caller is named by its ChainID: the invariant below shows that a layer
  somebody counts on is always in `layers`, so the pointer and the map entry are the same object.
*/
module LayerModel {
  import opened Wrappers
  import opened ChainIDs
  import opened Pointers

  const MAX_LAYER_DEPTH := 125

  /** roLayer. `refs` are the identities of the outstanding referencedCacheLayer objects. */
  datatype Layer = Layer(
    diff: DiffID, parent: Option<ChainID>, cacheID: string, size: int, descriptor: string,
    refCount: nat, refs: set<nat>)

  /** mountedLayer. */
  datatype Mount = Mount(mountID: string, initID: string, parent: Option<ChainID>, refs: set<nat>)

  /** What storeLayer and saveMount persist. */
  datatype LayerMeta = LayerMeta(diff: DiffID, parent: Option<ChainID>, cacheID: string, size: int, descriptor: string)
  datatype MountMeta = MountMeta(mountID: string, initID: string, parent: Option<ChainID>)

  /** The fields of layerStore, with its metadata store; `next` is the next fresh reference identity. */
  datatype Core = Core(
    layers: map<ChainID, Layer>, mounts: map<string, Mount>,
    layerMeta: map<ChainID, LayerMeta>, mountMeta: map<string, MountMeta>,
    next: nat)

  /** A Layer value handed to a caller, and an RWLayer value. */
  datatype Handle = Handle(id: nat, chain: ChainID)
  datatype MountRef = MountRef(id: nat, name: string)

  /** layer.Metadata, returned for every removed layer. */
  datatype Metadata = Metadata(chain: ChainID, diff: DiffID, size: int, diffSize: int)

  const EmptyCore := Core(map[], map[], map[], map[], 0)

  function StoreLayer(l: Layer): LayerMeta {
    LayerMeta(l.diff, l.parent, l.cacheID, l.size, l.descriptor)
  }

  function StoreMount(m: Mount): MountMeta {
    MountMeta(m.mountID, m.initID, m.parent)
  }

  // ---------------------------------------------------------------- parent chains

  /** The key of a layer is the chain identifier of its parent and its diff. */
  ghost predicate WellKeyed(layers: map<ChainID, Layer>) {
    forall c :: c in layers ==> c == Extend(layers[c].parent, layers[c].diff)
  }

  /** roLayer.depth. */
  function Depth(layers: map<ChainID, Layer>, c: ChainID): nat
    requires WellKeyed(layers) && c in layers
    decreases c
  {
    var p := layers[c].parent;
    1 + if p.Some? && p.value in layers then Depth(layers, p.value) else 0
  }

  /** roLayer.Size: the sizes of the layer and all its ancestors. */
  function ChainSize(layers: map<ChainID, Layer>, c: ChainID): int
    requires WellKeyed(layers) && c in layers
    decreases c
  {
    var p := layers[c].parent;
    layers[c].size + if p.Some? && p.value in layers then ChainSize(layers, p.value) else 0
  }

  // ---------------------------------------------------------------- critical sections

  /** getWithoutLock on a present layer: one more use. */
  function Hold(core: Core, c: ChainID): Core
    requires c in core.layers
  {
    core.(layers := core.layers[c := core.layers[c].(refCount := core.layers[c].refCount + 1)])
  }

  /** getReference: a fresh handle. */
  function Reference(core: Core, c: ChainID): Core
    requires c in core.layers
  {
    core.(layers := core.layers[c := core.layers[c].(refs := core.layers[c].refs + {core.next})],
          next := core.next + 1)
  }

  /** Get: `None` is ErrLayerDoesNotExist. */
  function Get(core: Core, c: ChainID): (Core, Option<Handle>) {
    if c in core.layers then (Reference(Hold(core, c), c), Some(Handle(core.next, c)))
    else (core, None)
  }

  /**
    How releaseLayer ends. The first two are returns; the next three are its panics; the last would
    be a walk to a parent that is no longer in layerMap.
  */
  datatype Outcome = Released | RemovalFailed
    | LayerNotRetained | LayerHasChild | LayerReferenced | ParentMissing
  {
    predicate Normal() { Released? || RemovalFailed? }
  }

  datatype ReleaseResult = ReleaseResult(core: Core, removed: seq<Metadata>, outcome: Outcome)

  /** One use less of `c`; deleting it is the caller's business. */
  function Drop(core: Core, c: ChainID): Core
    requires c in core.layers && core.layers[c].refCount > 0
  {
    core.(layers := core.layers[c := core.layers[c].(refCount := core.layers[c].refCount - 1)])
  }

  function Remove(core: Core, c: ChainID): Core {
    core.(layers := core.layers - {c}, layerMeta := core.layerMeta - {c})
  }

  function MetadataOf(layers: map<ChainID, Layer>, c: ChainID): Metadata
    requires WellKeyed(layers) && c in layers
  {
    Metadata(c, layers[c].diff, ChainSize(layers, c), layers[c].size)
  }

  /** One iteration of releaseLayer's loop: it returns or panics, or goes on with the parent. */
  datatype Iteration = Stop(result: ReleaseResult) | Continue(core: Core, parent: ChainID, removed: seq<Metadata>)

  /**
    The loop body at depth `depth` when `removed` layers have gone already. `failing` are the layers
    whose driver or metadata removal fails.
  */
  function ReleaseStep(core: Core, c: ChainID, removed: seq<Metadata>, depth: nat, failing: set<ChainID>): (r: Iteration)
    requires WellKeyed(core.layers)
    ensures r.Continue? ==> WellKeyed(r.core.layers) && |r.core.layers| < |core.layers|
    ensures r.Stop? ==> WellKeyed(r.result.core.layers)
  {
    if c !in core.layers then Stop(ReleaseResult(core, removed, ParentMissing))
    else if core.layers[c].refCount == 0 then Stop(ReleaseResult(core, removed, LayerNotRetained))
    else
      var dropped := Drop(core, c);
      var l := dropped.layers[c];
      if l.refCount != 0 then Stop(ReleaseResult(dropped, removed, Released))
      else if |removed| == 0 && depth > 0 then Stop(ReleaseResult(dropped, removed, LayerHasChild))
      else if l.refs != {} then Stop(ReleaseResult(dropped, removed, LayerReferenced))
      else if c in failing then Stop(ReleaseResult(dropped, [], RemovalFailed))
      else
        var gone := Remove(dropped, c);
        var removed' := removed + [MetadataOf(dropped.layers, c)];
        assert gone.layers.Keys == core.layers.Keys - {c};
        if l.parent.None? then Stop(ReleaseResult(gone, removed', Released))
        else Continue(gone, l.parent.value, removed')
  }

  function ReleaseFrom(core: Core, c: ChainID, removed: seq<Metadata>, depth: nat, failing: set<ChainID>): (r: ReleaseResult)
    requires WellKeyed(core.layers)
    ensures WellKeyed(r.core.layers)
    decreases |core.layers|
  {
    match ReleaseStep(core, c, removed, depth, failing)
    case Stop(r) => r
    case Continue(core', p, removed') => ReleaseFrom(core', p, removed', depth + 1, failing)
  }

  function ReleaseLayer(core: Core, c: ChainID, failing: set<ChainID>): ReleaseResult
    requires WellKeyed(core.layers)
  {
    ReleaseFrom(core, c, [], 0, failing)
  }

  /** deleteReference. */
  function Dereference(core: Core, h: Handle): Core
    requires h.chain in core.layers
  {
    core.(layers := core.layers[h.chain := core.layers[h.chain].(refs := core.layers[h.chain].refs - {h.id})])
  }

  predicate Retains(core: Core, h: Handle) {
    h.chain in core.layers && h.id in core.layers[h.chain].refs
  }

  datatype ReleaseError = NoError | NotRetained | StorageError | Panicked

  function ErrorOf(o: Outcome): ReleaseError {
    if o.Released? then NoError else if o.RemovalFailed? then StorageError else Panicked
  }

  /** Release, for any handle value a caller may present. */
  function Release(core: Core, h: Handle, failing: set<ChainID>): (r: (Core, seq<Metadata>, ReleaseError))
    requires WellKeyed(core.layers)
    ensures WellKeyed(r.0.layers)
  {
    if h.chain !in core.layers then (core, [], NoError)
    else if h.id !in core.layers[h.chain].refs then (core, [], NotRetained)
    else
      var r := ReleaseLayer(Dereference(core, h), h.chain, failing);
      (r.core, r.removed, ErrorOf(r.outcome))
  }

  /** What a registration ends with while it holds the lock. */
  datatype Registered = New(handle: Handle) | Existing(handle: Handle) | CommitFailed

  /**
    The locked part of registerWithDescriptor and RegisterByGraphID: an existing layer is shared
    (and the registration's own work is to be undone), otherwise the transaction is committed and
    the new layer takes over the hold on its parent.
  */
  function Commit(core: Core, parent: Option<ChainID>, diff: DiffID, size: int, cacheID: string,
                  descriptor: string, commitOK: bool): (Core, Registered)
  {
    var c := Extend(parent, diff);
    if c in core.layers then (Get(core, c).0, Existing(Handle(core.next, c)))
    else if !commitOK then (core, CommitFailed)
    else
      var l := Layer(diff, parent, cacheID, size, descriptor, 1, {});
      var added := core.(layers := core.layers[c := l], layerMeta := core.layerMeta[c := StoreLayer(l)]);
      (Reference(added, c), New(Handle(core.next, c)))
  }

  /** Which write of saveMount fails, if any. */
  datatype SaveFault = NoFault | AtMountID | AtInitID | AtParent

  /** The metadata writes of saveMount, one field after the other, and whether all succeeded. */
  function SaveMountMeta(meta: map<string, MountMeta>, name: string, m: Mount, fault: SaveFault): (map<string, MountMeta>, bool) {
    var before := if name in meta then meta[name] else MountMeta("", "", None);
    if fault.AtMountID? then (meta, false)
    else
      var withID := before.(mountID := m.mountID);
      if m.initID != "" && fault.AtInitID? then (meta[name := withID], false)
      else
        var withInit := if m.initID != "" then withID.(initID := m.initID) else withID;
        if m.parent.Some? && fault.AtParent? then (meta[name := withInit], false)
        else (meta[name := if m.parent.Some? then withInit.(parent := m.parent) else withInit], true)
  }

  /** saveMount of a new mount followed by getReference. */
  function SaveMount(core: Core, name: string, mountID: string, initID: string, parent: Option<ChainID>, fault: SaveFault): (Core, Option<MountRef>) {
    var (meta, ok) := SaveMountMeta(core.mountMeta, name, Mount(mountID, initID, parent, {}), fault);
    if !ok then (core.(mountMeta := meta), None)
    else (core.(mounts := core.mounts[name := Mount(mountID, initID, parent, {core.next})], mountMeta := meta, next := core.next + 1),
          Some(MountRef(core.next, name)))
  }

  /** GetRWLayer: `None` is ErrMountDoesNotExist. */
  function GetMount(core: Core, name: string): (Core, Option<MountRef>) {
    if name in core.mounts then
      (core.(mounts := core.mounts[name := core.mounts[name].(refs := core.mounts[name].refs + {core.next})], next := core.next + 1),
       Some(MountRef(core.next, name)))
    else (core, None)
  }

  /** What ReleaseRWLayer has done when it comes to the parent layer. */
  datatype MountRelease = NoSuchMount | MountNotRetained | StillMounted | MountRemovalFailed | Unmounted(parent: Option<ChainID>)

  /** ReleaseRWLayer up to the deletion of the mount; a failing removal takes the reference back. */
  function ReleaseMount(core: Core, ref: MountRef, removalOK: bool): (Core, MountRelease) {
    if ref.name !in core.mounts then (core, NoSuchMount)
    else
      var m := core.mounts[ref.name];
      if ref.id !in m.refs then (core, MountNotRetained)
      else if m.refs - {ref.id} != {} then
        (core.(mounts := core.mounts[ref.name := m.(refs := m.refs - {ref.id})]), StillMounted)
      else if !removalOK then (core, MountRemovalFailed)
      else (core.(mounts := core.mounts - {ref.name}, mountMeta := core.mountMeta - {ref.name}), Unmounted(m.parent))
  }

  // ---------------------------------------------------------------- the invariant

  function LayerParents(layers: map<ChainID, Layer>): map<ChainID, Option<ChainID>> {
    map c | c in layers :: layers[c].parent
  }

  function MountParents(mounts: map<string, Mount>): map<string, Option<ChainID>> {
    map n | n in mounts :: mounts[n].parent
  }

  /** Everything that relies on layer `c`: handles, child layers, mounts and operations in flight. */
  ghost function Uses(core: Core, holds: map<nat, Option<ChainID>>, c: ChainID): nat
    requires c in core.layers
  {
    |core.layers[c].refs| + |Pointing(LayerParents(core.layers), c)|
    + |Pointing(MountParents(core.mounts), c)| + |Pointing(holds, c)|
  }

  ghost predicate Present(core: Core, o: Option<ChainID>) {
    o.Some? ==> o.value in core.layers
  }

  /** Nothing points outside the store. */
  ghost predicate Closed(core: Core, holds: map<nat, Option<ChainID>>) {
    && Within(LayerParents(core.layers), core.layers.Keys)
    && Within(MountParents(core.mounts), core.layers.Keys)
    && Within(holds, core.layers.Keys)
  }

  /** Reference identities are never reused. */
  ghost predicate Fresh(core: Core) {
    && (forall c, i :: c in core.layers && i in core.layers[c].refs ==> i < core.next)
    && (forall n, i :: n in core.mounts && i in core.mounts[n].refs ==> i < core.next)
  }

  /**
    The metadata store mirrors layerMap, and every mount up to a stale init identifier. Counting does
    not depend on this; a restart that finds everything does.
  */
  ghost predicate Mirrored(core: Core) {
    && core.layerMeta.Keys == core.layers.Keys
    && (forall c :: c in core.layers ==> core.layerMeta[c] == StoreLayer(core.layers[c]))
    && core.mounts.Keys <= core.mountMeta.Keys
    && (forall n :: n in core.mountMeta ==>
          core.mountMeta[n].parent == if n in core.mounts then core.mounts[n].parent else None)
    && (forall n :: n in core.mounts ==> core.mountMeta[n].mountID == core.mounts[n].mountID)
  }

  /** Every reference count is the number of uses; one more on `owed`, which is about to be released. */
  ghost predicate Counted(core: Core, holds: map<nat, Option<ChainID>>, owed: Option<ChainID>) {
    forall c :: c in core.layers ==> core.layers[c].refCount == Uses(core, holds, c) + At(owed, c)
  }

  ghost predicate InvOwing(core: Core, holds: map<nat, Option<ChainID>>, owed: Option<ChainID>) {
    && WellKeyed(core.layers)
    && Closed(core, holds)
    && Present(core, owed)
    && Fresh(core)
    && Counted(core, holds, owed)
  }

  ghost predicate Inv(core: Core, holds: map<nat, Option<ChainID>>) {
    InvOwing(core, holds, None)
  }
}
