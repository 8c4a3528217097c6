/**
  The image store on top of the layer store, in every interleaving of image operations with each
  other and with the critical sections of other callers of the layer store.

  Create writes the configuration to the backend before it takes the lock of the image store, so it
  is two events, with `pending` creations between them. SetParent and Delete run under the lock;
  nothing that can run beside them reads what they have only half changed.
*/
module StorageStack {
  import opened Wrappers
  import opened ChainIDs
  import opened LayerModel
  import opened LayerRuns
  import opened LayerReachability
  import opened ImageModel
  import opened ImageStores

  /** A Create that has stored its configuration and waits for the lock. */
  datatype Creation = Creation(id: ID, config: Config)

  datatype Stack = Stack(img: Images, sys: Sys, pending: map<nat, Creation>)

  datatype StackEvent =
    | OfLayers(e: Event)
    | StoreImage(t: nat, config: Option<Config>, id: ID, setOK: bool)
    | CommitImage(t: nat, addOK: bool)
    | LinkParent(id: ID, parent: ID)
    | DeleteImage(id: ID, failing: set<ChainID>)

  const EmptyStack := Stack(Images(map[], map[], map[]), Start, map[])

  /** `config` is what somebody means by `id`: the backend, an image or a pending creation. */
  ghost predicate Claims(s: Stack, id: ID, config: Config) {
    || (id in s.img.contents && s.img.contents[id] == config)
    || (id in s.img.images && s.img.images[id].config == config)
    || (exists t :: t in s.pending && s.pending[t] == Creation(id, config))
  }

  /** An identifier stands for one configuration, as a digest does. */
  ghost predicate Addressed(s: Stack) {
    forall id, c, d :: Claims(s, id, c) && Claims(s, id, d) ==> c == d
  }

  /** What every interleaving keeps. */
  ghost predicate StackInv(s: Stack) {
    SysInv(s.sys) && Owning(s.img, s.sys.core) && Covered(s.img) && Addressed(s)
  }

  /**
    What callers respect: nobody releases the handle of an image but the image store, an identifier
    is the digest of its configuration, and parents are set on stored images.
  */
  ghost predicate Allowed(s: Stack, e: StackEvent) {
    match e
    case OfLayers(ReleaseHandle(h, _)) => forall i :: i in s.img.images ==> s.img.images[i].layer != Some(h)
    case OfLayers(_) => true
    case StoreImage(_, config, id, _) => config.Some? ==> forall c :: Claims(s, id, c) ==> c == config.value
    case CommitImage(_, _) => true
    case LinkParent(id, _) => id in s.img.images
    case DeleteImage(_, _) => true
  }

  /** The configuration is stored and the creation goes on. */
  predicate Stores(s: Stack, e: StackEvent) {
    e.StoreImage? && e.t !in s.pending && Refusal(e.config, e.setOK).None?
  }

  /** One event; an event that is not enabled, or that callers must not cause, changes nothing. */
  ghost function StackNext(s: Stack, e: StackEvent): Stack
    requires StackInv(s)
  {
    InvGivesKeys(s.sys);
    if !Allowed(s, e) then s
    else match e
    case OfLayers(l) => s.(sys := Then(s.sys, l))
    case StoreImage(t, config, id, setOK) =>
      if !Stores(s, e) then s
      else Stack(CreateStore(s.img, config.value, id), s.sys, s.pending[t := Creation(id, config.value)])
    case CommitImage(t, addOK) =>
      if t !in s.pending then s
      else
        var (img', core', _) := CreateCommit(s.img, s.sys.core, s.pending[t].config, s.pending[t].id, addOK);
        Stack(img', s.sys.(core := core'), s.pending - {t})
    case LinkParent(id, parent) => s.(img := SetParent(s.img, id, parent, true).0)
    case DeleteImage(id, failing) =>
      var (img', core', _) := Delete(s.img, s.sys.core, id, failing);
      Stack(img', s.sys.(core := core'), s.pending)
  }

  // ---------------------------------------------------------------- every event keeps the invariant

  lemma LayerEventKeepsStack(s: Stack, l: Event)
    requires StackInv(s) && Allowed(s, OfLayers(l))
    ensures StackInv(StackNext(s, OfLayers(l)))
  {
    hide SysInv;
    hide Covered;
    InvGivesKeys(s.sys);
    FewerClaims(s, StackNext(s, OfLayers(l)));
    forall i | i in s.img.images ensures Owns(Then(s.sys, l).core, s.img.images[i].layer, TopLayer(s.img.images[i].config)) {
      hide Next;
      assert Owns(s.sys.core, s.img.images[i].layer, TopLayer(s.img.images[i].config));
      if s.img.images[i].layer.Some? { HandleStays(s.sys, l, s.img.images[i].layer.value); }
    }
  }

  /** Replacing the layers under the operations in flight. */
  lemma SwapCore(s: Sys, core': Core)
    requires SysInv(s) && Inv(core', Holdings(s.ops)) && core'.mounts == s.core.mounts
    ensures SysInv(s.(core := core'))
  {
    hide Inv;
  }

  lemma SysParts(s: Sys)
    requires SysInv(s)
    ensures Inv(s.core, Holdings(s.ops)) && WellKeyed(s.core.layers)
  {}

  /** Whoever loses claims loses no agreement. */
  lemma FewerClaims(s: Stack, s': Stack)
    requires Addressed(s)
    requires forall i :: i in s'.img.contents ==> i in s.img.contents && s'.img.contents[i] == s.img.contents[i]
    requires forall i :: i in s'.img.images ==> Claims(s, i, s'.img.images[i].config)
    requires forall t :: t in s'.pending ==> t in s.pending && s'.pending[t] == s.pending[t]
    ensures Addressed(s')
  {
    forall id, c | Claims(s', id, c) ensures Claims(s, id, c) {}
  }

  lemma StoreKeepsStack(s: Stack, e: StackEvent)
    requires StackInv(s) && Allowed(s, e) && Stores(s, e)
    ensures StackInv(StackNext(s, e))
  {
    hide SysInv;
    hide Owning;
    hide Covered;
    var s' := StackNext(s, e);
    CreateStoreKeepsIndex(s.img, e.config.value, e.id);
    StoreKeepsOwning(s.img, s.sys.core, e.config.value, e.id);
    forall id, c | Claims(s', id, c) ensures Claims(s, id, c) || (id == e.id && c == e.config.value) {}
  }

  lemma StoreKeepsOwning(img: Images, core: Core, config: Config, id: ID)
    requires Owning(img, core)
    ensures Owning(CreateStore(img, config, id), core)
  {}

  lemma CommitKeepsStack(s: Stack, t: nat, addOK: bool)
    requires StackInv(s) && t in s.pending
    ensures StackInv(StackNext(s, CommitImage(t, addOK)))
  {
    hide SysInv;
    hide Inv;
    hide Owning;
    hide Covered;
    hide Addressed;
    hide Claims;
    SysParts(s.sys);
    var p := s.pending[t];
    CreateCommitKeepsOwning(s.img, s.sys.core, Holdings(s.sys.ops), p.config, p.id, addOK);
    CreateCommitKeepsIndex(s.img, s.sys.core, p.config, p.id, addOK);
    SwapCore(s.sys, CreateCommit(s.img, s.sys.core, p.config, p.id, addOK).1);
    EverythingClaims(s);
    FewerClaims(s, StackNext(s, CommitImage(t, addOK)));
  }

  lemma EverythingClaims(s: Stack)
    ensures forall i :: i in s.img.images ==> Claims(s, i, s.img.images[i].config)
    ensures forall t :: t in s.pending ==> Claims(s, s.pending[t].id, s.pending[t].config)
  {}

  lemma LinkKeepsStack(s: Stack, id: ID, parent: ID)
    requires StackInv(s) && id in s.img.images
    ensures StackInv(StackNext(s, LinkParent(id, parent)))
  {
    hide SysInv;
    hide Owning;
    hide Covered;
    hide Addressed;
    hide Claims;
    SetParentKeepsCovered(s.img, id, parent);
    SetParentKeepsOwning(s.img, s.sys.core, id, parent, true);
    EverythingClaims(s);
    FewerClaims(s, StackNext(s, LinkParent(id, parent)));
  }

  lemma DeleteKeepsStack(s: Stack, id: ID, failing: set<ChainID>)
    requires StackInv(s)
    ensures StackInv(StackNext(s, DeleteImage(id, failing)))
  {
    hide SysInv;
    hide Inv;
    hide WellKeyed;
    hide Owning;
    hide Covered;
    hide Addressed;
    hide Claims;
    hide Release;
    SysParts(s.sys);
    var holds := Holdings(s.sys.ops);
    DeleteKeepsOwning(s.img, s.sys.core, holds, id, failing);
    DeleteKeepsCovered(s.img, s.sys.core, id, failing);
    if id in s.img.images && s.img.images[id].layer.Some? {
      ReleaseHandleKeepsInv(s.sys.core, holds, s.img.images[id].layer.value, failing);
    }
    SwapCore(s.sys, Delete(s.img, s.sys.core, id, failing).1);
    EverythingClaims(s);
    FewerClaims(s, StackNext(s, DeleteImage(id, failing)));
  }

  lemma StackNextKeepsInv(s: Stack, e: StackEvent)
    requires StackInv(s)
    ensures StackInv(StackNext(s, e))
  {
    hide SysInv;
    hide Owning;
    hide Covered;
    hide Addressed;
    if Allowed(s, e) {
      match e
      case OfLayers(l) => LayerEventKeepsStack(s, l);
      case StoreImage(_, _, _, _) => if Stores(s, e) { StoreKeepsStack(s, e); }
      case CommitImage(t, addOK) => if t in s.pending { CommitKeepsStack(s, t, addOK); }
      case LinkParent(id, parent) => LinkKeepsStack(s, id, parent);
      case DeleteImage(id, failing) => DeleteKeepsStack(s, id, failing);
    }
  }

  // ---------------------------------------------------------------- runs

  /** The state after a sequence of events. */
  ghost function StackRun(s: Stack, events: seq<StackEvent>): (r: Stack)
    requires StackInv(s)
    ensures StackInv(r)
    decreases |events|
  {
    if events == [] then s
    else
      var n := |events| - 1;
      var before := StackRun(s, events[..n]);
      StackNextKeepsInv(before, events[n]);
      StackNext(before, events[n])
  }

  lemma EmptyStackInv()
    ensures StackInv(EmptyStack)
  {
    StartInv();
  }

  lemma RunTwo(s: Stack, e0: StackEvent, e1: StackEvent)
    requires StackInv(s)
    ensures StackInv(StackNext(s, e0)) && StackRun(s, [e0, e1]) == StackNext(StackNext(s, e0), e1)
  {
    hide StackInv;
    hide StackNext;
    StackNextKeepsInv(s, e0);
    assert [e0, e1][..1] == [e0] && [e0][..0] == [];
    assert StackRun(s, []) == s;
    assert StackRun(s, [e0]) == StackNext(s, e0);
  }

  /** A Create without interference is the run of its two events. */
  lemma CreateIsARun(s: Stack, t: nat, config: Option<Config>, id: ID, setOK: bool, addOK: bool)
    requires StackInv(s) && t !in s.pending && Allowed(s, StoreImage(t, config, id, setOK))
    ensures var (img', core', _) := Create(s.img, s.sys.core, config, id, setOK, addOK);
            StackRun(s, [StoreImage(t, config, id, setOK), CommitImage(t, addOK)]) == Stack(img', s.sys.(core := core'), s.pending)
  {
    hide StackInv;
    hide CreateCommit;
    hide Claims;
    RunTwo(s, StoreImage(t, config, id, setOK), CommitImage(t, addOK));
    var s1 := StackNext(s, StoreImage(t, config, id, setOK));
    if t in s1.pending { assert s1.pending - {t} == s.pending; }
  }

  /**
    In every run of the two stores, whatever interleaves: every image with layers owns a handle of
    its own, all layers of all images are in the layer store, the backend never has a wrong
    configuration of an image, and every persisted parent is a stored image that has the child.
  */
  lemma EveryImageKeepsItsLayers(events: seq<StackEvent>)
    ensures StackInv(EmptyStack)
    ensures var s := StackRun(EmptyStack, events);
            && (forall i, a :: i in s.img.images && s.img.images[i].config.top.Some? && AncestorOrSelf(a, s.img.images[i].config.top.value) ==>
                  a in s.sys.core.layers)
            && (forall i :: i in s.img.images && s.img.images[i].config.top.Some? ==>
                  && s.img.images[i].layer.Some? && s.img.images[i].layer.value.chain == s.img.images[i].config.top.value
                  && Retains(s.sys.core, s.img.images[i].layer.value))
            && (forall i, j :: i in s.img.images && j in s.img.images && i != j && s.img.images[i].layer.Some? ==>
                  s.img.images[i].layer != s.img.images[j].layer)
            && Agreed(s.img)
            && (forall c :: c in s.img.parents ==>
                  c in s.img.images && s.img.parents[c] in s.img.images && c in s.img.images[s.img.parents[c]].children)
  {
    EmptyStackInv();
    var s := StackRun(EmptyStack, events);
    hide Inv;
    hide StackRun;
    forall i | i in s.img.images && s.img.images[i].config.top.Some?
      ensures s.img.images[i].layer.Some? && s.img.images[i].layer.value.chain == s.img.images[i].config.top.value
      ensures Retains(s.sys.core, s.img.images[i].layer.value)
      ensures forall a :: AncestorOrSelf(a, s.img.images[i].config.top.value) ==> a in s.sys.core.layers
    {
      ImageHasItsLayers(s.img, s.sys.core, Holdings(s.sys.ops), i);
    }
    AddressedAgrees(s);
    forall c | c in s.img.parents ensures c in s.img.images[s.img.parents[c]].children {
      assert c in ChildrenOf(s.img.parents, s.img.parents[c]);
    }
  }

  lemma AddressedAgrees(s: Stack)
    requires Addressed(s)
    ensures Agreed(s.img)
  {
    forall i | i in s.img.images && i in s.img.contents ensures s.img.contents[i] == s.img.images[i].config {
      assert Claims(s, i, s.img.contents[i]) && Claims(s, i, s.img.images[i].config);
    }
  }
}
