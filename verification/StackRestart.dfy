/**
  Restarting both stores: the layer store is rebuilt from its metadata, then restore of
  image/store.go rebuilds the images from the backend. `Restores(img, {}, rebuilt)` says what it
  makes of them, and `LayersPresent` whether it succeeds at all.
*/
module StackRestart {
  import opened Wrappers
  import opened ChainIDs
  import opened LayerModel
  import opened LayerRuns
  import opened LayerMetadata
  import opened LayerRestart
  import opened ImageModel
  import opened ImageStores
  import opened StorageStack
  import opened StackBackend

  /** The layer store after a restart. */
  ghost function LayersAfter(s: Stack): Core
    requires StackInv(s) && Mirrored(s.sys.core)
  {
    SysParts(s.sys);
    RestartRestores(s.sys.core, Holdings(s.sys.ops));
    Restarted(s.sys.core.layerMeta, s.sys.core.mountMeta, {}, {})
  }

  lemma LayersAfterAreTheSame(s: Stack)
    requires StackInv(s) && Mirrored(s.sys.core)
    ensures Inv(LayersAfter(s), map[]) && Mirrored(LayersAfter(s)) && LayersAfter(s).layers.Keys == s.sys.core.layers.Keys
  {
    hide Inv;
    hide Restarted;
    hide MetaKeyed;
    hide SameMounts;
    SysParts(s.sys);
    RestartRestores(s.sys.core, Holdings(s.sys.ops));
  }

  /** No image misses its top layer. */
  lemma ImagesHaveLayers(img: Images, core: Core, i: ID)
    requires Owning(img, core) && i in img.images
    ensures LayerPresent(img.images[i].config, core.layers.Keys)
  {
    assert Owns(core, img.images[i].layer, TopLayer(img.images[i].config));
  }

  /**
    In any state of any run, restore succeeds after a restart exactly if every configuration that
    the backend holds without an image finds its top layer.
  */
  lemma RestoreSucceedsExactly(s: Stack)
    requires StackInv(s) && Mirrored(s.sys.core)
    ensures LayersPresent(s.img.contents, {}, LayersAfter(s)) <==>
              forall i :: i in s.img.contents && i !in s.img.images ==> LayerPresent(s.img.contents[i], s.sys.core.layers.Keys)
  {
    hide SysInv;
    hide Covered;
    hide Owning;
    hide LayerPresent;
    hide LayersAfter;
    LayersAfterAreTheSame(s);
    AddressedAgrees(s);
    forall i | i in s.img.images ensures LayerPresent(s.img.images[i].config, s.sys.core.layers.Keys) {
      ImagesHaveLayers(s.img, s.sys.core, i);
    }
  }

  /**
    In any state of any run: restarting both stores succeeds with the same images if and only if the
    backend holds exactly the configurations of the images, and brings back the same children if and
    only if moreover the index is in step with the metadata.
  */
  lemma StackRestartExactly(s: Stack, rebuilt: Images)
    requires StackInv(s) && Mirrored(s.sys.core) && Restores(s.img, {}, rebuilt)
    ensures LayersPresent(s.img.contents, {}, LayersAfter(s)) && SameImages(rebuilt, s.img) <==>
              s.img.contents.Keys == s.img.images.Keys
    ensures LayersPresent(s.img.contents, {}, LayersAfter(s)) && SameImages(rebuilt, s.img) && SameChildren(rebuilt, s.img) <==>
              s.img.contents.Keys == s.img.images.Keys && Indexed(s.img)
  {
    hide SysInv;
    hide Owning;
    hide Covered;
    hide Indexed;
    hide Restores;
    hide SameImages;
    hide SameChildren;
    hide LayersAfter;
    hide LayersPresent;
    AddressedAgrees(s);
    RestoreRebuildsIndex(s.img, rebuilt);
    RestoreSucceedsExactly(s);
  }

  /**
    The restarted stores, with the handles that restore took, are a stack that further runs may start
    from if and only if every persisted parent has its configuration, and then the index is in step.
  */
  lemma RestartedStackRunsExactly(s: Stack, rebuilt: Images, core: Core)
    requires StackInv(s) && Restores(s.img, {}, rebuilt) && Owning(rebuilt, core) && Inv(core, map[])
    ensures var s' := Stack(rebuilt, Sys(core, map[], None, false), map[]);
            && (StackInv(s') <==> forall c :: c in s.img.parents ==> s.img.parents[c] in s.img.contents)
            && (StackInv(s') ==> Indexed(rebuilt) && Backed(s'))
  {
    hide Inv;
    hide Owning;
    var s' := Stack(rebuilt, Sys(core, map[], None, false), map[]);
    assert Holdings(map[]) == map[];
    assert s.img.contents.Keys - {} == s.img.contents.Keys;
    forall p | p in rebuilt.images ensures rebuilt.images[p].children == ChildrenOf(rebuilt.parents, p) {
      assert StoredChildren(rebuilt.images.Keys, s.img.parents, p) == ChildrenOf(s.img.parents, p);
    }
  }

  // ---------------------------------------------------------------- runs

  /** Image operations keep the metadata of the layer store in step with it, as layer operations do. */
  lemma StackNextKeepsMetadata(s: Stack, e: StackEvent)
    requires StackInv(s)
    ensures KeepsMetadata(s.sys.core, StackNext(s, e).sys.core)
  {
    hide KeepsMetadata;
    hide SysInv;
    hide WellKeyed;
    hide Next;
    hide Owning;
    hide Covered;
    hide Claims;
    hide Addressed;
    hide Release;
    hide Get;
    InvGivesKeys(s.sys);
    NothingKeepsMetadata(s.sys.core);
    if Allowed(s, e) {
      match e
      case OfLayers(l) => NextKeepsMetadata(s.sys, l);
      case StoreImage(_, _, _, _) =>
      case CommitImage(t, _) =>
        if t in s.pending && s.pending[t].config.top.Some? { GetKeepsMetadata(s.sys.core, s.pending[t].config.top.value); }
      case LinkParent(_, _) =>
      case DeleteImage(id, failing) =>
        if id in s.img.images && s.img.images[id].layer.Some? { ReleaseKeepsMetadata(s.sys.core, s.img.images[id].layer.value, failing); }
    }
  }

  /** In every run the layer store can be restarted in full. */
  lemma {:induction false} RunIsMirrored(s: Stack, events: seq<StackEvent>)
    requires StackInv(s) && Mirrored(s.sys.core)
    ensures Mirrored(StackRun(s, events).sys.core)
    decreases |events|
  {
    hide StackInv;
    hide StackNext;
    hide Mirrored;
    if events != [] {
      var n := |events| - 1;
      RunIsMirrored(s, events[..n]);
      StackNextKeepsMetadata(StackRun(s, events[..n]), events[n]);
    }
  }

  lemma EmptyIsMirrored()
    ensures Mirrored(EmptyStack.sys.core)
  {
    StartIsMirrored();
  }

  /** No image is deleted while a creation of it is pending, and no creation fails after its configuration was stored. */
  ghost predicate TidyEvent(s: Stack, e: StackEvent) {
    && OrderlyEvent(s, e)
    && (e.CommitImage? && e.t in s.pending ==>
          || s.pending[e.t].id in s.img.images
          || (LayerPresent(s.pending[e.t].config, s.sys.core.layers.Keys) && e.addOK))
  }

  ghost predicate Tidy(s: Stack, events: seq<StackEvent>)
    requires StackInv(s)
  {
    forall n :: 0 <= n < |events| ==> TidyEvent(StackRun(s, events[..n]), events[n])
  }

  /** Every configuration in the backend belongs to an image or to a pending creation. */
  ghost predicate Accounted(s: Stack) {
    forall i :: i in s.img.contents && i !in s.img.images ==> exists t :: t in s.pending && s.pending[t].id == i
  }

  lemma NextKeepsAccounted(s: Stack, e: StackEvent)
    requires StackInv(s) && Accounted(s) && TidyEvent(s, e)
    ensures Accounted(StackNext(s, e))
  {
    hide SysInv;
    hide WellKeyed;
    hide Then;
    hide Owning;
    hide Covered;
    hide Claims;
    hide Release;
    hide TopLayer;
    InvGivesKeys(s.sys);
    var s' := StackNext(s, e);
    forall i | i in s'.img.contents && i !in s'.img.images ensures exists t :: t in s'.pending && s'.pending[t].id == i {
      if Stores(s, e) && Allowed(s, e) && e.id == i {
        assert s'.pending[e.t].id == i;
      } else {
        var t :| t in s.pending && s.pending[t].id == i;
        assert t in s'.pending;
      }
    }
  }

  lemma {:induction false} TidyRunIsAccounted(events: seq<StackEvent>)
    requires StackInv(EmptyStack) && Tidy(EmptyStack, events)
    ensures Orderly(EmptyStack, events) && Accounted(StackRun(EmptyStack, events))
    decreases |events|
  {
    hide StackInv;
    hide StackNext;
    hide TidyEvent;
    forall n | 0 <= n < |events| ensures OrderlyEvent(StackRun(EmptyStack, events[..n]), events[n]) {
      TidyIsOrderly(StackRun(EmptyStack, events[..n]), events[n]);
    }
    if events != [] {
      var n := |events| - 1;
      var before := events[..n];
      forall k | 0 <= k < n ensures TidyEvent(StackRun(EmptyStack, before[..k]), before[k]) { assert before[..k] == events[..k]; }
      TidyRunIsAccounted(before);
      NextKeepsAccounted(StackRun(EmptyStack, before), events[n]);
    }
  }

  lemma TidyIsOrderly(s: Stack, e: StackEvent)
    requires TidyEvent(s, e)
    ensures OrderlyEvent(s, e)
  {}

  /**
    Restart round trip of both stores: after any run in which no image is deleted while a creation
    of it is pending, every creation finds its layer, and none is pending at the end, the restart
    brings back the same images with the same children, in a stack that further runs may start from.
  */
  lemma StackRestartRoundTrip(events: seq<StackEvent>, rebuilt: Images)
    requires StackInv(EmptyStack) && Tidy(EmptyStack, events)
    requires StackRun(EmptyStack, events).pending == map[] && Restores(StackRun(EmptyStack, events).img, {}, rebuilt)
    ensures var s := StackRun(EmptyStack, events);
            && Mirrored(s.sys.core) && LayersPresent(s.img.contents, {}, LayersAfter(s))
            && SameImages(rebuilt, s.img) && SameChildren(rebuilt, s.img)
            && (forall core :: Inv(core, map[]) && Owning(rebuilt, core) ==> StackInv(Stack(rebuilt, Sys(core, map[], None, false), map[])))
  {
    hide StackInv;
    hide StackRun;
    hide Tidy;
    hide Orderly;
    hide Restores;
    hide Indexed;
    hide LayersAfter;
    hide LayersPresent;
    hide Mirrored;
    hide Owning;
    hide Inv;
    TidyRunIsAccounted(events);
    OrderlyRunKeepsBackend(events);
    var s := StackRun(EmptyStack, events);
    assert s.img.contents.Keys == s.img.images.Keys;
    EmptyIsMirrored();
    RunIsMirrored(EmptyStack, events);
    StackRestartExactly(s, rebuilt);
    StoredParents(s);
    forall core | Inv(core, map[]) && Owning(rebuilt, core) ensures StackInv(Stack(rebuilt, Sys(core, map[], None, false), map[])) {
      RestartedStackRunsExactly(s, rebuilt, core);
    }
  }

  lemma StoredParents(s: Stack)
    requires StackInv(s)
    ensures forall c :: c in s.img.parents ==> s.img.parents[c] in s.img.images
  {}

  /**
    Why every creation has to find its layer: Create of a configuration whose top layer is not
    stored fails, but leaves the configuration behind, and the next restart fails because of it.
  */
  lemma MissingLayerBlocksRestart(diff: DiffID, id: ID)
    ensures StackInv(EmptyStack)
    ensures var s := StackRun(EmptyStack, [StoreImage(0, Some(Config([diff], Some(Base(diff)), 1)), id, true), CommitImage(0, true)]);
            && id !in s.img.images && id in s.img.contents && s.pending == map[]
            && Mirrored(s.sys.core) && !LayersPresent(s.img.contents, {}, LayersAfter(s))
  {
    hide StackInv;
    hide StackRun;
    hide LayersAfter;
    hide LayersPresent;
    EmptyStackInv();
    var config := Config([diff], Some(Base(diff)), 1);
    NobodyClaims(id, config);
    CreateIsARun(EmptyStack, 0, Some(config), id, true, true);
    var s := StackRun(EmptyStack, [StoreImage(0, Some(config), id, true), CommitImage(0, true)]);
    assert TopLayer(config).Some? && TopLayer(config).value !in EmptyCore.layers;
    EmptyIsMirrored();
    RunIsMirrored(EmptyStack, [StoreImage(0, Some(config), id, true), CommitImage(0, true)]);
    RestoreSucceedsExactly(s);
    assert s.img.contents[id] == config && !LayerPresent(config, s.sys.core.layers.Keys);
  }

  lemma NobodyClaims(id: ID, config: Config)
    ensures Allowed(EmptyStack, StoreImage(0, Some(config), id, true))
  {}
}
