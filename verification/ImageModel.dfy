/**
  The image store (image/store.go) as a value, composed with the layer store it takes its layer
  handles from: the in-memory index `images`, and the backend's image configurations and persisted
  parent metadata.
*/
module ImageModel {
  import opened Wrappers
  import opened ChainIDs
  import opened LayerModel
  import opened LayerInvariant
  import opened LayerRuns
  import opened LayerReachability

  type ID = string

  /**
    The part of an image configuration the store looks at: its diff list, which may be any list of
    strings, and `top`, the chain of layers that the ChainID string of this list stands for (`None`
    for the empty string). ImageNames says how the two are related.
  */
  datatype Config = Config(diffIDs: seq<DiffID>, top: Option<ChainID>, nonEmptyHistory: nat)

  /**
    imageMeta, with the configuration the image was created from. The store does not keep it in
    memory; it is here because the backend may lose it while the image is still there.
  */
  datatype ImageMeta = ImageMeta(config: Config, layer: Option<Handle>, children: set<ID>)

  datatype Images = Images(images: map<ID, ImageMeta>, contents: map<ID, Config>, parents: map<ID, ID>)

  /** RootFS.ChainID. */
  function TopLayer(config: Config): Option<ChainID> {
    config.top
  }

  datatype CreateResult = Created | AlreadyExists | Malformed | TooManyLayers | BackendError | LayerMissing | DigestError

  /** Why Create gives up before it stores anything; `config` is `None` when the JSON does not parse. */
  function Refusal(config: Option<Config>, setOK: bool): Option<CreateResult> {
    if config.None? then Some(Malformed)
    else if config.value.nonEmptyHistory > |config.value.diffIDs| then Some(TooManyLayers)
    else if !setOK then Some(BackendError)
    else None
  }

  /** The first part of Create, outside the lock: the backend stores the configuration under its digest `id`. */
  function CreateStore(img: Images, config: Config, id: ID): Images {
    img.(contents := img.contents[id := config])
  }

  /** The rest of Create, under the lock; `addOK` says whether the digest set takes the identifier. */
  function CreateCommit(img: Images, core: Core, config: Config, id: ID, addOK: bool): (Images, Core, CreateResult) {
    if id in img.images then (img, core, AlreadyExists)
    else
      var top := TopLayer(config);
      var (core', layer) := if top.Some? then Get(core, top.value) else (core, None);
      if top.Some? && layer.None? then (img, core', LayerMissing)
      else if !addOK then (img, core', DigestError)
      else (img.(images := img.images[id := ImageMeta(config, layer, {})]), core', Created)
  }

  /** Create without interference. */
  function Create(img: Images, core: Core, config: Option<Config>, id: ID, setOK: bool, addOK: bool): (Images, Core, CreateResult) {
    var refusal := Refusal(config, setOK);
    if refusal.Some? then (img, core, refusal.value)
    else CreateCommit(CreateStore(img, config.value, id), core, config.value, id, addOK)
  }

  /** GetParent: persisted metadata can be read only beside the configuration. */
  function ParentImage(img: Images, id: ID): Option<ID> {
    if id in img.contents && id in img.parents then Some(img.parents[id]) else None
  }

  /** The index without `id` among the children of its persisted parent. */
  function Orphan(images: map<ID, ImageMeta>, parent: Option<ID>, id: ID): map<ID, ImageMeta> {
    if parent.Some? && parent.value in images then
      images[parent.value := images[parent.value].(children := images[parent.value].children - {id})]
    else images
  }

  /** SetParent; the metadata is written if the configuration is there and the backend succeeds (`setOK`). */
  function SetParent(img: Images, id: ID, parent: ID, setOK: bool): (Images, bool) {
    if parent !in img.images then (img, false)
    else
      var orphaned := Orphan(img.images, ParentImage(img, id), id);
      var adopted := orphaned[parent := orphaned[parent].(children := orphaned[parent].children + {id})];
      var written := setOK && id in img.contents;
      (img.(images := adopted, parents := if written then img.parents[id := parent] else img.parents), written)
  }

  /** Delete: the images left, the layers left, the layers removed; `None` for an unrecognized image. */
  function Delete(img: Images, core: Core, id: ID, failing: set<ChainID>): (r: (Images, Core, Option<(seq<Metadata>, ReleaseError)>))
    requires WellKeyed(core.layers)
    ensures WellKeyed(r.1.layers)
    ensures id in img.images ==> r.0.images.Keys == img.images.Keys - {id}
  {
    if id !in img.images then (img, core, None)
    else
      var meta := img.images[id];
      var forgotten := img.(parents := img.parents - meta.children);
      var left := Images(Orphan(img.images, ParentImage(forgotten, id), id) - {id}, img.contents - {id}, forgotten.parents - {id});
      if meta.layer.None? then (left, core, Some(([], NoError)))
      else
        var (core', removed, err) := Release(core, meta.layer.value, failing);
        (left, core', Some((removed, err)))
  }

  // ---------------------------------------------------------------- invariants

  /** Persisted parents link stored images whose configuration is there, and every such link is in the index. */
  ghost predicate Covered(img: Images) {
    && (forall c :: c in img.parents ==> c in img.images && c in img.contents && img.parents[c] in img.images)
    && (forall p :: p in img.images ==> ChildrenOf(img.parents, p) <= img.images[p].children)
  }

  /** The children of an image are the images whose persisted parent it is. */
  ghost predicate Indexed(img: Images) {
    && Covered(img)
    && (forall p :: p in img.images ==> img.images[p].children == ChildrenOf(img.parents, p))
  }

  function ChildrenOf(parents: map<ID, ID>, p: ID): set<ID> {
    set c | c in parents && parents[c] == p
  }

  /** Every image owns one handle on its top layer, and no two images share one. */
  ghost predicate Owning(img: Images, core: Core) {
    && (forall i :: i in img.images ==> Owns(core, img.images[i].layer, TopLayer(img.images[i].config)))
    && (forall i, j :: i in img.images && j in img.images && i != j && img.images[i].layer.Some? && img.images[j].layer.Some? ==>
          img.images[i].layer.value.id != img.images[j].layer.value.id)
  }

  ghost predicate Owns(core: Core, layer: Option<Handle>, top: Option<ChainID>) {
    if top.None? then layer.None?
    else layer.Some? && layer.value.chain == top.value && Retains(core, layer.value)
  }

  ghost predicate ImagesInv(img: Images, core: Core) {
    Indexed(img) && Owning(img, core)
  }

  // ---------------------------------------------------------------- the index

  lemma OrphanIndexed(img: Images, id: ID, p: ID)
    requires Indexed(img) && p in img.images
    ensures var orphaned := Orphan(img.images, ParentImage(img, id), id);
            && orphaned.Keys == img.images.Keys
            && orphaned[p].children == ChildrenOf(img.parents, p) - {id}
            && orphaned[p].layer == img.images[p].layer
  {}

  /** SetParent whose metadata is written keeps index and metadata in step. */
  lemma SetParentKeepsIndex(img: Images, id: ID, parent: ID)
    requires Indexed(img) && id in img.images && id in img.contents
    ensures Indexed(SetParent(img, id, parent, true).0)
    ensures parent in img.images ==> SetParent(img, id, parent, true).0.parents == img.parents[id := parent]
  {
    if parent in img.images {
      var img' := SetParent(img, id, parent, true).0;
      forall p | p in img'.images ensures img'.images[p].children == ChildrenOf(img'.parents, p) {
        OrphanIndexed(img, id, p);
        assert ChildrenOf(img'.parents, p) == if p == parent then ChildrenOf(img.parents, p) - {id} + {id} else ChildrenOf(img.parents, p) - {id};
      }
    }
  }

  /**
    SetParent on a stored image keeps index and metadata in step exactly when it changes nothing,
    or the metadata is written: the configuration is there and the backend succeeds.
  */
  lemma SetParentKeepsIndexExactly(img: Images, id: ID, parent: ID, setOK: bool)
    requires Indexed(img) && id in img.images
    ensures Indexed(SetParent(img, id, parent, setOK).0) <==>
              parent !in img.images || ParentImage(img, id) == Some(parent) || (setOK && id in img.contents)
  {
    var img' := SetParent(img, id, parent, setOK).0;
    if parent in img.images && setOK && id in img.contents {
      SetParentKeepsIndex(img, id, parent);
    } else if parent in img.images {
      assert id in img'.images[parent].children;
      if ParentImage(img, id) == Some(parent) {
        assert id in ChildrenOf(img.parents, parent);
        assert img'.images[parent].children == img.images[parent].children;
        assert img'.images == img.images;
      } else {
        assert id !in ChildrenOf(img'.parents, parent);
      }
    }
  }

  /** Even a SetParent whose image has lost its configuration leaves every persisted link in the index. */
  lemma SetParentKeepsCovered(img: Images, id: ID, parent: ID)
    requires Covered(img) && id in img.images
    ensures Covered(SetParent(img, id, parent, true).0)
  {
    var img' := SetParent(img, id, parent, true).0;
    if parent in img.images {
      forall p | p in img'.images ensures ChildrenOf(img'.parents, p) <= img'.images[p].children {
        assert ChildrenOf(img.parents, p) <= img.images[p].children;
        forall c | c in ChildrenOf(img'.parents, p) ensures c in img'.images[p].children {
          if c != id { assert c in ChildrenOf(img.parents, p); }
        }
      }
    }
  }

  lemma DeleteKeepsCovered(img: Images, core: Core, id: ID, failing: set<ChainID>)
    requires Covered(img) && WellKeyed(core.layers)
    ensures Covered(Delete(img, core, id, failing).0)
  {
    hide Release;
    hide WellKeyed;
    if id in img.images {
      var img' := Delete(img, core, id, failing).0;
      assert ChildrenOf(img.parents, id) <= img.images[id].children;
      forall c | c in img'.parents ensures img'.parents[c] != id { assert c !in ChildrenOf(img.parents, id); }
      forall p | p in img'.images ensures ChildrenOf(img'.parents, p) <= img'.images[p].children {
        assert ChildrenOf(img.parents, p) <= img.images[p].children;
        forall c | c in ChildrenOf(img'.parents, p) ensures c in img'.images[p].children { assert c in ChildrenOf(img.parents, p); }
      }
    }
  }

  /** Delete keeps index and metadata in step; an image created again starts without children. */
  lemma DeleteKeepsIndex(img: Images, core: Core, id: ID, failing: set<ChainID>)
    requires Indexed(img) && WellKeyed(core.layers)
    ensures Indexed(Delete(img, core, id, failing).0)
    ensures id in img.images ==>
              var parents' := Delete(img, core, id, failing).0.parents;
              && parents'.Keys == img.parents.Keys - ChildrenOf(img.parents, id) - {id}
              && (forall c :: c in parents' ==> parents'[c] == img.parents[c])
  {
    hide Release;
    hide WellKeyed;
    hide Covered;
    DeleteKeepsCovered(img, core, id, failing);
    if id in img.images {
      ParentsAreBacked(img);
      var img' := Delete(img, core, id, failing).0;
      forall p | p in img'.images ensures img'.images[p].children == ChildrenOf(img'.parents, p) {
        assert ChildrenOf(img'.parents, p) == ChildrenOf(img.parents, p) - {id};
        assert id in img.parents && img.parents[id] == p ==> id !in ChildrenOf(img.parents, id);
      }
    }
  }

  lemma ParentsAreBacked(img: Images)
    requires Covered(img)
    ensures img.parents.Keys <= img.contents.Keys && img.parents.Keys <= img.images.Keys
  {}

  /** Both parts of Create keep the index; an image created again starts without children. */
  lemma CreateCommitKeepsIndex(img: Images, core: Core, config: Config, id: ID, addOK: bool)
    requires Covered(img)
    ensures var img' := CreateCommit(img, core, config, id, addOK).0;
            Covered(img') && (Indexed(img) ==> Indexed(img'))
  {
    if id !in img.images { assert ChildrenOf(img.parents, id) == {}; }
  }

  lemma CreateStoreKeepsIndex(img: Images, config: Config, id: ID)
    requires Covered(img)
    ensures var img' := CreateStore(img, config, id);
            Covered(img') && (Indexed(img) ==> Indexed(img'))
  {}

  lemma CreateKeepsIndex(img: Images, core: Core, config: Option<Config>, id: ID, setOK: bool, addOK: bool)
    requires Indexed(img)
    ensures Indexed(Create(img, core, config, id, setOK, addOK).0)
    ensures var (img', _, r) := Create(img, core, config, id, setOK, addOK);
            r.Created? ==> id in img'.images && img'.images[id].children == {}
  {
    if config.Some? {
      CreateStoreKeepsIndex(img, config.value, id);
      CreateCommitKeepsIndex(CreateStore(img, config.value, id), core, config.value, id, addOK);
    }
  }

  /** How a Create without interference ends, and what it leaves: the image is there exactly if it was or is created. */
  lemma CreateExactly(img: Images, core: Core, config: Option<Config>, id: ID, setOK: bool, addOK: bool)
    ensures var (img', core', r) := Create(img, core, config, id, setOK, addOK);
            var parsed := config.Some? && config.value.nonEmptyHistory <= |config.value.diffIDs|;
            var found := config.Some? && (config.value.top.Some? ==> config.value.top.value in core.layers);
            && (r.Malformed? <==> config.None?)
            && (r.TooManyLayers? <==> config.Some? && !parsed)
            && (r.BackendError? <==> parsed && !setOK)
            && (r.AlreadyExists? <==> parsed && setOK && id in img.images)
            && (r.LayerMissing? <==> parsed && setOK && id !in img.images && !found)
            && (r.DigestError? <==> parsed && setOK && id !in img.images && found && !addOK)
            && (r.Created? <==> parsed && setOK && id !in img.images && found && addOK)
            && img'.contents == (if parsed && setOK then img.contents[id := config.value] else img.contents)
            && img'.images.Keys == (if r.Created? then img.images.Keys + {id} else img.images.Keys)
            && (forall i :: i in img.images ==> img'.images[i] == img.images[i])
            && img'.parents == img.parents
  {}

  /** SetParent succeeds exactly when the parent is stored and the metadata is written. */
  lemma SetParentSucceedsExactly(img: Images, id: ID, parent: ID, setOK: bool)
    ensures SetParent(img, id, parent, setOK).1 <==> parent in img.images && id in img.contents && setOK
    ensures parent !in img.images ==> SetParent(img, id, parent, setOK).0 == img
  {}

  /**
    After a Create without interference, the backend holds exactly the configurations of the images
    if and only if Create gave up before storing, or the image was there already, or its top layer
    was found and the digest set took its identifier.
  */
  lemma CreateKeepsBackendExactly(img: Images, core: Core, config: Option<Config>, id: ID, setOK: bool, addOK: bool)
    requires img.contents.Keys == img.images.Keys
    ensures var img' := Create(img, core, config, id, setOK, addOK).0;
            img'.contents.Keys == img'.images.Keys <==>
              || config.None? || config.value.nonEmptyHistory > |config.value.diffIDs| || !setOK
              || id in img.images
              || ((TopLayer(config.value).Some? ==> TopLayer(config.value).value in core.layers) && addOK)
  {
    var img' := Create(img, core, config, id, setOK, addOK).0;
    if Refusal(config, setOK).None? {
      assert img'.contents.Keys == img.contents.Keys + {id};
      assert id in img'.contents;
    }
  }

  // ---------------------------------------------------------------- ownership of layers

  /** More handles on the layer store do not disturb the images. */
  lemma OwningGrows(img: Images, core: Core, core': Core)
    requires Owning(img, core)
    requires forall h :: Retains(core, h) ==> Retains(core', h)
    ensures Owning(img, core')
  {
    forall i | i in img.images ensures Owns(core', img.images[i].layer, TopLayer(img.images[i].config)) {
      assert Owns(core, img.images[i].layer, TopLayer(img.images[i].config));
    }
  }

  /** The locked part of Create gives a new image one new handle on its top layer, and an image that is there already none. */
  lemma CreateCommitKeepsOwning(img: Images, core: Core, holds: Holds, config: Config, id: ID, addOK: bool)
    requires Owning(img, core) && Inv(core, holds)
    ensures var (img', core', r) := CreateCommit(img, core, config, id, addOK);
            && Owning(img', core') && Inv(core', holds)
            && core'.mounts == core.mounts
            && (r.AlreadyExists? ==> core' == core && img' == img)
            && (r.Created? ==> id in img'.images && img'.images[id].config == config)
            && (NoGarbage(core) ==> NoGarbage(core'))
  {
    hide Inv;
    hide Owning;
    hide Get;
    var top := TopLayer(config);
    if id !in img.images {
      if top.None? {
        AddOwner(img, core, id, config, None);
      } else if top.value in core.layers {
        GetKeeps(core, holds, top.value);
        GetFrame(core, top.value);
        InvParts(core, holds);
        OwnersAreOld(img, core);
        OwningGrows(img, core, Get(core, top.value).0);
        AddOwner(img, Get(core, top.value).0, id, config, Some(Handle(core.next, top.value)));
      } else {
        GetMisses(core, top.value);
      }
    }
  }

  /** Create gives a new image one new handle on its top layer; creating it again takes no second one. */
  lemma CreateKeepsOwning(img: Images, core: Core, holds: Holds, config: Option<Config>, id: ID, setOK: bool, addOK: bool)
    requires Owning(img, core) && Inv(core, holds)
    ensures var (img', core', r) := Create(img, core, config, id, setOK, addOK);
            && Owning(img', core') && Inv(core', holds)
            && (r.AlreadyExists? ==> core' == core && img'.images == img.images)
            && (r.Created? ==> id in img'.images && config.Some? && img'.images[id].config == config.value && img'.contents[id] == config.value)
            && (NoGarbage(core) ==> NoGarbage(core'))
  {
    hide Inv;
    if config.Some? { CreateCommitKeepsOwning(CreateStore(img, config.value, id), core, holds, config.value, id, addOK); }
  }

  lemma GetMisses(core: Core, c: ChainID)
    requires c !in core.layers
    ensures Get(core, c) == (core, None)
  {}

  /** A new image with a handle that no image has. */
  lemma AddOwner(img: Images, core: Core, id: ID, config: Config, layer: Option<Handle>)
    requires Owning(img, core) && id !in img.images && Owns(core, layer, TopLayer(config))
    requires forall i :: i in img.images && img.images[i].layer.Some? && layer.Some? ==> img.images[i].layer.value.id != layer.value.id
    ensures Owning(img.(images := img.images[id := ImageMeta(config, layer, {})]), core)
  {
    hide Owns;
    hide TopLayer;
  }

  lemma GetKeeps(core: Core, holds: Holds, c: ChainID)
    requires Inv(core, holds) && c in core.layers
    ensures Inv(Get(core, c).0, holds)
    ensures forall h :: Retains(core, h) ==> Retains(Get(core, c).0, h)
    ensures Retains(Get(core, c).0, Handle(core.next, c)) && Get(core, c).1 == Some(Handle(core.next, c))
    ensures NoGarbage(core) ==> NoGarbage(Get(core, c).0)
  {
    hide InvOwing;
    GetKeepsInv(core, holds, None, c);
  }

  lemma OwnersAreOld(img: Images, core: Core)
    requires Owning(img, core) && Fresh(core)
    ensures forall i :: i in img.images && img.images[i].layer.Some? ==> img.images[i].layer.value.id < core.next
  {
    forall i | i in img.images && img.images[i].layer.Some? ensures img.images[i].layer.value.id < core.next {
      assert Owns(core, img.images[i].layer, TopLayer(img.images[i].config));
    }
  }

  lemma SetParentKeepsOwning(img: Images, core: Core, id: ID, parent: ID, setOK: bool)
    requires Owning(img, core)
    ensures Owning(SetParent(img, id, parent, setOK).0, core)
  {
    var img' := SetParent(img, id, parent, setOK).0;
    assert img'.images.Keys == img.images.Keys;
    assert forall i :: i in img.images ==> img'.images[i].layer == img.images[i].layer && img'.images[i].config == img.images[i].config;
  }

  /** Delete gives back the handle of the image and leaves those of all others. */
  lemma DeleteKeepsOwning(img: Images, core: Core, holds: Holds, id: ID, failing: set<ChainID>)
    requires Owning(img, core) && Inv(core, holds) && WellKeyed(core.layers)
    ensures var (img', core', r) := Delete(img, core, id, failing);
            && Owning(img', core') && Inv(core', holds)
            && (r.Some? ==> !r.value.1.Panicked? && !r.value.1.NotRetained?)
            && (failing == {} && r.Some? ==> r.value.1.NoError?)
            && (NoGarbage(core) && failing == {} ==> NoGarbage(core'))
  {
    hide Inv;
    hide WellKeyed;
    hide Release;
    if id in img.images && img.images[id].layer.Some? {
      var h := img.images[id].layer.value;
      var (img', core', r) := Delete(img, core, id, failing);
      ReleaseHandleKeepsInv(core, holds, h, failing);
      assert Owns(core, img.images[id].layer, TopLayer(img.images[id].config));
      forall i | i in img'.images ensures i in img.images && Owns(core', img'.images[i].layer, TopLayer(img'.images[i].config)) {
        assert Owns(core, img.images[i].layer, TopLayer(img.images[i].config));
        if img.images[i].layer.Some? { ReleaseKeepsOtherHandles(core, holds, h, failing, img.images[i].layer.value); }
      }
    }
  }

  // ---------------------------------------------------------------- images and the layers below them

  /** An image holds the layer that its ChainID stands for, and all layers below it are stored. */
  lemma ImageHasItsLayers(img: Images, core: Core, holds: Holds, i: ID)
    requires Owning(img, core) && Inv(core, holds) && i in img.images && img.images[i].config.top.Some?
    ensures img.images[i].layer.Some? && Retains(core, img.images[i].layer.value)
    ensures img.images[i].layer.value.chain == img.images[i].config.top.value
    ensures forall a :: AncestorOrSelf(a, img.images[i].config.top.value) ==> a in core.layers
  {
    hide Inv;
    assert Owns(core, img.images[i].layer, TopLayer(img.images[i].config));
    InvParts(core, holds);
    var c := img.images[i].layer.value.chain;
    forall a | AncestorOrSelf(a, c) ensures a in core.layers { ChainsAreComplete(core, holds, a, c); }
  }

  /** The layers of an image stay while other callers use the layer store, until the image itself gives its handle back. */
  lemma ImageLayersStay(img: Images, s: Sys, events: seq<Event>, i: ID)
    requires SysInv(s) && Owning(img, s.core)
    requires forall k :: 0 <= k < |events| && events[k].ReleaseHandle? ==>
               forall j :: j in img.images ==> img.images[j].layer != Some(events[k].handle)
    ensures Owning(img, Run(s, events).core)
  {
    forall j | j in img.images ensures Owns(Run(s, events).core, img.images[j].layer, TopLayer(img.images[j].config)) {
      hide SysInv;
      hide Run;
      assert Owns(s.core, img.images[j].layer, TopLayer(img.images[j].config));
      if img.images[j].layer.Some? {
        var h := img.images[j].layer.value;
        HeldChainsStay(s, events, h, h.chain);
      }
    }
  }

  /**
    Delete removes exactly those layers that no other handle, mount or operation in flight needs; in
    particular no layer of another image.
  */
  lemma DeleteRemovesOnlyUnneeded(img: Images, core: Core, holds: Holds, id: ID, i: ID, a: ChainID)
    requires Owning(img, core) && Inv(core, holds) && WellKeyed(core.layers) && NoGarbage(core)
    requires id in img.images && img.images[id].layer.Some? && a in core.layers
    ensures var (img', core', r) := Delete(img, core, id, {});
            && r.Some? && r.value.1.NoError?
            && (a in Chains(r.value.0) <==> !Needed(Dereference(core, img.images[id].layer.value), holds, a))
            && (a in core'.layers <==> a !in Chains(r.value.0))
            && (i in img'.images && img'.images[i].config.top.Some? && AncestorOrSelf(a, img'.images[i].config.top.value) ==> a in core'.layers)
  {
    hide Inv;
    hide WellKeyed;
    hide NoGarbage;
    hide Needed;
    hide Release;
    var h := img.images[id].layer.value;
    assert Owns(core, img.images[id].layer, TopLayer(img.images[id].config));
    ReleaseRemovesTheUnneeded(core, holds, h);
    DeleteKeepsOwning(img, core, holds, id, {});
    var (img', core', r) := Delete(img, core, id, {});
    if i in img'.images && img'.images[i].config.top.Some? { ImageHasItsLayers(img', core', holds, i); }
  }
}
