/** The image store as an object over a layer store, proved against ImageModel. */
module ImageStores {
  import opened Wrappers
  import opened ChainIDs
  import opened LayerModel
  import opened LayerInvariant
  import opened LayerMetadata
  import opened LayerStores
  import opened ImageModel

  /** The index that restore builds from the stored images and the persisted parents. */
  function StoredChildren(stored: set<ID>, parents: map<ID, ID>, p: ID): set<ID> {
    set c | c in stored && c in parents && parents[c] == p
  }

  /** What restore makes of a backend from which it can read everything but `bad`. */
  ghost predicate Restores(img: Images, bad: set<ID>, rebuilt: Images) {
    && rebuilt.contents == img.contents && rebuilt.parents == img.parents
    && rebuilt.images.Keys == img.contents.Keys - bad
    && (forall i :: i in rebuilt.images ==> rebuilt.images[i].config == img.contents[i])
    && (forall p :: p in rebuilt.images ==> rebuilt.images[p].children == StoredChildren(rebuilt.images.Keys, img.parents, p))
  }

  /** The same images, regardless of their handles. */
  ghost predicate SameImages(a: Images, b: Images) {
    a.images.Keys == b.images.Keys && forall i :: i in a.images ==> a.images[i].config == b.images[i].config
  }

  ghost predicate SameChildren(a: Images, b: Images) {
    a.images.Keys == b.images.Keys && forall i :: i in a.images ==> a.images[i].children == b.images[i].children
  }

  /** The configuration that the backend has of an image is the one the image was created from. */
  ghost predicate Agreed(img: Images) {
    forall i :: i in img.images && i in img.contents ==> img.contents[i] == img.images[i].config
  }

  /**
    restore brings back the same images exactly when the backend holds exactly their configurations,
    and the same children exactly when moreover the index was in step with the metadata.
  */
  lemma RestoreRebuildsIndex(img: Images, rebuilt: Images)
    requires Covered(img) && Agreed(img) && Restores(img, {}, rebuilt)
    ensures SameImages(rebuilt, img) <==> img.contents.Keys == img.images.Keys
    ensures SameImages(rebuilt, img) && SameChildren(rebuilt, img) <==> img.contents.Keys == img.images.Keys && Indexed(img)
    ensures SameImages(rebuilt, img) ==> Indexed(rebuilt)
  {
    assert img.contents.Keys - {} == img.contents.Keys;
    if img.contents.Keys == img.images.Keys {
      forall p | p in img.images ensures rebuilt.images[p].children == ChildrenOf(img.parents, p) {
        assert StoredChildren(rebuilt.images.Keys, img.parents, p) == ChildrenOf(img.parents, p);
      }
    }
  }

  /** `images` with the children found among the images `done`. */
  function WithChildren(images: map<ID, ImageMeta>, done: set<ID>, parents: map<ID, ID>): map<ID, ImageMeta> {
    map p | p in images :: images[p].(children := StoredChildren(done, parents, p))
  }

  lemma OneMoreChild(images: map<ID, ImageMeta>, done: set<ID>, parents: map<ID, ID>, id: ID)
    ensures var now := WithChildren(images, done, parents);
            WithChildren(images, done + {id}, parents) ==
            if id in parents && parents[id] in now then now[parents[id] := now[parents[id]].(children := now[parents[id]].children + {id})] else now
  {
    var now, after := WithChildren(images, done, parents), WithChildren(images, done + {id}, parents);
    forall p | p in images
      ensures after[p] == if id in parents && parents[id] == p then now[p].(children := now[p].children + {id}) else now[p]
    {
      assert StoredChildren(done + {id}, parents, p) ==
             if id in parents && parents[id] == p then StoredChildren(done, parents, p) + {id} else StoredChildren(done, parents, p);
    }
  }

  lemma NoChildrenYet(images: map<ID, ImageMeta>, parents: map<ID, ID>)
    requires forall p :: p in images ==> images[p].children == {}
    ensures WithChildren(images, {}, parents) == images
  {
    forall p | p in images ensures WithChildren(images, {}, parents)[p] == images[p] {
      assert StoredChildren({}, parents, p) == {};
    }
  }

  ghost function Elements(s: seq<ID>): set<ID> {
    set x | x in s
  }

  lemma OneMoreElement(s: seq<ID>, i: nat, bad: set<ID>)
    requires i < |s|
    ensures Elements(s[..i + 1]) - bad == Elements(s[..i]) - bad + if s[i] in bad then {} else {s[i]}
  {
    assert s[..i + 1] == s[..i] + [s[i]];
  }

  lemma NoElements()
    ensures Elements([]) == {}
  {}

  lemma NotYet(s: seq<ID>, i: nat)
    requires i < |s| && forall j, k :: 0 <= j < k < |s| ==> s[j] != s[k]
    ensures s[i] !in Elements(s[..i])
  {}

  lemma AllElements(s: seq<ID>, all: set<ID>)
    requires Lists(s, all)
    ensures Elements(s[..|s|]) == all
  {
    assert s[..|s|] == s;
  }

  /** An image with this configuration finds its top layer, if it has one. */
  predicate LayerPresent(config: Config, chains: set<ChainID>) {
    TopLayer(config).Some? ==> TopLayer(config).value in chains
  }

  /** No layer of a readable image is missing. */
  ghost predicate LayersPresent(contents: map<ID, Config>, bad: set<ID>, core: Core) {
    forall i :: i in contents && i !in bad ==> LayerPresent(contents[i], core.layers.Keys)
  }

  class ImageStore {
    const ls: LayerStore
    var images: map<ID, ImageMeta>
    var contents: map<ID, Config>
    var parents: map<ID, ID>

    ghost function Abs(): Images
      reads this
    {
      Images(images, contents, parents)
    }

    /** The store before restore, over what the backend holds. */
    constructor (ls: LayerStore, contents: map<ID, Config>, parents: map<ID, ID>)
      ensures this.ls == ls && Abs() == Images(map[], contents, parents)
    {
      this.ls, images, this.contents, this.parents := ls, map[], contents, parents;
    }

    /** Create up to the lock: the configuration is checked and stored; `None` means that it was. */
    method StoreConfig(config: Option<Config>, id: ID, setOK: bool) returns (r: Option<CreateResult>)
      modifies this`contents
      ensures r == Refusal(config, setOK)
      ensures Abs() == if r.None? then CreateStore(old(Abs()), config.value, id) else old(Abs())
    {
      if config.None? { return Some(Malformed); }
      if config.value.nonEmptyHistory > |config.value.diffIDs| { return Some(TooManyLayers); }
      if !setOK { return Some(BackendError); }
      contents := contents[id := config.value];
      r := None;
    }

    /** Create under the lock. */
    method CommitImage(config: Config, id: ID, addOK: bool) returns (r: CreateResult)
      modifies this`images, ls
      ensures (Abs(), ls.Abs(), r) == CreateCommit(old(Abs()), old(ls.Abs()), config, id, addOK)
    {
      if id in images { return AlreadyExists; }
      var top := TopLayer(config);
      var layer: Option<Handle> := None;
      if top.Some? {
        layer := ls.Get(top.value);
        if layer.None? { return LayerMissing; }
      }
      images := images[id := ImageMeta(config, layer, {})];
      if !addOK {
        images := images - {id};
        assert images == old(images);
        return DigestError;
      }
      r := Created;
    }

    method Create(config: Option<Config>, id: ID, setOK: bool, addOK: bool) returns (r: CreateResult)
      modifies this`images, this`contents, ls
      ensures (Abs(), ls.Abs(), r) == ImageModel.Create(old(Abs()), old(ls.Abs()), config, id, setOK, addOK)
    {
      var refusal := StoreConfig(config, id, setOK);
      if refusal.Some? { return refusal.value; }
      r := CommitImage(config.value, id, addOK);
    }

    /** Takes `id` out of the children of its persisted parent. */
    method RemoveFromParent(id: ID)
      modifies this`images
      ensures images == Orphan(old(images), ParentImage(Abs(), id), id)
    {
      if id in contents && id in parents && parents[id] in images {
        images := images[parents[id] := images[parents[id]].(children := images[parents[id]].children - {id})];
      }
    }

    method SetParent(id: ID, parent: ID, setOK: bool) returns (ok: bool)
      modifies this`images, this`parents
      ensures (Abs(), ok) == ImageModel.SetParent(old(Abs()), id, parent, setOK)
    {
      if parent !in images { return false; }
      RemoveFromParent(id);
      images := images[parent := images[parent].(children := images[parent].children + {id})];
      ok := setOK && id in contents;
      if ok { parents := parents[id := parent]; }
    }

    /** The loop of Delete that forgets the persisted parent of every child. */
    method ForgetChildren(children: set<ID>)
      modifies this`parents
      ensures parents == old(parents) - children
    {
      var left := children;
      while left != {}
        invariant left <= children
        invariant parents == old(parents) - (children - left)
        decreases |left|
      {
        var c :| c in left;
        parents := parents - {c};
        left := left - {c};
        assert children - left == (children - (left + {c})) + {c};
      }
      assert children - {} == children;
    }

    method Delete(id: ID, failing: set<ChainID>) returns (r: Option<(seq<Metadata>, ReleaseError)>)
      requires WellKeyed(ls.layerMap)
      modifies this`images, this`contents, this`parents, ls
      ensures (Abs(), ls.Abs(), r) == ImageModel.Delete(old(Abs()), old(ls.Abs()), id, failing)
    {
      if id !in images { return None; }
      var meta := images[id];
      ForgetChildren(meta.children);
      RemoveFromParent(id);
      images := images - {id};
      contents := contents - {id};
      parents := parents - {id};
      if meta.layer.Some? {
        var removed, err := ls.Release(meta.layer.value, failing);
        return Some((removed, err));
      }
      r := Some(([], NoError));
    }

    // -------------------------------------------------------------- restore

    /** restore's first pass over one image of the backend. */
    method RestoreImage(id: ID, ghost holds: Holds) returns (ok: bool)
      requires id in contents && id !in images
      requires Inv(ls.Abs(), holds) && Owning(Abs(), ls.Abs())
      modifies this`images, ls
      ensures Inv(ls.Abs(), holds) && Owning(Abs(), ls.Abs()) && KeepsMetadata(old(ls.Abs()), ls.Abs())
      ensures ls.layerMap.Keys == old(ls.layerMap.Keys)
      ensures ok == LayerPresent(contents[id], old(ls.layerMap.Keys))
      ensures images.Keys == if ok then old(images.Keys) + {id} else old(images.Keys)
      ensures forall p :: p in images && p in old(images) ==> images[p] == old(images)[p]
      ensures ok ==> images[id].children == {} && images[id].config == contents[id]
    {
      hide Inv;
      hide Owning;
      hide LayerModel.Get;
      hide Retains;
      hide KeepsMetadata;
      NothingKeepsMetadata(ls.Abs());
      var top := TopLayer(contents[id]);
      var layer: Option<Handle> := None;
      if top.Some? {
        GetKeepsMetadata(ls.Abs(), top.value);
        GetForImage(Abs(), ls.Abs(), holds, top.value);
        layer := ls.Get(top.value);
        if layer.None? { return false; }
      }
      AddOwner(Abs(), ls.Abs(), id, contents[id], layer);
      images := images[id := ImageMeta(contents[id], layer, {})];
      ok := true;
    }

    static lemma NoImagesOwn(img: Images, core: Core)
      requires img.images == map[]
      ensures Owning(img, core)
    {}

    static lemma GetKeepsKeys(core: Core, c: ChainID)
      ensures LayerModel.Get(core, c).0.layers.Keys == core.layers.Keys
    {}

    /** What Get does for an image that is about to be added. */
    static lemma GetForImage(img: Images, core: Core, holds: Holds, c: ChainID)
      requires Inv(core, holds) && Owning(img, core)
      ensures var (core', layer) := LayerModel.Get(core, c);
              && Inv(core', holds) && Owning(img, core')
              && core'.layers.Keys == core.layers.Keys
              && (layer.Some? <==> c in core.layers)
              && (layer.Some? ==> Owns(core', layer, Some(c)))
              && (layer.Some? ==> forall i :: i in img.images && img.images[i].layer.Some? ==> img.images[i].layer.value.id != layer.value.id)
    {
      hide Inv;
      hide Owning;
      hide Retains;
      hide LayerModel.Get;
      GetKeepsKeys(core, c);
      if c !in core.layers { GetMisses(core, c); }
      if c in core.layers {
        GetKeeps(core, holds, c);
        InvParts(core, holds);
        OwnersAreOld(img, core);
        OwningGrows(img, core, LayerModel.Get(core, c).0);
      }
    }

    /** The first pass: one handle for every image, whatever the order of the walk. */
    method RestoreImages(order: seq<ID>, bad: set<ID>, ghost holds: Holds) returns (ok: bool)
      requires images == map[] && Lists(order, contents.Keys)
      requires Inv(ls.Abs(), holds)
      modifies this`images, ls
      ensures Inv(ls.Abs(), holds) && Owning(Abs(), ls.Abs()) && KeepsMetadata(old(ls.Abs()), ls.Abs())
      ensures ok == LayersPresent(contents, bad, old(ls.Abs()))
      ensures ok ==> images.Keys == contents.Keys - bad
      ensures forall p :: p in images ==> p in contents && images[p].children == {} && images[p].config == contents[p]
    {
      hide Inv;
      hide Owning;
      hide LayerPresent;
      hide Elements;
      hide KeepsMetadata;
      NothingKeepsMetadata(ls.Abs());
      NoImagesOwn(Abs(), ls.Abs());
      NoElements();
      for i := 0 to |order|
        invariant Inv(ls.Abs(), holds) && Owning(Abs(), ls.Abs()) && KeepsMetadata(old(ls.Abs()), ls.Abs())
        invariant ls.layerMap.Keys == old(ls.layerMap.Keys)
        invariant images.Keys == Elements(order[..i]) - bad
        invariant forall p :: p in images ==> p in contents && images[p].children == {} && images[p].config == contents[p]
        invariant forall k :: 0 <= k < i && order[k] !in bad ==> LayerPresent(contents[order[k]], old(ls.layerMap.Keys))
      {
        NotYet(order, i);
        OneMoreElement(order, i, bad);
        assert order[i] in contents.Keys;
        if order[i] !in bad {
          ghost var before := ls.Abs();
          var loaded := RestoreImage(order[i], holds);
          KeepsMetadataTransitive(old(ls.Abs()), before, ls.Abs());
          if !loaded { return false; }
        }
      }
      AllElements(order, contents.Keys);
      ok := true;
    }

    /** The second pass: every stored image enters the children of its stored parent. */
    method RestoreChildren()
      requires forall p :: p in images ==> p in contents && images[p].children == {}
      modifies this`images
      ensures images == WithChildren(old(images), old(images.Keys), parents)
    {
      hide WithChildren;
      hide StoredChildren;
      var left := images.Keys;
      ghost var all := images.Keys;
      NoChildrenYet(images, parents);
      assert all - left == {};
      while left != {}
        invariant left <= all
        invariant images == WithChildren(old(images), all - left, parents)
        decreases |left|
      {
        var id :| id in left;
        OneMoreChild(old(images), all - left, parents, id);
        assert all - (left - {id}) == (all - left) + {id};
        if id in contents && id in parents && parents[id] in images {
          images := images[parents[id] := images[parents[id]].(children := images[parents[id]].children + {id})];
        }
        left := left - {id};
      }
      assert all - {} == all;
    }

    /**
      restore: it succeeds when no layer of a readable image is missing, and then every readable
      image has its own handle and the index mirrors the persisted parents.
    */
    method Restore(order: seq<ID>, bad: set<ID>, ghost holds: Holds) returns (ok: bool)
      requires images == map[] && Lists(order, contents.Keys)
      requires Inv(ls.Abs(), holds)
      modifies this`images, ls
      ensures Inv(ls.Abs(), holds) && KeepsMetadata(old(ls.Abs()), ls.Abs())
      ensures ok == LayersPresent(contents, bad, old(ls.Abs()))
      ensures ok ==> Restores(old(Abs()), bad, Abs()) && Owning(Abs(), ls.Abs())
    {
      ok := RestoreImages(order, bad, holds);
      if !ok { return; }
      ghost var before := Abs();
      RestoreChildren();
      SameLayersOwn(before, Abs(), ls.Abs());
    }

    static lemma SameLayersOwn(a: Images, b: Images, core: Core)
      requires Owning(a, core) && a.images.Keys == b.images.Keys
      requires forall i :: i in a.images ==> a.images[i].layer == b.images[i].layer && a.images[i].config == b.images[i].config
      ensures Owning(b, core)
    {}
  }
}
