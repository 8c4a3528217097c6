/**
  How the diff list of an image configuration names a chain of layers. The image store looks a layer
  up by the ChainID string of the list (image/store.go, image/rootfs_unix.go); nothing in Create
  checks that the layers it finds have the diffs of the list. This module says which lists find
  which layers, and exactly when the layers found have the diffs of the list.
*/
module ImageNames {
  import opened Wrappers
  import opened ChainIDs
  import opened LayerModel
  import opened LayerInvariant
  import opened ImageModel

  /** A chain of registered layers: its diffs are digests of tar streams. */
  ghost predicate TarChain(h: string -> string, n: nat, texts: set<string>, c: ChainID) {
    TarDigests(h, n, texts, Diffs(c)) && Hashed(h, c) <= texts
  }

  /** RootFS.ChainID, as the string it is. */
  function NameOf(h: string -> string, config: Config): string {
    StringFromParent(h, "", config.diffIDs)
  }

  /** `top` is what the string stands for: nothing, or a chain with that string, registered layers if there are such. */
  ghost predicate Named(h: string -> string, n: nat, texts: set<string>, config: Config) {
    && (config.top.None? <==> NameOf(h, config) == "")
    && (config.top.Some? ==> Render(h, config.top.value) == NameOf(h, config))
    && (forall c :: TarChain(h, n, texts, c) && Render(h, c) == NameOf(h, config) ==> config.top == Some(c))
  }

  /** Every configuration has a meaning in this sense. */
  lemma EveryConfigIsNamed(h: string -> string, n: nat, texts: set<string>, diffIDs: seq<DiffID>, history: nat) returns (top: Option<ChainID>)
    requires Digests(h, n) && NoCollision(h, texts)
    ensures Named(h, n, texts, Config(diffIDs, top, history))
  {
    var name := StringFromParent(h, "", diffIDs);
    forall c | TarChain(h, n, texts, c) ensures Render(h, c) != "" {
      TarDigestsAreSized(h, n, texts, Diffs(c));
      RenderIsSized(h, n, c);
    }
    if c :| TarChain(h, n, texts, c) && Render(h, c) == name {
      top := Some(c);
      forall d | TarChain(h, n, texts, d) && Render(h, d) == name ensures d == c { RenderInjective(h, n, texts, d, c); }
    } else {
      top := if name == "" then None else Some(Base(name));
    }
  }

  lemma NamedTop(h: string -> string, n: nat, texts: set<string>, config: Config)
    requires Named(h, n, texts, config) && config.top.Some?
    ensures config.diffIDs != [] && StringFromParent(h, "", config.diffIDs) == Render(h, config.top.value)
  {}

  /** All stored layers are registered layers. */
  ghost predicate AllRegistered(h: string -> string, n: nat, texts: set<string>, layers: map<ChainID, Layer>) {
    forall c :: c in layers ==> TarChain(h, n, texts, c)
  }

  /** Looking a layer up by the string of a configuration finds the layer `top`, and no other. */
  lemma LookupFindsTop(h: string -> string, n: nat, texts: set<string>, layers: map<ChainID, Layer>, config: Config, c: ChainID)
    requires Named(h, n, texts, config) && AllRegistered(h, n, texts, layers) && c in layers && NameOf(h, config) != ""
    ensures Render(h, c) == NameOf(h, config) <==> config.top == Some(c)
  {}

  /** The list may be read as the diffs of the chain `c`: well-formed digests, and the first no identifier of several layers of `c`. */
  ghost predicate ReadsAsDiffs(h: string -> string, n: nat, xs: seq<DiffID>, c: ChainID) {
    Sized(n, xs) && xs != [] && forall p: ChainID :: p.Chained? && AncestorOrSelf(p, c) ==> xs[0] != Render(h, p)
  }

  /**
    The layers that an image holds have exactly the diffs of its configuration, in order, if and only
    if the diffs are well-formed digests and the first is not the identifier of several of the
    layers held.
  */
  lemma ImageDiffsExactly(h: string -> string, n: nat, texts: set<string>, img: Images, core: Core, holds: Holds, i: ID)
    requires Digests(h, n) && NoCollision(h, texts) && AllRegistered(h, n, texts, core.layers)
    requires Owning(img, core) && Inv(core, holds) && i in img.images && Named(h, n, texts, img.images[i].config)
    requires img.images[i].config.top.Some? && HashedFor(h, img.images[i].config.diffIDs) <= texts
    ensures img.images[i].layer.Some?
    ensures var c := img.images[i].layer.value.chain;
            Diffs(c) == img.images[i].config.diffIDs <==> ReadsAsDiffs(h, n, img.images[i].config.diffIDs, c)
  {
    hide Inv;
    hide Owning;
    hide TarDigests;
    ImageHasItsLayers(img, core, holds, i);
    var c := img.images[i].config.top.value;
    assert AncestorOrSelf(c, c);
    NameExactly(h, n, texts, img.images[i].config.diffIDs, c);
  }

  /**
    What a walk over the layers of `c` reads, one layer per member of the list, is the list itself if
    and only if the list may be read as the diffs of `c`; a list of well-formed digests is never
    longer than the chain, and all but its first member are read back in any case.
  */
  lemma WalkReadsExactly(h: string -> string, n: nat, texts: set<string>, xs: seq<DiffID>, c: ChainID)
    requires Digests(h, n) && NoCollision(h, texts) && TarChain(h, n, texts, c) && HashedFor(h, xs) <= texts
    requires xs != [] && StringFromParent(h, "", xs) == Render(h, c)
    ensures |xs| <= |Diffs(c)| && Diffs(c)[|Diffs(c)| - |xs|..] == xs <==> ReadsAsDiffs(h, n, xs, c)
    ensures Sized(n, xs) ==> |xs| <= |Diffs(c)| && Diffs(c)[|Diffs(c)| - |xs| + 1..] == xs[1..]
  {
    TarDigestsAreSized(h, n, texts, Diffs(c));
    NameExactly(h, n, texts, xs, c);
    var k := |Diffs(c)| - |xs|;
    if Sized(n, xs) {
      var p := SizedNameIsSuffix(h, n, texts, xs, c);
      assert xs[1..] == Diffs(c)[|Diffs(p)|..] && k + 1 == |Diffs(p)|;
      assert Diffs(c)[k + 1..] == xs[1..];
      if p.Chained? { DiffIsNoChain(h, n, texts, c, k, c, p); }
    }
  }

  /**
    A configuration whose only diff is the identifier of a stored chain of several layers passes every
    check of Create, and its image holds that chain, which does not have the diffs of the configuration.
  */
  lemma IdentifierAsDiff(h: string -> string, n: nat, texts: set<string>, core: Core, c: ChainID, id: ID)
    requires Digests(h, n) && NoCollision(h, texts) && TarChain(h, n, texts, c) && c.Chained? && c in core.layers
    ensures var config := Config([Render(h, c)], Some(c), 1);
            var (img, core', r) := Create(Images(map[], map[], map[]), core, Some(config), id, true, true);
            && Named(h, n, texts, config) && r.Created?
            && img.images[id].layer.Some? && img.images[id].layer.value.chain == c && Diffs(c) != config.diffIDs
  {
    var config := Config([Render(h, c)], Some(c), 1);
    TarDigestsAreSized(h, n, texts, Diffs(c));
    StringChainIDCollision(h, n, c);
    SizedName(h, n, Diffs(c));
    ChainIDRoundTrip([], c);
    RenderIsSized(h, n, c);
    forall d | TarChain(h, n, texts, d) && Render(h, d) == NameOf(h, config) ensures d == c { RenderInjective(h, n, texts, d, c); }
  }
}
