/**
  The order in which a v1 push uploads images (distribution/push_v1.go). Layers are named by their
  chain identifiers; the parent of a layer is the parent of its chain.
*/
module PushV1 {
  import opened Wrappers
  import opened ChainIDs

  type ImageID = string

  /** v1DependencyImage and v1TopImage, with the parent that goes into their configuration. */
  datatype Entry = Dependency(chain: ChainID, parent: Option<ChainID>)
                 | Top(image: ImageID, layer: Option<ChainID>, parent: Option<ChainID>)

  /** A reference of the repository: `tag` is `None` for a digest reference. */
  datatype Association = Association(image: ImageID, tag: Option<string>)

  /** The layer below the top layer of an image. */
  function Below(top: Option<ChainID>): Option<ChainID> {
    if top.None? then None else ParentOf(top.value)
  }

  // ---------------------------------------------------------------- what the list has to be

  /** The dependency on layer `p` is among the first `i` entries. */
  ghost predicate Before(list: seq<Entry>, i: int, p: ChainID)
    requires 0 <= i <= |list|
  {
    exists j :: 0 <= j < i && list[j].Dependency? && list[j].chain == p
  }

  /** Every entry names the parent of its layer as its parent, and that parent has been listed before it. */
  ghost predicate ParentsFirst(list: seq<Entry>) {
    forall i :: 0 <= i < |list| ==>
      && list[i].parent == ParentOfEntry(list[i])
      && (list[i].parent.Some? ==> Before(list, i, list[i].parent.value))
  }

  function ParentOfEntry(e: Entry): Option<ChainID> {
    match e
    case Dependency(c, _) => ParentOf(c)
    case Top(_, layer, _) => Below(layer)
  }

  /** No layer is listed twice as a dependency, and no image twice. */
  ghost predicate NoRepeats(list: seq<Entry>) {
    forall i, j :: 0 <= i < j < |list| ==>
      && (list[i].Dependency? && list[j].Dependency? ==> list[i].chain != list[j].chain)
      && (list[i].Top? && list[j].Top? ==> list[i].image != list[j].image)
  }

  ghost function Dependencies(list: seq<Entry>): set<ChainID> {
    set i | 0 <= i < |list| && list[i].Dependency? :: list[i].chain
  }

  ghost function Tops(list: seq<Entry>): set<ImageID> {
    set i | 0 <= i < |list| && list[i].Top? :: list[i].image
  }

  /** With a layer, all its ancestors have been seen. */
  ghost predicate SeenClosed(seen: set<ChainID>) {
    forall c :: c in seen && c.Chained? ==> c.parent in seen
  }

  /** A list that a registry can take entry by entry, given that `seen` are its dependencies. */
  ghost predicate Uploadable(list: seq<Entry>, seen: set<ChainID>) {
    ParentsFirst(list) && NoRepeats(list) && Dependencies(list) == seen && SeenClosed(seen)
  }

  lemma AppendEntry(list: seq<Entry>, e: Entry)
    ensures Dependencies(list + [e]) == Dependencies(list) + if e.Dependency? then {e.chain} else {}
    ensures Tops(list + [e]) == Tops(list) + if e.Top? then {e.image} else {}
  {
    var all := list + [e];
    assert all[|list|] == e && forall i :: 0 <= i < |list| ==> all[i] == list[i];
    forall x | x in Dependencies(list) ensures x in Dependencies(all) {
      var i :| 0 <= i < |list| && list[i].Dependency? && list[i].chain == x;
      assert all[i].Dependency? && all[i].chain == x;
    }
    forall x | x in Tops(list) ensures x in Tops(all) {
      var i :| 0 <= i < |list| && list[i].Top? && list[i].image == x;
      assert all[i].Top? && all[i].image == x;
    }
  }

  /** An entry may be appended once its parent is there and it is new itself. */
  lemma AppendKeepsUploadable(list: seq<Entry>, seen: set<ChainID>, e: Entry)
    requires Uploadable(list, seen)
    requires e.parent == ParentOfEntry(e) && (e.parent.Some? ==> e.parent.value in seen)
    requires if e.Dependency? then e.chain !in seen else e.image !in Tops(list)
    ensures Uploadable(list + [e], if e.Dependency? then seen + {e.chain} else seen)
  {
    var all := list + [e];
    AppendEntry(list, e);
    assert all[|list|] == e && forall i :: 0 <= i < |list| ==> all[i] == list[i];
    forall i | 0 <= i < |all|
      ensures all[i].parent == ParentOfEntry(all[i]) && (all[i].parent.Some? ==> Before(all, i, all[i].parent.value))
    {
      if all[i].parent.Some? {
        if i < |list| {
          assert Before(list, i, list[i].parent.value);
          var j :| 0 <= j < i && list[j].Dependency? && list[j].chain == list[i].parent.value;
          assert all[j] == list[j];
        } else {
          assert e.parent.value in Dependencies(list);
          var j :| 0 <= j < |list| && list[j].Dependency? && list[j].chain == e.parent.value;
          assert all[j] == list[j];
        }
      }
    }
    forall i, j | 0 <= i < j < |all|
      ensures all[i].Dependency? && all[j].Dependency? ==> all[i].chain != all[j].chain
      ensures all[i].Top? && all[j].Top? ==> all[i].image != all[j].image
    {
      if j == |list| {
        assert list[i].Dependency? ==> list[i].chain in Dependencies(list);
        assert list[i].Top? ==> list[i].image in Tops(list);
      }
    }
  }

  // ---------------------------------------------------------------- the code

  /** The layers of a chain, root first, that are not in `seen`. */
  function Missing(seen: set<ChainID>, l: Option<ChainID>): seq<Entry>
    decreases l
  {
    if l.None? then []
    else MissingOf(seen, l.value)
  }

  function MissingOf(seen: set<ChainID>, c: ChainID): seq<Entry> {
    (if c.Chained? then MissingOf(seen, c.parent) else []) +
    (if c in seen then [] else [Dependency(c, ParentOf(c))])
  }

  function AncestorsOf(c: ChainID): set<ChainID> {
    {c} + if c.Chained? then AncestorsOf(c.parent) else {}
  }

  function Ancestors(l: Option<ChainID>): set<ChainID> {
    if l.None? then {} else AncestorsOf(l.value)
  }

  lemma {:induction false} AncestorsAreAncestors(a: ChainID, c: ChainID)
    ensures a in AncestorsOf(c) <==> AncestorOrSelf(a, c)
  {
    if c.Chained? { AncestorsAreAncestors(a, c.parent); }
  }

  /** Appending what is missing of a chain keeps the list uploadable, because the seen layers are closed under parent. */
  lemma {:induction false} MissingKeepsUploadable(list: seq<Entry>, seen: set<ChainID>, c: ChainID)
    requires Uploadable(list, seen)
    ensures Uploadable(list + MissingOf(seen, c), seen + AncestorsOf(c))
    ensures Tops(list + MissingOf(seen, c)) == Tops(list)
    ensures c in seen ==> MissingOf(seen, c) == []
    decreases c
  {
    hide ParentsFirst;
    hide NoRepeats;
    hide Dependencies;
    hide Tops;
    var below := if c.Chained? then MissingOf(seen, c.parent) else [];
    var seen' := seen + if c.Chained? then AncestorsOf(c.parent) else {};
    if c.Chained? {
      MissingKeepsUploadable(list, seen, c.parent);
    } else {
      assert list + [] == list && seen + {} == seen;
    }
    if c in seen {
      assert MissingOf(seen, c) == [];
      ClosedHasAncestors(seen, c);
      assert list + [] == list && seen + AncestorsOf(c) == seen;
    } else {
      var e := Dependency(c, ParentOf(c));
      if c in seen' { NotItsOwnAncestor(c); }
      if c.Chained? { assert c.parent in AncestorsOf(c.parent); }
      AppendKeepsUploadable(list + below, seen', e);
      AppendEntry(list + below, e);
      assert list + below + [e] == list + MissingOf(seen, c);
      assert seen' + {c} == seen + AncestorsOf(c);
    }
  }

  lemma {:induction false} ClosedHasAncestors(seen: set<ChainID>, c: ChainID)
    requires SeenClosed(seen) && c in seen
    ensures AncestorsOf(c) <= seen
  {
    if c.Chained? { ClosedHasAncestors(seen, c.parent); }
  }

  lemma {:induction false} AncestorLength(a: ChainID, c: ChainID)
    requires a in AncestorsOf(c)
    ensures |Diffs(a)| <= |Diffs(c)|
  {
    if a != c { AncestorLength(a, c.parent); }
  }

  lemma NotItsOwnAncestor(c: ChainID)
    ensures c.Chained? ==> c !in AncestorsOf(c.parent)
  {
    if c.Chained? && c in AncestorsOf(c.parent) { AncestorLength(c, c.parent); }
  }

  class Pusher {
    /** dependenciesSeen; the dependency image of a layer is determined by the layer. */
    var dependenciesSeen: set<ChainID>

    /** generateDependencyImages; without a map (`shared` is false) nothing is remembered. */
    method GenerateDependencyImages(l: Option<ChainID>, shared: bool) returns (list: seq<Entry>, parent: Option<ChainID>)
      requires !shared ==> dependenciesSeen == {}
      modifies this
      ensures list == Missing(old(dependenciesSeen), l)
      ensures parent == l
      ensures dependenciesSeen == if shared then old(dependenciesSeen) + Ancestors(l) else {}
      decreases if l.None? then 0 else |Diffs(l.value)|
    {
      if l.None? { return [], None; }
      list, parent := GenerateDependencyImages(ParentOf(l.value), shared);
      ghost var inBelow := l.value in Ancestors(ParentOf(l.value));
      NotItsOwnAncestor(l.value);
      if l.value in dependenciesSeen { return list, l; }
      list := list + [Dependency(l.value, parent)];
      if shared { dependenciesSeen := dependenciesSeen + {l.value}; }
      parent := l;
    }

    /** imageListForTag: the missing layers below the image's top layer, then the image. */
    method ImageListForTag(img: ImageID, tops: map<ImageID, Option<ChainID>>, layers: set<ChainID>, shared: bool) returns (list: seq<Entry>, ok: bool)
      requires !shared ==> dependenciesSeen == {}
      modifies this
      ensures ok <==> img in tops && (tops[img].Some? ==> tops[img].value in layers)
      ensures !ok ==> dependenciesSeen == old(dependenciesSeen)
      ensures ok ==> var below := Below(tops[img]);
                     && list == Missing(old(dependenciesSeen), below) + [Top(img, tops[img], below)]
                     && dependenciesSeen == if shared then old(dependenciesSeen) + Ancestors(below) else {}
    {
      if img !in tops { return [], false; }
      var top := tops[img];
      if top.Some? && top.value !in layers { return [], false; }
      var below := Below(top);
      var parent;
      list, parent := GenerateDependencyImages(below, shared);
      list := list + [Top(img, top, parent)];
      ok := true;
    }
  }

  // ---------------------------------------------------------------- the whole list

  /** The list for one image, appended to an uploadable list, stays uploadable. */
  lemma TagKeepsUploadable(list: seq<Entry>, seen: set<ChainID>, img: ImageID, top: Option<ChainID>)
    requires Uploadable(list, seen) && img !in Tops(list)
    ensures var below := Below(top);
            var list' := list + (Missing(seen, below) + [Top(img, top, below)]);
            Uploadable(list', seen + Ancestors(below)) && Tops(list') == Tops(list) + {img}
  {
    var below := Below(top);
    var more := list + Missing(seen, below);
    var e := Top(img, top, below);
    if below.Some? {
      MissingKeepsUploadable(list, seen, below.value);
      assert below.value in AncestorsOf(below.value);
    } else {
      assert more == list && seen + {} == seen;
    }
    AppendKeepsUploadable(more, seen + Ancestors(below), e);
    AppendEntry(more, e);
    assert more + [e] == list + (Missing(seen, below) + [e]);
  }

  /** The tags given to an image, in the order of the references. */
  function TagsOf(associations: seq<Association>, img: ImageID): seq<string> {
    if associations == [] then []
    else
      var last := associations[|associations| - 1];
      TagsOf(associations[..|associations| - 1], img) + if last.image == img && last.tag.Some? then [last.tag.value] else []
  }

  /** Tags are kept in the order of the references, and none is lost or added. */
  lemma {:induction false} TagsOfExactly(xs: seq<Association>, ys: seq<Association>, a: Association, img: ImageID)
    ensures TagsOf(xs + ys, img) == TagsOf(xs, img) + TagsOf(ys, img)
    ensures TagsOf([], img) == []
    ensures TagsOf([a], img) == if a.image == img && a.tag.Some? then [a.tag.value] else []
    decreases |ys|
  {
    assert [a][..0] == [];
    if ys == [] {
      assert xs + ys == xs;
    } else {
      var n := |ys| - 1;
      TagsOfExactly(xs, ys[..n], a, img);
      assert (xs + ys)[..|xs + ys| - 1] == xs + ys[..n];
    }
  }

  /** An image that has a tag. */
  ghost predicate IsTagged(associations: seq<Association>, img: ImageID) {
    exists k :: 0 <= k < |associations| && associations[k].image == img && associations[k].tag.Some?
  }

  /** The image and its top layer can be found. */
  ghost predicate Found(tops: map<ImageID, Option<ChainID>>, layers: set<ChainID>, img: ImageID) {
    img in tops && (tops[img].Some? ==> tops[img].value in layers)
  }

  /**
    getImageList over all tags of a repository: it fails when an image cannot be found or nothing is
    tagged; otherwise the list has every tagged image once, every layer below them once, and parents
    before children; and every image comes with all its tags.
  */
  method GetImageList(associations: seq<Association>, tops: map<ImageID, Option<ChainID>>, layers: set<ChainID>)
    returns (list: seq<Entry>, tagsByImage: map<ImageID, seq<string>>, ok: bool)
    ensures ok <==> (exists img :: IsTagged(associations, img)) && (forall img :: IsTagged(associations, img) ==> Found(tops, layers, img))
    ensures ok ==> ParentsFirst(list) && NoRepeats(list)
    ensures ok ==> forall img :: img in Tops(list) <==> IsTagged(associations, img)
    ensures ok ==> ExactlyNeeded(Dependencies(list), Tops(list), tops)
    ensures ok ==> forall img :: IsTagged(associations, img) ==> img in tagsByImage && tagsByImage[img] == TagsOf(associations, img)
  {
    hide Uploadable;
    hide IsTagged;
    hide TagsOf;
    hide Missing;
    hide Ancestors;
    hide Tops;
    hide Found;
    hide ParentsFirst;
    hide NoRepeats;
    hide ExactlyNeeded;
    var pusher := new Pusher;
    pusher.dependenciesSeen := {};
    var imagesSeen: set<ImageID> := {};
    list, tagsByImage := [], map[];
    NothingListed(associations);
    NothingNeeded(tops);
    for i := 0 to |associations|
      invariant Uploadable(list, pusher.dependenciesSeen)
      invariant imagesSeen == Tops(list)
      invariant imagesSeen == {} <==> list == []
      invariant TaggedSoFar(associations[..i], imagesSeen)
      invariant forall img :: img in imagesSeen ==> Found(tops, layers, img)
      invariant TagsSoFar(associations[..i], tagsByImage)
      invariant tagsByImage.Keys == imagesSeen
      invariant ExactlyNeeded(pusher.dependenciesSeen, imagesSeen, tops)
    {
      var a := associations[i];
      TagsOneMore(associations, i, imagesSeen, tagsByImage);
      if a.tag.Some? {
        tagsByImage := tagsByImage[a.image := (if a.image in tagsByImage then tagsByImage[a.image] else []) + [a.tag.value]];
        if a.image !in imagesSeen {
          imagesSeen := imagesSeen + {a.image};
          ghost var seen := pusher.dependenciesSeen;
          var more, found := pusher.ImageListForTag(a.image, tops, layers, true);
          FoundMeans(tops, layers, a.image);
          if !found {
            IsTaggedBy(associations, i);
            return [], map[], false;
          }
          TagKeepsUploadable(list, seen, a.image, tops[a.image]);
          NeededOneMore(seen, imagesSeen - {a.image}, tops, a.image);
          list := list + more;
        }
      }
    }
    assert associations[..|associations|] == associations;
    AllTagged(associations, imagesSeen, tagsByImage);
    UploadableParts(list, pusher.dependenciesSeen);
    ok := list != [];
  }

  lemma FoundMeans(tops: map<ImageID, Option<ChainID>>, layers: set<ChainID>, img: ImageID)
    ensures Found(tops, layers, img) <==> img in tops && (tops[img].Some? ==> tops[img].value in layers)
  {}

  lemma UploadableParts(list: seq<Entry>, seen: set<ChainID>)
    requires Uploadable(list, seen)
    ensures ParentsFirst(list) && NoRepeats(list) && Dependencies(list) == seen
  {}

  /** Layer `c` lies below the top layer of one of these images. */
  ghost predicate BelowSome(c: ChainID, images: set<ImageID>, tops: map<ImageID, Option<ChainID>>) {
    exists img :: img in images && img in tops && Below(tops[img]).Some? && AncestorOrSelf(c, Below(tops[img]).value)
  }

  /** The dependencies are exactly the layers below the top layers of these images. */
  ghost predicate ExactlyNeeded(dependencies: set<ChainID>, images: set<ImageID>, tops: map<ImageID, Option<ChainID>>) {
    forall c :: c in dependencies <==> BelowSome(c, images, tops)
  }

  lemma NothingNeeded(tops: map<ImageID, Option<ChainID>>)
    ensures ExactlyNeeded({}, {}, tops)
  {}

  lemma NeededOneMore(dependencies: set<ChainID>, images: set<ImageID>, tops: map<ImageID, Option<ChainID>>, img: ImageID)
    requires ExactlyNeeded(dependencies, images, tops) && img in tops
    ensures ExactlyNeeded(dependencies + Ancestors(Below(tops[img])), images + {img}, tops)
  {
    hide AncestorOrSelf;
    hide AncestorsOf;
    var below := Below(tops[img]);
    forall c ensures c in dependencies + Ancestors(below) <==> BelowSome(c, images + {img}, tops) {
      if below.Some? { AncestorsAreAncestors(c, below.value); }
      assert c in dependencies <==> BelowSome(c, images, tops);
    }
  }

  lemma IsTaggedBy(associations: seq<Association>, i: nat)
    requires i < |associations| && associations[i].tag.Some?
    ensures IsTagged(associations, associations[i].image)
  {}

  /** The images seen are the tagged ones. */
  ghost predicate TaggedSoFar(associations: seq<Association>, seen: set<ImageID>) {
    forall img :: img in seen <==> IsTagged(associations, img)
  }

  ghost predicate TagsSoFar(associations: seq<Association>, tags: map<ImageID, seq<string>>) {
    forall img :: TagsOf(associations, img) == if img in tags then tags[img] else []
  }

  lemma NothingListed(associations: seq<Association>)
    ensures Uploadable([], {}) && Tops([]) == {}
    ensures TaggedSoFar(associations[..0], {}) && TagsSoFar(associations[..0], map[])
  {}

  lemma TagsOneMore(associations: seq<Association>, i: nat, seen: set<ImageID>, tags: map<ImageID, seq<string>>)
    requires i < |associations| && TaggedSoFar(associations[..i], seen) && TagsSoFar(associations[..i], tags)
    ensures var a := associations[i];
            if a.tag.None? then TaggedSoFar(associations[..i + 1], seen) && TagsSoFar(associations[..i + 1], tags)
            else
              && TaggedSoFar(associations[..i + 1], seen + {a.image})
              && TagsSoFar(associations[..i + 1], tags[a.image := (if a.image in tags then tags[a.image] else []) + [a.tag.value]])
  {
    hide IsTagged;
    TaggedOneMore(associations, i);
    var next := associations[..i + 1];
    assert next[..|next| - 1] == associations[..i] && next[|next| - 1] == associations[i];
  }

  lemma AllTagged(associations: seq<Association>, seen: set<ImageID>, tags: map<ImageID, seq<string>>)
    requires TaggedSoFar(associations, seen) && TagsSoFar(associations, tags) && tags.Keys == seen
    ensures forall img :: img in seen <==> IsTagged(associations, img)
    ensures seen != {} <==> exists img :: IsTagged(associations, img)
    ensures forall img :: IsTagged(associations, img) ==> img in tags && tags[img] == TagsOf(associations, img)
  {
    hide IsTagged;
    if seen != {} {
      var img :| img in seen;
      assert IsTagged(associations, img);
    }
  }

  lemma TaggedOneMore(associations: seq<Association>, i: nat)
    requires i < |associations|
    ensures forall img :: IsTagged(associations[..i + 1], img) <==>
              IsTagged(associations[..i], img) || (associations[i].image == img && associations[i].tag.Some?)
  {
    var now, next := associations[..i], associations[..i + 1];
    forall img ensures IsTagged(next, img) <==> IsTagged(now, img) || (associations[i].image == img && associations[i].tag.Some?) {
      if IsTagged(now, img) {
        var k :| 0 <= k < |now| && now[k].image == img && now[k].tag.Some?;
        assert next[k] == now[k];
      }
      if associations[i].image == img && associations[i].tag.Some? { assert next[i] == associations[i]; }
      if IsTagged(next, img) {
        var k :| 0 <= k < |next| && next[k].image == img && next[k].tag.Some?;
        if k < i { assert now[k] == next[k]; }
      }
    }
  }

  /** A push of one tag, without a map of seen layers, is ordered in the same way. */
  lemma SingleTagIsUploadable(img: ImageID, top: Option<ChainID>)
    ensures var below := Below(top);
            var list := Missing({}, below) + [Top(img, top, below)];
            ParentsFirst(list) && NoRepeats(list) && Dependencies(list) == Ancestors(below)
  {
    var below := Below(top);
    var list := Missing({}, below) + [Top(img, top, below)];
    hide ParentsFirst;
    hide NoRepeats;
    hide Missing;
    hide Ancestors;
    NothingListed([]);
    TagKeepsUploadable([], {}, img, top);
    assert [] + list == list && {} + Ancestors(below) == Ancestors(below);
  }
}
