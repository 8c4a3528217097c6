/** The walk over an image's layers in a v2 push (distribution/push_v2.go). */
module PushV2 {
  import opened Wrappers
  import opened ChainIDs
  import opened LayerModel
  import opened LayerInvariant
  import opened ImageModel
  import opened ImageNames

  /** The chain of the first `n` diffs of an image. */
  function PrefixChain(diffIDs: seq<DiffID>, n: nat): Option<ChainID>
    requires n <= |diffIDs|
  {
    CreateChainID(diffIDs[..n])
  }

  /** The chain of one more diff has the chain of the diffs before it as its parent. */
  lemma PrefixParent(diffIDs: seq<DiffID>, n: nat)
    requires 0 < n <= |diffIDs|
    ensures PrefixChain(diffIDs, n) == Some(Extend(PrefixChain(diffIDs, n - 1), diffIDs[n - 1]))
  {
    var p := PrefixChain(diffIDs, n - 1);
    var c := Extend(p, diffIDs[n - 1]);
    ChainIDRoundTrip(diffIDs[..n - 1], c);
    assert Diffs(c) == diffIDs[..n - 1] + [diffIDs[n - 1]] == diffIDs[..n];
  }

  /** A stored layer has the diff and the parent of its chain. */
  lemma StoredLayer(core: Core, holds: Holds, diffIDs: seq<DiffID>, n: nat)
    requires Inv(core, holds) && 0 < n <= |diffIDs|
    requires PrefixChain(diffIDs, n).Some? && PrefixChain(diffIDs, n).value in core.layers
    ensures var l := core.layers[PrefixChain(diffIDs, n).value];
            l.diff == diffIDs[n - 1] && l.parent == PrefixChain(diffIDs, n - 1) && Present(core, l.parent)
  {
    hide Inv;
    InvParts(core, holds);
    PrefixParent(diffIDs, n);
    ParentIsStored(core, holds, PrefixChain(diffIDs, n).value);
  }

  /** The diff of layer.EmptyLayer, which stands for the top layer of an image without one. */
  const EMPTY_TAR: DiffID := "sha256:5f70bf18a086007016e948b04aed3b82103a36bea41755b6cddfaf10ace3c6ef"

  /** The diffs of the layers that a walk from `top` can visit, root first. */
  function LayersFrom(top: Option<ChainID>): seq<DiffID> {
    if top.None? then [EMPTY_TAR] else Diffs(top.value)
  }

  function Reversed(s: seq<DiffID>): seq<DiffID> {
    seq(|s|, i requires 0 <= i < |s| => s[|s| - 1 - i])
  }

  lemma ReversedTwice(s: seq<DiffID>)
    ensures Reversed(Reversed(s)) == s && forall x :: x in Reversed(s) <==> x in s
    ensures |Reversed(s)| == |s| && forall i :: 0 <= i < |s| ==> Reversed(s)[i] == s[|s| - 1 - i]
  {
    forall x | x in s ensures x in Reversed(s) {
      var i :| 0 <= i < |s| && s[i] == x;
      assert Reversed(s)[|s| - 1 - i] == x;
    }
  }

  /** What a walk of `count` layers from `top` reads, root first. */
  function WalkedDiffs(top: Option<ChainID>, count: nat): seq<DiffID>
    requires count <= |LayersFrom(top)|
  {
    LayersFrom(top)[|LayersFrom(top)| - count..]
  }

  /** Where the walk is: at the empty layer, at a stored one, or past the root. */
  datatype Cursor = AtEmpty | At(chain: ChainID) | PastRoot

  ghost function CursorAt(top: Option<ChainID>, left: nat): Cursor
    requires left <= |LayersFrom(top)|
  {
    if left == 0 then PastRoot
    else if top.None? then AtEmpty
    else
      ChainIDRoundTrip(Diffs(top.value)[..left], top.value);
      At(PrefixChain(Diffs(top.value), left).value)
  }

  /** One step of the walk: the layer it is at, and its parent. */
  lemma CursorStep(core: Core, holds: Holds, top: Option<ChainID>, left: nat)
    requires Inv(core, holds) && Present(core, top) && 0 < left <= |LayersFrom(top)|
    requires CursorAt(top, left).At? ==> CursorAt(top, left).chain in core.layers
    ensures CursorAt(top, left).At? ==>
              && CursorAt(top, left).chain in core.layers
              && var l := core.layers[CursorAt(top, left).chain];
                 && l.diff == LayersFrom(top)[left - 1]
                 && CursorAt(top, left - 1) == (if l.parent.None? then PastRoot else At(l.parent.value))
                 && (l.parent.Some? ==> l.parent.value in core.layers)
    ensures CursorAt(top, left).AtEmpty? ==> LayersFrom(top)[left - 1] == EMPTY_TAR && CursorAt(top, left - 1) == PastRoot
  {
    hide Inv;
    if top.Some? {
      var diffs := Diffs(top.value);
      ChainIDRoundTrip(diffs[..left], top.value);
      ChainIDRoundTrip(diffs[..left - 1], top.value);
      assert diffs[..|diffs|] == diffs;
      StoredLayer(core, holds, diffs, left);
    }
  }

  /**
    The loop of pushV2Tag that collects `count` descriptors, one per diff of the configuration,
    starting from the top layer. It runs off the chain, where the engine calls a method of a nil
    layer, exactly when there are more diffs than layers; otherwise the descriptors are the diffs of
    the layers, top first.
  */
  method CollectDescriptors(core: Core, ghost holds: Holds, top: Option<ChainID>, count: nat) returns (descriptors: seq<DiffID>, ok: bool)
    requires Inv(core, holds) && Present(core, top)
    ensures ok <==> count <= |LayersFrom(top)|
    ensures ok ==> descriptors == Reversed(WalkedDiffs(top, count))
  {
    hide Inv;
    hide CreateChainID;
    hide Reversed;
    hide WalkedDiffs;
    hide CursorAt;
    hide LayersFrom;
    ghost var n := |LayersFrom(top)|;
    descriptors := [];
    var l := if top.None? then AtEmpty else At(top.value);
    StartsAtTop(top);
    for i := 0 to count
      invariant i <= n && l == CursorAt(top, n - i)
      invariant l.At? ==> l.chain in core.layers
      invariant descriptors == Reversed(WalkedDiffs(top, i))
    {
      if l.PastRoot? {
        NotPastRoot(top, n - i);
        return descriptors, false;
      }
      if i == n { EndsPastRoot(top); }
      CursorStep(core, holds, top, n - i);
      WalkOneMore(top, i);
      if l.AtEmpty? {
        descriptors := descriptors + [EMPTY_TAR];
        l := PastRoot;
      } else {
        var layer := core.layers[l.chain];
        descriptors := descriptors + [layer.diff];
        l := if layer.parent.None? then PastRoot else At(layer.parent.value);
      }
    }
    ok := true;
  }

  lemma WalkOneMore(top: Option<ChainID>, i: nat)
    requires i < |LayersFrom(top)|
    ensures Reversed(WalkedDiffs(top, i + 1)) == Reversed(WalkedDiffs(top, i)) + [LayersFrom(top)[|LayersFrom(top)| - 1 - i]]
  {}

  lemma NotPastRoot(top: Option<ChainID>, left: nat)
    requires left <= |LayersFrom(top)| && CursorAt(top, left).PastRoot?
    ensures left == 0
  {}

  lemma EndsPastRoot(top: Option<ChainID>)
    ensures CursorAt(top, 0) == PastRoot
  {}

  lemma StartsAtTop(top: Option<ChainID>)
    ensures CursorAt(top, |LayersFrom(top)|) == if top.None? then AtEmpty else At(top.value)
    ensures top.Some? ==> LayersFrom(top) != []
    ensures Reversed(WalkedDiffs(top, 0)) == []
  {
    if top.Some? {
      assert Diffs(top.value)[..|Diffs(top.value)|] == Diffs(top.value);
      ChainIDRoundTrip([], top.value);
    }
  }

  /** The builder takes all of these references. */
  ghost predicate AllTaken(references: seq<DiffID>, appendOK: DiffID -> bool) {
    forall x :: x in references ==> appendOK(x)
  }

  /** manifestFromBuilder: the references in reverse order; `appendOK` says which appends succeed. */
  method ManifestFromBuilder(descriptors: seq<DiffID>, appendOK: DiffID -> bool) returns (references: seq<DiffID>, ok: bool)
    ensures ok <==> AllTaken(descriptors, appendOK)
    ensures ok ==> references == Reversed(descriptors)
  {
    references := [];
    var i := |descriptors| - 1;
    while i >= 0
      invariant -1 <= i < |descriptors|
      invariant |references| == |descriptors| - 1 - i
      invariant forall k :: 0 <= k < |references| ==> references[k] == descriptors[|descriptors| - 1 - k]
      invariant forall k :: i < k < |descriptors| ==> appendOK(descriptors[k])
    {
      if !appendOK(descriptors[i]) { return references, false; }
      references := references + [descriptors[i]];
      i := i - 1;
    }
    ok := true;
  }

  datatype ManifestResult = Built(references: seq<DiffID>) | TopLayerMissing | RunsOffChain | Refused

  /**
    The manifest of an image lists the diffs of as many of its layers as the configuration has diffs,
    root first; ManifestListsDiffs says when these are the diffs of the configuration.
  */
  method BuildManifest(core: Core, ghost holds: Holds, config: Config, appendOK: DiffID -> bool) returns (r: ManifestResult)
    requires Inv(core, holds)
    ensures r.TopLayerMissing? <==> !Present(core, config.top)
    ensures r.RunsOffChain? <==> Present(core, config.top) && |config.diffIDs| > |LayersFrom(config.top)|
    ensures Present(core, config.top) && |config.diffIDs| <= |LayersFrom(config.top)| ==>
              var walked := WalkedDiffs(config.top, |config.diffIDs|);
              r == if AllTaken(walked, appendOK) then Built(walked) else Refused
  {
    hide Inv;
    hide Reversed;
    hide WalkedDiffs;
    hide LayersFrom;
    if config.top.Some? && config.top.value !in core.layers { return TopLayerMissing; }
    var descriptors, onChain := CollectDescriptors(core, holds, config.top, |config.diffIDs|);
    if !onChain { return RunsOffChain; }
    var references, ok := ManifestFromBuilder(descriptors, appendOK);
    ReversedTwice(WalkedDiffs(config.top, |config.diffIDs|));
    r := if ok then Built(references) else Refused;
  }

  /**
    The walk over the layers of an image with a top layer stays on the chain and reads the diffs of
    its configuration, in order, if and only if these are well-formed digests and the first is not
    the identifier of several of the layers. With well-formed digests it stays on the chain anyway.
  */
  lemma ManifestListsDiffs(h: string -> string, n: nat, texts: set<string>, core: Core, config: Config)
    requires Digests(h, n) && NoCollision(h, texts) && AllRegistered(h, n, texts, core.layers) && HashedFor(h, config.diffIDs) <= texts
    requires Named(h, n, texts, config) && config.top.Some? && config.top.value in core.layers
    ensures |config.diffIDs| <= |LayersFrom(config.top)| && WalkedDiffs(config.top, |config.diffIDs|) == config.diffIDs
            <==> ReadsAsDiffs(h, n, config.diffIDs, config.top.value)
    ensures Sized(n, config.diffIDs) ==> |config.diffIDs| <= |LayersFrom(config.top)|
  {
    hide Named;
    hide Render;
    hide StringFromParent;
    hide TarChain;
    hide Sized;
    hide ReadsAsDiffs;
    hide Diffs;
    hide HashedFor;
    NamedTop(h, n, texts, config);
    WalkReadsExactly(h, n, texts, config.diffIDs, config.top.value);
  }
}
