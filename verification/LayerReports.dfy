/** What Release reports: the layers it removed, from the top down, each with its diff and sizes. */
module LayerReports {
  import opened Wrappers
  import opened ChainIDs
  import opened LayerModel
  import opened LayerInvariant
  import opened LayerReachability

  /** The layers of a chain, root first. */
  function Ancestry(c: ChainID): (r: seq<ChainID>)
    ensures |r| == |Diffs(c)| && r[|r| - 1] == c
  {
    (if c.Chained? then Ancestry(c.parent) else []) + [c]
  }

  lemma {:induction false} AncestryIsAncestors(c: ChainID, k: nat)
    requires k < |Diffs(c)|
    ensures AncestorOrSelf(Ancestry(c)[k], c) && Diffs(Ancestry(c)[k]) == Diffs(c)[..k + 1]
  {
    if k + 1 < |Diffs(c)| {
      AncestryIsAncestors(c.parent, k);
      assert Ancestry(c)[k] == Ancestry(c.parent)[k];
      assert Diffs(c)[..k + 1] == Diffs(c.parent)[..k + 1];
    } else {
      assert Diffs(c)[..k + 1] == Diffs(c);
    }
  }

  function Sum(xs: seq<int>): int {
    if xs == [] then 0 else Sum(xs[..|xs| - 1]) + xs[|xs| - 1]
  }

  /** All layers of the chain are there. */
  ghost predicate Complete(layers: map<ChainID, Layer>, c: ChainID) {
    forall a :: AncestorOrSelf(a, c) ==> a in layers
  }

  /** The sizes of the layers of a chain, root first. */
  ghost function Sizes(layers: map<ChainID, Layer>, c: ChainID): seq<int>
    requires Complete(layers, c)
  {
    seq(|Ancestry(c)|, k requires 0 <= k < |Ancestry(c)| => AncestryIsAncestors(c, k); layers[Ancestry(c)[k]].size)
  }

  /** Size is the sum of the sizes of all layers of the chain. */
  lemma {:induction false} SizeIsSum(layers: map<ChainID, Layer>, c: ChainID)
    requires WellKeyed(layers) && Complete(layers, c)
    ensures c in layers && ChainSize(layers, c) == Sum(Sizes(layers, c))
    decreases c
  {
    assert AncestorOrSelf(c, c);
    var sizes := Sizes(layers, c);
    var n := |sizes| - 1;
    assert sizes[n] == layers[c].size;
    if c.Chained? {
      assert AncestorOrSelf(c.parent, c);
      assert forall a :: AncestorOrSelf(a, c.parent) ==> AncestorOrSelf(a, c);
      SizeIsSum(layers, c.parent);
      assert sizes[..n] == Sizes(layers, c.parent);
    } else {
      assert sizes[..n] == [];
    }
  }

  /** `layers` are what is left of `before`, as far as parents and sizes go. */
  ghost predicate PartOf(layers: map<ChainID, Layer>, before: map<ChainID, Layer>) {
    forall c :: c in layers ==> c in before && layers[c].size == before[c].size
  }

  lemma SizesStay(layers: map<ChainID, Layer>, before: map<ChainID, Layer>, c: ChainID)
    requires PartOf(layers, before) && Complete(layers, c)
    ensures Complete(before, c) && Sizes(layers, c) == Sizes(before, c)
  {
    forall k: nat | k < |Ancestry(c)| ensures Sizes(layers, c)[k] == Sizes(before, c)[k] { AncestryIsAncestors(c, k); }
  }

  /** The `k`-th layer from the top. */
  function Up(c: ChainID, k: nat): ChainID
    requires k < |Diffs(c)|
    decreases k
  {
    if k == 0 then c else Up(c.parent, k - 1)
  }

  lemma {:induction false} UpIsAncestor(c: ChainID, k: nat)
    requires k < |Diffs(c)|
    ensures AncestorOrSelf(Up(c, k), c) && Diffs(Up(c, k)) == Diffs(c)[..|Diffs(c)| - k]
    decreases k
  {
    if k == 0 {
      assert Diffs(c)[..|Diffs(c)|] == Diffs(c);
    } else {
      UpIsAncestor(c.parent, k - 1);
      assert Diffs(c)[..|Diffs(c)| - k] == Diffs(c.parent)[..|Diffs(c)| - k];
    }
  }

  /** A report is one of layer `m.chain`, as it was in the store `before`. */
  ghost predicate Reports(before: map<ChainID, Layer>, m: Metadata, c: ChainID) {
    && Complete(before, c) && c in before
    && m.chain == c && m.diff == c.diff && m.diffSize == before[c].size && m.size == Sum(Sizes(before, c))
  }

  /** The reports of the layers from `c` up. */
  ghost predicate ReportsFrom(before: map<ChainID, Layer>, removed: seq<Metadata>, c: ChainID) {
    |removed| <= |Diffs(c)| && forall k :: 0 <= k < |removed| ==> Reports(before, removed[k], Up(c, k))
  }

  lemma ReportOne(core: Core, holds: Holds, owed: Option<ChainID>, before: map<ChainID, Layer>, c: ChainID)
    requires InvOwing(core, holds, owed) && PartOf(core.layers, before) && c in core.layers && core.layers[c].refCount > 0
    ensures WellKeyed(Drop(core, c).layers) && Reports(before, MetadataOf(Drop(core, c).layers, c), c)
  {
    var layers := Drop(core, c).layers;
    assert WellKeyed(layers);
    forall a | AncestorOrSelf(a, c) ensures a in layers { ChainsAreComplete(core, holds, a, c); }
    SizeIsSum(layers, c);
    assert PartOf(layers, before);
    SizesStay(layers, before, c);
    assert c == Extend(layers[c].parent, layers[c].diff);
  }

  /** What one iteration adds to the report: nothing, or the layer it removes. */
  lemma ReleaseStepReports(core: Core, holds: Holds, before: map<ChainID, Layer>, c: ChainID, removed: seq<Metadata>, depth: nat, failing: set<ChainID>) returns (m: Metadata)
    requires InvOwing(core, holds, Some(c)) && PartOf(core.layers, before) && WellKeyed(core.layers)
    requires |removed| > 0 || depth == 0
    ensures Reports(before, m, c)
    ensures match ReleaseStep(core, c, removed, depth, failing)
            case Stop(r) => if r.outcome.RemovalFailed? then r.removed == [] else r.removed == removed || r.removed == removed + [m]
            case Continue(core', p, removed') => removed' == removed + [m] && ParentOf(c) == Some(p) && PartOf(core'.layers, before)
  {
    hide InvOwing;
    hide Reports;
    hide WellKeyed;
    hide MetadataOf;
    InvFacts(core, holds, Some(c));
    DropSpendsToken(core, holds, c);
    ReportOne(core, holds, Some(c), before, c);
    ParentOfStored(core, holds, c);
    m := MetadataOf(Drop(core, c).layers, c);
  }

  lemma {:induction false} ReleaseFromReports(core: Core, holds: Holds, before: map<ChainID, Layer>, c: ChainID, removed: seq<Metadata>, depth: nat, failing: set<ChainID>)
    requires InvOwing(core, holds, Some(c)) && PartOf(core.layers, before) && WellKeyed(core.layers)
    requires |removed| > 0 || depth == 0
    ensures var r := ReleaseFrom(core, c, removed, depth, failing);
            if r.outcome.RemovalFailed? then r.removed == []
            else removed <= r.removed && ReportsFrom(before, r.removed[|removed|..], c)
    decreases |core.layers|
  {
    hide InvOwing;
    hide Reports;
    hide ReportsFrom;
    hide WellKeyed;
    hide PartOf;
    hide ReleaseStep;
    ReleaseStepKeepsInv(core, holds, c, removed, depth, failing);
    var m := ReleaseStepReports(core, holds, before, c, removed, depth, failing);
    OneReport(before, m, c);
    assert removed[|removed|..] == [] && (removed + [m])[|removed|..] == [m];
    match ReleaseStep(core, c, removed, depth, failing)
    case Stop(_) =>
    case Continue(core', p, removed') =>
      ReleaseFromReports(core', holds, before, p, removed', depth + 1, failing);
      var r := ReleaseFrom(core', p, removed', depth + 1, failing);
      if !r.outcome.RemovalFailed? {
        assert r.removed[|removed|..] == [m] + r.removed[|removed'|..];
        OneMoreReport(before, m, r.removed[|removed'|..], c);
      }
  }

  lemma ParentOfStored(core: Core, holds: Holds, c: ChainID)
    requires InvOwing(core, holds, Some(c))
    ensures c in core.layers && core.layers[c].parent == ParentOf(c)
  {}

  lemma OneReport(before: map<ChainID, Layer>, m: Metadata, c: ChainID)
    requires Reports(before, m, c)
    ensures ReportsFrom(before, [m], c) && ReportsFrom(before, [], c)
  {}

  lemma OneMoreReport(before: map<ChainID, Layer>, m: Metadata, rest: seq<Metadata>, c: ChainID)
    requires Reports(before, m, c) && c.Chained? && ReportsFrom(before, rest, c.parent)
    ensures ReportsFrom(before, [m] + rest, c)
  {
    hide Reports;
    var all := [m] + rest;
    assert Up(c, 0) == c;
    forall k | 0 <= k < |all| ensures Reports(before, all[k], Up(c, k)) {
      if k > 0 { assert all[k] == rest[k - 1]; }
    }
  }

  /**
    The report of a release: entry `k` is the `k`-th layer from the top, with its own diff and size,
    and with the sum of the sizes of all layers of its chain; nothing is reported when a removal
    fails. A handle that is not held is refused, an unknown layer is no error, and both change nothing.
  */
  lemma ReleaseReports(core: Core, holds: Holds, h: Handle, failing: set<ChainID>)
    requires Inv(core, holds) && WellKeyed(core.layers)
    ensures var (core', removed, err) := Release(core, h, failing);
            && (h.chain !in core.layers ==> (core', removed, err) == (core, [], NoError))
            && (h.chain in core.layers && !Retains(core, h) ==> (core', removed, err) == (core, [], NotRetained))
            && (Retains(core, h) ==> ReportsFrom(core.layers, removed, h.chain))
            && (err.StorageError? ==> removed == [])
  {
    hide InvOwing;
    hide Reports;
    hide ReleaseFrom;
    if Retains(core, h) {
      var core1 := Dereference(core, h);
      HandleToToken(core, holds, h);
      ReleaseFromReports(core1, holds, core.layers, h.chain, [], 0, failing);
    }
  }

  /** The two panics of releaseLayer that any caller could cause in a store without the invariant. */
  lemma UncountedReleasePanics(core: Core, c: ChainID, failing: set<ChainID>)
    requires WellKeyed(core.layers) && c in core.layers
    ensures core.layers[c].refCount == 0 ==> ReleaseLayer(core, c, failing).outcome == LayerNotRetained
    ensures core.layers[c].refCount == 1 && core.layers[c].refs != {} ==> ReleaseLayer(core, c, failing).outcome == LayerReferenced
  {}
}
