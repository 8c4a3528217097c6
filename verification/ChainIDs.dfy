/**
  Layer chain identifiers (layer/layer.go), after the "Layer ChainID" definition of the image
  configuration document of the OCI Image Format Specification.

  The stores below are keyed by the symbolic identifiers of this module. `Render` writes a symbolic
  identifier out as the string the engine computes with a concrete hash, and `RenderInjective`
  shows that nothing is lost by working with symbolic identifiers, unless two of the texts that are
  actually hashed collide.
*/
module ChainIDs {
  import opened Wrappers

  type DiffID = string

  datatype ChainID = Base(diff: DiffID) | Chained(parent: ChainID, diff: DiffID)

  /** The identifier of one more layer on top of `parent` (`None` is the empty identifier). */
  function Extend(parent: Option<ChainID>, diff: DiffID): ChainID {
    if parent.None? then Base(diff) else Chained(parent.value, diff)
  }

  function ParentOf(c: ChainID): Option<ChainID> {
    if c.Base? then None else Some(c.parent)
  }

  /** createChainIDFromParent. */
  function FromParent(parent: Option<ChainID>, diffs: seq<DiffID>): Option<ChainID>
    decreases |diffs|
  {
    if diffs == [] then parent
    else FromParent(Some(Extend(parent, diffs[0])), diffs[1..])
  }

  /** CreateChainID. */
  function CreateChainID(diffs: seq<DiffID>): Option<ChainID> {
    FromParent(None, diffs)
  }

  /** The diff identifiers of a chain, root first. */
  function Diffs(c: ChainID): (r: seq<DiffID>)
    ensures |r| >= 1
  {
    match c
    case Base(d) => [d]
    case Chained(p, d) => Diffs(p) + [d]
  }

  function DiffsOf(c: Option<ChainID>): seq<DiffID> {
    if c.None? then [] else Diffs(c.value)
  }

  lemma {:induction false} FromParentAppends(parent: Option<ChainID>, diffs: seq<DiffID>)
    ensures DiffsOf(FromParent(parent, diffs)) == DiffsOf(parent) + diffs
    ensures FromParent(parent, diffs).None? <==> parent.None? && diffs == []
    decreases |diffs|
  {
    if diffs != [] {
      var next := Some(Extend(parent, diffs[0]));
      FromParentAppends(next, diffs[1..]);
      assert DiffsOf(next) == DiffsOf(parent) + [diffs[0]];
      assert DiffsOf(parent) + diffs == DiffsOf(parent) + [diffs[0]] + diffs[1..];
    }
  }

  lemma {:induction false} DiffsInjective(a: ChainID, b: ChainID)
    requires Diffs(a) == Diffs(b)
    ensures a == b
  {
    var n := |Diffs(a)|;
    assert a.diff == Diffs(a)[n - 1] == Diffs(b)[n - 1] == b.diff;
    if a.Chained? && b.Chained? {
      assert Diffs(a.parent) == Diffs(a)[..n - 1] == Diffs(b)[..n - 1] == Diffs(b.parent);
      DiffsInjective(a.parent, b.parent);
    }
  }

  /** CreateChainID and Diffs undo each other. */
  lemma ChainIDRoundTrip(diffs: seq<DiffID>, c: ChainID)
    ensures DiffsOf(CreateChainID(diffs)) == diffs
    ensures CreateChainID(diffs).None? <==> diffs == []
    ensures CreateChainID(Diffs(c)) == Some(c)
  {
    FromParentAppends(None, diffs);
    FromParentAppends(None, Diffs(c));
    DiffsInjective(CreateChainID(Diffs(c)).value, c);
  }

  /** CreateChainID never maps two diff lists to the same identifier. */
  lemma ChainIDInjective(xs: seq<DiffID>, ys: seq<DiffID>)
    requires CreateChainID(xs) == CreateChainID(ys)
    ensures xs == ys
  {
    FromParentAppends(None, xs);
    FromParentAppends(None, ys);
    assert [] + xs == xs && [] + ys == ys;
  }

  // ---------------------------------------------------------------- ancestors

  predicate AncestorOrSelf(a: ChainID, c: ChainID) {
    a == c || (c.Chained? && AncestorOrSelf(a, c.parent))
  }

  /** The ancestors of a layer are the layers of the non-empty prefixes of its diff list. */
  lemma {:induction false} AncestorsArePrefixes(a: ChainID, c: ChainID)
    ensures AncestorOrSelf(a, c) <==> Diffs(a) <= Diffs(c)
  {
    var n := |Diffs(c)|;
    if c.Chained? {
      AncestorsArePrefixes(a, c.parent);
      assert Diffs(c.parent) == Diffs(c)[..n - 1];
    }
    if Diffs(a) == Diffs(c) { DiffsInjective(a, c); }
  }

  lemma {:induction false} AncestorTransitive(a: ChainID, b: ChainID, c: ChainID)
    requires AncestorOrSelf(a, b) && AncestorOrSelf(b, c)
    ensures AncestorOrSelf(a, c)
  {
    if b != c { AncestorTransitive(a, b, c.parent); }
  }

  // ---------------------------------------------------------------- the strings the engine stores

  /** createChainIDFromParent on strings: `h` is the digest function, "" the empty identifier. */
  function StringFromParent(h: string -> string, parent: string, diffs: seq<string>): string
    decreases |diffs|
  {
    if diffs == [] then parent
    else if parent == "" then StringFromParent(h, diffs[0], diffs[1..])
    else StringFromParent(h, h(parent + " " + diffs[0]), diffs[1..])
  }

  function Render(h: string -> string, c: ChainID): string {
    match c
    case Base(d) => d
    case Chained(p, d) => h(Render(h, p) + " " + d)
  }

  function RenderOption(h: string -> string, c: Option<ChainID>): string {
    if c.None? then "" else Render(h, c.value)
  }

  /** `h` writes digests of `n` characters ("sha256:" and 64 hexadecimal digits are 71). */
  ghost predicate Digests(h: string -> string, n: nat) {
    n > 0 && forall x :: |h(x)| == n
  }

  /** No two of these texts have the same digest. */
  ghost predicate NoCollision(h: string -> string, texts: set<string>) {
    forall x, y :: x in texts && y in texts && h(x) == h(y) ==> x == y
  }

  /** The texts that are hashed on the way to the identifier of a chain. */
  function Hashed(h: string -> string, c: ChainID): set<string> {
    match c
    case Base(_) => {}
    case Chained(p, d) => Hashed(h, p) + {Render(h, p) + " " + d}
  }

  function HashedFor(h: string -> string, diffs: seq<DiffID>): set<string> {
    var c := CreateChainID(diffs);
    if c.None? then {} else Hashed(h, c.value)
  }

  /**
    A diff identifier is the digest of a tar stream. Tar streams are blocks of 512 bytes, so they are
    not as long as the text hashed for a chain: two digests and a space.
  */
  ghost predicate TarDigest(h: string -> string, n: nat, texts: set<string>, d: DiffID) {
    exists tar :: tar in texts && |tar| != 2 * n + 1 && h(tar) == d
  }

  ghost predicate TarDigests(h: string -> string, n: nat, texts: set<string>, diffs: seq<DiffID>) {
    forall i :: 0 <= i < |diffs| ==> TarDigest(h, n, texts, diffs[i])
  }

  ghost predicate Sized(n: nat, diffs: seq<DiffID>) {
    forall i :: 0 <= i < |diffs| ==> |diffs[i]| == n
  }

  lemma TarDigestsAreSized(h: string -> string, n: nat, texts: set<string>, diffs: seq<DiffID>)
    requires Digests(h, n) && TarDigests(h, n, texts, diffs)
    ensures Sized(n, diffs)
  {
    forall i | 0 <= i < |diffs| ensures |diffs[i]| == n { assert TarDigest(h, n, texts, diffs[i]); }
  }

  lemma LastDiff(c: ChainID)
    ensures Diffs(c)[|Diffs(c)| - 1] == c.diff
    ensures c.Chained? ==> Diffs(c.parent) == Diffs(c)[..|Diffs(c)| - 1]
  {}

  lemma RenderIsSized(h: string -> string, n: nat, c: ChainID)
    requires Digests(h, n) && Sized(n, Diffs(c))
    ensures |Render(h, c)| == n
  {
    LastDiff(c);
  }

  /** The string computation is the rendering of the symbolic one. */
  lemma {:induction false} StringFromParentRenders(h: string -> string, n: nat, parent: Option<ChainID>, diffs: seq<DiffID>)
    requires Digests(h, n) && Sized(n, DiffsOf(parent)) && Sized(n, diffs)
    ensures StringFromParent(h, RenderOption(h, parent), diffs) == RenderOption(h, FromParent(parent, diffs))
    decreases |diffs|
  {
    if parent.Some? { RenderIsSized(h, n, parent.value); }
    if diffs != [] {
      assert |diffs[0]| == n;
      var next := Some(Extend(parent, diffs[0]));
      assert DiffsOf(next) == DiffsOf(parent) + [diffs[0]];
      StringFromParentRenders(h, n, next, diffs[1..]);
    }
  }

  lemma SplitText(p: string, d: string, q: string, e: string)
    requires p + " " + d == q + " " + e && |p| == |q|
    ensures p == q && d == e
  {
    var s, t := p + " " + d, q + " " + e;
    assert p == s[..|p|] && q == t[..|q|] && d == s[|p| + 1..] && e == t[|q| + 1..];
  }

  /** `a` is `b` with some of the first layers taken together: its first diff is the identifier of their chain. */
  ghost predicate Collapses(h: string -> string, a: ChainID, b: ChainID) {
    match a
    case Base(d) => b.Chained? && d == Render(h, b)
    case Chained(p, d) => b.Chained? && b.diff == d && Collapses(h, p, b.parent)
  }

  /**
    Two chains have the same string exactly when they are the same or one is the other with some of
    its first layers taken together, unless two of the chain texts hashed for them collide.
  */
  lemma {:induction false} RenderEqualExactly(h: string -> string, n: nat, texts: set<string>, a: ChainID, b: ChainID)
    requires Digests(h, n) && NoCollision(h, texts) && Hashed(h, a) <= texts && Hashed(h, b) <= texts
    requires Sized(n, Diffs(a)) && Sized(n, Diffs(b))
    ensures Render(h, a) == Render(h, b) <==> a == b || Collapses(h, a, b) || Collapses(h, b, a)
  {
    LastDiff(a);
    LastDiff(b);
    if a.Chained? && b.Chained? {
      RenderIsSized(h, n, a.parent);
      RenderIsSized(h, n, b.parent);
      if Render(h, a) == Render(h, b) { SplitText(Render(h, a.parent), a.diff, Render(h, b.parent), b.diff); }
      RenderEqualExactly(h, n, texts, a.parent, b.parent);
    }
  }

  /** What a collapsed chain looks like: the identifier of a longer ancestor, and the diffs above it. */
  lemma {:induction false} CollapsesAt(h: string -> string, a: ChainID, b: ChainID) returns (p: ChainID)
    requires Collapses(h, a, b)
    ensures p.Chained? && AncestorOrSelf(p, b) && |Diffs(p)| <= |Diffs(b)|
    ensures Diffs(a) == [Render(h, p)] + Diffs(b)[|Diffs(p)|..]
  {
    if a.Base? {
      p := b;
    } else {
      p := CollapsesAt(h, a.parent, b.parent);
      assert Diffs(b)[|Diffs(p)|..] == Diffs(b.parent)[|Diffs(p)|..] + [b.diff];
    }
  }

  lemma {:induction false} AncestorIsHashed(h: string -> string, n: nat, p: ChainID, c: ChainID)
    requires AncestorOrSelf(p, c) && Sized(n, Diffs(c))
    ensures Hashed(h, p) <= Hashed(h, c) && Sized(n, Diffs(p))
  {
    LastDiff(c);
    if p != c { AncestorIsHashed(h, n, p, c.parent); }
  }

  lemma TarIsNoChain(h: string -> string, n: nat, texts: set<string>, a: ChainID, b: ChainID)
    requires Digests(h, n) && NoCollision(h, texts) && Hashed(h, b) <= texts && a.Base? && b.Chained?
    requires TarDigests(h, n, texts, Diffs(a)) && Sized(n, Diffs(b))
    ensures Render(h, a) != Render(h, b)
  {
    LastDiff(b);
    assert TarDigest(h, n, texts, Diffs(a)[0]);
    var tar :| tar in texts && |tar| != 2 * n + 1 && h(tar) == a.diff;
    RenderIsSized(h, n, b.parent);
    assert |b.diff| == n && |Render(h, b.parent) + " " + b.diff| == 2 * n + 1;
  }

  /** No diff of a chain of registered layers is the identifier of a chain of several layers. */
  lemma DiffIsNoChain(h: string -> string, n: nat, texts: set<string>, c: ChainID, k: nat, a: ChainID, p: ChainID)
    requires Digests(h, n) && NoCollision(h, texts) && Hashed(h, a) <= texts && k < |Diffs(c)|
    requires TarDigests(h, n, texts, Diffs(c)) && Sized(n, Diffs(a)) && p.Chained? && AncestorOrSelf(p, a)
    ensures Diffs(c)[k] != Render(h, p)
  {
    AncestorIsHashed(h, n, p, a);
    assert TarDigest(h, n, texts, Diffs(c)[k]);
    TarIsNoChain(h, n, texts, Base(Diffs(c)[k]), p);
  }

  /** Chains of registered layers, whose diffs are digests of tar streams, are told apart by their strings. */
  lemma RenderInjective(h: string -> string, n: nat, texts: set<string>, a: ChainID, b: ChainID)
    requires Digests(h, n) && NoCollision(h, texts) && Hashed(h, a) <= texts && Hashed(h, b) <= texts
    requires TarDigests(h, n, texts, Diffs(a)) && TarDigests(h, n, texts, Diffs(b))
    requires Render(h, a) == Render(h, b)
    ensures a == b
  {
    TarDigestsAreSized(h, n, texts, Diffs(a));
    TarDigestsAreSized(h, n, texts, Diffs(b));
    RenderEqualExactly(h, n, texts, a, b);
    if Collapses(h, a, b) {
      var p := CollapsesAt(h, a, b);
      DiffIsNoChain(h, n, texts, a, 0, b, p);
    }
    if Collapses(h, b, a) {
      var p := CollapsesAt(h, b, a);
      DiffIsNoChain(h, n, texts, b, 0, a, p);
    }
  }

  /** A list of well-formed diffs names a chain by its string. */
  lemma SizedName(h: string -> string, n: nat, xs: seq<DiffID>)
    requires Digests(h, n) && Sized(n, xs) && xs != []
    ensures CreateChainID(xs).Some? && Diffs(CreateChainID(xs).value) == xs
    ensures StringFromParent(h, "", xs) == Render(h, CreateChainID(xs).value)
  {
    ChainIDRoundTrip(xs, Base(""));
    StringFromParentRenders(h, n, None, xs);
  }

  /**
    A list of well-formed diffs with the string of a chain of registered layers is the diff list of
    that chain, but that its first diff may be the identifier of a longer ancestor.
  */
  lemma SizedNameIsSuffix(h: string -> string, n: nat, texts: set<string>, xs: seq<DiffID>, c: ChainID) returns (p: ChainID)
    requires Digests(h, n) && NoCollision(h, texts) && Hashed(h, c) <= texts && HashedFor(h, xs) <= texts
    requires TarDigests(h, n, texts, Diffs(c)) && Sized(n, xs) && xs != []
    requires StringFromParent(h, "", xs) == Render(h, c)
    ensures AncestorOrSelf(p, c) && |Diffs(p)| <= |Diffs(c)| && xs == [Render(h, p)] + Diffs(c)[|Diffs(p)|..]
    ensures p.Base? ==> xs == Diffs(c)
  {
    SizedName(h, n, xs);
    var a := CreateChainID(xs).value;
    TarDigestsAreSized(h, n, texts, Diffs(c));
    RenderEqualExactly(h, n, texts, a, c);
    if a == c {
      p := BaseOf(c);
      assert Diffs(c) == [Diffs(c)[0]] + Diffs(c)[1..];
    } else if Collapses(h, a, c) {
      p := CollapsesAt(h, a, c);
    } else {
      p := CollapsesAt(h, c, a);
      DiffIsNoChain(h, n, texts, c, 0, a, p);
      assert false;
    }
  }

  lemma {:induction false} BaseOf(c: ChainID) returns (b: ChainID)
    ensures b == Base(Diffs(c)[0]) && AncestorOrSelf(b, c)
  {
    if c.Base? { b := c; } else { b := BaseOf(c.parent); }
  }

  /**
    Any list of strings whose ChainID is that of a chain of registered layers is the diff list of
    that chain exactly when its members are well-formed digests and its first one is not the
    identifier of an ancestor with a parent.
  */
  lemma NameExactly(h: string -> string, n: nat, texts: set<string>, xs: seq<DiffID>, c: ChainID)
    requires Digests(h, n) && NoCollision(h, texts) && Hashed(h, c) <= texts && HashedFor(h, xs) <= texts
    requires TarDigests(h, n, texts, Diffs(c)) && xs != []
    requires StringFromParent(h, "", xs) == Render(h, c)
    ensures xs == Diffs(c) <==> Sized(n, xs) && forall p: ChainID :: p.Chained? && AncestorOrSelf(p, c) ==> xs[0] != Render(h, p)
  {
    TarDigestsAreSized(h, n, texts, Diffs(c));
    if xs == Diffs(c) {
      forall p: ChainID | p.Chained? && AncestorOrSelf(p, c) ensures xs[0] != Render(h, p) { DiffIsNoChain(h, n, texts, c, 0, c, p); }
    } else if Sized(n, xs) {
      var p := SizedNameIsSuffix(h, n, texts, xs, c);
      assert p.Chained? && xs[0] == Render(h, p);
    }
  }

  /**
    Two lists of well-formed diffs have the same ChainID string exactly when they are the same or one
    is the other with some of its first layers taken together, unless two chain texts collide.
  */
  lemma StringChainIDExactly(h: string -> string, n: nat, texts: set<string>, xs: seq<DiffID>, ys: seq<DiffID>)
    requires Digests(h, n) && NoCollision(h, texts) && HashedFor(h, xs) <= texts && HashedFor(h, ys) <= texts
    requires Sized(n, xs) && Sized(n, ys) && xs != [] && ys != []
    ensures CreateChainID(xs).Some? && CreateChainID(ys).Some?
    ensures var a, b := CreateChainID(xs).value, CreateChainID(ys).value;
            StringFromParent(h, "", xs) == StringFromParent(h, "", ys) <==> xs == ys || Collapses(h, a, b) || Collapses(h, b, a)
  {
    SizedName(h, n, xs);
    SizedName(h, n, ys);
    RenderEqualExactly(h, n, texts, CreateChainID(xs).value, CreateChainID(ys).value);
  }

  /** The diff lists of registered layers are told apart by their ChainID strings. */
  lemma StringChainIDInjective(h: string -> string, n: nat, texts: set<string>, xs: seq<DiffID>, ys: seq<DiffID>)
    requires Digests(h, n) && NoCollision(h, texts) && HashedFor(h, xs) <= texts && HashedFor(h, ys) <= texts
    requires TarDigests(h, n, texts, xs) && TarDigests(h, n, texts, ys)
    requires StringFromParent(h, "", xs) == StringFromParent(h, "", ys)
    ensures xs == ys
  {
    TarDigestsAreSized(h, n, texts, xs);
    TarDigestsAreSized(h, n, texts, ys);
    if xs != [] { SizedName(h, n, xs); RenderIsSized(h, n, CreateChainID(xs).value); }
    if ys != [] { SizedName(h, n, ys); RenderIsSized(h, n, CreateChainID(ys).value); }
    if xs != [] && ys != [] { RenderInjective(h, n, texts, CreateChainID(xs).value, CreateChainID(ys).value); }
  }

  /** A collapsed list for every chain of more than one layer: the one diff that is its identifier. */
  lemma StringChainIDCollision(h: string -> string, n: nat, c: ChainID)
    requires Digests(h, n) && Sized(n, Diffs(c)) && c.Chained?
    ensures [Render(h, c)] != Diffs(c)
    ensures StringFromParent(h, "", [Render(h, c)]) == StringFromParent(h, "", Diffs(c))
  {
    RenderIsSized(h, n, c);
    StringFromParentRenders(h, n, None, Diffs(c));
    ChainIDRoundTrip([], c);
    assert [Render(h, c)][1..] == [];
    assert StringFromParent(h, Render(h, c), []) == Render(h, c);
    assert |Diffs(c)| > 1;
  }

  /** Strings that are no digests collide in another way: a tar stream cut at a space has the ChainID of its layer. */
  lemma SpelledTarCollision(h: string -> string, n: nat, x: string, y: string)
    requires Digests(h, n) && x != ""
    ensures StringFromParent(h, "", [x, y]) == Render(h, Base(h(x + " " + y)))
    ensures !Sized(n, [x, y]) || |x + " " + y| == 2 * n + 1
  {
    assert [x, y][1..] == [y] && [y][1..] == [];
    assert StringFromParent(h, x, [y]) == StringFromParent(h, h(x + " " + y), []);
  }
}
