/** The ancestor filter of container listing (daemon/list.go): marking all descendants of images. */
module ImageFilters {
  type ID = string

  /** imageStore.Children: the children of an image, in some order. */
  type Children = map<ID, seq<ID>>

  function ChildrenOf(kids: Children, i: ID): seq<ID> {
    if i in kids then kids[i] else []
  }

  /** `p` leads from child to child. */
  ghost predicate Path(kids: Children, p: seq<ID>) {
    p != [] && forall k :: 0 <= k < |p| - 1 ==> p[k + 1] in ChildrenOf(kids, p[k])
  }

  ghost predicate PathBetween(kids: Children, p: seq<ID>, a: ID, b: ID) {
    Path(kids, p) && p[0] == a && p[|p| - 1] == b
  }

  /** `b` is `a` or a descendant of `a`. */
  ghost predicate Descends(kids: Children, a: ID, b: ID) {
    exists p :: PathBetween(kids, p, a, b)
  }

  /** No image is its own descendant. */
  ghost predicate Acyclic(kids: Children) {
    forall p :: Path(kids, p) && |p| > 1 ==> p[0] != p[|p| - 1]
  }

  /** With an image, all its children are marked. */
  ghost predicate DescendantClosed(kids: Children, marked: set<ID>) {
    forall i, c :: i in marked && c in ChildrenOf(kids, i) ==> c in marked
  }

  lemma DescendsSelf(kids: Children, a: ID)
    ensures Descends(kids, a, a)
  {
    assert PathBetween(kids, [a], a, a);
  }

  lemma DescendsChild(kids: Children, a: ID, c: ID, b: ID)
    requires c in ChildrenOf(kids, a) && Descends(kids, c, b)
    ensures Descends(kids, a, b)
  {
    var p :| PathBetween(kids, p, c, b);
    var q := [a] + p;
    forall k | 0 <= k < |q| - 1 ensures q[k + 1] in ChildrenOf(kids, q[k]) {
      if k > 0 { assert p[k] in ChildrenOf(kids, p[k - 1]); }
    }
    assert PathBetween(kids, q, a, b);
  }

  /** A descendant is the image itself, or descends from one of its children. */
  lemma DescendsByChild(kids: Children, a: ID, b: ID) returns (c: ID)
    requires Descends(kids, a, b) && a != b
    ensures c in ChildrenOf(kids, a) && Descends(kids, c, b)
  {
    var p :| PathBetween(kids, p, a, b);
    c := p[1];
    assert p[0 + 1] in ChildrenOf(kids, p[0]);
    forall k | 0 <= k < |p[1..]| - 1 ensures p[1..][k + 1] in ChildrenOf(kids, p[1..][k]) {
      assert p[k + 1 + 1] in ChildrenOf(kids, p[k + 1]);
    }
    assert PathBetween(kids, p[1..], c, b);
  }

  /** A closed set that has an image has all its descendants. */
  lemma {:induction false} ClosedHasPath(kids: Children, marked: set<ID>, p: seq<ID>)
    requires DescendantClosed(kids, marked) && Path(kids, p) && p[0] in marked
    ensures p[|p| - 1] in marked
    decreases |p|
  {
    if |p| > 1 {
      assert p[0 + 1] in ChildrenOf(kids, p[0]);
      forall k | 0 <= k < |p[1..]| - 1 ensures p[1..][k + 1] in ChildrenOf(kids, p[1..][k]) {
        assert p[k + 1 + 1] in ChildrenOf(kids, p[k + 1]);
      }
      ClosedHasPath(kids, marked, p[1..]);
    }
  }

  lemma ClosedHasDescendants(kids: Children, marked: set<ID>, a: ID, b: ID)
    requires DescendantClosed(kids, marked) && a in marked && Descends(kids, a, b)
    ensures b in marked
  {
    var p :| PathBetween(kids, p, a, b);
    ClosedHasPath(kids, marked, p);
  }

  /** Every image on the stack of calls leads to the next one; a child of the last is not on it. */
  lemma NotOnStack(kids: Children, stack: seq<ID>, c: ID)
    requires Acyclic(kids) && Path(kids, stack) && c in ChildrenOf(kids, stack[|stack| - 1])
    ensures c !in stack && Path(kids, stack + [c])
  {
    var longer := stack + [c];
    forall k | 0 <= k < |longer| - 1 ensures longer[k + 1] in ChildrenOf(kids, longer[k]) {
      if k < |stack| - 1 { assert stack[k + 1] in ChildrenOf(kids, stack[k]); }
    }
    forall i | 0 <= i < |stack| ensures stack[i] != c {
      var around := longer[i..];
      forall k | 0 <= k < |around| - 1 ensures around[k + 1] in ChildrenOf(kids, around[k]) {
        assert longer[i + k + 1] in ChildrenOf(kids, longer[i + k]);
      }
      assert Path(kids, around);
    }
  }

  class Filter {
    /** ancestorMap: the images marked so far. */
    var ancestorMap: map<ID, bool>

    ghost function Marked(): set<ID>
      reads this
    {
      set i | i in ancestorMap && ancestorMap[i]
    }

    constructor ()
      ensures Marked() == {}
    {
      ancestorMap := map[];
    }

    /** The loop over the children of `imageID`. */
    method PopulateChildren(kids: Children, imageID: ID, ghost universe: set<ID>, ghost stack: seq<ID>)
      requires Universe(kids, universe) && Acyclic(kids)
      requires OnStack(kids, stack, universe) && stack[|stack| - 1] == imageID
      requires DescendantClosed(kids, Marked())
      modifies this
      ensures DescendantClosed(kids, Marked())
      ensures forall b :: b in Marked() <==> b in old(Marked()) || exists c :: c in ChildrenOf(kids, imageID) && Descends(kids, c, b)
      decreases |universe - Elements(stack)|, 0
    {
      var list := ChildrenOf(kids, imageID);
      for n := 0 to |list|
        invariant DescendantClosed(kids, Marked())
        invariant forall b :: b in Marked() <==> b in old(Marked()) || exists k :: 0 <= k < n && Descends(kids, list[k], b)
      {
        NotOnStack(kids, stack, list[n]);
        StackShrinksRest(universe, stack, list[n]);
        Populate(kids, list[n], universe, stack + [list[n]]);
      }
    }

    /**
      populateImageFilterByParents: it marks exactly the image and its descendants, and leaves alone
      what is marked already, which is sound because a marked image has its descendants marked.
    */
    method Populate(kids: Children, imageID: ID, ghost universe: set<ID>, ghost stack: seq<ID>)
      requires Universe(kids, universe) && Acyclic(kids)
      requires OnStack(kids, stack, universe) && stack[|stack| - 1] == imageID
      requires DescendantClosed(kids, Marked())
      modifies this
      ensures DescendantClosed(kids, Marked())
      ensures forall b :: b in Marked() <==> b in old(Marked()) || Descends(kids, imageID, b)
      decreases |universe - Elements(stack)|, 1
    {
      if imageID !in ancestorMap || !ancestorMap[imageID] {
        PopulateChildren(kids, imageID, universe, stack);
        ghost var before := Marked();
        ancestorMap := ancestorMap[imageID := true];
        assert Marked() == before + {imageID};
        MarkedWithChildren(kids, imageID, old(Marked()), before);
      } else {
        forall b | Descends(kids, imageID, b) ensures b in Marked() { ClosedHasDescendants(kids, Marked(), imageID, b); }
      }
    }

    /** The use in foldFilter: the union of the descendants of all requested images. */
    method PopulateAll(kids: Children, requested: seq<ID>)
      requires Acyclic(kids) && DescendantClosed(kids, Marked())
      modifies this
      ensures DescendantClosed(kids, Marked())
      ensures forall b :: b in Marked() <==> b in old(Marked()) || exists n :: 0 <= n < |requested| && Descends(kids, requested[n], b)
    {
      for n := 0 to |requested|
        invariant DescendantClosed(kids, Marked())
        invariant forall b :: b in Marked() <==> b in old(Marked()) || exists k :: 0 <= k < n && Descends(kids, requested[k], b)
      {
        if requested[n] in ancestorMap && ancestorMap[requested[n]] {
          forall b | Descends(kids, requested[n], b) ensures b in Marked() { ClosedHasDescendants(kids, Marked(), requested[n], b); }
        } else {
          ghost var universe := Everything(kids) + {requested[n]};
          EverythingIsUniverse(kids, requested[n]);
          Populate(kids, requested[n], universe, [requested[n]]);
        }
      }
    }
  }

  // ---------------------------------------------------------------- termination

  ghost function Elements(s: seq<ID>): set<ID> {
    set i | i in s
  }

  /** All images that any call can reach. */
  ghost predicate Universe(kids: Children, universe: set<ID>) {
    forall i, c :: i in kids && c in kids[i] ==> c in universe
  }

  ghost predicate OnStack(kids: Children, stack: seq<ID>, universe: set<ID>) {
    Path(kids, stack) && Elements(stack) <= universe
  }

  ghost function Everything(kids: Children): set<ID> {
    set i, c | i in kids && c in kids[i] :: c
  }

  lemma EverythingIsUniverse(kids: Children, i: ID)
    ensures Universe(kids, Everything(kids) + {i})
    ensures OnStack(kids, [i], Everything(kids) + {i})
  {}

  lemma StackShrinksRest(universe: set<ID>, stack: seq<ID>, c: ID)
    requires c in universe && c !in stack && Elements(stack) <= universe
    ensures Elements(stack + [c]) == Elements(stack) + {c}
    ensures |universe - Elements(stack + [c])| < |universe - Elements(stack)|
  {
    assert c in universe - Elements(stack);
    assert universe - Elements(stack + [c]) == (universe - Elements(stack)) - {c};
  }

  lemma MarkedWithChildren(kids: Children, a: ID, before: set<ID>, after: set<ID>)
    requires DescendantClosed(kids, after)
    requires forall b :: b in after <==> b in before || exists c :: c in ChildrenOf(kids, a) && Descends(kids, c, b)
    ensures DescendantClosed(kids, after + {a})
    ensures forall b :: b in after + {a} <==> b in before || Descends(kids, a, b)
  {
    forall c | c in ChildrenOf(kids, a) ensures c in after { DescendsSelf(kids, c); }
    DescendsSelf(kids, a);
    forall b ensures b in after + {a} <==> b in before || Descends(kids, a, b) {
      if Descends(kids, a, b) && a != b { var c := DescendsByChild(kids, a, b); }
      if c :| c in ChildrenOf(kids, a) && Descends(kids, c, b) { DescendsChild(kids, a, c, b); }
    }
  }
}
