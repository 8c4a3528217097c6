/** Checking and repairing schema 1 manifests (distribution/pull_v2.go). */
module Manifests {
  import opened Wrappers

  /** The two fields of the V1Compatibility JSON that matter here. */
  datatype V1Image = V1Image(id: string, parent: string)

  /** v1.ValidateID: 64 lower-case hexadecimal digits. */
  predicate ValidID(id: string) {
    |id| == 64 && forall i :: 0 <= i < 64 ==> 'a' <= id[i] <= 'f' || '0' <= id[i] <= '9'
  }

  /** Entry `i` is the last of its run of equal identifiers. */
  predicate LastOfRun(imgs: seq<V1Image>, i: int)
    requires 0 <= i < |imgs|
  {
    i == |imgs| - 1 || imgs[i].id != imgs[i + 1].id
  }

  /** The entries of `xs` that belong to the last image of each run of equal identifiers. */
  function KeepLast<T>(imgs: seq<V1Image>, xs: seq<T>): seq<T>
    requires |imgs| == |xs|
  {
    if xs == [] then []
    else (if LastOfRun(imgs, 0) then [xs[0]] else []) + KeepLast(imgs[1..], xs[1..])
  }

  /** Equal identifiers stand next to each other. */
  ghost predicate NoSplitRuns(imgs: seq<V1Image>) {
    forall i, k :: 0 <= i < k < |imgs| && imgs[i].id == imgs[k].id ==> imgs[k - 1].id == imgs[k].id
  }

  /** Every image names the next one as its parent, unless it repeats it. */
  ghost predicate Linked(imgs: seq<V1Image>) {
    forall i :: 0 <= i < |imgs| - 1 ==> imgs[i].id == imgs[i + 1].id || imgs[i].parent == imgs[i + 1].id
  }

  // ---------------------------------------------------------------- what is kept

  /** The indices that are kept, in order. */
  ghost function Kept(imgs: seq<V1Image>, from: nat): seq<nat>
    requires from <= |imgs|
    decreases |imgs| - from
  {
    if from == |imgs| then []
    else (if LastOfRun(imgs, from) then [from] else []) + Kept(imgs, from + 1)
  }

  lemma {:induction false} KeptExactly(imgs: seq<V1Image>, from: nat)
    requires from <= |imgs|
    ensures forall k :: 0 <= k < |Kept(imgs, from)| ==> from <= Kept(imgs, from)[k] < |imgs| && LastOfRun(imgs, Kept(imgs, from)[k])
    ensures forall i :: from <= i < |imgs| && LastOfRun(imgs, i) ==> i in Kept(imgs, from)
    decreases |imgs| - from
  {
    hide LastOfRun;
    if from < |imgs| { KeptExactly(imgs, from + 1); }
  }

  ghost predicate Ascending(at: seq<nat>) {
    forall k, l :: 0 <= k < l < |at| ==> at[k] < at[l]
  }

  lemma PrependAscending(i: nat, at: seq<nat>)
    requires Ascending(at) && forall k :: 0 <= k < |at| ==> i < at[k]
    ensures Ascending([i] + at)
  {}

  lemma NothingAscends()
    ensures Ascending([])
  {}

  lemma {:induction false} KeptFrom(imgs: seq<V1Image>, from: nat)
    requires from <= |imgs|
    ensures forall k :: 0 <= k < |Kept(imgs, from)| ==> from <= Kept(imgs, from)[k]
    decreases |imgs| - from
  {
    hide LastOfRun;
    if from < |imgs| { KeptFrom(imgs, from + 1); }
  }

  lemma {:induction false} KeptAscends(imgs: seq<V1Image>, from: nat)
    requires from <= |imgs|
    ensures Ascending(Kept(imgs, from))
    decreases |imgs| - from
  {
    hide LastOfRun;
    hide Ascending;
    if from == |imgs| {
      NothingAscends();
    } else {
      var rest := Kept(imgs, from + 1);
      KeptAscends(imgs, from + 1);
      KeptFrom(imgs, from + 1);
      if LastOfRun(imgs, from) { PrependAscending(from, rest); } else { assert [] + rest == rest; }
    }
  }

  lemma KeptEndsWithLast(imgs: seq<V1Image>)
    requires imgs != []
    ensures Kept(imgs, 0) != [] && Kept(imgs, 0)[|Kept(imgs, 0)| - 1] == |imgs| - 1
  {
    hide Kept;
    var at, n := Kept(imgs, 0), |imgs| - 1;
    KeptExactly(imgs, 0);
    KeptAscends(imgs, 0);
    assert LastOfRun(imgs, n);
    var k :| 0 <= k < |at| && at[k] == n;
    assert at[k] <= at[|at| - 1];
  }

  lemma {:induction false} KeepLastIsKept<T>(imgs: seq<V1Image>, xs: seq<T>, from: nat)
    requires |imgs| == |xs| && from <= |xs|
    ensures |KeepLast(imgs[from..], xs[from..])| == |Kept(imgs, from)|
    ensures forall k :: 0 <= k < |Kept(imgs, from)| ==> Kept(imgs, from)[k] < |xs| && KeepLast(imgs[from..], xs[from..])[k] == xs[Kept(imgs, from)[k]]
    decreases |xs| - from
  {
    if from < |xs| {
      KeepLastIsKept(imgs, xs, from + 1);
      KeptExactly(imgs, from);
      KeptExactly(imgs, from + 1);
      assert imgs[from..][1..] == imgs[from + 1..] && xs[from..][1..] == xs[from + 1..];
      assert LastOfRun(imgs[from..], 0) <==> LastOfRun(imgs, from);
    }
  }

  lemma {:induction false} SplitRunsAreDistinct(imgs: seq<V1Image>, i: nat, k: nat)
    requires NoSplitRuns(imgs) && i < k < |imgs| && LastOfRun(imgs, i)
    ensures imgs[i].id != imgs[k].id
    decreases k
  {
    if i + 1 < k && imgs[i].id == imgs[k].id { SplitRunsAreDistinct(imgs, i, k - 1); }
  }

  lemma {:induction false} SameIdUpTo(imgs: seq<V1Image>, i: nat, k: nat)
    requires i <= k < |imgs| && forall j :: i <= j < k ==> !LastOfRun(imgs, j)
    ensures imgs[i].id == imgs[k].id
    decreases k - i
  {
    if i < k {
      assert !LastOfRun(imgs, i);
      SameIdUpTo(imgs, i + 1, k);
    }
  }

  /**
    What an accepted manifest looks like after the repair: the entries kept are exactly the last of
    each run, in order; their identifiers differ pairwise, and they form one parent chain that ends
    in an empty parent.
  */
  lemma KeptFormsAChain(imgs: seq<V1Image>)
    requires imgs != [] && NoSplitRuns(imgs) && Linked(imgs) && imgs[|imgs| - 1].parent == ""
    ensures var kept := KeepLast(imgs, imgs);
            && kept != []
            && (forall k, l :: 0 <= k < l < |kept| ==> kept[k].id != kept[l].id)
            && (forall k :: 0 <= k < |kept| - 1 ==> kept[k].parent == kept[k + 1].id)
            && kept[|kept| - 1] == imgs[|imgs| - 1] && kept[|kept| - 1].parent == ""
  {
    var kept, at := KeepLast(imgs, imgs), Kept(imgs, 0);
    assert imgs[0..] == imgs;
    KeptExactly(imgs, 0);
    KeptAscends(imgs, 0);
    KeptEndsWithLast(imgs);
    KeepLastIsKept(imgs, imgs, 0);
    forall k, l | 0 <= k < l < |kept| ensures kept[k].id != kept[l].id {
      SplitRunsAreDistinct(imgs, at[k], at[l]);
    }
    forall k | 0 <= k < |kept| - 1 ensures kept[k].parent == kept[k + 1].id {
      KeptIsLinked(imgs, k);
    }
  }

  /** A kept image names the next kept one as its parent. */
  lemma KeptIsLinked(imgs: seq<V1Image>, k: nat)
    requires Linked(imgs) && k + 1 < |Kept(imgs, 0)|
    ensures Kept(imgs, 0)[k] < |imgs| && Kept(imgs, 0)[k + 1] < |imgs|
    ensures imgs[Kept(imgs, 0)[k]].parent == imgs[Kept(imgs, 0)[k + 1]].id
  {
    var at := Kept(imgs, 0);
    KeptExactly(imgs, 0);
    KeptAscends(imgs, 0);
    assert at[k] < at[k + 1] && LastOfRun(imgs, at[k]);
    forall j | at[k] < j < at[k + 1] ensures !LastOfRun(imgs, j) {
      BetweenIsNotKept(at, k, j);
    }
    SameIdUpTo(imgs, at[k] + 1, at[k + 1]);
  }

  lemma BetweenIsNotKept(at: seq<nat>, k: nat, j: nat)
    requires k + 1 < |at| && at[k] < j < at[k + 1]
    requires forall a, b :: 0 <= a < b < |at| ==> at[a] < at[b]
    ensures j !in at
  {
    forall x | 0 <= x < |at| ensures at[x] != j {
      assert x < k ==> at[x] < at[k];
      assert k + 1 < x ==> at[k + 1] < at[x];
    }
  }

  /** Nothing is left to remove: a second repair changes nothing. */
  lemma {:induction false} DistinctIsKept<T>(imgs: seq<V1Image>, xs: seq<T>)
    requires |imgs| == |xs| && forall k, l :: 0 <= k < l < |imgs| ==> imgs[k].id != imgs[l].id
    ensures KeepLast(imgs, xs) == xs
    ensures NoSplitRuns(imgs)
    decreases |xs|
  {
    if xs != [] {
      DistinctIsKept(imgs[1..], xs[1..]);
      assert [xs[0]] + xs[1..] == xs;
    }
  }

  // ---------------------------------------------------------------- the code

  datatype VerifyError = Accepted | BadDigest | UnsupportedVersion | LengthMismatch | NoLayers

  datatype FixError = Fixed | BadJSON | BadID | BadBaseParent | RepeatedID | BadParent

  /** The decoded images, when all of them decode. */
  ghost predicate Decodes(decode: string -> Option<V1Image>, history: seq<string>, imgs: seq<V1Image>) {
    |imgs| == |history| && forall i :: 0 <= i < |history| ==> decode(history[i]) == Some(imgs[i])
  }

  ghost predicate AllValid(imgs: seq<V1Image>) {
    forall i :: 0 <= i < |imgs| ==> ValidID(imgs[i].id)
  }

  class Manifest {
    var schemaVersion: int
    var fsLayers: seq<string>
    var history: seq<string>

    /** verifySchema1Manifest; `digestOK` is the result of the digest check of a pull by digest. */
    method Verify(digestOK: bool) returns (r: VerifyError)
      ensures r.Accepted? <==> digestOK && schemaVersion == 1 && |fsLayers| == |history| && fsLayers != []
      ensures r.BadDigest? <==> !digestOK
      ensures r.UnsupportedVersion? <==> digestOK && schemaVersion != 1
      ensures r.LengthMismatch? <==> digestOK && schemaVersion == 1 && |fsLayers| != |history|
    {
      if !digestOK { return BadDigest; }
      if schemaVersion != 1 { return UnsupportedVersion; }
      if |fsLayers| != |history| { return LengthMismatch; }
      if |fsLayers| == 0 { return NoLayers; }
      r := Accepted;
    }

    /** The first loop of fixManifestLayers. */
    method Decode(decode: string -> Option<V1Image>) returns (imgs: seq<V1Image>, r: FixError)
      ensures r.Fixed? || r.BadJSON? || r.BadID?
      ensures r.Fixed? ==> Decodes(decode, history, imgs) && AllValid(imgs)
      ensures !r.Fixed? ==> exists i :: 0 <= i < |history| && (decode(history[i]).None? || !ValidID(decode(history[i]).value.id))
    {
      imgs := [];
      for i := 0 to |history|
        invariant |imgs| == i && AllValid(imgs)
        invariant forall k :: 0 <= k < i ==> decode(history[k]) == Some(imgs[k])
      {
        var img := decode(history[i]);
        if img.None? { return imgs, BadJSON; }
        if !ValidID(img.value.id) { return imgs, BadID; }
        imgs := imgs + [img.value];
      }
      r := Fixed;
    }

    /** The check for identifiers that are repeated with others in between. */
    static method CheckRepeats(imgs: seq<V1Image>) returns (ok: bool)
      requires AllValid(imgs)
      ensures ok <==> NoSplitRuns(imgs)
    {
      var idmap: set<string> := {};
      var lastID := "";
      for i := 0 to |imgs|
        invariant forall x :: x in idmap <==> exists k :: 0 <= k < i && imgs[k].id == x
        invariant lastID == if i == 0 then "" else imgs[i - 1].id
        invariant NoSplitRuns(imgs[..i])
      {
        if imgs[i].id != lastID && imgs[i].id in idmap {
          assert !NoSplitRuns(imgs);
          return false;
        }
        lastID := imgs[i].id;
        idmap := idmap + {lastID};
      }
      assert imgs[..|imgs|] == imgs;
      ok := true;
    }

    /** The backwards loop of fixManifestLayers. */
    method RemoveRepeats(images: seq<V1Image>) returns (ok: bool)
      requires |fsLayers| == |history| == |images| > 0
      modifies this`fsLayers, this`history
      ensures |fsLayers| == |history|
      ensures ok <==> Linked(images)
      ensures ok ==> fsLayers == KeepLast(images, old(fsLayers)) && history == KeepLast(images, old(history))
    {
      hide KeepLast;
      var i := |images| - 2;
      KeepLastAtEnd(images, fsLayers);
      KeepLastAtEnd(images, history);
      while i >= 0
        invariant -1 <= i <= |images| - 2
        invariant fsLayers == Repaired(images, old(fsLayers), i + 1)
        invariant history == Repaired(images, old(history), i + 1)
        invariant |fsLayers| == |history|
        invariant forall k :: i < k < |images| - 1 ==> images[k].id == images[k + 1].id || images[k].parent == images[k + 1].id
      {
        KeepLastStep(images, old(fsLayers), i);
        KeepLastStep(images, old(history), i);
        if images[i].id == images[i + 1].id {
          fsLayers := fsLayers[..i] + fsLayers[i + 1..];
          history := history[..i] + history[i + 1..];
        } else if images[i].parent != images[i + 1].id {
          return false;
        }
        i := i - 1;
      }
      RepairedAll(images, old(fsLayers));
      RepairedAll(images, old(history));
      ok := true;
    }

    /**
      fixManifestLayers on a manifest that verifySchema1Manifest accepts: it succeeds exactly on
      well-formed parent chains, and then layers and history keep the last entry of each run.
    */
    method Fix(decode: string -> Option<V1Image>, windows: bool) returns (ghost imgs: seq<V1Image>, r: FixError)
      requires |fsLayers| == |history| && fsLayers != []
      modifies this`fsLayers, this`history
      ensures |fsLayers| == |history|
      ensures r.BadJSON? || r.BadID? || r.BadBaseParent? || r.RepeatedID? ==> fsLayers == old(fsLayers) && history == old(history)
      ensures r.BadJSON? || r.BadID? ==> exists i :: 0 <= i < |history| && (decode(history[i]).None? || !ValidID(decode(history[i]).value.id))
      ensures !(r.BadJSON? || r.BadID?) ==> Decodes(decode, old(history), imgs) && AllValid(imgs)
      ensures !(r.BadJSON? || r.BadID?) ==>
                (r.Fixed? <==> (windows || imgs[|imgs| - 1].parent == "") && NoSplitRuns(imgs) && Linked(imgs))
      ensures !(r.BadJSON? || r.BadID?) ==>
                && (r.BadBaseParent? <==> imgs[|imgs| - 1].parent != "" && !windows)
                && (r.RepeatedID? <==> (imgs[|imgs| - 1].parent == "" || windows) && !NoSplitRuns(imgs))
                && (r.BadParent? <==> (imgs[|imgs| - 1].parent == "" || windows) && NoSplitRuns(imgs) && !Linked(imgs))
      ensures r.Fixed? ==> fsLayers == KeepLast(imgs, old(fsLayers)) && history == KeepLast(imgs, old(history))
    {
      hide NoSplitRuns;
      hide Linked;
      hide AllValid;
      hide ValidID;
      hide KeepLast;
      var images;
      images, r := Decode(decode);
      imgs := images;
      if !r.Fixed? { return; }
      if images[|images| - 1].parent != "" && !windows { return imgs, BadBaseParent; }
      var ok := CheckRepeats(images);
      if !ok { return imgs, RepeatedID; }
      ok := RemoveRepeats(images);
      r := if ok then Fixed else BadParent;
    }
  }

  /** `xs` when the repair has come down to entry `from`. */
  ghost function Repaired<T>(imgs: seq<V1Image>, xs: seq<T>, from: nat): seq<T>
    requires |imgs| == |xs| && from <= |xs|
  {
    xs[..from] + KeepLast(imgs[from..], xs[from..])
  }

  lemma KeepLastAtEnd<T>(imgs: seq<V1Image>, xs: seq<T>)
    requires |imgs| == |xs| > 0
    ensures Repaired(imgs, xs, |xs| - 1) == xs
  {
    var n := |xs|;
    assert xs[n - 1..] == [xs[n - 1]] && KeepLast(imgs[n - 1..][1..], xs[n - 1..][1..]) == [];
    assert xs[..n - 1] + [xs[n - 1]] == xs;
  }

  lemma RepairedAll<T>(imgs: seq<V1Image>, xs: seq<T>)
    requires |imgs| == |xs|
    ensures Repaired(imgs, xs, 0) == KeepLast(imgs, xs)
  {
    assert imgs[0..] == imgs && xs[0..] == xs;
  }

  /** One step of the backwards loop: entry `i` goes when it repeats the next one. */
  lemma KeepLastStep<T>(imgs: seq<V1Image>, xs: seq<T>, i: nat)
    requires |imgs| == |xs| && i + 1 < |imgs|
    ensures var now, next := Repaired(imgs, xs, i + 1), Repaired(imgs, xs, i);
            next == (if imgs[i].id == imgs[i + 1].id then now[..i] + now[i + 1..] else now)
  {
    assert imgs[i..][1..] == imgs[i + 1..] && xs[i..][1..] == xs[i + 1..];
    assert LastOfRun(imgs[i..], 0) <==> LastOfRun(imgs, i);
    assert xs[..i + 1] == xs[..i] + [xs[i]];
  }

  /** The repaired history decodes to the kept images, and repairing it again succeeds and changes nothing. */
  lemma FixIsIdempotent<T>(decode: string -> Option<V1Image>, history: seq<string>, layers: seq<T>, imgs: seq<V1Image>)
    requires Decodes(decode, history, imgs) && AllValid(imgs) && |layers| == |history|
    requires imgs != [] && NoSplitRuns(imgs) && Linked(imgs) && imgs[|imgs| - 1].parent == ""
    ensures var kept := KeepLast(imgs, imgs);
            && Decodes(decode, KeepLast(imgs, history), kept) && AllValid(kept)
            && NoSplitRuns(kept) && Linked(kept) && kept != [] && kept[|kept| - 1].parent == ""
            && |KeepLast(imgs, layers)| == |kept|
            && KeepLast(kept, KeepLast(imgs, history)) == KeepLast(imgs, history)
            && KeepLast(kept, KeepLast(imgs, layers)) == KeepLast(imgs, layers)
  {
    assert imgs[0..] == imgs && history[0..] == history && layers[0..] == layers;
    KeptExactly(imgs, 0);
    KeptAscends(imgs, 0);
    KeptEndsWithLast(imgs);
    KeepLastIsKept(imgs, imgs, 0);
    KeepLastIsKept(imgs, history, 0);
    KeepLastIsKept(imgs, layers, 0);
    KeptFormsAChain(imgs);
    var kept := KeepLast(imgs, imgs);
    DistinctIsKept(kept, KeepLast(imgs, history));
    DistinctIsKept(kept, KeepLast(imgs, layers));
  }
}
