/**
  Exactly when ImageDelete conflicts, what it removes and what it records (daemon/image_delete.go),
  from the containers, references and children themselves.
*/
module ImageDeleteExact {
  import opened Wrappers
  import opened ChainIDs
  import opened LayerModel
  import opened LayerInvariant
  import opened LayerRuns
  import opened LayerReports
  import opened ImageModel
  import opened ImageDeletion

  // ---------------------------------------------------------------- conflicts

  /** What keeps an image without references: a child, a running container, or, without force, a stopped one. */
  ghost predicate Blocked(d: Daemon, id: ID, force: bool) {
    Hits(d, id, DependentChild) || Hits(d, id, RunningContainer) || (!force && Hits(d, id, StoppedContainer))
  }

  lemma UntagKeepsBlocked(d: Daemon, gone: set<Ref>, id: ID, force: bool)
    ensures Blocked(Untag(d, gone), id, force) <==> Blocked(d, id, force)
  {}

  lemma HelperConflictsExactly(d: Daemon, id: ID, force: bool)
    ensures CheckConflict(d, id, if force then HARD else HARD + SOFT).Some? <==>
              Blocked(d, id, force) || (!force && Hits(d, id, ActiveReference))
  {
    ConflictExactly(d, id, if force then HARD else HARD + SOFT);
  }

  /**
    Deletion by identifier is refused exactly when the image has a child or a running container, or,
    without force, a stopped container or references of several repositories or several tags.
  */
  lemma DeleteByIDConflictsExactly(d: Daemon, holds: Holds, id: ID, force: bool, prune: bool, failing: set<ChainID>)
    requires DaemonInv(d, holds) && id in d.img.images
    ensures WellKeyed(d.core.layers)
    ensures DeleteByID(d, id, force, prune, failing).outcome.InConflict? <==>
              || Blocked(d, id, force)
              || (!force && Hits(d, id, ActiveReference) && !SingleReference(References(d.refs, id)))
  {
    hide DaemonInv;
    hide WellKeyed;
    hide DeleteHelper;
    hide CheckConflict;
    hide SingleReference;
    hide Hits;
    ImagesInvParts(d, holds);
    var refs := References(d.refs, id);
    if SingleReference(refs) {
      var mask := if force then HARD else HARD + (SOFT - {ActiveReference});
      FirstCheckExactly(d, id, force);
      if CheckConflict(d, id, mask).None? {
        SecondCheckPasses(d, id, force);
        UntagKeepsInv(d, holds, refs);
        HelperOutcome(Untag(d, refs), holds, id, force, prune, failing);
      }
    } else {
      HelperConflictsExactly(d, id, force);
      HelperOutcome(d, holds, id, force, prune, failing);
    }
  }

  lemma FirstCheckExactly(d: Daemon, id: ID, force: bool)
    ensures CheckConflict(d, id, if force then HARD else HARD + (SOFT - {ActiveReference})).Some? <==> Blocked(d, id, force)
  {
    ConflictExactly(d, id, if force then HARD else HARD + (SOFT - {ActiveReference}));
  }

  /** A call that is not quiet conflicts exactly when its own check does. */
  lemma HelperOutcome(d: Daemon, holds: Holds, id: ID, force: bool, prune: bool, failing: set<ChainID>)
    requires DaemonInv(d, holds) && id in d.img.images
    ensures WellKeyed(d.core.layers)
    ensures DeleteHelper(d, id, force, prune, false, failing).outcome.InConflict? <==>
              CheckConflict(d, id, if force then HARD else HARD + SOFT).Some?
  {
    hide DaemonInv;
    hide CheckConflict;
    hide Deletions;
    hide SafeDeletions;
    hide Removes;
    ImagesInvParts(d, holds);
    DeleteHelperIsSafe(d, holds, id, force, prune, false, failing);
    if CheckConflict(d, id, if force then HARD else HARD + SOFT).Some? { ConflictStopsHelper(d, id, force, prune, failing); }
  }

  // ---------------------------------------------------------------- deletion by reference

  /** Some other tag of the repository of `ref` still points at the image. */
  ghost predicate TagLeft(d: Daemon, id: ID, ref: Ref) {
    exists t :: t in d.refs && t != ref && d.refs[t] == id && t.Tagged? && t.name == ref.name
  }

  /** `q` is a digest reference that goes with the last tag of its repository. */
  ghost predicate GoesAlong(d: Daemon, id: ID, ref: Ref, q: Ref) {
    ref.Tagged? && q.Canonical? && q.name == ref.name && !TagLeft(d, id, ref)
  }

  lemma OrphanedExactly(d: Daemon, id: ID, ref: Ref, q: Ref)
    requires q != ref && q in d.refs && d.refs[q] == id
    ensures q in OrphanedDigests(d.refs, id, ref) <==> GoesAlong(d, id, ref, q)
  {
    var left := References(d.refs - {ref}, id);
    assert forall r :: r in left <==> r in d.refs && r != ref && d.refs[r] == id;
  }

  /**
    Deletion by reference is refused exactly when, without force, it would take the last tag of an
    image that a container uses. Otherwise the reference goes, with it exactly the digest references
    of its repository if it was the last tag there, and, if no reference is left, the image goes
    exactly unless it has a child, a running container, or, without force, a stopped one.
  */
  lemma DeleteByReferenceExactly(d: Daemon, holds: Holds, id: ID, ref: Ref, force: bool, prune: bool, failing: set<ChainID>)
    requires DaemonInv(d, holds) && id in d.img.images && (ref in d.refs ==> d.refs[ref] == id)
    ensures WellKeyed(d.core.layers)
    ensures var r := DeleteByReference(d, id, ref, force, prune, failing);
            && (r.outcome.InConflict? <==>
                  !force && SingleReference(References(d.refs, id)) && exists c :: c in d.containers && c.image == id)
            && (!r.outcome.InConflict? ==>
                  && (forall q :: q in d.refs && q != ref && d.refs[q] == id ==> (q !in r.d.refs <==> GoesAlong(d, id, ref, q)))
                  && (id in r.d.img.images <==>
                        || Blocked(d, id, force)
                        || exists q :: q in d.refs && q != ref && d.refs[q] == id && !GoesAlong(d, id, ref, q)))
  {
    hide DaemonInv;
    hide WellKeyed;
    hide DeleteHelper;
    hide CheckConflict;
    hide SingleReference;
    hide OrphanedDigests;
    hide GoesAlong;
    hide Blocked;
    ImagesInvParts(d, holds);
    if force || !SingleReference(References(d.refs, id)) || !InUse(d, id) {
      var gone := {ref} + OrphanedDigests(d.refs, id, ref);
      var untagged := Untag(d, gone);
      forall q | q in d.refs && q != ref && d.refs[q] == id ensures q !in untagged.refs <==> GoesAlong(d, id, ref, q) {
        OrphanedExactly(d, id, ref, q);
      }
      UntagKeepsInv(d, holds, gone);
      ImagesInvParts(untagged, holds);
      if References(untagged.refs, id) == {} {
        QuietNeverConflicts(untagged, id, force, prune, failing);
        UnforcedKeepsReferences(untagged, id, force, prune, true, failing);
        ImageGoesExactly(untagged, holds, id, force, prune, failing);
        UntagKeepsBlocked(d, gone, id, force);
        NothingRefers(d, untagged, id, ref);
      } else {
        var q :| q in References(untagged.refs, id);
        assert q in d.refs && d.refs[q] == id && q != ref;
      }
    }
  }

  lemma NothingRefers(d: Daemon, untagged: Daemon, id: ID, ref: Ref)
    requires References(untagged.refs, id) == {} && untagged.refs.Keys <= d.refs.Keys
    requires forall q :: q in untagged.refs ==> untagged.refs[q] == d.refs[q]
    requires forall q :: q in d.refs && q != ref && d.refs[q] == id ==> (q !in untagged.refs <==> GoesAlong(d, id, ref, q))
    ensures forall q :: q in d.refs && q != ref && d.refs[q] == id ==> GoesAlong(d, id, ref, q)
  {
    hide GoesAlong;
    forall q | q in d.refs && q != ref && d.refs[q] == id ensures GoesAlong(d, id, ref, q) {
      assert q !in References(untagged.refs, id);
    }
  }

  lemma NotReferenced(d: Daemon, id: ID)
    requires References(d.refs, id) == {}
    ensures !Hits(d, id, ActiveReference)
  {
    forall r | r in d.refs ensures d.refs[r] != id { assert r !in References(d.refs, id); }
  }

  /** An image without references goes exactly unless it is blocked. */
  lemma ImageGoesExactly(d: Daemon, holds: Holds, id: ID, force: bool, prune: bool, failing: set<ChainID>)
    requires DaemonInv(d, holds) && id in d.img.images && References(d.refs, id) == {}
    ensures WellKeyed(d.core.layers)
    ensures id in DeleteHelper(d, id, force, prune, true, failing).d.img.images <==> Blocked(d, id, force)
  {
    hide DaemonInv;
    hide CheckConflict;
    hide Deletions;
    hide SafeDeletions;
    hide DeleteHelper;
    hide Blocked;
    ImagesInvParts(d, holds);
    DeleteHelperIsSafe(d, holds, id, force, prune, true, failing);
    HelperConflictsExactly(d, id, force);
    NotReferenced(d, id);
    var t := Deletions(d, id, force, prune, failing);
    if t != [] { FirstIsGone(t, d, id); }
  }

  // ---------------------------------------------------------------- pruning goes as far as it can

  /**
    With working storage, pruning stops exactly where it has to: after the last image deleted there
    is no parent, or the parent is in conflict in the state that is left; without prune only the
    image itself goes.
  */
  lemma {:induction false} PruneIsComplete(d: Daemon, holds: Holds, id: ID, force: bool, prune: bool, quiet: bool)
    requires DaemonInv(d, holds) && id in d.img.images
    ensures WellKeyed(d.core.layers)
    ensures var r, t := DeleteHelper(d, id, force, prune, quiet, {}), Deletions(d, id, force, prune, {});
            t != [] ==>
              && (!prune ==> |t| == 1)
              && (prune ==>
                    var parent := ParentImage(t[|t| - 1].0.img, t[|t| - 1].1);
                    parent.None? || CheckConflict(r.d, parent.value, HARD + SOFT).Some?)
    decreases |d.img.images|
  {
    hide DaemonInv;
    hide WellKeyed;
    hide CheckConflict;
    hide DeleteNow;
    hide Removes;
    hide HasChildren;
    hide Deletable;
    hide ParentImage;
    hide Indexed;
    hide Owning;
    ImagesInvParts(d, holds);
    if CheckConflict(d, id, if force then HARD else HARD + SOFT).None? {
      NoConflictIsDeletable(d, id, force);
      DeleteNowRemoves(d, holds, id, {});
      var r := DeleteNow(d, id, {});
      var parent := ParentImage(d.img, id);
      if prune && parent.Some? {
        ParentIsAnotherImage(d, id);
        ParentSurvives(d, r.d, id, parent.value);
        PruneIsComplete(r.d, holds, parent.value, false, true, true);
        var rest := Deletions(r.d, parent.value, false, true, {});
        NothingDeletedNothingChanged(r.d, parent.value, {});
        LastOfBoth((d, id), rest);
      }
    }
  }

  lemma LastOfBoth(x: (Daemon, ID), rest: seq<(Daemon, ID)>)
    ensures var all := [x] + rest;
            all[|all| - 1] == if rest == [] then x else rest[|rest| - 1]
  {}

  // ---------------------------------------------------------------- records

  /** The records of the layers that went with an image: exactly those that left the store, from its top layer down. */
  ghost predicate LayersRecorded(records: seq<Record>, meta: ImageMeta, before: Core, after: Core) {
    && (meta.layer.None? ==> records == [])
    && (meta.layer.Some? ==>
          && |records| <= |Diffs(meta.layer.value.chain)|
          && forall k :: 0 <= k < |records| ==> records[k] == DeletedLayer(Up(meta.layer.value.chain, k)))
    && (forall c :: DeletedLayer(c) in records <==> c in before.layers && c !in after.layers)
  }

  lemma ReleaseRecords(core: Core, holds: Holds, h: Handle, failing: set<ChainID>, meta: ImageMeta)
    requires Inv(core, holds) && WellKeyed(core.layers) && Retains(core, h) && meta.layer == Some(h)
    requires Release(core, h, failing).2.NoError?
    ensures LayersRecorded(LayerRecords(Release(core, h, failing).1), meta, core, Release(core, h, failing).0)
  {
    hide Inv;
    hide WellKeyed;
    hide Release;
    hide Complete;
    hide Sizes;
    ReleaseReports(core, holds, h, failing);
    ReleaseHandleKeepsInv(core, holds, h, failing);
    var (core', removed, err) := Release(core, h, failing);
    forall c ensures DeletedLayer(c) in LayerRecords(removed) <==> c in Chains(removed) {
      if DeletedLayer(c) in LayerRecords(removed) {
        var k :| 0 <= k < |removed| && LayerRecords(removed)[k] == DeletedLayer(c);
        assert removed[k].chain == c;
      }
      if c in Chains(removed) {
        var k :| 0 <= k < |removed| && removed[k].chain == c;
        assert LayerRecords(removed)[k] == DeletedLayer(c);
      }
    }
  }

  /** A deletion that is done records the image, then its layers. */
  lemma DeleteNowRecords(d: Daemon, holds: Holds, id: ID, failing: set<ChainID>)
    requires DaemonInv(d, holds) && id in d.img.images
    ensures WellKeyed(d.core.layers)
    ensures var r := DeleteNow(d, id, failing);
            if r.outcome.Done? then
              r.deleted != [] && r.deleted[0] == DeletedImage(id) && LayersRecorded(r.deleted[1..], d.img.images[id], d.core, r.d.core)
            else r.deleted == []
  {
    hide Inv;
    hide WellKeyed;
    hide Release;
    hide LayersRecorded;
    assert Owns(d.core, d.img.images[id].layer, TopLayer(d.img.images[id].config));
    NoLayersRecorded(d.img.images[id], d.core);
    var layer := d.img.images[id].layer;
    if layer.Some? && Release(d.core, layer.value, failing).2.NoError? { ReleaseRecords(d.core, holds, layer.value, failing, d.img.images[id]); }
    var r := DeleteNow(d, id, failing);
    if r.outcome.Done? {
      var removed := if layer.None? then [] else Release(d.core, layer.value, failing).1;
      assert r.deleted == [DeletedImage(id)] + LayerRecords(removed);
      assert r.deleted[1..] == LayerRecords(removed);
    }
  }

  lemma NoLayersRecorded(meta: ImageMeta, core: Core)
    ensures meta.layer.None? ==> LayersRecorded(LayerRecords([]), meta, core, core)
  {}

  /** The records are the deletions in order, each followed by its layers. */
  ghost predicate Recorded(records: seq<Record>, t: seq<(Daemon, ID)>, after: Daemon) {
    if t == [] then records == []
    else
      && t[0].1 in t[0].0.img.images
      && exists n :: RecordedFirst(records, n, t, after) && Recorded(records[n..], t[1..], after)
  }

  ghost predicate RecordedFirst(records: seq<Record>, n: int, t: seq<(Daemon, ID)>, after: Daemon)
    requires t != [] && t[0].1 in t[0].0.img.images
  {
    && 1 <= n <= |records| && records[0] == DeletedImage(t[0].1)
    && LayersRecorded(records[1..n], t[0].0.img.images[t[0].1], t[0].0.core, if |t| == 1 then after.core else t[1].0.core)
  }

  lemma {:induction false} HelperRecords(d: Daemon, holds: Holds, id: ID, force: bool, prune: bool, quiet: bool, failing: set<ChainID>)
    requires DaemonInv(d, holds) && id in d.img.images
    ensures WellKeyed(d.core.layers)
    ensures var r := DeleteHelper(d, id, force, prune, quiet, failing);
            && (r.outcome.InConflict? ==> r.deleted == [])
            && (r.outcome.Done? ==> Recorded(r.deleted, Deletions(d, id, force, prune, failing), r.d))
    decreases |d.img.images|
  {
    hide DaemonInv;
    hide WellKeyed;
    hide CheckConflict;
    hide DeleteNow;
    hide Removes;
    hide HasChildren;
    hide LayersRecorded;
    ImagesInvParts(d, holds);
    if CheckConflict(d, id, if force then HARD else HARD + SOFT).None? {
      NoConflictIsDeletable(d, id, force);
      DeleteNowRemoves(d, holds, id, failing);
      DeleteNowRecords(d, holds, id, failing);
      var r := DeleteNow(d, id, failing);
      var parent := ParentImage(d.img, id);
      if r.outcome.Done? {
        if prune && parent.Some? {
          ParentIsAnotherImage(d, id);
          ParentSurvives(d, r.d, id, parent.value);
          HelperRecords(r.d, holds, parent.value, false, true, true, failing);
          QuietNeverConflicts(r.d, parent.value, false, true, failing);
          var rest := DeleteHelper(r.d, parent.value, false, true, true, failing);
          var t := Deletions(r.d, parent.value, false, true, failing);
          NothingDeletedNothingChanged(r.d, parent.value, failing);
          FirstStateIs(r.d, parent.value, failing);
          if rest.outcome.Done? { RecordsJoin(d, id, r.deleted, r.d, rest.deleted, t, rest.d); }
        } else {
          RecordsJoin(d, id, r.deleted, r.d, [], [], r.d);
          assert r.deleted + [] == r.deleted && [(d, id)] + [] == [(d, id)];
        }
      }
    }
  }

  lemma FirstStateIs(d: Daemon, id: ID, failing: set<ChainID>)
    requires WellKeyed(d.core.layers)
    ensures var t := Deletions(d, id, false, true, failing);
            t != [] ==> t[0].0 == d
  {
    hide WellKeyed;
    hide CheckConflict;
  }

  lemma NothingDeletedNothingChanged(d: Daemon, id: ID, failing: set<ChainID>)
    requires WellKeyed(d.core.layers) && id in d.img.images
    ensures Deletions(d, id, false, true, failing) == [] ==>
              DeleteHelper(d, id, false, true, true, failing).d == d && CheckConflict(d, id, HARD + SOFT).Some?
  {
    hide WellKeyed;
    hide CheckConflict;
  }

  lemma RecordsJoin(d: Daemon, id: ID, first: seq<Record>, d': Daemon, rest: seq<Record>, t: seq<(Daemon, ID)>, after: Daemon)
    requires id in d.img.images && first != [] && first[0] == DeletedImage(id)
    requires LayersRecorded(first[1..], d.img.images[id], d.core, d'.core)
    requires Recorded(rest, t, after) && (if t == [] then after.core == d'.core else t[0].0.core == d'.core)
    ensures Recorded(first + rest, [(d, id)] + t, after)
  {
    hide LayersRecorded;
    var all, ts, n := first + rest, [(d, id)] + t, |first|;
    assert all[1..n] == first[1..] && all[n..] == rest && ts[1..] == t;
    assert RecordedFirst(all, n, ts, after);
  }

  /** What ImageDelete records of its deletions, given an identifier. */
  lemma DeleteByIDRecords(d: Daemon, holds: Holds, id: ID, force: bool, prune: bool, failing: set<ChainID>)
    requires DaemonInv(d, holds) && id in d.img.images
    ensures WellKeyed(d.core.layers)
    ensures var r := DeleteByID(d, id, force, prune, failing);
            && (r.outcome.InConflict? ==> r.deleted == [])
            && (r.outcome.Done? ==> Recorded(r.deleted, DeletionsByID(d, id, force, prune, failing), r.d))
  {
    hide DaemonInv;
    hide WellKeyed;
    hide DeleteHelper;
    hide Deletions;
    hide CheckConflict;
    hide SingleReference;
    hide Recorded;
    ImagesInvParts(d, holds);
    HelperRecords(d, holds, id, force, prune, false, failing);
    var refs := References(d.refs, id);
    UntagKeepsInv(d, holds, refs);
    HelperRecords(Untag(d, refs), holds, id, force, prune, false, failing);
  }

  /** The same, given a reference. */
  lemma DeleteByReferenceRecords(d: Daemon, holds: Holds, id: ID, ref: Ref, force: bool, prune: bool, failing: set<ChainID>)
    requires DaemonInv(d, holds) && id in d.img.images
    ensures WellKeyed(d.core.layers)
    ensures var r := DeleteByReference(d, id, ref, force, prune, failing);
            && (r.outcome.InConflict? ==> r.deleted == [])
            && (r.outcome.Done? ==> Recorded(r.deleted, DeletionsByReference(d, id, ref, force, prune, failing), r.d))
  {
    hide DaemonInv;
    hide WellKeyed;
    hide DeleteHelper;
    hide Deletions;
    hide SingleReference;
    hide OrphanedDigests;
    ImagesInvParts(d, holds);
    var gone := {ref} + OrphanedDigests(d.refs, id, ref);
    UntagKeepsInv(d, holds, gone);
    ImagesInvParts(Untag(d, gone), holds);
    HelperRecords(Untag(d, gone), holds, id, force, prune, true, failing);
  }
}
