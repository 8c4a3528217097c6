/**
  Deleting images (daemon/image_delete.go): the conflict check, the recursive prune of parents, and
  deletion by image identifier or by repository reference, over the image and layer stores.
*/
module ImageDeletion {
  import opened Wrappers
  import opened ChainIDs
  import opened LayerModel
  import opened LayerInvariant
  import opened ImageModel

  /** A stored repository reference; `Canonical` ones name a digest. */
  datatype Ref = Tagged(name: string, tag: string) | Canonical(name: string, digest: string)

  datatype Container = Container(id: string, image: ID, running: bool)

  datatype Daemon = Daemon(img: Images, core: Core, refs: map<Ref, ID>, containers: set<Container>)

  /** referenceStore.References. */
  function References(refs: map<Ref, ID>, id: ID): set<Ref> {
    set r | r in refs && refs[r] == id
  }

  // ---------------------------------------------------------------- conflicts

  datatype ConflictType = DependentChild | RunningContainer | ActiveReference | StoppedContainer

  const HARD := {DependentChild, RunningContainer}
  const SOFT := {ActiveReference, StoppedContainer}

  datatype Conflict = Conflict(kind: ConflictType, hard: bool, used: bool)

  predicate UsedBy(d: Daemon, id: ID, running: bool) {
    exists c :: c in d.containers && c.image == id && c.running == running
  }

  predicate HasChildren(d: Daemon, id: ID) {
    id in d.img.images && d.img.images[id].children != {}
  }

  /** checkImageDeleteConflict. */
  function CheckConflict(d: Daemon, id: ID, mask: set<ConflictType>): Option<Conflict> {
    if DependentChild in mask && HasChildren(d, id) then Some(Conflict(DependentChild, true, false))
    else if RunningContainer in mask && UsedBy(d, id, true) then Some(Conflict(RunningContainer, true, true))
    else if ActiveReference in mask && References(d.refs, id) != {} then Some(Conflict(ActiveReference, false, false))
    else if StoppedContainer in mask && UsedBy(d, id, false) then Some(Conflict(StoppedContainer, false, true))
    else None
  }

  /** The image has a child, is used by a running or a stopped container, or is referenced. */
  ghost predicate Hits(d: Daemon, id: ID, kind: ConflictType) {
    match kind
    case DependentChild => id in d.img.images && exists c :: c in d.img.images[id].children
    case RunningContainer => exists c :: c in d.containers && c.image == id && c.running
    case ActiveReference => exists r :: r in d.refs && d.refs[r] == id
    case StoppedContainer => exists c :: c in d.containers && c.image == id && !c.running
  }

  /** A conflict is reported exactly when there is one among those looked for, and it is the first of them. */
  lemma ConflictExactly(d: Daemon, id: ID, mask: set<ConflictType>)
    ensures CheckConflict(d, id, mask).None? <==> forall kind :: kind in mask ==> !Hits(d, id, kind)
    ensures CheckConflict(d, id, mask).Some? ==>
              var c := CheckConflict(d, id, mask).value;
              && c.kind in mask && Hits(d, id, c.kind)
              && (c.hard <==> c.kind.DependentChild? || c.kind.RunningContainer?)
              && (c.used <==> c.kind.RunningContainer? || c.kind.StoppedContainer?)
              && (DependentChild in mask && Hits(d, id, DependentChild) ==> c.kind.DependentChild?)
              && (RunningContainer in mask && Hits(d, id, RunningContainer) ==> c.hard)
              && (ActiveReference in mask && Hits(d, id, ActiveReference) ==> !c.kind.StoppedContainer?)
  {
    assert HasChildren(d, id) <==> Hits(d, id, DependentChild);
    assert UsedBy(d, id, true) <==> Hits(d, id, RunningContainer);
    assert References(d.refs, id) != {} <==> Hits(d, id, ActiveReference) by {
      if r :| r in References(d.refs, id) {}
      if r :| r in d.refs && d.refs[r] == id { assert r in References(d.refs, id); }
    }
    assert UsedBy(d, id, false) <==> Hits(d, id, StoppedContainer);
    hide Hits;
    hide HasChildren;
    hide UsedBy;
    hide References;
    if CheckConflict(d, id, mask).None? {
      forall kind | kind in mask ensures !Hits(d, id, kind) {
        match kind
        case DependentChild =>
        case RunningContainer =>
        case ActiveReference =>
        case StoppedContainer =>
      }
    }
  }

  /** imageIsDangling. */
  predicate Dangling(d: Daemon, id: ID) {
    !(References(d.refs, id) != {} || HasChildren(d, id))
  }

  /** A conflict that is not about containers means that the image is not dangling. */
  lemma UnusedConflictIsNotDangling(d: Daemon, id: ID, mask: set<ConflictType>)
    requires CheckConflict(d, id, mask).Some? && !CheckConflict(d, id, mask).value.used
    ensures !Dangling(d, id)
  {}

  // ---------------------------------------------------------------- imageDeleteHelper

  datatype DeleteOutcome = Done | InConflict(conflict: Conflict) | StoreError

  /** types.ImageDelete, without the untagged references. */
  datatype Record = DeletedImage(id: ID) | DeletedLayer(chain: ChainID)

  datatype Result = Result(d: Daemon, outcome: DeleteOutcome, deleted: seq<Record>)

  function LayerRecords(removed: seq<Metadata>): seq<Record> {
    seq(|removed|, i requires 0 <= i < |removed| => DeletedLayer(removed[i].chain))
  }

  /** removeAllReferencesToImageID. */
  function Untag(d: Daemon, gone: set<Ref>): Daemon {
    d.(refs := d.refs - gone)
  }

  /** What happens once no conflict stands in the way: references, then the image. */
  function DeleteNow(d: Daemon, id: ID, failing: set<ChainID>): (r: Result)
    requires WellKeyed(d.core.layers)
    ensures WellKeyed(r.d.core.layers)
    ensures r.outcome.Done? ==> |r.d.img.images| < |d.img.images|
  {
    var untagged := Untag(d, References(d.refs, id));
    var (img', core', r) := Delete(untagged.img, untagged.core, id, failing);
    if r.None? then Result(untagged, StoreError, [])
    else
      assert img'.images.Keys == d.img.images.Keys - {id};
      var d' := untagged.(img := img', core := core');
      if !r.value.1.NoError? then Result(d', StoreError, [])
      else Result(d', Done, [DeletedImage(id)] + LayerRecords(r.value.0))
  }

  /** imageDeleteHelper; `failing` are the layers whose storage cannot be removed. */
  function DeleteHelper(d: Daemon, id: ID, force: bool, prune: bool, quiet: bool, failing: set<ChainID>): (r: Result)
    requires WellKeyed(d.core.layers)
    ensures WellKeyed(r.d.core.layers)
    decreases |d.img.images|
  {
    var conflict := CheckConflict(d, id, if force then HARD else HARD + SOFT);
    if conflict.Some? then
      if quiet && (!Dangling(d, id) || conflict.value.used) then Result(d, Done, [])
      else Result(d, InConflict(conflict.value), [])
    else
      var r := DeleteNow(d, id, failing);
      var parent := ParentImage(d.img, id);
      if !r.outcome.Done? || !prune || parent.None? then r
      else
        var rest := DeleteHelper(r.d, parent.value, false, true, true, failing);
        Result(rest.d, rest.outcome, r.deleted + rest.deleted)
  }

  /** A quiet call reports no conflict, in any state of the stores. */
  lemma {:induction false} QuietNeverConflicts(d: Daemon, id: ID, force: bool, prune: bool, failing: set<ChainID>)
    requires WellKeyed(d.core.layers)
    ensures !DeleteHelper(d, id, force, prune, true, failing).outcome.InConflict?
    decreases |d.img.images|
  {
    hide WellKeyed;
    hide CheckConflict;
    hide Dangling;
    hide Delete;
    hide ParentImage;
    var mask := if force then HARD else HARD + SOFT;
    if CheckConflict(d, id, mask).Some? {
      if !CheckConflict(d, id, mask).value.used { UnusedConflictIsNotDangling(d, id, mask); }
    } else {
      var r := DeleteNow(d, id, failing);
      var parent := ParentImage(d.img, id);
      if r.outcome.Done? && prune && parent.Some? { QuietNeverConflicts(r.d, parent.value, false, true, failing); }
    }
  }

  /** The deletions that imageDeleteHelper performs, each with the state it finds. */
  ghost function Deletions(d: Daemon, id: ID, force: bool, prune: bool, failing: set<ChainID>): seq<(Daemon, ID)>
    requires WellKeyed(d.core.layers)
    decreases |d.img.images|
  {
    if CheckConflict(d, id, if force then HARD else HARD + SOFT).Some? || id !in d.img.images then []
    else
      var r := DeleteNow(d, id, failing);
      var parent := ParentImage(d.img, id);
      if !r.outcome.Done? || !prune || parent.None? then [(d, id)]
      else [(d, id)] + Deletions(r.d, parent.value, false, true, failing)
  }

  // ---------------------------------------------------------------- what a deletion keeps

  /** The stores are in step, while the operations `holds` of other users of the layer store are in flight. */
  ghost predicate DaemonInv(d: Daemon, holds: Holds) {
    && WellKeyed(d.core.layers)
    && Inv(d.core, holds)
    && ImagesInv(d.img, d.core)
  }

  /** From `d` to `d'`, exactly the images `gone` are taken out, and every other image keeps its parent and its layer. */
  ghost predicate RemovesImages(d: Daemon, d': Daemon, gone: set<ID>) {
    && d'.containers == d.containers
    && gone <= d.img.images.Keys
    && d'.img.images.Keys == d.img.images.Keys - gone
    && d'.img.contents == d.img.contents - gone
    && (forall i :: i in d'.img.images ==>
          && ParentImage(d'.img, i) == ParentImage(d.img, i)
          && d'.img.images[i].layer == d.img.images[i].layer && d'.img.images[i].config == d.img.images[i].config)
  }

  /** The same, with exactly the references to these images. */
  ghost predicate Removes(d: Daemon, d': Daemon, gone: set<ID>) {
    RemovesImages(d, d', gone) && d'.refs == RefsWithout(d.refs, gone)
  }

  function RefsWithout(refs: map<Ref, ID>, gone: set<ID>): map<Ref, ID> {
    map r | r in refs && refs[r] !in gone :: refs[r]
  }

  lemma RemovesNothing(d: Daemon)
    ensures Removes(d, d, {})
  {}

  lemma RemovesTransitive(a: Daemon, b: Daemon, c: Daemon, first: set<ID>, then_: set<ID>)
    requires Removes(a, b, first) && Removes(b, c, then_)
    ensures Removes(a, c, first + then_)
  {
    hide ParentImage;
    assert a.img.contents - first - then_ == a.img.contents - (first + then_);
    assert RefsWithout(RefsWithout(a.refs, first), then_) == RefsWithout(a.refs, first + then_);
  }

  /** References play no part in which images go. */
  lemma RemovesThroughUntag(d: Daemon, gone: set<Ref>, d': Daemon, images: set<ID>)
    requires Removes(d, d', images) || Removes(Untag(d, gone), d', images)
    ensures RemovesImages(d, d', images)
  {}

  lemma UntagRemovesNothing(d: Daemon, gone: set<Ref>)
    ensures RemovesImages(d, Untag(d, gone), {}) && RemovesImages(d, d, {})
  {}

  lemma UntaggedRefs(refs: map<Ref, ID>, id: ID)
    ensures refs - References(refs, id) == RefsWithout(refs, {id})
  {}

  lemma DeleteNowIsDelete(d: Daemon, id: ID, failing: set<ChainID>)
    requires WellKeyed(d.core.layers) && id in d.img.images
    ensures var r, del := DeleteNow(d, id, failing), Delete(d.img, d.core, id, failing);
            && del.2.Some?
            && r.d == Daemon(del.0, del.1, RefsWithout(d.refs, {id}), d.containers)
            && !r.outcome.InConflict? && (r.outcome.Done? <==> del.2.value.1.NoError?)
  {
    hide WellKeyed;
    hide Delete;
    hide RefsWithout;
    hide References;
    UntaggedRefs(d.refs, id);
    DeleteFinds(d.img, d.core, id, failing);
  }

  /** Deleting a childless image: no surviving image loses its parent. */
  lemma DeleteNowRemoves(d: Daemon, holds: Holds, id: ID, failing: set<ChainID>)
    requires DaemonInv(d, holds) && id in d.img.images && !HasChildren(d, id)
    ensures var r := DeleteNow(d, id, failing);
            && DaemonInv(r.d, holds) && Removes(d, r.d, {id})
            && !r.outcome.InConflict? && (failing == {} ==> r.outcome.Done?)
  {
    hide Inv;
    hide WellKeyed;
    hide Owning;
    hide Indexed;
    hide Delete;
    hide DeleteNow;
    hide ParentImage;
    hide RefsWithout;
    DeleteNowIsDelete(d, id, failing);
    DeleteFinds(d.img, d.core, id, failing);
    IndexedChildless(d, id);
    DeleteKeepsOwning(d.img, d.core, holds, id, failing);
    DeleteKeepsIndex(d.img, d.core, id, failing);
    DeleteKeepsOthers(d.img, d.core, id, failing);
  }

  lemma IndexedChildless(d: Daemon, id: ID)
    requires id in d.img.images && !HasChildren(d, id)
    ensures d.img.images[id].children == {}
  {}

  lemma DeleteFinds(img: Images, core: Core, id: ID, failing: set<ChainID>)
    requires WellKeyed(core.layers) && id in img.images
    ensures Delete(img, core, id, failing).2.Some?
  {
    hide Release;
    hide WellKeyed;
  }

  lemma DeleteKeepsOthers(img: Images, core: Core, id: ID, failing: set<ChainID>)
    requires WellKeyed(core.layers) && id in img.images && img.images[id].children == {}
    ensures var img' := Delete(img, core, id, failing).0;
            && img'.contents == img.contents - {id}
            && forall i :: i in img'.images ==>
                 && i in img.images && ParentImage(img', i) == ParentImage(img, i)
                 && img'.images[i].layer == img.images[i].layer && img'.images[i].config == img.images[i].config
  {
    hide Release;
    hide WellKeyed;
  }

  // ---------------------------------------------------------------- the prune

  ghost function Ids(t: seq<(Daemon, ID)>): set<ID> {
    set k | 0 <= k < |t| :: t[k].1
  }

  /** At the moment of its deletion an image may not have any of these. */
  ghost predicate Deletable(d: Daemon, id: ID, force: bool) {
    && id in d.img.images
    && (forall c :: c in d.img.images ==> ParentImage(d.img, c) != Some(id))
    && (forall c :: c in d.containers && c.image == id ==> !c.running && force)
    && (!force ==> forall r :: r in d.refs ==> d.refs[r] != id)
  }

  /** Every deletion is safe, and only the first, the one asked for, may be forced; each next one is the parent. */
  ghost predicate SafeDeletions(t: seq<(Daemon, ID)>, force: bool) {
    && (forall k :: 0 <= k < |t| ==> Deletable(t[k].0, t[k].1, force && k == 0))
    && (forall k :: 0 < k < |t| ==> ParentImage(t[k - 1].0.img, t[k - 1].1) == Some(t[k].1))
  }

  lemma NoConflictIsDeletable(d: Daemon, id: ID, force: bool)
    requires Indexed(d.img) && id in d.img.images
    requires CheckConflict(d, id, if force then HARD else HARD + SOFT).None?
    ensures Deletable(d, id, force) && !HasChildren(d, id)
  {
    forall c | c in d.img.images ensures ParentImage(d.img, c) != Some(id) {
      assert c in d.img.parents ==> c in ChildrenOf(d.img.parents, d.img.parents[c]);
    }
    ConflictExactly(d, id, if force then HARD else HARD + SOFT);
  }

  lemma ParentIsAnotherImage(d: Daemon, id: ID)
    requires Indexed(d.img) && id in d.img.images && !HasChildren(d, id) && ParentImage(d.img, id).Some?
    ensures ParentImage(d.img, id).value in d.img.images && ParentImage(d.img, id).value != id
  {
    assert id in d.img.parents ==> id in ChildrenOf(d.img.parents, d.img.parents[id]);
  }

  lemma IdsPrepend(d: Daemon, id: ID, t: seq<(Daemon, ID)>)
    ensures Ids([(d, id)] + t) == {id} + Ids(t)
  {
    var all := [(d, id)] + t;
    assert all[0].1 == id;
    forall x | x in Ids(t) ensures x in Ids(all) {
      var k :| 0 <= k < |t| && t[k].1 == x;
      assert all[k + 1].1 == x;
    }
  }

  lemma SafePrepend(d: Daemon, id: ID, force: bool, t: seq<(Daemon, ID)>)
    requires Deletable(d, id, force) && SafeDeletions(t, false)
    requires t != [] ==> ParentImage(d.img, id) == Some(t[0].1)
    ensures SafeDeletions([(d, id)] + t, force)
  {
    hide Deletable;
    hide ParentImage;
    var all := [(d, id)] + t;
    forall k | 0 <= k < |all| ensures Deletable(all[k].0, all[k].1, force && k == 0) {
      if k > 0 { assert all[k] == t[k - 1]; }
    }
  }

  /**
    imageDeleteHelper, on any stores in step: every image it deletes has at that moment no child and
    no running container, and unless it is the image asked for under force, no reference and no
    stopped container; exactly those images go, every survivor keeps its parent; a quiet call
    reports no conflict, and a reported conflict means that nothing was changed.
  */
  lemma {:induction false} DeleteHelperIsSafe(d: Daemon, holds: Holds, id: ID, force: bool, prune: bool, quiet: bool, failing: set<ChainID>)
    requires DaemonInv(d, holds) && id in d.img.images
    ensures var r := DeleteHelper(d, id, force, prune, quiet, failing);
            var t := Deletions(d, id, force, prune, failing);
            && DaemonInv(r.d, holds)
            && Removes(d, r.d, Ids(t))
            && SafeDeletions(t, force)
            && (t != [] ==> t[0] == (d, id))
            && (quiet ==> !r.outcome.InConflict?)
            && (r.outcome.InConflict? ==> r.d == d && t == [])
            && (failing == {} ==> !r.outcome.StoreError?)
            && (t == [] <==> CheckConflict(d, id, if force then HARD else HARD + SOFT).Some?)
    decreases |d.img.images|
  {
    hide Inv;
    hide WellKeyed;
    hide ImagesInv;
    hide DeleteNow;
    hide CheckConflict;
    hide Removes;
    hide SafeDeletions;
    hide DaemonInv;
    hide Ids;
    hide Deletable;
    hide HasChildren;
    hide ParentImage;
    ImagesInvParts(d, holds);
    var mask := if force then HARD else HARD + SOFT;
    if CheckConflict(d, id, mask).Some? {
      RemovesNothing(d);
      SafeNothing(force);
      if !CheckConflict(d, id, mask).value.used { UnusedConflictIsNotDangling(d, id, mask); }
    } else {
      NoConflictIsDeletable(d, id, force);
      DeleteNowRemoves(d, holds, id, failing);
      var r := DeleteNow(d, id, failing);
      var parent := ParentImage(d.img, id);
      OneSafeDeletion(d, id, force);
      if r.outcome.Done? && prune && parent.Some? {
        ParentIsAnotherImage(d, id);
        ParentSurvives(d, r.d, id, parent.value);
        DeleteHelperIsSafe(r.d, holds, parent.value, false, true, true, failing);
        var rest := Deletions(r.d, parent.value, false, true, failing);
        IdsPrepend(d, id, rest);
        SafePrepend(d, id, force, rest);
        RemovesTransitive(d, r.d, DeleteHelper(r.d, parent.value, false, true, true, failing).d, {id}, Ids(rest));
      }
    }
  }

  lemma ImagesInvParts(d: Daemon, holds: Holds)
    requires DaemonInv(d, holds)
    ensures WellKeyed(d.core.layers) && Indexed(d.img) && Owning(d.img, d.core)
  {}

  lemma SafeNothing(force: bool)
    ensures SafeDeletions([], force) && Ids([]) == {}
  {}

  lemma OneSafeDeletion(d: Daemon, id: ID, force: bool)
    requires Deletable(d, id, force)
    ensures SafeDeletions([(d, id)], force) && Ids([(d, id)]) == {id}
  {
    IdsPrepend(d, id, []);
    SafePrepend(d, id, force, []);
    assert [(d, id)] + [] == [(d, id)];
  }

  lemma ParentSurvives(d: Daemon, d': Daemon, id: ID, parent: ID)
    requires Removes(d, d', {id}) && parent in d.img.images && parent != id
    ensures parent in d'.img.images
  {}

  // ---------------------------------------------------------------- ImageDelete

  /** isSingleReference: all references are from one repository and at most one is a tag. */
  ghost predicate SingleReference(refs: set<Ref>) {
    && refs != {}
    && (forall a, b :: a in refs && b in refs ==> a.name == b.name)
    && (forall a, b :: a in refs && b in refs && a.Tagged? && b.Tagged? ==> a == b)
  }

  /** ImageDelete of a stored image given by its identifier. */
  ghost function DeleteByID(d: Daemon, id: ID, force: bool, prune: bool, failing: set<ChainID>): Result
    requires WellKeyed(d.core.layers)
  {
    var refs := References(d.refs, id);
    if !SingleReference(refs) then DeleteHelper(d, id, force, prune, false, failing)
    else
      var conflict := CheckConflict(d, id, if force then HARD else HARD + (SOFT - {ActiveReference}));
      if conflict.Some? then Result(d, InConflict(conflict.value), [])
      else DeleteHelper(Untag(d, refs), id, force, prune, false, failing)
  }

  /** The deletions that ImageDelete performs, given an image identifier. */
  ghost function DeletionsByID(d: Daemon, id: ID, force: bool, prune: bool, failing: set<ChainID>): seq<(Daemon, ID)>
    requires WellKeyed(d.core.layers)
  {
    var refs := References(d.refs, id);
    if !SingleReference(refs) then Deletions(d, id, force, prune, failing)
    else if CheckConflict(d, id, if force then HARD else HARD + (SOFT - {ActiveReference})).Some? then []
    else Deletions(Untag(d, refs), id, force, prune, failing)
  }

  /** The digest references that lose their last tag when `ref` goes. */
  function OrphanedDigests(refs: map<Ref, ID>, id: ID, ref: Ref): set<Ref> {
    var left := References(refs - {ref}, id);
    if ref.Canonical? || exists r :: r in left && r.Tagged? && r.name == ref.name then {}
    else set r | r in left && r.Canonical? && r.name == ref.name
  }

  predicate InUse(d: Daemon, id: ID) {
    exists c :: c in d.containers && c.image == id
  }

  const ReferenceInUse := Conflict(ActiveReference, false, true)

  /** ImageDelete given a repository reference that was resolved to the stored image `id`. */
  ghost function DeleteByReference(d: Daemon, id: ID, ref: Ref, force: bool, prune: bool, failing: set<ChainID>): Result
    requires WellKeyed(d.core.layers)
  {
    if !force && SingleReference(References(d.refs, id)) && InUse(d, id) then Result(d, InConflict(ReferenceInUse), [])
    else
      var untagged := Untag(d, {ref} + OrphanedDigests(d.refs, id, ref));
      if References(untagged.refs, id) != {} then Result(untagged, Done, [])
      else DeleteHelper(untagged, id, force, prune, true, failing)
  }

  /** The deletions that ImageDelete performs, given a repository reference. */
  ghost function DeletionsByReference(d: Daemon, id: ID, ref: Ref, force: bool, prune: bool, failing: set<ChainID>): seq<(Daemon, ID)>
    requires WellKeyed(d.core.layers)
  {
    var untagged := Untag(d, {ref} + OrphanedDigests(d.refs, id, ref));
    if !force && SingleReference(References(d.refs, id)) && InUse(d, id) then []
    else if References(untagged.refs, id) != {} then []
    else Deletions(untagged, id, force, prune, failing)
  }

  lemma UntagKeepsInv(d: Daemon, holds: Holds, gone: set<Ref>)
    requires DaemonInv(d, holds)
    ensures DaemonInv(Untag(d, gone), holds)
  {
    hide Inv;
  }

  /** Once the references are gone, a conflict that was not there before cannot be there now. */
  lemma SecondCheckPasses(d: Daemon, id: ID, force: bool)
    requires CheckConflict(d, id, if force then HARD else HARD + (SOFT - {ActiveReference})).None?
    ensures CheckConflict(Untag(d, References(d.refs, id)), id, if force then HARD else HARD + SOFT).None?
  {
    var untagged := Untag(d, References(d.refs, id));
    assert References(untagged.refs, id) == {};
  }

  lemma RemovedMeansUnreferenced(d: Daemon, d': Daemon, gone: set<ID>, id: ID)
    requires Removes(d, d', gone) && id in gone
    ensures id !in d'.img.images && References(d'.refs, id) == {}
  {}

  /**
    Deleting by identifier is all or nothing: a conflict is reported and nothing has changed, or the
    image and all references to it are gone. With working storage there is no third outcome.
  */
  lemma DeleteByIDAllOrNothing(d: Daemon, holds: Holds, id: ID, force: bool, prune: bool, failing: set<ChainID>)
    requires DaemonInv(d, holds) && id in d.img.images
    ensures var r := DeleteByID(d, id, force, prune, failing);
            && DaemonInv(r.d, holds)
            && (r.outcome.InConflict? ==> r.d == d)
            && (!r.outcome.InConflict? ==> id !in r.d.img.images && References(r.d.refs, id) == {})
            && (failing == {} ==> !r.outcome.StoreError?)
            && var t := DeletionsByID(d, id, force, prune, failing);
               SafeDeletions(t, force) && RemovesImages(d, r.d, Ids(t))
  {
    hide DaemonInv;
    hide WellKeyed;
    hide DeleteHelper;
    hide Deletions;
    hide CheckConflict;
    hide SingleReference;
    hide References;
    hide Removes;
    hide RemovesImages;
    hide SafeDeletions;
    hide Ids;
    ImagesInvParts(d, holds);
    var refs := References(d.refs, id);
    var mask := if force then HARD else HARD + SOFT;
    var start := d;
    if SingleReference(refs) {
      if CheckConflict(d, id, if force then HARD else HARD + (SOFT - {ActiveReference})).Some? {
        SafeNothing(force);
        UntagRemovesNothing(d, {});
        return;
      }
      SecondCheckPasses(d, id, force);
      UntagKeepsInv(d, holds, refs);
      start := Untag(d, refs);
    }
    DeleteHelperIsSafe(start, holds, id, force, prune, false, failing);
    var t := Deletions(start, id, force, prune, failing);
    RemovesThroughUntag(d, refs, DeleteHelper(start, id, force, prune, false, failing).d, Ids(t));
    if CheckConflict(start, id, mask).None? {
      FirstIsGone(t, start, id);
      RemovedMeansUnreferenced(start, DeleteHelper(start, id, force, prune, false, failing).d, Ids(t), id);
    } else {
      ConflictStopsHelper(start, id, force, prune, failing);
    }
  }

  lemma FirstIsGone(t: seq<(Daemon, ID)>, d: Daemon, id: ID)
    requires t != [] && t[0] == (d, id)
    ensures id in Ids(t)
  {}

  lemma ConflictStopsHelper(d: Daemon, id: ID, force: bool, prune: bool, failing: set<ChainID>)
    requires WellKeyed(d.core.layers) && CheckConflict(d, id, if force then HARD else HARD + SOFT).Some?
    ensures DeleteHelper(d, id, force, prune, false, failing).outcome.InConflict?
  {
    hide CheckConflict;
  }

  /** Pruning never takes a reference away: an image that has one is in conflict. */
  lemma {:induction false} UnforcedKeepsReferences(d: Daemon, id: ID, force: bool, prune: bool, quiet: bool, failing: set<ChainID>)
    requires WellKeyed(d.core.layers) && (force ==> References(d.refs, id) == {})
    ensures DeleteHelper(d, id, force, prune, quiet, failing).d.refs == d.refs
    decreases |d.img.images|
  {
    hide WellKeyed;
    hide Delete;
    hide HasChildren;
    hide UsedBy;
    if CheckConflict(d, id, if force then HARD else HARD + SOFT).None? {
      assert References(d.refs, id) == {};
      assert d.refs - {} == d.refs;
      var r := DeleteNow(d, id, failing);
      if r.outcome.Done? && prune && ParentImage(d.img, id).Some? {
        UnforcedKeepsReferences(r.d, ParentImage(d.img, id).value, false, true, true, failing);
      }
    }
  }

  /**
    Deleting by reference: a conflict is reported and nothing has changed, or the reference is gone.
    Besides it go only digest references of the same repository; references to other images stay;
    the image goes only when no reference to it is left.
  */
  lemma DeleteByReferenceIsSafe(d: Daemon, holds: Holds, id: ID, ref: Ref, force: bool, prune: bool, failing: set<ChainID>)
    requires DaemonInv(d, holds) && id in d.img.images && (ref in d.refs ==> d.refs[ref] == id)
    ensures var r := DeleteByReference(d, id, ref, force, prune, failing);
            && DaemonInv(r.d, holds)
            && (r.outcome.InConflict? ==> r.d == d)
            && (!r.outcome.InConflict? ==> ref !in r.d.refs)
            && (forall q :: q in d.refs && d.refs[q] != id ==> q in r.d.refs)
            && (forall q :: q in r.d.refs ==> q in d.refs && r.d.refs[q] == d.refs[q])
            && (forall q :: q in d.refs && q !in r.d.refs ==> q == ref || (ref.Tagged? && q.Canonical? && q.name == ref.name))
            && (References(r.d.refs, id) != {} ==> r.d.img == d.img)
            && (failing == {} ==> !r.outcome.StoreError?)
            && var t := DeletionsByReference(d, id, ref, force, prune, failing);
               SafeDeletions(t, force) && RemovesImages(d, r.d, Ids(t))
  {
    hide DaemonInv;
    hide WellKeyed;
    hide DeleteHelper;
    hide Deletions;
    hide SingleReference;
    hide Removes;
    hide SafeDeletions;
    hide CheckConflict;
    hide RemovesImages;
    hide Ids;
    SafeNothing(force);
    UntagRemovesNothing(d, {});
    UntagRemovesNothing(d, {ref} + OrphanedDigests(d.refs, id, ref));
    ImagesInvParts(d, holds);
    if force || !SingleReference(References(d.refs, id)) || !InUse(d, id) {
      var untagged := Untag(d, {ref} + OrphanedDigests(d.refs, id, ref));
      UntagKeepsInv(d, holds, {ref} + OrphanedDigests(d.refs, id, ref));
      ImagesInvParts(untagged, holds);
      if References(untagged.refs, id) == {} {
        DeleteHelperIsSafe(untagged, holds, id, force, prune, true, failing);
        RemovesThroughUntag(d, {ref} + OrphanedDigests(d.refs, id, ref), DeleteHelper(untagged, id, force, prune, true, failing).d,
                            Ids(Deletions(untagged, id, force, prune, failing)));
        UnforcedKeepsReferences(untagged, id, force, prune, true, failing);
      }
    }
  }
}
