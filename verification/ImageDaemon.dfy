/** The daemon's side of image deletion as an object, proved against ImageDeletion. */
module ImageDaemons {
  import opened Wrappers
  import opened ChainIDs
  import opened LayerModel
  import opened LayerStores
  import opened ImageModel
  import opened ImageStores
  import opened ImageDeletion

  /** types.ImageDelete. */
  datatype Entry = Untagged(ref: Ref) | Deleted(record: Record)

  function DeletedOf(records: seq<Entry>): seq<Record> {
    if records == [] then []
    else DeletedOf(records[..|records| - 1]) +
         (if records[|records| - 1].Deleted? then [records[|records| - 1].record] else [])
  }

  ghost function UntaggedOf(records: seq<Entry>): set<Ref> {
    set i | 0 <= i < |records| && records[i].Untagged? :: records[i].ref
  }

  lemma RecordOne(records: seq<Entry>, e: Entry)
    ensures DeletedOf(records + [e]) == DeletedOf(records) + if e.Deleted? then [e.record] else []
    ensures UntaggedOf(records + [e]) == UntaggedOf(records) + if e.Untagged? then {e.ref} else {}
  {
    var all := records + [e];
    assert all[..|records|] == records && all[|records|] == e;
    forall x | x in UntaggedOf(records) ensures x in UntaggedOf(all) {
      var i :| 0 <= i < |records| && records[i].Untagged? && records[i].ref == x;
      assert all[i] == records[i];
    }
    forall x | x in UntaggedOf(all) ensures x in UntaggedOf(records) || (e.Untagged? && x == e.ref) {
      var i :| 0 <= i < |all| && all[i].Untagged? && all[i].ref == x;
      if i < |records| { assert all[i] == records[i]; }
    }
  }

  /** The references of a list, all of one repository and at most one of them a tag. */
  ghost predicate SingleInList(refs: seq<Ref>) {
    && refs != []
    && (forall i, j :: 0 <= i < j < |refs| ==> refs[i].name == refs[j].name)
    && (forall i, j :: 0 <= i < j < |refs| ==> refs[i].Canonical? || refs[j].Canonical?)
  }

  lemma SingleInListIsSingle(refs: seq<Ref>, all: set<Ref>)
    requires Lists(refs, all)
    ensures SingleInList(refs) <==> SingleReference(all)
  {
    if SingleInList(refs) {
      assert refs[0] in all;
      forall a, b | a in all && b in all ensures a.name == b.name && (a.Tagged? && b.Tagged? ==> a == b) {
        var i :| 0 <= i < |refs| && refs[i] == a;
        var j :| 0 <= j < |refs| && refs[j] == b;
        if i < j || j < i { assert refs[i].name == refs[j].name; }
      }
    }
    if SingleReference(all) {
      forall i, j | 0 <= i < j < |refs| ensures refs[i].name == refs[j].name && (refs[i].Canonical? || refs[j].Canonical?) {
        assert refs[i] in all && refs[j] in all && refs[i] != refs[j];
      }
    }
  }

  lemma HelperUnfolds(d: Daemon, id: ID, force: bool, prune: bool, quiet: bool, failing: set<ChainID>)
    requires WellKeyed(d.core.layers)
    ensures var all := ImageDeletion.DeleteHelper(d, id, force, prune, quiet, failing);
            var conflict := CheckConflict(d, id, if force then HARD else HARD + SOFT);
            var r, parent := ImageDeletion.DeleteNow(d, id, failing), ParentImage(d.img, id);
            if conflict.Some? then
              all == Result(d, if quiet && (!Dangling(d, id) || conflict.value.used) then Done else InConflict(conflict.value), [])
            else if !r.outcome.Done? || !prune || parent.None? then all == r
            else
              var rest := ImageDeletion.DeleteHelper(r.d, parent.value, false, true, true, failing);
              all == Result(rest.d, rest.outcome, r.deleted + rest.deleted)
  {
    hide ImageDeletion.DeleteNow;
    hide CheckConflict;
    hide ParentImage;
    hide Dangling;
  }

  /** isSingleReference. */
  method IsSingleReference(repoRefs: seq<Ref>) returns (single: bool)
    ensures single <==> SingleInList(repoRefs)
  {
    if |repoRefs| <= 1 { return |repoRefs| == 1; }
    var singleRef: Option<Ref> := None;
    var canonicalNames: set<string> := {};
    ghost var at := 0;
    for i := 0 to |repoRefs|
      invariant forall n :: n in canonicalNames <==> exists j :: 0 <= j < i && repoRefs[j].Canonical? && repoRefs[j].name == n
      invariant singleRef.None? ==> forall j :: 0 <= j < i ==> repoRefs[j].Canonical?
      invariant singleRef.Some? ==> 0 <= at < i && repoRefs[at] == singleRef.value && singleRef.value.Tagged?
      invariant singleRef.Some? ==> forall j :: 0 <= j < i && j != at ==> repoRefs[j].Canonical?
    {
      if repoRefs[i].Canonical? {
        canonicalNames := canonicalNames + {repoRefs[i].name};
      } else if singleRef.None? {
        singleRef := Some(repoRefs[i]);
        at := i;
      } else {
        assert !SingleInList(repoRefs);
        return false;
      }
    }
    var name := if singleRef.Some? then singleRef.value.name else repoRefs[0].name;
    single := |canonicalNames| == 1 && name in canonicalNames;
    OneName(repoRefs, canonicalNames, name, if singleRef.Some? then at else 0);
  }

  lemma OneName(refs: seq<Ref>, names: set<string>, name: string, at: nat)
    requires |refs| >= 2 && at < |refs| && refs[at].name == name
    requires forall n :: n in names <==> exists j :: 0 <= j < |refs| && refs[j].Canonical? && refs[j].name == n
    requires forall j :: 0 <= j < |refs| && j != at ==> refs[j].Canonical?
    ensures |names| == 1 && name in names <==> SingleInList(refs)
  {
    forall j | 0 <= j < |refs| && refs[j].Canonical? ensures refs[j].name in names {}
    if |names| == 1 && name in names {
      assert |names - {name}| == 0;
      forall j | 0 <= j < |refs| ensures refs[j].name == name {
        if j != at { assert refs[j].name in names; }
      }
    }
    if SingleInList(refs) {
      var other := if at == 0 then 1 else 0;
      assert refs[other].name == name;
      forall n | n in names ensures n == name {
        var j :| 0 <= j < |refs| && refs[j].Canonical? && refs[j].name == n;
        if j < at || at < j { assert refs[j].name == refs[at].name; }
      }
      assert names == {name};
    }
  }

  ghost function DigestsIn(list: seq<Ref>, name: string): set<Ref> {
    set r | r in list && r.Canonical? && r.name == name
  }

  lemma ListsAppend(s: seq<Ref>, all: set<Ref>, x: Ref)
    requires Lists(s, all) && x !in all
    ensures Lists(s + [x], all + {x})
  {
    var t := s + [x];
    forall y ensures y in all + {x} <==> y in t {}
    forall i, j | 0 <= i < j < |t| ensures t[i] != t[j] { assert t[i] in s; }
  }

  /** The references that were in `before` and are not in `after`. */
  function Dropped(before: map<Ref, ID>, after: map<Ref, ID>): set<Ref> {
    before.Keys - after.Keys
  }

  lemma DroppedAre(refs: map<Ref, ID>, gone: set<Ref>)
    ensures Dropped(refs, refs - gone) == gone * refs.Keys
    ensures (refs - gone).Keys <= refs.Keys
  {}

  lemma NothingDropped(refs: map<Ref, ID>)
    ensures Dropped(refs, refs) == {}
  {}

  lemma DroppedTransitive(a: map<Ref, ID>, b: map<Ref, ID>, c: map<Ref, ID>)
    requires c.Keys <= b.Keys <= a.Keys
    ensures Dropped(a, c) == Dropped(a, b) + Dropped(b, c) && c.Keys <= a.Keys
  {}

  /** The records of a deletion by reference, when `between` is left after the reference and `after` in the end. */
  lemma ReferenceRecords(u: set<Ref>, before: map<Ref, ID>, between: map<Ref, ID>, after: map<Ref, ID>, id: ID, ref: Ref)
    requires between == before - ({ref} + OrphanedDigests(before, id, ref)) && after.Keys <= between.Keys
    ensures u + {ref} + OrphanedDigests(before, id, ref) + Dropped(between, after) == u + Dropped(before, after) + {ref}
    ensures after == between ==> u + {ref} + OrphanedDigests(before, id, ref) == u + Dropped(before, after) + {ref}
  {
    DroppedTransitive(before, between, after);
    assert Dropped(before, between) + {ref} == {ref} + OrphanedDigests(before, id, ref);
  }

  class ImageDaemon {
    const store: ImageStore
    const containers: set<Container>
    var refs: map<Ref, ID>
    var records: seq<Entry>

    constructor (store: ImageStore, containers: set<Container>, refs: map<Ref, ID>)
      ensures this.store == store && this.containers == containers && this.refs == refs && records == []
    {
      this.store, this.containers, this.refs, records := store, containers, refs, [];
    }

    ghost function Abs(): Daemon
      reads this, store, store.ls
    {
      Daemon(store.Abs(), store.ls.Abs(), refs, containers)
    }

    method AddRecord(e: Entry)
      modifies this`records
      ensures DeletedOf(records) == DeletedOf(old(records)) + if e.Deleted? then [e.record] else []
      ensures UntaggedOf(records) == UntaggedOf(old(records)) + if e.Untagged? then {e.ref} else {}
    {
      RecordOne(records, e);
      records := records + [e];
    }

    /** referenceStore.References, in some order. */
    method ReferencesTo(id: ID) returns (list: seq<Ref>)
      ensures Lists(list, References(refs, id))
    {
      var left := References(refs, id);
      list := [];
      while left != {}
        invariant left <= References(refs, id)
        invariant Lists(list, References(refs, id) - left)
        decreases |left|
      {
        var r :| r in left;
        list := list + [r];
        left := left - {r};
      }
    }

    /** Removes the listed references and records it. */
    method RemoveRefs(list: seq<Ref>, ghost gone: set<Ref>)
      requires Lists(list, gone)
      modifies this`refs, this`records
      ensures refs == old(refs) - gone
      ensures DeletedOf(records) == DeletedOf(old(records))
      ensures UntaggedOf(records) == UntaggedOf(old(records)) + gone
    {
      ghost var done: set<Ref> := {};
      for i := 0 to |list|
        invariant forall x :: x in done <==> x in list[..i]
        invariant refs == old(refs) - done
        invariant DeletedOf(records) == DeletedOf(old(records))
        invariant UntaggedOf(records) == UntaggedOf(old(records)) + done
      {
        refs := refs - {list[i]};
        AddRecord(Untagged(list[i]));
        done := done + {list[i]};
        assert list[..i + 1] == list[..i] + [list[i]];
      }
      assert list[..|list|] == list;
      assert done == gone;
    }

    /** Records an image and the layers that went with it. */
    method RecordDeletion(id: ID, removed: seq<Metadata>)
      modifies this`records
      ensures DeletedOf(records) == DeletedOf(old(records)) + ([DeletedImage(id)] + LayerRecords(removed))
      ensures UntaggedOf(records) == UntaggedOf(old(records))
    {
      AddRecord(Deleted(DeletedImage(id)));
      assert LayerRecords(removed[..0]) == [];
      for i := 0 to |removed|
        invariant DeletedOf(records) == DeletedOf(old(records)) + ([DeletedImage(id)] + LayerRecords(removed[..i]))
        invariant UntaggedOf(records) == UntaggedOf(old(records))
      {
        AddRecord(Deleted(DeletedLayer(removed[i].chain)));
        assert LayerRecords(removed[..i + 1]) == LayerRecords(removed[..i]) + [DeletedLayer(removed[i].chain)];
      }
      assert removed[..|removed|] == removed;
    }

    /** The part of imageDeleteHelper that deletes. */
    method DeleteNow(id: ID, failing: set<ChainID>) returns (outcome: DeleteOutcome)
      requires WellKeyed(store.ls.layerMap)
      modifies this, store, store.ls
      ensures var r := ImageDeletion.DeleteNow(old(Abs()), id, failing);
              && Abs() == r.d && outcome == r.outcome
              && DeletedOf(records) == DeletedOf(old(records)) + r.deleted
      ensures refs.Keys <= old(refs.Keys)
      ensures UntaggedOf(records) == UntaggedOf(old(records)) + Dropped(old(refs), refs)
    {
      hide UntaggedOf;
      hide DeletedOf;
      hide Dropped;
      hide Lists;
      hide WellKeyed;
      DroppedAre(refs, References(refs, id));
      assert References(refs, id) * refs.Keys == References(refs, id);
      var list := ReferencesTo(id);
      RemoveRefs(list, References(refs, id));
      var r := store.Delete(id, failing);
      if r.None? || !r.value.1.NoError? { return StoreError; }
      RecordDeletion(id, r.value.0);
      outcome := Done;
    }

    /** imageDeleteHelper. */
    method DeleteHelper(id: ID, force: bool, prune: bool, quiet: bool, failing: set<ChainID>) returns (outcome: DeleteOutcome)
      requires WellKeyed(store.ls.layerMap)
      modifies this, store, store.ls
      ensures var r := ImageDeletion.DeleteHelper(old(Abs()), id, force, prune, quiet, failing);
              && Abs() == r.d && outcome == r.outcome
              && DeletedOf(records) == DeletedOf(old(records)) + r.deleted
      ensures refs.Keys <= old(refs.Keys)
      ensures UntaggedOf(records) == UntaggedOf(old(records)) + Dropped(old(refs), refs)
      decreases |store.images|
    {
      hide ImageDeletion.DeleteNow;
      hide CheckConflict;
      hide ParentImage;
      hide Dangling;
      hide References;
      hide Dropped;
      hide UntaggedOf;
      NothingDropped(refs);
      hide DeletedOf;
      hide WellKeyed;
      var d := Snapshot();
      HelperUnfolds(d, id, force, prune, quiet, failing);
      hide ImageDeletion.DeleteHelper;
      var conflict := CheckConflict(d, id, if force then HARD else HARD + SOFT);
      if conflict.Some? {
        if quiet && (!Dangling(d, id) || conflict.value.used) { return Done; }
        return InConflict(conflict.value);
      }
      var parent := ParentImage(d.img, id);
      outcome := DeleteNow(id, failing);
      if !outcome.Done? || !prune || parent.None? { return; }
      ghost var between := refs;
      outcome := DeleteHelper(parent.value, false, true, true, failing);
      DroppedTransitive(old(refs), between, refs);
    }

    /** What the stores hold, as the queries of the conflict check see it. */
    method Snapshot() returns (d: Daemon)
      ensures d == Abs()
    {
      d := Daemon(Images(store.images, store.contents, store.parents),
                  Core(store.ls.layerMap, store.ls.mounts, store.ls.layerMeta, store.ls.mountMeta, store.ls.next),
                  refs, containers);
    }

    /** ImageDelete given an image identifier. */
    method DeleteByID(id: ID, force: bool, prune: bool, failing: set<ChainID>) returns (outcome: DeleteOutcome)
      requires WellKeyed(store.ls.layerMap)
      modifies this, store, store.ls
      ensures var r := ImageDeletion.DeleteByID(old(Abs()), id, force, prune, failing);
              && Abs() == r.d && outcome == r.outcome
              && DeletedOf(records) == DeletedOf(old(records)) + r.deleted
      ensures UntaggedOf(records) == UntaggedOf(old(records)) + Dropped(old(refs), refs)
    {
      hide UntaggedOf;
      hide DeletedOf;
      hide Dropped;
      hide Lists;
      hide WellKeyed;
      hide SingleReference;
      hide SingleInList;
      hide CheckConflict;
      hide ImageDeletion.DeleteHelper;
      var list := ReferencesTo(id);
      var single := IsSingleReference(list);
      SingleInListIsSingle(list, References(refs, id));
      NothingDropped(refs);
      if single {
        var d := Snapshot();
        var conflict := CheckConflict(d, id, if force then HARD else HARD + (SOFT - {ActiveReference}));
        if conflict.Some? { return InConflict(conflict.value); }
        DroppedAre(refs, References(refs, id));
        assert References(refs, id) * refs.Keys == References(refs, id);
        RemoveRefs(list, References(refs, id));
      }
      ghost var between := refs;
      outcome := DeleteHelper(id, force, prune, false, failing);
      DroppedTransitive(old(refs), between, refs);
    }

    /** Looks through `list` for a tag of repository `name`, and for its digest references. */
    method DigestsOf(list: seq<Ref>, name: string) returns (tagLeft: bool, digests: seq<Ref>)
      requires forall i, j :: 0 <= i < j < |list| ==> list[i] != list[j]
      ensures tagLeft <==> exists r :: r in list && r.Tagged? && r.name == name
      ensures Lists(digests, DigestsIn(list, name))
    {
      tagLeft, digests := false, [];
      for i := 0 to |list|
        invariant tagLeft <==> exists r :: r in list[..i] && r.Tagged? && r.name == name
        invariant Lists(digests, DigestsIn(list[..i], name))
      {
        hide Lists;
        assert list[..i + 1] == list[..i] + [list[i]];
        assert list[i] !in list[..i];
        if list[i].Tagged? && list[i].name == name { tagLeft := true; }
        if list[i].Canonical? && list[i].name == name {
          ListsAppend(digests, DigestsIn(list[..i], name), list[i]);
          digests := digests + [list[i]];
          assert DigestsIn(list[..i + 1], name) == DigestsIn(list[..i], name) + {list[i]};
        } else {
          assert DigestsIn(list[..i + 1], name) == DigestsIn(list[..i], name);
        }
      }
      assert list[..|list|] == list;
    }

    /** Removes the given reference, and the digest references that lose their last tag with it. */
    method RemoveReference(id: ID, ref: Ref)
      modifies this`refs, this`records
      ensures refs == old(refs) - ({ref} + OrphanedDigests(old(refs), id, ref))
      ensures DeletedOf(records) == DeletedOf(old(records))
      ensures UntaggedOf(records) == UntaggedOf(old(records)) + {ref} + OrphanedDigests(old(refs), id, ref)
    {
      refs := refs - {ref};
      AddRecord(Untagged(ref));
      ghost var orphaned := OrphanedDigests(old(refs), id, ref);
      if ref.Tagged? {
        var left := ReferencesTo(id);
        var tagLeft, digests := DigestsOf(left, ref.name);
        if !tagLeft {
          assert DigestsIn(left, ref.name) == orphaned;
          RemoveRefs(digests, orphaned);
        }
      }
      assert old(refs) - {ref} - orphaned == old(refs) - ({ref} + orphaned);
    }

    /** ImageDelete given a repository reference resolved to the image `id`. */
    method DeleteByReference(id: ID, ref: Ref, force: bool, prune: bool, failing: set<ChainID>) returns (outcome: DeleteOutcome)
      requires WellKeyed(store.ls.layerMap)
      modifies this, store, store.ls
      ensures var r := ImageDeletion.DeleteByReference(old(Abs()), id, ref, force, prune, failing);
              && Abs() == r.d && outcome == r.outcome
              && DeletedOf(records) == DeletedOf(old(records)) + r.deleted
      ensures UntaggedOf(records) ==
              UntaggedOf(old(records)) + Dropped(old(refs), refs) + if outcome.InConflict? then {} else {ref}
    {
      hide Dropped;
      hide UntaggedOf;
      hide DeletedOf;
      hide ImageDeletion.DeleteHelper;
      hide WellKeyed;
      hide OrphanedDigests;
      hide SingleReference;
      hide Lists;
      hide SingleInList;
      hide References;
      var all := ReferencesTo(id);
      var single := IsSingleReference(all);
      SingleInListIsSingle(all, References(refs, id));
      if !force && single && exists c :: c in containers && c.image == id {
        NothingDropped(refs);
        return InConflict(ReferenceInUse);
      }
      RemoveReference(id, ref);
      ghost var u, between := UntaggedOf(old(records)), Abs();
      assert between == Untag(old(Abs()), {ref} + OrphanedDigests(old(refs), id, ref));
      ReferenceRecords(u, old(refs), refs, refs, id, ref);
      if References(refs, id) != {} { return Done; }
      outcome := DeleteHelper(id, force, prune, true, failing);
      QuietNeverConflicts(between, id, force, prune, failing);
      ReferenceRecords(u, old(refs), between.refs, refs, id, ref);
    }
  }
}
