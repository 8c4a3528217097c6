/**
  When the backend keeps the configuration of every image and the index stays in step with the
  persisted parents. Create stores a configuration before it takes the lock that Delete holds while
  it removes one, so neither holds in every interleaving; this module says exactly when they do.
*/
module StackBackend {
  import opened Wrappers
  import opened LayerModel
  import opened LayerRuns
  import opened ImageModel
  import opened ImageStores
  import opened StorageStack

  /** The backend has the configuration of every image. */
  ghost predicate Backed(s: Stack) {
    s.img.images.Keys <= s.img.contents.Keys
  }

  // ---------------------------------------------------------------- one event

  /** The creation of an image whose configuration has gone meanwhile is completed. */
  predicate LosesConfiguration(s: Stack, e: StackEvent) {
    && e.CommitImage? && e.t in s.pending && e.addOK
    && s.pending[e.t].id !in s.img.contents && s.pending[e.t].id !in s.img.images
    && LayerPresent(s.pending[e.t].config, s.sys.core.layers.Keys)
  }

  /** A parent is set on an image that has lost its configuration. */
  predicate LosesLink(s: Stack, e: StackEvent) {
    e.LinkParent? && e.id in s.img.images && e.id !in s.img.contents && e.parent in s.img.images
  }

  lemma NextKeepsBackedExactly(s: Stack, e: StackEvent)
    requires StackInv(s) && Backed(s)
    ensures Backed(StackNext(s, e)) <==> !LosesConfiguration(s, e)
  {
    hide SysInv;
    hide WellKeyed;
    hide Then;
    hide Owning;
    hide Covered;
    hide Claims;
    hide Release;
    hide TopLayer;
    InvGivesKeys(s.sys);
  }

  lemma NextKeepsIndexExactly(s: Stack, e: StackEvent)
    requires StackInv(s) && Indexed(s.img)
    ensures Indexed(StackNext(s, e).img) <==> !LosesLink(s, e)
  {
    hide SysInv;
    hide WellKeyed;
    hide Then;
    hide Owning;
    hide Claims;
    hide Addressed;
    hide Covered;
    hide Delete;
    hide CreateCommit;
    hide SetParent;
    hide Indexed;
    InvGivesKeys(s.sys);
    if Allowed(s, e) {
      match e
      case OfLayers(_) =>
      case StoreImage(_, _, _, _) => if Stores(s, e) { CreateStoreKeepsIndex(s.img, e.config.value, e.id); }
      case CommitImage(t, addOK) =>
        if t in s.pending { CreateCommitKeepsIndex(s.img, s.sys.core, s.pending[t].config, s.pending[t].id, addOK); }
      case LinkParent(id, parent) => SetParentKeepsIndexExactly(s.img, id, parent, true);
      case DeleteImage(id, failing) => DeleteKeepsIndex(s.img, s.sys.core, id, failing);
    }
  }

  // ---------------------------------------------------------------- one creation

  /** Event `k` of a run stores the configuration of `id`. */
  ghost predicate StoresAt(s: Stack, events: seq<StackEvent>, k: int, id: ID)
    requires StackInv(s) && 0 <= k < |events|
  {
    var before := StackRun(s, events[..k]);
    Stores(before, events[k]) && Allowed(before, events[k]) && events[k].id == id
  }

  /** Event `d` of a run deletes the image `id`. */
  ghost predicate DeletesAt(s: Stack, events: seq<StackEvent>, d: int, id: ID)
    requires StackInv(s) && 0 <= d < |events|
  {
    events[d].DeleteImage? && events[d].id == id && id in StackRun(s, events[..d]).img.images
  }

  /** Whenever the image is deleted, somebody stores its configuration again later on. */
  ghost predicate StoredAfterDeletes(s: Stack, events: seq<StackEvent>, id: ID)
    requires StackInv(s)
  {
    forall d :: 0 <= d < |events| && DeletesAt(s, events, d, id) ==> StoredAfter(s, events, d, id)
  }

  ghost predicate StoredAfter(s: Stack, events: seq<StackEvent>, d: int, id: ID)
    requires StackInv(s) && 0 <= d < |events|
  {
    exists k :: d < k < |events| && StoresAt(s, events, k, id)
  }

  lemma NextContents(s: Stack, e: StackEvent, id: ID)
    requires StackInv(s)
    ensures id in StackNext(s, e).img.contents <==>
              || (Stores(s, e) && Allowed(s, e) && e.id == id)
              || (id in s.img.contents && !(e.DeleteImage? && e.id == id && id in s.img.images))
  {
    hide SysInv;
    hide WellKeyed;
    hide Then;
    hide Owning;
    hide Covered;
    hide Claims;
    hide Release;
    hide TopLayer;
    InvGivesKeys(s.sys);
  }

  /** A stored configuration is still there after a run exactly if every deletion of its image was followed by another store. */
  lemma {:induction false} BackendKeepsConfiguration(s: Stack, events: seq<StackEvent>, id: ID)
    requires StackInv(s) && id in s.img.contents
    ensures id in StackRun(s, events).img.contents <==> StoredAfterDeletes(s, events, id)
    decreases |events|
  {
    hide StackInv;
    hide StackNext;
    hide Stores;
    hide Allowed;
    if events != [] {
      var n := |events| - 1;
      var before := events[..n];
      BackendKeepsConfiguration(s, before, id);
      NextContents(StackRun(s, before), events[n], id);
      LastEventDecides(s, events, id);
    }
  }

  /** What happened before the last event happened in the run without it. */
  lemma EventsBefore(s: Stack, events: seq<StackEvent>, k: nat, id: ID)
    requires StackInv(s) && k + 1 < |events|
    ensures var before := events[..|events| - 1];
            && (StoresAt(s, before, k, id) <==> StoresAt(s, events, k, id))
            && (DeletesAt(s, before, k, id) <==> DeletesAt(s, events, k, id))
  {
    assert events[..|events| - 1][..k] == events[..k];
  }

  lemma StoredAfterBefore(s: Stack, events: seq<StackEvent>, d: nat, id: ID)
    requires StackInv(s) && d + 1 < |events|
    ensures var n := |events| - 1;
            StoredAfter(s, events, d, id) <==> StoresAt(s, events, n, id) || StoredAfter(s, events[..n], d, id)
  {
    hide StackInv;
    hide StoresAt;
    var n := |events| - 1;
    forall k: nat | k < n ensures StoresAt(s, events[..n], k, id) <==> StoresAt(s, events, k, id) { EventsBefore(s, events, k, id); }
  }

  lemma LastEventDecides(s: Stack, events: seq<StackEvent>, id: ID)
    requires StackInv(s) && events != []
    ensures var n := |events| - 1;
            StoredAfterDeletes(s, events, id) <==>
              StoresAt(s, events, n, id) || (StoredAfterDeletes(s, events[..n], id) && !DeletesAt(s, events, n, id))
  {
    hide StackInv;
    hide StoresAt;
    hide DeletesAt;
    hide StoredAfter;
    var n := |events| - 1;
    forall d: nat | d < n
      ensures DeletesAt(s, events[..n], d, id) <==> DeletesAt(s, events, d, id)
      ensures StoredAfter(s, events, d, id) <==> StoresAt(s, events, n, id) || StoredAfter(s, events[..n], d, id)
    {
      EventsBefore(s, events, d, id);
      StoredAfterBefore(s, events, d, id);
    }
    LastIsNotFollowed(s, events, id);
  }

  lemma LastIsNotFollowed(s: Stack, events: seq<StackEvent>, id: ID)
    requires StackInv(s) && events != []
    ensures var n := |events| - 1;
            !StoredAfter(s, events, n, id) && !(StoresAt(s, events, n, id) && DeletesAt(s, events, n, id))
  {
    hide StackInv;
  }

  /**
    A Create that stores its configuration, waits while `events` happen, and then adds its image:
    the backend has the configuration of the new image exactly if every deletion of that identifier
    in between was followed by another store of it.
  */
  lemma CreationKeepsConfigurationExactly(s: Stack, t: nat, config: Config, id: ID, events: seq<StackEvent>)
    requires StackInv(s) && Stores(s, StoreImage(t, Some(config), id, true)) && Allowed(s, StoreImage(t, Some(config), id, true))
    ensures var s1 := StackNext(s, StoreImage(t, Some(config), id, true));
            && StackInv(s1)
            && var s2 := StackRun(s1, events);
               var s3 := StackNext(s2, CommitImage(t, true));
               && (t in s2.pending && s2.pending[t] == Creation(id, config) && LayerPresent(config, s2.sys.core.layers.Keys) ==> id in s3.img.images)
               && (id in s3.img.contents <==> StoredAfterDeletes(s1, events, id))
  {
    hide StackInv;
    hide StoredAfterDeletes;
    StackNextKeepsInv(s, StoreImage(t, Some(config), id, true));
    var s1 := StackNext(s, StoreImage(t, Some(config), id, true));
    NextContents(s, StoreImage(t, Some(config), id, true), id);
    BackendKeepsConfiguration(s1, events, id);
    NextContents(StackRun(s1, events), CommitImage(t, true), id);
  }

  // ---------------------------------------------------------------- runs

  /** No image is deleted while a creation of it is pending. */
  ghost predicate OrderlyEvent(s: Stack, e: StackEvent) {
    e.DeleteImage? && e.id in s.img.images ==> forall t :: t in s.pending ==> s.pending[t].id != e.id
  }

  ghost predicate Orderly(s: Stack, events: seq<StackEvent>)
    requires StackInv(s)
  {
    forall n :: 0 <= n < |events| ==> OrderlyEvent(StackRun(s, events[..n]), events[n])
  }

  ghost predicate Kept(s: Stack) {
    Backed(s) && Indexed(s.img) && forall t :: t in s.pending ==> s.pending[t].id in s.img.contents
  }

  lemma NextKeepsPending(s: Stack, e: StackEvent)
    requires StackInv(s) && OrderlyEvent(s, e)
    requires forall t :: t in s.pending ==> s.pending[t].id in s.img.contents
    ensures var s' := StackNext(s, e);
            forall t :: t in s'.pending ==> s'.pending[t].id in s'.img.contents
  {
    hide SysInv;
    hide WellKeyed;
    hide Then;
    hide Owning;
    hide Covered;
    hide Claims;
    hide Release;
    hide TopLayer;
    InvGivesKeys(s.sys);
  }

  /**
    In every run in which no image is deleted while a creation of it is pending, the backend has the
    configuration of every image, and a child is in the index if and only if its persisted parent
    says so.
  */
  lemma {:induction false} OrderlyRunKeepsBackend(events: seq<StackEvent>)
    requires StackInv(EmptyStack) && Orderly(EmptyStack, events)
    ensures Kept(StackRun(EmptyStack, events))
    decreases |events|
  {
    hide StackInv;
    hide StackNext;
    hide OrderlyEvent;
    if events == [] {
      NothingToKeep();
    } else {
      var n := |events| - 1;
      var before := events[..n];
      forall k | 0 <= k < n ensures OrderlyEvent(StackRun(EmptyStack, before[..k]), before[k]) { assert before[..k] == events[..k]; }
      OrderlyRunKeepsBackend(before);
      var s := StackRun(EmptyStack, before);
      NextKeepsBackedExactly(s, events[n]);
      NextKeepsIndexExactly(s, events[n]);
      NextKeepsPending(s, events[n]);
    }
  }

  lemma NothingToKeep()
    ensures Kept(EmptyStack)
  {}

  // ---------------------------------------------------------------- the interleaving that loses a configuration

  const BARE := Config([], None, 0)

  /** An image of the bare configuration, which has no layers. */
  const BARE_IMAGE := ImageMeta(BARE, None, {})

  /** Stacks with bare images only. */
  ghost predicate Bare(s: Stack) {
    && StackInv(s) && s.sys == Start && s.img.parents == map[]
    && (forall i :: i in s.img.images ==> s.img.images[i] == BARE_IMAGE)
    && (forall i :: i in s.img.contents ==> s.img.contents[i] == BARE)
    && (forall t :: t in s.pending ==> s.pending[t].config == BARE)
  }

  lemma BareStore(s: Stack, t: nat, x: ID)
    requires Bare(s) && t !in s.pending
    ensures var s' := StackNext(s, StoreImage(t, Some(BARE), x, true));
            && Bare(s')
            && s' == Stack(s.img.(contents := s.img.contents[x := BARE]), Start, s.pending[t := Creation(x, BARE)])
  {
    hide SysInv;
    hide Covered;
    hide Owning;
    hide Addressed;
    StackNextKeepsInv(s, StoreImage(t, Some(BARE), x, true));
  }

  lemma BareCommit(s: Stack, t: nat)
    requires Bare(s) && t in s.pending && s.pending[t].id !in s.img.images
    ensures var s' := StackNext(s, CommitImage(t, true));
            && Bare(s')
            && s' == Stack(s.img.(images := s.img.images[s.pending[t].id := BARE_IMAGE]), Start, s.pending - {t})
  {
    hide SysInv;
    hide Covered;
    hide Owning;
    hide Addressed;
    StackNextKeepsInv(s, CommitImage(t, true));
    assert TopLayer(BARE).None?;
  }

  lemma BareDelete(s: Stack, x: ID)
    requires Bare(s) && x in s.img.images
    ensures var s' := StackNext(s, DeleteImage(x, {}));
            && Bare(s')
            && s' == Stack(Images(s.img.images - {x}, s.img.contents - {x}, map[]), Start, s.pending)
  {
    hide SysInv;
    hide Covered;
    hide Owning;
    hide Addressed;
    StackNextKeepsInv(s, DeleteImage(x, {}));
    InvGivesKeys(s.sys);
    assert s.img.parents - s.img.images[x].children == map[];
  }

  lemma BareIsIndexed(s: Stack)
    requires Bare(s)
    ensures Indexed(s.img)
  {}

  /**
    Two creations of `x`, the second of which is overtaken by a deletion: `x` is an image without a
    configuration, and setting its parent leaves a child in the index that no metadata knows of.
  */
  lemma OvertakenCreation(x: ID, y: ID)
    requires x != y
    ensures StackInv(EmptyStack)
    ensures var run := [StoreImage(0, Some(BARE), y, true), CommitImage(0, true), StoreImage(0, Some(BARE), x, true), CommitImage(0, true),
                        StoreImage(0, Some(BARE), x, true), DeleteImage(x, {}), CommitImage(0, true)];
            var s := StackRun(EmptyStack, run);
            && x in s.img.images && x !in s.img.contents && !Backed(s)
            && Indexed(s.img) && !Indexed(StackNext(s, LinkParent(x, y)).img)
  {
    hide StackInv;
    hide StackNext;
    hide Indexed;
    EmptyStackInv();
    var run := [StoreImage(0, Some(BARE), y, true), CommitImage(0, true), StoreImage(0, Some(BARE), x, true), CommitImage(0, true),
                StoreImage(0, Some(BARE), x, true), DeleteImage(x, {}), CommitImage(0, true)];
    assert run[..0] == [] && run[..7] == run;
    var s0 := StackRun(EmptyStack, run[..0]);
    RunStep(EmptyStack, run, 0);
    BareStore(s0, 0, y);
    var s1 := StackRun(EmptyStack, run[..1]);
    RunStep(EmptyStack, run, 1);
    BareCommit(s1, 0);
    var s2 := StackRun(EmptyStack, run[..2]);
    RunStep(EmptyStack, run, 2);
    BareStore(s2, 0, x);
    var s3 := StackRun(EmptyStack, run[..3]);
    RunStep(EmptyStack, run, 3);
    BareCommit(s3, 0);
    var s4 := StackRun(EmptyStack, run[..4]);
    RunStep(EmptyStack, run, 4);
    BareStore(s4, 0, x);
    var s5 := StackRun(EmptyStack, run[..5]);
    RunStep(EmptyStack, run, 5);
    BareDelete(s5, x);
    var s6 := StackRun(EmptyStack, run[..6]);
    RunStep(EmptyStack, run, 6);
    BareCommit(s6, 0);
    var s := StackRun(EmptyStack, run);
    BareIsIndexed(s);
    NextKeepsIndexExactly(s, LinkParent(x, y));
  }

  lemma RunStep(s: Stack, run: seq<StackEvent>, n: nat)
    requires StackInv(s) && n < |run|
    ensures StackRun(s, run[..n + 1]) == StackNext(StackRun(s, run[..n]), run[n])
  {
    hide StackInv;
    hide StackNext;
    assert run[..n + 1][..n] == run[..n];
  }
}
