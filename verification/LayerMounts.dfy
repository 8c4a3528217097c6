/** References to mounts: who holds one keeps it, and the mount with its layers, until they release it. */
module LayerMounts {
  import opened ChainIDs
  import opened Pointers
  import opened LayerModel
  import opened LayerRuns
  import opened LayerReachability
  import opened LayerRestart

  predicate RetainsMount(core: Core, ref: MountRef) {
    ref.name in core.mounts && ref.id in core.mounts[ref.name].refs
  }

  /** GetRWLayer: every known name gets a new reference, which the mount then holds beside all others. */
  lemma GetMountRetains(core: Core, name: string)
    requires Fresh(core)
    ensures var (core', r) := GetMount(core, name);
            && (r.Some? <==> name in core.mounts)
            && (r.None? ==> core' == core)
            && (r.Some? ==>
                  && r.value.name == name && !RetainsMount(core, r.value)
                  && core'.mounts.Keys == core.mounts.Keys
                  && (forall ref :: RetainsMount(core', ref) <==> RetainsMount(core, ref) || ref == r.value)
                  && (forall n :: n in core.mounts ==> StoreMount(core'.mounts[n]) == StoreMount(core.mounts[n])))
  {}

  /**
    ReleaseRWLayer of a reference that is held: the mount goes exactly when that was its last
    reference and the removal works; while others remain it keeps exactly those; a removal that
    fails changes nothing. No other mount and no layer is touched, and what is held on the parent is
    left to be released exactly when the mount goes.
  */
  lemma ReleaseMountExactly(core: Core, ref: MountRef, removalOK: bool)
    requires RetainsMount(core, ref)
    ensures var (core', r) := ReleaseMount(core, ref, removalOK);
            var last := core.mounts[ref.name].refs == {ref.id};
            && (r.Unmounted? <==> last && removalOK)
            && (r.MountRemovalFailed? <==> last && !removalOK)
            && (r.StillMounted? <==> !last)
            && (r.Unmounted? ==> ref.name !in core'.mounts && ref.name !in core'.mountMeta && r.parent == core.mounts[ref.name].parent)
            && (r.MountRemovalFailed? ==> core' == core)
            && (r.StillMounted? ==>
                  ref.name in core'.mounts && core'.mounts[ref.name] == core.mounts[ref.name].(refs := core.mounts[ref.name].refs - {ref.id}))
            && (forall n :: n != ref.name ==> (n in core'.mounts <==> n in core.mounts))
            && (forall n :: n != ref.name && n in core.mounts ==> core'.mounts[n] == core.mounts[n])
            && (forall n :: n in core'.mountMeta ==> n in core.mountMeta && core'.mountMeta[n] == core.mountMeta[n])
            && core'.layers == core.layers && core'.layerMeta == core.layerMeta && core'.next == core.next
  {
    if core.mounts[ref.name].refs != {ref.id} { assert exists i :: i in core.mounts[ref.name].refs && i != ref.id; }
  }

  /** A reference that is not held is refused, and an unknown name is no error; neither changes anything. */
  lemma ReleaseMountRefuses(core: Core, ref: MountRef, removalOK: bool)
    requires !RetainsMount(core, ref)
    ensures ReleaseMount(core, ref, removalOK) == (core, if ref.name in core.mounts then MountNotRetained else NoSuchMount)
  {}

  lemma ReleaseMountKeepsOthers(core: Core, other: MountRef, removalOK: bool, ref: MountRef)
    requires RetainsMount(core, ref) && other != ref
    ensures RetainsMount(ReleaseMount(core, other, removalOK).0, ref)
  {}

  /** No event but its own release takes a mount reference from its owner. */
  lemma MountRefStays(s: Sys, e: Event, ref: MountRef)
    requires SysInv(s) && WellKeyed(s.core.layers) && RetainsMount(s.core, ref)
    requires e.ReleaseRW? ==> e.ref != ref
    ensures RetainsMount(Next(s, e).core, ref)
    ensures Next(s, e).core.mounts[ref.name].parent == s.core.mounts[ref.name].parent
  {
    hide Inv;
    hide WellKeyed;
    hide SaveMountMeta;
    if e.MountCommit? {
    } else if e.GetRW? {
    } else if e.ReleaseRW? {
      ReleaseMountKeepsOthers(s.core, e.ref, e.removalOK, ref);
    } else {
      NextKeepsMounts(s, e);
    }
  }

  /** As long as a reference to it is not released, a mount stays, and all layers below it stay in the store. */
  lemma {:induction false} MountedChainsStay(s: Sys, events: seq<Event>, ref: MountRef, a: ChainID)
    requires SysInv(s) && RetainsMount(s.core, ref)
    requires s.core.mounts[ref.name].parent.Some? && AncestorOrSelf(a, s.core.mounts[ref.name].parent.value)
    requires forall i :: 0 <= i < |events| && events[i].ReleaseRW? ==> events[i].ref != ref
    ensures RetainsMount(Run(s, events).core, ref) && a in Run(s, events).core.layers
    decreases |events|
  {
    if events == [] {
      PointsWithin(MountParents(s.core.mounts), s.core.layers.Keys, ref.name);
      ChainsAreComplete(s.core, Holdings(s.ops), a, s.core.mounts[ref.name].parent.value);
    } else {
      hide Next;
      InvGivesKeys(s);
      NextKeepsInv(s, events[0]);
      MountRefStays(s, events[0], ref);
      MountedChainsStay(Next(s, events[0]), events[1..], ref, a);
    }
  }
}
