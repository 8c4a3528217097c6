/**
  Concurrent runs of the layer store. Each event is one critical section of layer/layer_store.go or
  layer/migration.go; between the sections of one operation any other operation may run. `ops` are
  the operations in flight, each with the parent layer it holds; `mountLock` is mountL, which
  CreateRWLayer and ReleaseRWLayer keep from their first to their last section.
*/
module LayerRuns {
  import opened Wrappers
  import opened ChainIDs
  import opened Pointers
  import opened LayerModel
  import opened LayerInvariant

  /** How far an operation has come: it works on a layer or a mount, or it only has to give its parent back. */
  datatype Stage = Registering(cacheID: string, descriptor: string) | Mounting(name: string, mountID: string) | Unwinding
  datatype Op = Op(stage: Stage, parent: Option<ChainID>)

  datatype Sys = Sys(core: Core, ops: map<nat, Op>, mountLock: Option<nat>, panicked: bool)

  datatype Event =
    | RegisterBegin(t: nat, parent: Option<ChainID>, cacheID: string, descriptor: string, migration: bool)
    | RegisterAbort(t: nat)
    | RegisterCommit(t: nat, diff: DiffID, size: int, commitOK: bool)
    | GetLayer(chain: ChainID)
    | ReleaseHandle(handle: Handle, failing: set<ChainID>)
    | MountBegin(t: nat, name: string, parent: Option<ChainID>, mountID: string)
    | MountAbort(t: nat)
    | MountCommit(t: nat, initID: string, fault: SaveFault)
    | GetRW(name: string)
    | ReleaseRW(t: nat, ref: MountRef, removalOK: bool)
    | Unwind(t: nat, failing: set<ChainID>)

  const Start := Sys(EmptyCore, map[], None, false)

  function Holdings(ops: map<nat, Op>): map<nat, Option<ChainID>> {
    map t | t in ops :: ops[t].parent
  }

  /** Operation `t` starts at `stage` once it holds its parent; a missing parent is an error that changes nothing. */
  function Enter(s: Sys, t: nat, stage: Stage, parent: Option<ChainID>): Sys {
    if t in s.ops || (parent.Some? && parent.value !in s.core.layers) then s
    else s.(core := if parent.Some? then Hold(s.core, parent.value) else s.core, ops := s.ops[t := Op(stage, parent)])
  }

  /** Operation `t` is over. */
  function Leave(s: Sys, t: nat): Sys {
    s.(ops := s.ops - {t}, mountLock := if s.mountLock == Some(t) then None else s.mountLock)
  }

  /** Operation `t` fails: what is left to do is to release its parent. */
  function Fail(s: Sys, t: nat): Sys
    requires t in s.ops
  {
    s.(ops := s.ops[t := s.ops[t].(stage := Unwinding)])
  }

  predicate TooDeep(core: Core, parent: Option<ChainID>)
    requires WellKeyed(core.layers)
  {
    parent.Some? && parent.value in core.layers && Depth(core.layers, parent.value) >= MAX_LAYER_DEPTH
  }

  /** One event; an event that is not enabled changes nothing. */
  function Next(s: Sys, e: Event): Sys
    requires WellKeyed(s.core.layers)
  {
    match e
    case RegisterBegin(t, parent, cacheID, descriptor, migration) =>
      Enter(s, t, if !migration && TooDeep(s.core, parent) then Unwinding else Registering(cacheID, descriptor), parent)
    case RegisterAbort(t) =>
      if t in s.ops && s.ops[t].stage.Registering? then Fail(s, t) else s
    case RegisterCommit(t, diff, size, commitOK) =>
      if t !in s.ops || !s.ops[t].stage.Registering? then s
      else
        var op := s.ops[t];
        var (core', r) := Commit(s.core, op.parent, diff, size, op.stage.cacheID, op.stage.descriptor, commitOK);
        if r.New? then Leave(s.(core := core'), t) else Fail(s.(core := core'), t)
    case GetLayer(c) => s.(core := Get(s.core, c).0)
    case ReleaseHandle(h, failing) =>
      var (core', _, err) := Release(s.core, h, failing);
      s.(core := core', panicked := s.panicked || err.Panicked?)
    case MountBegin(t, name, parent, mountID) =>
      if s.mountLock.Some? || t in s.ops || name in s.core.mounts || (parent.Some? && parent.value !in s.core.layers) then s
      else Enter(s, t, Mounting(name, mountID), parent).(mountLock := Some(t))
    case MountAbort(t) =>
      if t in s.ops && s.ops[t].stage.Mounting? then Fail(s, t) else s
    case MountCommit(t, initID, fault) =>
      if t !in s.ops || !s.ops[t].stage.Mounting? then s
      else
        var op := s.ops[t];
        var (core', r) := SaveMount(s.core, op.stage.name, op.stage.mountID, initID, op.parent, fault);
        if r.Some? then Leave(s.(core := core'), t) else Fail(s.(core := core'), t)
    case GetRW(name) =>
      if s.mountLock.Some? then s else s.(core := GetMount(s.core, name).0)
    case ReleaseRW(t, ref, removalOK) =>
      if s.mountLock.Some? || t in s.ops then s
      else
        var (core', r) := ReleaseMount(s.core, ref, removalOK);
        if r.Unmounted? then s.(core := core', ops := s.ops[t := Op(Unwinding, r.parent)], mountLock := Some(t))
        else s.(core := core')
    case Unwind(t, failing) =>
      if t !in s.ops || !s.ops[t].stage.Unwinding? then s
      else if s.ops[t].parent.None? then Leave(s, t)
      else
        var r := ReleaseLayer(s.core, s.ops[t].parent.value, failing);
        Leave(s.(core := r.core, panicked := s.panicked || !r.outcome.Normal()), t)
  }

  // ---------------------------------------------------------------- the invariant of runs

  /** mountL: at most one mount operation, and the name it works on is free. */
  ghost predicate Locked(s: Sys) {
    && (s.mountLock.Some? ==> s.mountLock.value in s.ops)
    && (forall t :: t in s.ops && s.ops[t].stage.Mounting? ==> s.mountLock == Some(t) && s.ops[t].stage.name !in s.core.mounts)
  }

  ghost predicate SysInv(s: Sys) {
    Inv(s.core, Holdings(s.ops)) && Locked(s) && !s.panicked
  }

  lemma InvGivesKeys(s: Sys)
    requires SysInv(s)
    ensures WellKeyed(s.core.layers)
  {}

  lemma StartInv()
    ensures SysInv(Start)
  {
    EmptyCoreInv();
    assert Holdings(map[]) == map[];
  }

  lemma HoldingsAdd(ops: map<nat, Op>, t: nat, op: Op)
    ensures Holdings(ops[t := op]) == Holdings(ops)[t := op.parent]
  {}

  lemma HoldingsDrop(ops: map<nat, Op>, t: nat)
    ensures Holdings(ops - {t}) == Holdings(ops) - {t}
  {}

  /** Adding an operation that owns the owed token. */
  lemma EnterKeepsInv(core: Core, ops: map<nat, Op>, t: nat, op: Op)
    requires InvOwing(core, Holdings(ops), op.parent) && t !in ops
    ensures Inv(core, Holdings(ops[t := op]))
  {
    hide InvOwing;
    hide Inv;
    HoldingsAdd(ops, t, op);
    TokenToOperation(core, Holdings(ops), op.parent, t);
  }

  /** Changing the stage of an operation changes no token. */
  lemma FailKeepsInv(core: Core, ops: map<nat, Op>, t: nat)
    requires t in ops && InvOwing(core, Holdings(ops - {t}), ops[t].parent)
    ensures Inv(core, Holdings(ops[t := ops[t].(stage := Unwinding)]))
  {
    hide InvOwing;
    hide Inv;
    EnterKeepsInv(core, ops - {t}, t, ops[t].(stage := Unwinding));
    assert (ops - {t})[t := ops[t].(stage := Unwinding)] == ops[t := ops[t].(stage := Unwinding)];
  }

  /** Taking the token of an operation. */
  lemma TakeToken(core: Core, ops: map<nat, Op>, t: nat)
    requires Inv(core, Holdings(ops)) && t in ops
    ensures InvOwing(core, Holdings(ops - {t}), ops[t].parent)
  {
    hide InvOwing;
    hide Inv;
    HoldingsDrop(ops, t);
    OperationToToken(core, Holdings(ops), t);
  }

  lemma HoldParent(core: Core, holds: Holds, parent: Option<ChainID>)
    requires Inv(core, holds) && Present(core, parent)
    ensures InvOwing(if parent.Some? then Hold(core, parent.value) else core, holds, parent)
  {
    hide InvOwing;
    if parent.Some? { HoldMakesToken(core, holds, parent.value); }
  }

  lemma RegisterBeginKeepsInv(s: Sys, t: nat, stage: Stage, parent: Option<ChainID>)
    requires SysInv(s) && !stage.Mounting?
    ensures SysInv(Enter(s, t, stage, parent))
  {
    hide InvOwing;
    hide Inv;
    if t !in s.ops && Present(s.core, parent) {
      HoldParent(s.core, Holdings(s.ops), parent);
      EnterKeepsInv(Enter(s, t, stage, parent).core, s.ops, t, Op(stage, parent));
    }
  }

  lemma AbortKeepsInv(s: Sys, t: nat)
    requires SysInv(s) && t in s.ops
    ensures SysInv(Fail(s, t))
  {
    hide InvOwing;
    hide Inv;
    TakeToken(s.core, s.ops, t);
    FailKeepsInv(s.core, s.ops, t);
  }

  lemma RegisterCommitKeepsInv(s: Sys, t: nat, diff: DiffID, size: int, commitOK: bool)
    requires SysInv(s) && WellKeyed(s.core.layers) && t in s.ops && s.ops[t].stage.Registering?
    ensures SysInv(Next(s, RegisterCommit(t, diff, size, commitOK)))
  {
    hide InvOwing;
    hide Inv;
    var op := s.ops[t];
    var (core', r) := Commit(s.core, op.parent, diff, size, op.stage.cacheID, op.stage.descriptor, commitOK);
    TakeToken(s.core, s.ops, t);
    CommitKeepsInv(s.core, Holdings(s.ops - {t}), op.parent, diff, size, op.stage.cacheID, op.stage.descriptor, commitOK);
    if r.New? { InvFacts(core', Holdings(s.ops - {t}), None); } else { FailKeepsInv(core', s.ops, t); }
  }

  lemma GetLayerKeepsInv(s: Sys, c: ChainID)
    requires SysInv(s)
    ensures SysInv(s.(core := Get(s.core, c).0))
  {
    if c in s.core.layers { GetKeepsInv(s.core, Holdings(s.ops), None, c); }
  }

  /** Release keeps the invariant and does not panic, whatever handle it is given. */
  lemma ReleaseHandleKeepsInv(core: Core, holds: Holds, h: Handle, failing: set<ChainID>)
    requires Inv(core, holds) && WellKeyed(core.layers)
    ensures var (core', removed, err) := Release(core, h, failing);
            && Inv(core', holds) && !err.Panicked?
            && core'.mounts == core.mounts
            && (NoGarbage(core) && failing == {} ==> NoGarbage(core'))
            && (failing == {} ==> !err.StorageError?)
            && (Retains(core, h) ==> !err.NotRetained?)
            && (Retains(core, h) && err.NoError? ==> Chains(removed) == core.layers.Keys - core'.layers.Keys)
  {
    hide InvOwing;
    hide ReleaseLayer;
    if Retains(core, h) {
      HandleToToken(core, holds, h);
      ReleaseKeepsInv(Dereference(core, h), holds, h.chain, failing);
      assert NoGarbage(core) ==> NoGarbage(Dereference(core, h));
      assert Dereference(core, h).layers.Keys == core.layers.Keys;
    }
  }

  lemma MountBeginKeepsInv(s: Sys, t: nat, name: string, parent: Option<ChainID>, mountID: string)
    requires SysInv(s) && WellKeyed(s.core.layers)
    ensures SysInv(Next(s, MountBegin(t, name, parent, mountID)))
    ensures name in s.core.mounts || !Present(s.core, parent) ==> Next(s, MountBegin(t, name, parent, mountID)) == s
  {
    hide InvOwing;
    hide Inv;
    if s.mountLock.None? && t !in s.ops && name !in s.core.mounts && Present(s.core, parent) {
      HoldParent(s.core, Holdings(s.ops), parent);
      EnterKeepsInv(Enter(s, t, Mounting(name, mountID), parent).core, s.ops, t, Op(Mounting(name, mountID), parent));
    }
  }

  lemma MountCommitKeepsInv(s: Sys, t: nat, initID: string, fault: SaveFault)
    requires SysInv(s) && WellKeyed(s.core.layers) && t in s.ops && s.ops[t].stage.Mounting?
    ensures SysInv(Next(s, MountCommit(t, initID, fault)))
  {
    hide InvOwing;
    hide Inv;
    hide SaveMountMeta;
    var op := s.ops[t];
    var (core', r) := SaveMount(s.core, op.stage.name, op.stage.mountID, initID, op.parent, fault);
    TakeToken(s.core, s.ops, t);
    SaveMountKeepsInv(s.core, Holdings(s.ops - {t}), op.stage.name, op.stage.mountID, initID, op.parent, fault);
    if r.Some? { InvFacts(core', Holdings(s.ops - {t}), None); } else { FailKeepsInv(core', s.ops, t); }
  }

  lemma GetRWKeepsInv(s: Sys, name: string)
    requires SysInv(s) && WellKeyed(s.core.layers)
    ensures SysInv(Next(s, GetRW(name)))
  {
    hide InvOwing;
    hide Inv;
    GetMountKeepsInv(s.core, Holdings(s.ops), name);
  }

  lemma ReleaseRWKeepsInv(s: Sys, t: nat, ref: MountRef, removalOK: bool)
    requires SysInv(s) && WellKeyed(s.core.layers)
    ensures SysInv(Next(s, ReleaseRW(t, ref, removalOK)))
  {
    hide InvOwing;
    hide Inv;
    if s.mountLock.None? && t !in s.ops {
      var (core', r) := ReleaseMount(s.core, ref, removalOK);
      ReleaseMountKeepsInv(s.core, Holdings(s.ops), ref, removalOK);
      if r.Unmounted? {
        EnterKeepsInv(core', s.ops, t, Op(Unwinding, r.parent));
      } else {
        InvFacts(core', Holdings(s.ops), None);
      }
    }
  }

  lemma UnwindKeepsInv(s: Sys, t: nat, failing: set<ChainID>)
    requires SysInv(s) && WellKeyed(s.core.layers) && t in s.ops && s.ops[t].stage.Unwinding?
    ensures SysInv(Next(s, Unwind(t, failing)))
  {
    hide InvOwing;
    hide Inv;
    hide ReleaseLayer;
    TakeToken(s.core, s.ops, t);
    var parent := s.ops[t].parent;
    if parent.None? {
      InvFacts(s.core, Holdings(s.ops - {t}), None);
    } else {
      ReleaseKeepsInv(s.core, Holdings(s.ops - {t}), parent.value, failing);
    }
  }

  /** Every critical section, failing or not, keeps every count exact and panics nowhere. */
  lemma NextKeepsInv(s: Sys, e: Event)
    requires SysInv(s) && WellKeyed(s.core.layers)
    ensures SysInv(Next(s, e))
  {
    hide SysInv;
    hide WellKeyed;
    hide Depth;
    match e
    case RegisterBegin(t, parent, cacheID, descriptor, migration) =>
      RegisterBeginKeepsInv(s, t, if !migration && TooDeep(s.core, parent) then Unwinding else Registering(cacheID, descriptor), parent);
    case RegisterAbort(t) => if t in s.ops { AbortKeepsInv(s, t); }
    case RegisterCommit(t, diff, size, ok) =>
      if t in s.ops && s.ops[t].stage.Registering? { RegisterCommitKeepsInv(s, t, diff, size, ok); }
    case GetLayer(c) => GetLayerKeepsInv(s, c);
    case ReleaseHandle(h, failing) => ReleaseEventKeepsInv(s, h, failing);
    case MountBegin(t, name, parent, mountID) => MountBeginKeepsInv(s, t, name, parent, mountID);
    case MountAbort(t) => if t in s.ops { AbortKeepsInv(s, t); }
    case MountCommit(t, initID, fault) =>
      if t in s.ops && s.ops[t].stage.Mounting? { MountCommitKeepsInv(s, t, initID, fault); }
    case GetRW(name) => GetRWKeepsInv(s, name);
    case ReleaseRW(t, ref, ok) => ReleaseRWKeepsInv(s, t, ref, ok);
    case Unwind(t, failing) =>
      if t in s.ops && s.ops[t].stage.Unwinding? { UnwindKeepsInv(s, t, failing); }
  }

  lemma ReleaseEventKeepsInv(s: Sys, h: Handle, failing: set<ChainID>)
    requires SysInv(s) && WellKeyed(s.core.layers)
    ensures SysInv(Next(s, ReleaseHandle(h, failing)))
  {
    hide Inv;
    hide Release;
    ReleaseHandleKeepsInv(s.core, Holdings(s.ops), h, failing);
  }

  // ---------------------------------------------------------------- runs

  /** One event of a run. */
  ghost function Then(s: Sys, e: Event): (r: Sys)
    requires SysInv(s)
    ensures SysInv(r)
  {
    InvGivesKeys(s);
    NextKeepsInv(s, e);
    Next(s, e)
  }

  /** The state after a sequence of events. */
  ghost function Run(s: Sys, events: seq<Event>): (r: Sys)
    requires SysInv(s)
    ensures SysInv(r)
    decreases |events|
  {
    if events == [] then s else Run(Then(s, events[0]), events[1..])
  }

  /**
    In every interleaving of registrations, lookups, releases and mount operations, with any of
    their driver and metadata calls failing, every reference count is the number of outstanding
    handles, child layers, mounts and operations in flight, and no release has panicked.
    `s` may be the empty store, or one rebuilt by a restart.
  */
  lemma ReferenceCountsAreExact(s: Sys, events: seq<Event>)
    requires SysInv(s)
    ensures var r := Run(s, events);
            && !r.panicked
            && forall c :: c in r.core.layers ==>
                 r.core.layers[c].refCount ==
                   |r.core.layers[c].refs|
                   + |set k | k in r.core.layers && r.core.layers[k].parent == Some(c)|
                   + |set n | n in r.core.mounts && r.core.mounts[n].parent == Some(c)|
                   + |set t | t in r.ops && r.ops[t].parent == Some(c)|
  {
    hide Inv;
    hide Counted;
    hide Run;
    var r := Run(s, events);
    InvParts(r.core, Holdings(r.ops));
    forall c | c in r.core.layers
      ensures r.core.layers[c].refCount ==
                |r.core.layers[c].refs|
                + |set k | k in r.core.layers && r.core.layers[k].parent == Some(c)|
                + |set n | n in r.core.mounts && r.core.mounts[n].parent == Some(c)|
                + |set t | t in r.ops && r.ops[t].parent == Some(c)|
    {
      CountOf(r.core, r.ops, c);
    }
  }

  lemma CountOf(core: Core, ops: map<nat, Op>, c: ChainID)
    requires Counted(core, Holdings(ops), None) && c in core.layers
    ensures core.layers[c].refCount ==
              |core.layers[c].refs|
              + |set k | k in core.layers && core.layers[k].parent == Some(c)|
              + |set n | n in core.mounts && core.mounts[n].parent == Some(c)|
              + |set t | t in ops && ops[t].parent == Some(c)|
  {
    assert core.layers[c].refCount == Uses(core, Holdings(ops), c);
    assert Pointing(LayerParents(core.layers), c) == set k | k in core.layers && core.layers[k].parent == Some(c);
    assert Pointing(MountParents(core.mounts), c) == set n | n in core.mounts && core.mounts[n].parent == Some(c);
    assert Pointing(Holdings(ops), c) == set t | t in ops && ops[t].parent == Some(c);
  }
}
