/** The depth limit of registerWithDescriptor bounds every chain of the store. */
module LayerDepth {
  import opened Wrappers
  import opened ChainIDs
  import opened LayerModel
  import opened LayerInvariant
  import opened LayerRuns

  /** The depth that is checked against the limit is the length of the chain. */
  lemma {:induction false} DepthIsChainLength(core: Core, holds: Holds, c: ChainID)
    requires WellKeyed(core.layers) && Closed(core, holds) && c in core.layers
    ensures Depth(core.layers, c) == |Diffs(c)|
    decreases c
  {
    ParentIsStored(core, holds, c);
    if core.layers[c].parent.Some? { DepthIsChainLength(core, holds, c.parent); }
  }

  /** No chain is longer than the limit, and none that is being extended has reached it. */
  ghost predicate Bounded(s: Sys) {
    && (forall c :: c in s.core.layers ==> |Diffs(c)| <= MAX_LAYER_DEPTH)
    && (forall t :: t in s.ops && s.ops[t].stage.Registering? && s.ops[t].parent.Some? ==> |Diffs(s.ops[t].parent.value)| < MAX_LAYER_DEPTH)
  }

  lemma BeginKeepsBound(s: Sys, t: nat, parent: Option<ChainID>, cacheID: string, descriptor: string)
    requires SysInv(s) && WellKeyed(s.core.layers) && Bounded(s)
    ensures Bounded(Next(s, RegisterBegin(t, parent, cacheID, descriptor, false)))
  {
    hide Inv;
    hide Diffs;
    InvParts(s.core, Holdings(s.ops));
    if parent.Some? && parent.value in s.core.layers { DepthIsChainLength(s.core, Holdings(s.ops), parent.value); }
  }

  lemma ReleaseKeepsKeys(core: Core, holds: Holds, h: Handle, failing: set<ChainID>)
    requires Inv(core, holds) && WellKeyed(core.layers)
    ensures Release(core, h, failing).0.layers.Keys <= core.layers.Keys
  {
    hide InvOwing;
    hide ReleaseLayer;
    hide WellKeyed;
    if Retains(core, h) {
      HandleToToken(core, holds, h);
      ReleaseKeepsInv(Dereference(core, h), holds, h.chain, failing);
    }
  }

  lemma ExtendIsOneLonger(parent: Option<ChainID>, diff: DiffID)
    ensures |Diffs(Extend(parent, diff))| == |DiffsOf(parent)| + 1
  {}

  /** Layers come only from registrations that end well. */
  lemma NextLayers(s: Sys, e: Event, c: ChainID)
    requires SysInv(s) && WellKeyed(s.core.layers) && !e.RegisterBegin?
    ensures c in Next(s, e).core.layers ==>
              || c in s.core.layers
              || (e.RegisterCommit? && e.t in s.ops && s.ops[e.t].stage.Registering? && c == Extend(s.ops[e.t].parent, e.diff))
  {
    hide Inv;
    hide InvOwing;
    hide WellKeyed;
    hide Depth;
    hide ReleaseLayer;
    hide Release;
    hide SaveMountMeta;
    hide Commit;
    hide Get;
    if e.ReleaseHandle? {
      ReleaseKeepsKeys(s.core, Holdings(s.ops), e.handle, e.failing);
    } else if e.Unwind? && e.t in s.ops && s.ops[e.t].stage.Unwinding? && s.ops[e.t].parent.Some? {
      TakeToken(s.core, s.ops, e.t);
      ReleaseKeepsInv(s.core, Holdings(s.ops - {e.t}), s.ops[e.t].parent.value, e.failing);
    } else if e.RegisterCommit? && e.t in s.ops && s.ops[e.t].stage.Registering? {
      CommitFrame(s.core, s.ops[e.t].parent, e.diff, e.size, s.ops[e.t].stage.cacheID, s.ops[e.t].stage.descriptor, e.commitOK);
    } else if e.GetLayer? {
      GetFrame(s.core, e.chain);
    }
  }

  /** Registrations start only with their first section. */
  lemma NextRegistering(s: Sys, e: Event, t: nat)
    requires WellKeyed(s.core.layers) && !e.RegisterBegin?
    ensures t in Next(s, e).ops && Next(s, e).ops[t].stage.Registering? ==> t in s.ops && s.ops[t] == Next(s, e).ops[t]
  {
    hide WellKeyed;
    hide ReleaseLayer;
    hide Release;
    hide SaveMount;
    hide ReleaseMount;
    hide Commit;
    hide Get;
  }

  lemma NextKeepsBound(s: Sys, e: Event)
    requires SysInv(s) && WellKeyed(s.core.layers) && Bounded(s)
    requires e.RegisterBegin? ==> !e.migration
    ensures Bounded(Next(s, e))
  {
    hide SysInv;
    hide WellKeyed;
    hide Next;
    hide Diffs;
    if e.RegisterBegin? {
      BeginKeepsBound(s, e.t, e.parent, e.cacheID, e.descriptor);
    } else {
      forall c | c in Next(s, e).core.layers ensures |Diffs(c)| <= MAX_LAYER_DEPTH {
        NextLayers(s, e, c);
        if c !in s.core.layers { ExtendIsOneLonger(s.ops[e.t].parent, e.diff); }
      }
      forall t | t in Next(s, e).ops && Next(s, e).ops[t].stage.Registering? ensures t in s.ops && s.ops[t] == Next(s, e).ops[t] {
        NextRegistering(s, e, t);
      }
    }
  }

  /** In every run without migration, no chain of the store is longer than the limit. */
  lemma {:induction false} ChainsStayBounded(s: Sys, events: seq<Event>)
    requires SysInv(s) && Bounded(s)
    requires forall i :: 0 <= i < |events| && events[i].RegisterBegin? ==> !events[i].migration
    ensures Bounded(Run(s, events))
    decreases |events|
  {
    hide SysInv;
    hide Bounded;
    hide Next;
    if events != [] {
      InvGivesKeys(s);
      NextKeepsInv(s, events[0]);
      NextKeepsBound(s, events[0]);
      ChainsStayBounded(Next(s, events[0]), events[1..]);
    }
  }

  /**
    RegisterByGraphID does not look at the limit: it keeps the bound exactly unless it starts on a
    chain that has reached the limit.
  */
  lemma MigrationKeepsBoundExactly(s: Sys, t: nat, parent: Option<ChainID>, cacheID: string, descriptor: string)
    requires SysInv(s) && WellKeyed(s.core.layers) && Bounded(s)
    ensures Bounded(Next(s, RegisterBegin(t, parent, cacheID, descriptor, true))) <==>
              !(t !in s.ops && parent.Some? && parent.value in s.core.layers && |Diffs(parent.value)| == MAX_LAYER_DEPTH)
  {
    hide Inv;
    hide Diffs;
    hide WellKeyed;
    var s' := Next(s, RegisterBegin(t, parent, cacheID, descriptor, true));
    if t !in s.ops && parent.Some? && parent.value in s.core.layers {
      assert t in s'.ops && s'.ops[t] == Op(Registering(cacheID, descriptor), parent);
    }
  }

  /** A registration that starts on a stored chain, within the limit or as a migration, and completes. */
  lemma Deepens(s: Sys, c: ChainID, diff: DiffID, migration: bool)
    requires SysInv(s) && WellKeyed(s.core.layers) && s.ops == map[] && s.mountLock == None && c in s.core.layers && Chained(c, diff) !in s.core.layers
    requires migration || |Diffs(c)| < MAX_LAYER_DEPTH
    ensures var s2 := Then(Then(s, RegisterBegin(0, Some(c), "", "", migration)), RegisterCommit(0, diff, 0, true));
            && s2.ops == map[] && s2.mountLock == None && Chained(c, diff) in s2.core.layers && |Diffs(Chained(c, diff))| == |Diffs(c)| + 1
            && s2.core.layers.Keys == s.core.layers.Keys + {Chained(c, diff)}
  {
    hide SysInv;
    hide Inv;
    hide WellKeyed;
    DepthOfStored(s, c);
    ExtendIsOneLonger(Some(c), diff);
    var s1 := Then(s, RegisterBegin(0, Some(c), "", "", migration));
    assert s1.ops == map[0 := Op(Registering("", ""), Some(c))];
    assert s1.core.layers.Keys == s.core.layers.Keys;
    var s2 := Then(s1, RegisterCommit(0, diff, 0, true));
    assert s2.ops == map[];
  }

  lemma DepthOfStored(s: Sys, c: ChainID)
    requires SysInv(s) && WellKeyed(s.core.layers) && c in s.core.layers
    ensures Depth(s.core.layers, c) == |Diffs(c)|
  {
    hide Inv;
    InvParts(s.core, Holdings(s.ops));
    DepthIsChainLength(s.core, Holdings(s.ops), c);
  }

  /** A store with a chain of any length up to the limit, and nothing longer. */
  lemma {:induction false} DeepStore(n: nat) returns (s: Sys, c: ChainID)
    requires 1 <= n <= MAX_LAYER_DEPTH
    ensures SysInv(s) && WellKeyed(s.core.layers) && s.ops == map[] && s.mountLock == None
    ensures c in s.core.layers && |Diffs(c)| == n && forall k :: k in s.core.layers ==> |Diffs(k)| <= n
  {
    hide Inv;
    hide SysInv;
    hide WellKeyed;
    hide Next;
    if n == 1 {
      s, c := OneLayer();
    } else {
      var before, p := DeepStore(n - 1);
      c := Chained(p, "");
      s := Then(Then(before, RegisterBegin(0, Some(p), "", "", false)), RegisterCommit(0, "", 0, true));
      ExtendIsOneLonger(Some(p), "");
      Deepens(before, p, "", false);
      InvGivesKeys(s);
    }
  }

  lemma OneLayer() returns (s: Sys, c: ChainID)
    ensures SysInv(s) && WellKeyed(s.core.layers) && s.ops == map[] && s.mountLock == None
    ensures c in s.core.layers && |Diffs(c)| == 1 && s.core.layers.Keys == {c}
  {
    hide Inv;
    StartInv();
    c := Base("");
    var s1 := Then(Start, RegisterBegin(0, None, "", "", false));
    assert s1 == Sys(EmptyCore, map[0 := Op(Registering("", ""), None)], None, false);
    s := Then(s1, RegisterCommit(0, "", 0, true));
    assert s.ops == map[];
    InvGivesKeys(s);
  }

  /** A migration that makes a chain longer than the limit. */
  lemma MigrationPassesLimit() returns (s: Sys, c: ChainID, s': Sys)
    ensures SysInv(s) && Bounded(s)
    ensures s' == Then(Then(s, RegisterBegin(0, Some(c), "", "", true)), RegisterCommit(0, "", 0, true))
    ensures Chained(c, "") in s'.core.layers && |Diffs(Chained(c, ""))| == MAX_LAYER_DEPTH + 1
  {
    hide SysInv;
    hide WellKeyed;
    hide Next;
    s, c := DeepStore(MAX_LAYER_DEPTH);
    ExtendIsOneLonger(Some(c), "");
    Deepens(s, c, "", true);
    s' := Then(Then(s, RegisterBegin(0, Some(c), "", "", true)), RegisterCommit(0, "", 0, true));
  }
}
