/** The cache over whole runs: commits arrive, refs are set, rewound and deleted, refreshes succeed and
  * abort, in any order.
  */
module CacheRuns {
  import opened CausalGraph
  import opened Enumerate
  import opened Refresh

  // ---- Commits arriving ----

  ghost predicate Extends(store: Store, larger: Store) {
    forall h :: h in store ==> h in larger && larger[h] == store[h]
  }

  /** No commit arrives that a cached tip already led to: what was reachable was already present. */
  ghost predicate NoneAwaited(store: Store, larger: Store, tips: set<Id>) {
    forall h :: h in larger && h !in store ==> !BelowAny(View(store), h, tips)
  }

  lemma {:induction false} ReachesMore(store: Store, larger: Store, h: Id, t: Id, n: nat)
    requires Extends(store, larger) && Reaches(View(store), h, t, n)
    ensures Reaches(View(larger), h, t, n)
    decreases n
  {
    if n == 0 {
    } else {
      var p :| p in View(store)[t].parents && Reaches(View(store), h, p, n - 1);
      ReachesMore(store, larger, h, p, n - 1);
      assert p in View(larger)[t].parents;
    }
  }

  lemma BelowMore(store: Store, larger: Store, h: Id, t: Id)
    requires Extends(store, larger) && Below(View(store), h, t)
    ensures Below(View(larger), h, t)
  {
    if h != t {
      var n: nat :| n > 0 && Reaches(View(store), h, t, n);
      ReachesMore(store, larger, h, t, n);
    }
  }

  lemma {:induction false} ReachesNoMore(store: Store, larger: Store, tips: set<Id>, h: Id, t: Id, n: nat)
    requires Extends(store, larger) && NoneAwaited(store, larger, tips) && BelowAny(View(store), t, tips)
    requires Reaches(View(larger), h, t, n)
    ensures BelowAny(View(store), h, tips)
    decreases n
  {
    if n == 0 {
    } else {
      var p :| p in View(larger)[t].parents && Reaches(View(larger), h, p, n - 1);
      assert t in store;
      assert p in View(store)[t].parents;
      hide BelowAny, NoneAwaited;
      ParentBelowAny(View(store), p, t, tips);
      ReachesNoMore(store, larger, tips, h, p, n - 1);
    }
  }

  lemma BelowSame(store: Store, larger: Store, tips: set<Id>, h: Id)
    requires Extends(store, larger) && NoneAwaited(store, larger, tips)
    ensures BelowAny(View(larger), h, tips) <==> BelowAny(View(store), h, tips)
  {
    if BelowAny(View(store), h, tips) {
      hide Below, NoneAwaited;
      var t :| t in tips && Below(View(store), h, t);
      BelowMore(store, larger, h, t);
    }
    if BelowAny(View(larger), h, tips) {
      var t :| t in tips && Below(View(larger), h, t);
      BelowSelf(View(store), t);
      assert BelowAny(View(store), t, tips);
      if h != t {
        var n: nat :| n > 0 && Reaches(View(larger), h, t, n);
        hide BelowAny, NoneAwaited;
        ReachesNoMore(store, larger, tips, h, t, n);
      }
    }
  }

  /** Exactly when a batch of op commits leaves the ops below the recorded tips what they were: when none of
    * them was awaited.
    */
  lemma ArrivalExact(store: Store, larger: Store, tips: set<Id>)
    requires Extends(store, larger) && forall h :: h in larger && h !in store ==> larger[h].decoded.Accepted?
    ensures OpsBelow(larger, tips) == OpsBelow(store, tips) <==> NoneAwaited(store, larger, tips)
  {
    if NoneAwaited(store, larger, tips) {
      SettledOps(store, larger, tips);
    } else {
      hide Below;
      var h :| h in larger && h !in store && BelowAny(View(store), h, tips);
      var t :| t in tips && Below(View(store), h, t);
      BelowMore(store, larger, h, t);
      assert BelowAny(View(larger), h, tips);
      hide BelowAny;
      assert h in OpsBelow(larger, tips) && h !in OpsBelow(store, tips);
    }
  }

  lemma SettledOps(store: Store, larger: Store, tips: set<Id>)
    requires Extends(store, larger) && NoneAwaited(store, larger, tips)
    ensures OpsBelow(larger, tips) == OpsBelow(store, tips)
  {
    forall h ensures BelowAny(View(larger), h, tips) <==> BelowAny(View(store), h, tips) { BelowSame(store, larger, tips, h); }
    forall h | h in larger && h !in store ensures !BelowAny(View(store), h, tips) {}
    hide BelowAny, NoneAwaited;
  }

  // ---- Awaited commits ----

  /** However many commits arrive, what is stored stays right about what it holds. */
  lemma HonestGrows(t: Tables, store: Store, larger: Store, readers: Readers)
    requires Honest(t, store, readers) && Extends(store, larger)
    ensures Honest(t, larger, readers)
  {
    var tips := Tips(t.chainTips);
    forall h | h in t.ops ensures h in OpsBelow(larger, tips) {
      assert h in OpsBelow(store, tips);
      BelowAnyMore(store, larger, h, tips);
      hide BelowAny, Tips;
    }
    hide OpsBelow, Folded, Resolved;
  }

  lemma BelowAnyMore(store: Store, larger: Store, h: Id, tips: set<Id>)
    requires Extends(store, larger) && BelowAny(View(store), h, tips)
    ensures BelowAny(View(larger), h, tips)
  {
    hide Below;
    var t :| t in tips && Below(View(store), h, t);
    BelowMore(store, larger, h, t);
  }

  /** The smallest miss: tip 1 names parent 2, which is fetched only after the cache recorded the tip. The
    * chain does not move, so the next refresh reads nothing, yet commit 2's op is below the tip.
    */
  lemma AwaitedCommitMissed(op: Op, t: Tables, readers: Readers)
    requires Coherent(t, map[1 := Commit([2], Accepted(op))], readers) && t.chainTips == map["chain" := 1]
    ensures !NothingLost(t, map[1 := Commit([2], Accepted(op)), 2 := Commit([], Accepted(op))], map["chain" := 1])
  {
    var early := map[1 := Commit([2], Accepted(op))];
    var late := early[2 := Commit([], Accepted(op))];
    var chains := map["chain" := 1];
    assert late == map[1 := Commit([2], Accepted(op)), 2 := Commit([], Accepted(op))];
    TwoBelowOne(late);
    assert chains["chain"] == 1 && 1 in Tips(chains);
    assert Missed(t, late, 2);
    assert Starts(late, chains, AsCursors(chains)) == {};
    hide Below;
    assert !FreshSince(late, chains, AsCursors(chains), 2);
  }

  /** An awaited commit need not be missed: tip 1 names parent 2; then 2 and 3 arrive, and the chain moves to
    * 3, which names both. The walk from 3 stops at 1 and meets 2 by the other parent.
    */
  lemma AwaitedCommitFound(op: Op, t: Tables, readers: Readers)
    requires Coherent(t, map[1 := Commit([2], Accepted(op))], readers) && t.chainTips == map["chain" := 1]
    ensures var late := map[1 := Commit([2], Accepted(op)), 2 := Commit([], Accepted(op)), 3 := Commit([1, 2], Accepted(op))];
            !NoneAwaited(map[1 := Commit([2], Accepted(op))], late, Tips(t.chainTips)) && NothingLost(t, late, map["chain" := 3])
  {
    var early := map[1 := Commit([2], Accepted(op))];
    var late := map[1 := Commit([2], Accepted(op)), 2 := Commit([], Accepted(op)), 3 := Commit([1, 2], Accepted(op))];
    TwoBelowOne(early);
    assert t.chainTips["chain"] == 1 && 1 in Tips(t.chainTips);
    assert BelowAny(View(early), 1, Tips(t.chainTips)) && BelowAny(View(early), 2, Tips(t.chainTips));
    assert 1 in t.ops;
    forall h | h == 2 || h == 3 ensures FreshSince(late, map["chain" := 3], AsCursors(t.chainTips), h) {
      FreshAboveOne(late, h);
    }
    hide Below, FreshSince, BelowAny;
  }

  /** The walk from 3 with cursor 1 meets 3 and its other parent. */
  lemma FreshAboveOne(late: Store, h: Id)
    requires 3 in late && late[3].parents == [1, 2] && (h == 2 || h == 3)
    ensures FreshSince(late, map["chain" := 3], AsCursors(map["chain" := 1]), h)
  {
    var chains, cursors := map["chain" := 3], AsCursors(map["chain" := 1]);
    assert 1 in View(late)[3].parents;
    ParentPrecedes(View(late), 1, 3);
    assert MoveOf(late, chains, cursors, "chain") == FastForward;
    assert Starts(late, chains, cursors) == {3} && Stops(late, chains, cursors) == {1};
    var g := Bounded(late, {1});
    if h == 2 {
      assert 2 in g[3].parents;
      ParentPrecedes(g, 2, 3);
    }
    assert Below(g, h, 3);
  }

  lemma TwoBelowOne(store: Store)
    requires 1 in store && store[1].parents == [2]
    ensures Below(View(store), 2, 1)
  {
    assert 2 in View(store)[1].parents;
    ParentPrecedes(View(store), 2, 1);
  }

  // ---- Runs ----

  datatype World = World(store: Store, chains: Refs, tables: Tables)

  datatype Event =
    | Arrive                        // commits are fetched or written
    | MoveRefs                      // refs are created, advanced, rewound or deleted
    | Refreshed(codeTips: Refs)     // a refresh commits
    | Rebuilt(codeTips: Refs)       // a rebuild commits
    | Aborted                       // a refresh or rebuild fails

  /** What each event may do. A refresh and a rebuild promise what Projection.Refresh and Projection.Rebuild
    * ensure, and only when what those require is met.
    */
  ghost predicate Step(readers: Readers, e: Event, w: World, w': World) {
    match e
    case Arrive => w'.chains == w.chains && w'.tables == w.tables && WellFormed(w'.store) && Extends(w.store, w'.store)
    case MoveRefs => w'.store == w.store && w'.tables == w.tables
    case Refreshed(codeTips) =>
      && w'.store == w.store && w'.chains == w.chains
      && (WellFormed(w.store) && Honest(w.tables, w.store, readers) ==>
            Refresh.Refreshed(w.tables, w'.tables, w.store, w.chains, codeTips, readers))
    case Rebuilt(codeTips) =>
      && w'.store == w.store && w'.chains == w.chains
      && (WellFormed(w.store) ==> Cold(w'.tables, w.store, w.chains, codeTips, readers))
    case Aborted => w' == w
  }

  ghost predicate IsRun(readers: Readers, events: seq<Event>, worlds: seq<World>) {
    && |worlds| == |events| + 1
    && worlds[0].tables == EMPTY && WellFormed(worlds[0].store)
    && forall i :: 0 <= i < |events| ==> Step(readers, events[i], worlds[i], worlds[i + 1])
  }

  lemma EmptyHonest(readers: Readers, store: Store)
    ensures Coherent(EMPTY, store, readers) && Honest(EMPTY, store, readers)
  {
    assert Tips(map[]) == {};
    assert OpsBelow(store, {}) == map[];
  }

  lemma StepHonest(readers: Readers, e: Event, w: World, w': World)
    requires Step(readers, e, w, w') && WellFormed(w.store) && Honest(w.tables, w.store, readers)
    ensures WellFormed(w'.store) && Honest(w'.tables, w'.store, readers)
  {
    hide WellFormed, Honest, Cold, Extends, NextOps;
    match e
    case Arrive => HonestGrows(w.tables, w.store, w'.store, readers);
    case Rebuilt(codeTips) => ColdHonest(w'.tables, w'.store, w'.chains, codeTips, readers);
    case _ =>
  }

  lemma ColdHonest(t: Tables, store: Store, chains: Refs, codeTips: Refs, readers: Readers)
    requires Cold(t, store, chains, codeTips, readers)
    ensures Coherent(t, store, readers) && Honest(t, store, readers)
  {
    hide Honest, OpsBelow, Folded, Resolved;
    CoherentIfComplete(t, store, readers);
  }

  /** At every point of every run: what the cache holds is right, though it may lack ops below its tips. */
  lemma {:induction false} AlwaysHonest(readers: Readers, events: seq<Event>, worlds: seq<World>, i: nat)
    requires IsRun(readers, events, worlds) && i <= |events|
    ensures WellFormed(worlds[i].store) && Honest(worlds[i].tables, worlds[i].store, readers)
    decreases i
  {
    hide WellFormed, Honest;
    if i == 0 {
      EmptyHonest(readers, worlds[0].store);
    } else {
      AlwaysHonest(readers, events, worlds, i - 1);
      assert Step(readers, events[i - 1], worlds[i - 1], worlds[i - 1 + 1]);
      hide Step;
      StepHonest(readers, events[i - 1], worlds[i - 1], worlds[i]);
    }
  }

  /** After any refresh of any run, the tables are those a rebuild from the current refs would hold exactly
    * when the refresh itself rebuilt, or its walk met every op commit the cache had missed.
    */
  lemma RefreshEqualsRebuild(readers: Readers, events: seq<Event>, worlds: seq<World>, i: nat, rebuilt: Tables)
    requires IsRun(readers, events, worlds) && i < |events| && events[i].Refreshed?
    requires Cold(rebuilt, worlds[i].store, worlds[i].chains, events[i].codeTips, readers)
    ensures worlds[i + 1].tables == rebuilt <==> NothingLost(worlds[i].tables, worlds[i].store, worlds[i].chains)
  {
    AlwaysHonest(readers, events, worlds, i);
    assert Step(readers, events[i], worlds[i], worlds[i + 1]);
    hide *;
    RefreshMatches(readers, events[i], worlds[i], worlds[i + 1], rebuilt);
  }

  lemma RefreshMatches(readers: Readers, e: Event, w: World, w': World, rebuilt: Tables)
    requires Step(readers, e, w, w') && e.Refreshed? && WellFormed(w.store) && Honest(w.tables, w.store, readers)
    requires Cold(rebuilt, w.store, w.chains, e.codeTips, readers)
    ensures w'.tables == rebuilt <==> NothingLost(w.tables, w.store, w.chains)
  {
    hide Cold, Honest, WellFormed, NothingLost, NextOps;
    RefreshedExact(w.tables, w'.tables, w.store, w.chains, e.codeTips, readers);
    if Cold(w'.tables, w.store, w.chains, e.codeTips, readers) {
      ColdUnique(w'.tables, rebuilt, w.store, w.chains, e.codeTips, readers);
    }
  }

  /** A missed op stays missed across a refresh exactly when chains only moved forward and the walk does not
    * meet its commit; nothing else is ever missed after a refresh.
    */
  lemma MissedExact(readers: Readers, events: seq<Event>, worlds: seq<World>, i: nat, h: Id)
    requires IsRun(readers, events, worlds) && i < |events| && events[i].Refreshed?
    ensures var w, cursors := worlds[i], AsCursors(worlds[i].tables.chainTips);
            Missed(worlds[i + 1].tables, worlds[i + 1].store, h) <==>
              OnlyForward(w.store, w.chains, cursors) && Missed(w.tables, w.store, h) && !FreshSince(w.store, w.chains, cursors, h)
  {
    AlwaysHonest(readers, events, worlds, i);
    assert Step(readers, events[i], worlds[i], worlds[i + 1]);
    var w := worlds[i];
    hide FreshSince, OnlyForward, OpsBelow, Honest, WellFormed, AsCursors;
    if OnlyForward(w.store, w.chains, AsCursors(w.tables.chainTips)) {
      NextOpsBelow(w.tables, w.store, w.chains, readers);
      hide NextOps;
    }
  }

  // ---- Runs in which nothing awaited arrives ----

  /** No commit arrives that a recorded tip already led to. */
  ghost predicate Settled(events: seq<Event>, worlds: seq<World>) {
    && |worlds| == |events| + 1
    && forall i :: 0 <= i < |events| && events[i].Arrive? ==> NoneAwaited(worlds[i].store, worlds[i + 1].store, Tips(worlds[i].tables.chainTips))
  }

  lemma ArriveKeeps(readers: Readers, t: Tables, store: Store, larger: Store)
    requires Coherent(t, store, readers) && Extends(store, larger) && NoneAwaited(store, larger, Tips(t.chainTips))
    ensures Coherent(t, larger, readers)
  {
    SettledOps(store, larger, Tips(t.chainTips));
    hide OpsBelow, Folded, Resolved;
  }

  lemma CoherentLosesNothing(t: Tables, store: Store, chains: Refs, readers: Readers)
    requires Coherent(t, store, readers)
    ensures Honest(t, store, readers) && NothingLost(t, store, chains)
  {
    CoherentIfComplete(t, store, readers);
    hide OnlyForward, Missed, FreshSince, Honest, Coherent;
  }

  lemma StepCoherent(readers: Readers, e: Event, w: World, w': World)
    requires Step(readers, e, w, w') && WellFormed(w.store) && Coherent(w.tables, w.store, readers)
    requires e.Arrive? ==> NoneAwaited(w.store, w'.store, Tips(w.tables.chainTips))
    ensures WellFormed(w'.store) && Coherent(w'.tables, w'.store, readers)
  {
    hide WellFormed, Coherent, Cold, Honest, Extends, NextOps, NothingLost;
    match e
    case Arrive => ArriveKeeps(readers, w.tables, w.store, w'.store);
    case Refreshed(codeTips) =>
      CoherentLosesNothing(w.tables, w.store, w.chains, readers);
      RefreshedExact(w.tables, w'.tables, w.store, w.chains, codeTips, readers);
      ColdHonest(w'.tables, w.store, w.chains, codeTips, readers);
    case Rebuilt(codeTips) => ColdHonest(w'.tables, w.store, w.chains, codeTips, readers);
    case _ =>
  }

  /** In such a run the cache always holds all the ops below the tips it recorded. */
  lemma {:induction false} AlwaysCoherent(readers: Readers, events: seq<Event>, worlds: seq<World>, i: nat)
    requires IsRun(readers, events, worlds) && Settled(events, worlds) && i <= |events|
    ensures WellFormed(worlds[i].store) && Coherent(worlds[i].tables, worlds[i].store, readers)
    decreases i
  {
    hide WellFormed, Coherent, NoneAwaited;
    if i == 0 {
      EmptyHonest(readers, worlds[0].store);
    } else {
      AlwaysCoherent(readers, events, worlds, i - 1);
      assert Step(readers, events[i - 1], worlds[i - 1], worlds[i - 1 + 1]);
      hide Step;
      StepCoherent(readers, events[i - 1], worlds[i - 1], worlds[i]);
    }
  }

  /** And every refresh leaves what a rebuild would. */
  lemma SettledRefresh(readers: Readers, events: seq<Event>, worlds: seq<World>, i: nat, rebuilt: Tables)
    requires IsRun(readers, events, worlds) && Settled(events, worlds) && i < |events| && events[i].Refreshed?
    requires Cold(rebuilt, worlds[i].store, worlds[i].chains, events[i].codeTips, readers)
    ensures worlds[i + 1].tables == rebuilt
  {
    assert |worlds| == |events| + 1;
    hide *;
    AlwaysCoherent(readers, events, worlds, i);
    CoherentLosesNothing(worlds[i].tables, worlds[i].store, worlds[i].chains, readers);
    RefreshEqualsRebuild(readers, events, worlds, i, rebuilt);
  }

  // ---- What runs there are ----

  /** Runs start with an empty cache and go on by any event: any commits may arrive that keep what is stored, refs may be set
    * to anything, and a refresh or rebuild leaves what it promises.
    */
  lemma {:induction false} RunGoesOn(readers: Readers, events: seq<Event>, worlds: seq<World>, e: Event, w: World)
    ensures WellFormed(w.store) ==> IsRun(readers, [], [World(w.store, w.chains, EMPTY)])
    ensures IsRun(readers, events, worlds) && Step(readers, e, worlds[|events|], w) ==> IsRun(readers, events + [e], worlds + [w])
  {
    hide Step, WellFormed;
    if IsRun(readers, events, worlds) && Step(readers, e, worlds[|events|], w) {
      var longer, more := worlds + [w], events + [e];
      forall i | 0 <= i < |more| ensures Step(readers, more[i], longer[i], longer[i + 1]) {
        if i < |events| { assert longer[i] == worlds[i] && longer[i + 1] == worlds[i + 1] && more[i] == events[i]; }
      }
    }
  }

  lemma {:induction false} EventsCanHappen(readers: Readers, w: World, larger: Store, chains: Refs, codeTips: Refs, tables: Tables)
    ensures WellFormed(larger) && (forall h :: h in w.store ==> h in larger && larger[h] == w.store[h]) ==>
              Step(readers, Arrive, w, w.(store := larger))
    ensures Step(readers, MoveRefs, w, w.(chains := chains)) && Step(readers, Aborted, w, w)
    ensures Cold(tables, w.store, w.chains, codeTips, readers) ==> Step(readers, Rebuilt(codeTips), w, w.(tables := tables))
    ensures Refresh.Refreshed(w.tables, tables, w.store, w.chains, codeTips, readers) ==> Step(readers, Refreshed(codeTips), w, w.(tables := tables))
  {
    hide Cold, Refresh.Refreshed, WellFormed, Honest;
  }
}
