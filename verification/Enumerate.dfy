/** Walking the writers' chains: every commit below the current tips, or only what is new since the
  * tips seen last time.
  */
module Enumerate {
  import opened CausalGraph
  import opened Options
  import opened Sorting
  import Strings

  /** A decoded op: the object it belongs to and everything else it carries. */
  datatype Op = Op(objectID: string, payload: string)

  /** What the reader makes of a commit: an op, or the reason it is rejected. */
  datatype Decoded = Accepted(op: Op) | Rejected(reason: string)

  /** A commit's parents never change, and neither does what it decodes to. */
  datatype Commit = Commit(parents: seq<Id>, decoded: Decoded)

  /** The objects present locally. A parent that is not here was never fetched. */
  type Store = map<Id, Commit>

  type Refs = map<string, Id>

  /** The zero hash names no commit and is nobody's parent. */
  const ZERO_HASH: Id := 0

  ghost predicate WellFormed(store: Store) {
    ZERO_HASH !in store && forall h, p :: h in store && p in store[h].parents ==> p != ZERO_HASH
  }

  /** The store as a graph: a missing commit has no edges. */
  function View(store: Store): Graph { map h | h in store :: Node(store[h].parents, 0) }

  /** `h` is `tip` or an ancestor of it. */
  ghost predicate Below(g: Graph, h: Id, tip: Id) { PrecedesOrIs(g, h, tip) }

  ghost predicate BelowAny(g: Graph, h: Id, tips: set<Id>) { exists t :: t in tips && Below(g, h, t) }

  lemma BelowParent(g: Graph, p: Id, u: Id, tip: Id)
    requires u in g && p in g[u].parents && Below(g, u, tip)
    ensures Below(g, p, tip)
  {
    ParentPrecedes(g, p, u);
    if u != tip { PrecedesTrans(g, p, u, tip); }
  }

  lemma BelowTrans(g: Graph, a: Id, b: Id, c: Id)
    requires Below(g, a, b) && Below(g, b, c)
    ensures Below(g, a, c)
  {
    if a != b && b != c { PrecedesTrans(g, a, b, c); }
  }

  // ---- Breadth-first search ----

  /** Every hash the search can meet. */
  ghost function Universe(store: Store, tips: set<Id>): (u: set<Id>)
    ensures tips <= u && store.Keys <= u
    ensures forall h, p :: h in store && p in store[h].parents ==> p in u
  {
    tips + store.Keys + set h, p | h in store && p in store[h].parents :: p
  }

  /** The parents of the expanded commits have all been seen. */
  ghost predicate Expanded(g: Graph, done: set<Id>, seen: set<Id>) {
    forall u, p :: u in done && u in g && p in g[u].parents ==> p in seen
  }

  lemma {:induction false} ClosedContains(g: Graph, seen: set<Id>, h: Id, tip: Id, n: nat)
    requires Expanded(g, seen, seen) && tip in seen && Reaches(g, h, tip, n)
    ensures h in seen
    decreases n
  {
    if n == 0 {
    } else {
      var p :| p in g[tip].parents && Reaches(g, h, p, n - 1);
      ClosedContains(g, seen, h, p, n - 1);
    }
  }

  lemma ClosedContainsBelow(g: Graph, seen: set<Id>, h: Id, tip: Id)
    requires Expanded(g, seen, seen) && tip in seen && Below(g, h, tip)
    ensures h in seen
  {
    if h != tip {
      var n: nat :| n > 0 && Reaches(g, h, tip, n);
      ClosedContains(g, seen, h, tip, n);
    }
  }

  /** The queue holds, once each, what has been seen and not yet expanded. */
  ghost predicate Frontier(queue: seq<Id>, seen: set<Id>, done: set<Id>) {
    && Distinct(queue) && done <= seen
    && forall h :: h in queue <==> h in seen && h !in done
  }

  lemma Push(queue: seq<Id>, seen: set<Id>, done: set<Id>, h: Id)
    requires Frontier(queue, seen, done) && h !in seen
    ensures Frontier(queue + [h], seen + {h}, done)
  {
    assert h !in queue;
  }

  /** Reports whether `candidate` can be reached from `tip`. */
  method IsAncestor(store: Store, tip: Id, candidate: Id) returns (r: bool)
    requires WellFormed(store)
    ensures r <==> Below(View(store), candidate, tip)
  {
    ghost var g := View(store);
    if tip == candidate {
      return true;
    }
    if tip == ZERO_HASH || candidate == ZERO_HASH {
      ZeroUnreachable(store, tip, candidate);
      return false;
    }
    hide Below;
    assert Below(g, tip, tip) by { BelowSelf(g, tip); }
    var visited, queue := {tip}, [tip];
    ghost var done: set<Id>, all := {}, Universe(store, {tip});
    while |queue| > 0
      invariant Frontier(queue, visited, done) && tip in visited && visited <= all
      invariant Expanded(g, done, visited)
      invariant forall h :: h in visited ==> Below(g, h, tip)
      invariant candidate !in visited
      decreases all - done
    {
      var curr := queue[0];
      done := done + {curr};
      queue := queue[1..];
      if curr in store {
        var parents := store[curr].parents;
        for i := 0 to |parents|
          invariant Frontier(queue, visited, done) && tip in visited && visited <= all
          invariant Expanded(g, done - {curr}, visited)
          invariant forall k :: 0 <= k < i ==> parents[k] in visited
          invariant forall h :: h in visited ==> Below(g, h, tip)
          invariant candidate !in visited
        {
          var p := parents[i];
          BelowParent(g, p, curr, tip);
          if p == candidate {
            return true;
          }
          if p !in visited {
            visited := visited + {p};
            queue := queue + [p];
          }
        }
      }
    }
    NotBelow(g, visited, candidate, tip);
    return false;
  }

  lemma BelowSelf(g: Graph, h: Id)
    ensures Below(g, h, h)
  {}

  lemma NotBelow(g: Graph, seen: set<Id>, h: Id, tip: Id)
    requires Expanded(g, seen, seen) && tip in seen && h !in seen
    ensures !Below(g, h, tip)
  {
    if Below(g, h, tip) { ClosedContainsBelow(g, seen, h, tip); }
  }

  lemma ZeroUnreachable(store: Store, tip: Id, candidate: Id)
    requires WellFormed(store) && tip != candidate && (tip == ZERO_HASH || candidate == ZERO_HASH)
    ensures !Below(View(store), candidate, tip)
  {
    var g := View(store);
    if Below(g, candidate, tip) {
      if candidate == ZERO_HASH {
        var seen := Universe(store, {tip});
        NotBelow(g, seen - {ZERO_HASH}, candidate, tip);
      } else {
        PrecedesViaParent(g, candidate, tip);
      }
    }
  }

  // ---- The bounded walk ----

  /** The graph the walk sees: nothing is followed out of a stop commit. */
  function Bounded(store: Store, stop: set<Id>): Graph {
    map h | h in store && h !in stop :: Node(store[h].parents, 0)
  }

  /** `h` lies above the stop boundary: a path from a start tip reaches it without touching a stop. */
  ghost predicate Fresh(store: Store, starts: set<Id>, stop: set<Id>, h: Id) {
    h !in stop && BelowAny(Bounded(store, stop), h, starts)
  }

  ghost function Elements(ids: seq<Id>): set<Id> { set h | h in ids }

  method SeedQueue(startTips: seq<Id>, stop: set<Id>) returns (visited: set<Id>, queue: seq<Id>)
    ensures Frontier(queue, visited - stop, {})
    ensures forall h :: h in visited <==> h in startTips
  {
    visited, queue := {}, [];
    for i := 0 to |startTips|
      invariant Frontier(queue, visited - stop, {})
      invariant forall h :: h in visited <==> exists k :: 0 <= k < i && startTips[k] == h
    {
      var tip := startTips[i];
      assert tip in stop ==> visited + {tip} - stop == visited - stop;
      assert tip !in stop ==> visited + {tip} - stop == (visited - stop) + {tip};
      if tip in stop {
        visited := visited + {tip};
      } else if tip !in visited {
        Push(queue, visited - stop, {}, tip);
        visited := visited + {tip};
        queue := queue + [tip];
      }
    }
  }

  /** Each fresh commit that is present is decoded once; each one that is absent is rejected. */
  method Walk(store: Store, startTips: seq<Id>, stop: set<Id>) returns (decode: seq<Id>, missing: set<Id>)
    ensures Distinct(decode)
    ensures var starts := Elements(startTips);
            && (forall h :: h in decode <==> h in store && Fresh(store, starts, stop, h))
            && forall h :: h in missing <==> h !in store && Fresh(store, starts, stop, h)
  {
    ghost var g, starts := Bounded(store, stop), Elements(startTips);
    var visited, queue := SeedQueue(startTips, stop);
    ghost var done: set<Id>, all := {}, Universe(store, starts);
    forall h | h in visited ensures BelowAny(g, h, starts) { BelowSelf(g, h); }
    hide BelowAny;
    decode, missing := [], {};
    while |queue| > 0
      invariant Frontier(queue, visited - stop, done) && starts <= visited <= all
      invariant Expanded(g, done, visited)
      invariant forall h :: h in visited ==> BelowAny(g, h, starts)
      invariant Distinct(decode) && (forall h :: h in decode <==> h in done && h in store)
      invariant forall h :: h in missing <==> h in done && h !in store
      decreases all - done
    {
      var curr := queue[0];
      ghost var before := done;
      done := done + {curr};
      queue := queue[1..];
      if curr !in store {
        missing := missing + {curr};
      } else {
        decode := decode + [curr];
        visited, queue := Enqueue(store, stop, starts, curr, visited, queue, done, all);
      }
    }
    hide Frontier;
    assert visited - stop == done;
    WalkComplete(store, starts, stop, visited, done);
  }

  /** Sees the parents of `curr`; those not seen before and not on the boundary are queued. */
  method Enqueue(store: Store, stop: set<Id>, ghost starts: set<Id>, curr: Id, visited: set<Id>, queue: seq<Id>,
                 ghost done: set<Id>, ghost all: set<Id>) returns (visited': set<Id>, queue': seq<Id>)
    requires curr in store && curr in done && curr !in stop && all == Universe(store, starts)
    requires Frontier(queue, visited - stop, done) && starts <= visited <= all
    requires Expanded(Bounded(store, stop), done - {curr}, visited) && curr in visited
    requires forall h :: h in visited ==> BelowAny(Bounded(store, stop), h, starts)
    ensures Frontier(queue', visited' - stop, done) && visited <= visited' <= all
    ensures Expanded(Bounded(store, stop), done, visited')
    ensures forall h :: h in visited' ==> BelowAny(Bounded(store, stop), h, starts)
  {
    ghost var g := Bounded(store, stop);
    hide BelowAny, Below, Universe;
    visited', queue' := visited, queue;
    var parents := store[curr].parents;
    for i := 0 to |parents|
      invariant Frontier(queue', visited' - stop, done) && visited <= visited' <= all
      invariant forall k :: 0 <= k < i ==> parents[k] in visited'
      invariant forall h :: h in visited' ==> BelowAny(g, h, starts)
    {
      var p := parents[i];
      if p !in visited' {
        ParentBelowAny(g, p, curr, starts);
        InUniverse(store, starts, curr, i);
        assert p in stop ==> visited' + {p} - stop == visited' - stop;
        assert p !in stop ==> visited' + {p} - stop == (visited' - stop) + {p};
        ghost var seen := visited' - stop;
        visited' := visited' + {p};
        if p !in stop {
          Push(queue', seen, done, p);
          queue' := queue' + [p];
        }
      }
    }
  }

  lemma InUniverse(store: Store, starts: set<Id>, h: Id, i: nat)
    requires h in store && i < |store[h].parents|
    ensures store[h].parents[i] in Universe(store, starts)
  {}

  lemma ParentBelowAny(g: Graph, p: Id, u: Id, tips: set<Id>)
    requires u in g && p in g[u].parents && BelowAny(g, u, tips)
    ensures BelowAny(g, p, tips)
  {
    hide Below;
    var t :| t in tips && Below(g, u, t);
    BelowParent(g, p, u, t);
  }

  lemma WalkComplete(store: Store, starts: set<Id>, stop: set<Id>, visited: set<Id>, done: set<Id>)
    requires starts <= visited && visited - stop == done
    requires Expanded(Bounded(store, stop), done, visited)
    requires forall h :: h in visited ==> BelowAny(Bounded(store, stop), h, starts)
    ensures forall h :: h in done <==> Fresh(store, starts, stop, h)
  {
    var g := Bounded(store, stop);
    assert Expanded(g, visited, visited);
    hide Below, Expanded, Bounded;
    forall h | BelowAny(g, h, starts) ensures h in visited {
      var t :| t in starts && Below(g, h, t);
      ClosedContainsBelow(g, visited, h, t);
    }
    hide BelowAny;
  }

  // ---- Cursors ----

  /** The tips seen last time; an empty entry counts as none. */
  type Cursors = map<string, Option<Id>>

  function Cursor(cursors: Cursors, r: string): Option<Id> { if r in cursors then cursors[r] else None }

  datatype Move = NoCursor | Unmoved | FastForward | Rewind

  /** What happened to a chain since its cursor was taken. */
  ghost function MoveOf(store: Store, chains: Refs, cursors: Cursors, r: string): Move
    requires r in chains
  {
    match Cursor(cursors, r)
    case None => NoCursor
    case Some(c) =>
      if c == chains[r] then Unmoved
      else if Below(View(store), c, chains[r]) then FastForward
      else Rewind
  }

  /** The tips of new, moved and rolled-back chains. */
  ghost function Starts(store: Store, chains: Refs, cursors: Cursors): set<Id> {
    set r | r in chains && !MoveOf(store, chains, cursors, r).Unmoved? :: chains[r]
  }

  predicate Forward(move: Move) { move.Unmoved? || move.FastForward? }

  /** The cursors of chains that did not move or moved forward. */
  ghost function Stops(store: Store, chains: Refs, cursors: Cursors): set<Id> {
    set r | r in chains && Forward(MoveOf(store, chains, cursors, r)) :: Cursor(cursors, r).value
  }

  /** What a walk since the cursors meets. */
  ghost predicate FreshSince(store: Store, chains: Refs, cursors: Cursors, h: Id) {
    Fresh(store, Starts(store, chains, cursors), Stops(store, chains, cursors), h)
  }

  /** Sorts every chain, in map order, into what to walk, where to stop, and what was rolled back. */
  method Analyze(store: Store, chains: Refs, cursors: Cursors) returns (startTips: seq<Id>, stop: set<Id>, rewound: set<string>)
    requires WellFormed(store)
    ensures Elements(startTips) == Starts(store, chains, cursors)
    ensures stop == Stops(store, chains, cursors)
    ensures forall r :: r in rewound <==> r in chains && MoveOf(store, chains, cursors, r).Rewind?
  {
    hide Below;
    startTips, stop, rewound := [], {}, {};
    var todo := chains.Keys;
    while todo != {}
      invariant todo <= chains.Keys
      invariant forall h :: h in startTips <==> exists r :: r in chains && r !in todo && chains[r] == h && !MoveOf(store, chains, cursors, r).Unmoved?
      invariant forall h :: h in stop <==> exists r :: r in chains && r !in todo && Cursor(cursors, r) == Some(h) &&
                                             Forward(MoveOf(store, chains, cursors, r))
      invariant forall r :: r in rewound <==> r in chains && r !in todo && MoveOf(store, chains, cursors, r).Rewind?
      decreases todo
    {
      var r :| r in todo;
      todo := todo - {r};
      var tip := chains[r];
      var cursor := Cursor(cursors, r);
      if cursor.None? {
        startTips := startTips + [tip];
      } else if cursor.value == tip {
        stop := stop + {cursor.value};
      } else {
        var ancestor := IsAncestor(store, tip, cursor.value);
        startTips := startTips + [tip];
        if ancestor {
          stop := stop + {cursor.value};
        } else {
          rewound := rewound + {r};
        }
      }
    }
    StartsAndStops(store, chains, cursors, startTips, stop);
  }

  lemma StartsAndStops(store: Store, chains: Refs, cursors: Cursors, startTips: seq<Id>, stop: set<Id>)
    requires forall h :: h in startTips <==> exists r :: r in chains && chains[r] == h && !MoveOf(store, chains, cursors, r).Unmoved?
    requires forall h :: h in stop <==> exists r :: r in chains && Cursor(cursors, r) == Some(h) && Forward(MoveOf(store, chains, cursors, r))
    ensures Elements(startTips) == Starts(store, chains, cursors)
    ensures stop == Stops(store, chains, cursors)
  {
    hide Below;
  }

  // ---- What the walk amounts to ----

  /** A path either stays above the boundary or enters it. */
  lemma {:induction false} PathSplits(store: Store, stop: set<Id>, h: Id, t: Id, n: nat)
    requires Reaches(View(store), h, t, n)
    ensures (h !in stop && Reaches(Bounded(store, stop), h, t, n)) || BelowAny(View(store), h, stop)
    decreases n
  {
    if t in stop {
      assert Below(View(store), h, t) by { if n == 0 { BelowSelf(View(store), h); } }
    } else if n > 0 {
      var p :| p in store[t].parents && Reaches(View(store), h, p, n - 1);
      PathSplits(store, stop, h, p, n - 1);
      hide BelowAny;
    }
  }

  lemma {:induction false} BoundedReaches(store: Store, stop: set<Id>, h: Id, t: Id, n: nat)
    requires Reaches(Bounded(store, stop), h, t, n)
    ensures Reaches(View(store), h, t, n)
    decreases n
  {
    if n == 0 {
    } else {
      var p :| p in Bounded(store, stop)[t].parents && Reaches(Bounded(store, stop), h, p, n - 1);
      BoundedReaches(store, stop, h, p, n - 1);
    }
  }

  lemma BelowSplits(store: Store, stop: set<Id>, h: Id, t: Id)
    ensures Below(View(store), h, t) ==> (h !in stop && Below(Bounded(store, stop), h, t)) || BelowAny(View(store), h, stop)
    ensures Below(Bounded(store, stop), h, t) ==> Below(View(store), h, t)
  {
    if Below(View(store), h, t) {
      var n: nat :| Reaches(View(store), h, t, n) by { if h == t { assert Reaches(View(store), h, t, 0); } }
      PathSplits(store, stop, h, t, n);
    }
    if Below(Bounded(store, stop), h, t) && h != t {
      var n: nat :| n > 0 && Reaches(Bounded(store, stop), h, t, n);
      BoundedReaches(store, stop, h, t, n);
    }
  }

  ghost function Tips(chains: Refs): set<Id> { set r | r in chains :: chains[r] }

  ghost function OldTips(cursors: Cursors): set<Id> { set r | r in cursors && cursors[r].Some? :: cursors[r].value }

  /** No cursor's chain has vanished and none was rolled back. */
  ghost predicate OnlyForward(store: Store, chains: Refs, cursors: Cursors) {
    forall r :: r in cursors ==> r in chains && !MoveOf(store, chains, cursors, r).Rewind?
  }

  /** Old and new together: when chains only moved forward, what was below the old tips plus what the
    * walk visits is exactly what is below the current tips.
    */
  lemma OldPlusFresh(store: Store, chains: Refs, cursors: Cursors, h: Id)
    requires OnlyForward(store, chains, cursors)
    ensures BelowAny(View(store), h, Tips(chains)) <==> BelowAny(View(store), h, OldTips(cursors)) || FreshSince(store, chains, cursors, h)
  {
    if BelowAny(View(store), h, OldTips(cursors)) { OldStillBelow(store, chains, cursors, h); }
    if FreshSince(store, chains, cursors, h) { FreshBelow(store, chains, cursors, h); }
    if BelowAny(View(store), h, Tips(chains)) { TipCovered(store, chains, cursors, h); }
  }

  lemma FreshBelow(store: Store, chains: Refs, cursors: Cursors, h: Id)
    requires FreshSince(store, chains, cursors, h)
    ensures BelowAny(View(store), h, Tips(chains))
  {
    hide Below, MoveOf;
    var stop := Stops(store, chains, cursors);
    var t :| t in Starts(store, chains, cursors) && Below(Bounded(store, stop), h, t);
    BelowSplits(store, stop, h, t);
    assert t in Tips(chains);
  }

  lemma OldStillBelow(store: Store, chains: Refs, cursors: Cursors, h: Id)
    requires OnlyForward(store, chains, cursors) && BelowAny(View(store), h, OldTips(cursors))
    ensures BelowAny(View(store), h, Tips(chains))
  {
    hide Below;
    var c :| c in OldTips(cursors) && Below(View(store), h, c);
    var r :| r in cursors && cursors[r] == Some(c);
    BelowSelf(View(store), c);
    assert Below(View(store), c, chains[r]);
    BelowTrans(View(store), h, c, chains[r]);
    assert chains[r] in Tips(chains);
  }

  lemma TipCovered(store: Store, chains: Refs, cursors: Cursors, h: Id)
    requires OnlyForward(store, chains, cursors) && BelowAny(View(store), h, Tips(chains))
    ensures BelowAny(View(store), h, OldTips(cursors)) || FreshSince(store, chains, cursors, h)
  {
    hide Below;
    var t :| t in Tips(chains) && Below(View(store), h, t);
    var r :| r in chains && chains[r] == t;
    if MoveOf(store, chains, cursors, r).Unmoved? {
      assert t in OldTips(cursors);
    } else {
      assert t in Starts(store, chains, cursors);
      var stop := Stops(store, chains, cursors);
      BelowSplits(store, stop, h, t);
      if BelowAny(View(store), h, stop) { StopsAreOld(store, chains, cursors, h); }
    }
  }

  lemma StopsAreOld(store: Store, chains: Refs, cursors: Cursors, h: Id)
    requires BelowAny(View(store), h, Stops(store, chains, cursors))
    ensures BelowAny(View(store), h, OldTips(cursors))
  {
    hide Below;
    var c :| c in Stops(store, chains, cursors) && Below(View(store), h, c);
    assert c in OldTips(cursors);
  }

  // ---- EnumerateSince ----

  /** Why a commit contributes no op. */
  datatype Rejection = Rejection(commit: Id, reason: string)

  const MISSING_OP_JSON := "missing-op-json"

  /** `ops` are the decoded ops by commit; `listing` names those of each object in id order. */
  datatype EnumerateResult = EnumerateResult(ops: map<Id, Op>, listing: map<string, seq<Id>>, cursors: Refs,
                                             rewound: seq<string>, rejections: seq<Rejection>, decodedCommits: nat)

  function Objects(ops: map<Id, Op>): set<string> { set h | h in ops :: ops[h].objectID }

  /** Each object's ops, in id order. */
  ghost predicate Lists(listing: map<string, seq<Id>>, ops: map<Id, Op>) {
    && listing.Keys == Objects(ops)
    && forall obj :: obj in listing ==> SortedListOf(IdLess, listing[obj], set h | h in ops && ops[h].objectID == obj)
  }

  /** The reason a fresh commit is rejected, if it is: absent ones count as having no op. */
  function ReasonOf(store: Store, h: Id): Option<string> {
    if h !in store then Some(MISSING_OP_JSON)
    else match store[h].decoded
      case Accepted(_) => None
      case Rejected(reason) => Some(reason)
  }

  /** The rejections of a set of commits, in commit order. */
  ghost predicate Rejects(rejections: seq<Rejection>, store: Store, commits: set<Id>) {
    && (forall i, j :: 0 <= i < j < |rejections| ==> rejections[i].commit < rejections[j].commit)
    && forall r :: r in rejections <==> r.commit in commits && ReasonOf(store, r.commit) == Some(r.reason)
  }

  method ListOps(ops: map<Id, Op>) returns (listing: map<string, seq<Id>>)
    ensures Lists(listing, ops)
  {
    listing := map[];
    var todo := Objects(ops);
    hide SortedListOf, Objects;
    while todo != {}
      invariant todo <= Objects(ops) && listing.Keys == Objects(ops) - todo
      invariant forall obj :: obj in listing ==> SortedListOf(IdLess, listing[obj], set h | h in ops && ops[h].objectID == obj)
      decreases todo
    {
      var obj :| obj in todo;
      todo := todo - {obj};
      var ids := set h | h in ops && ops[h].objectID == obj;
      IdsStrictTotal(ids);
      var list := SortedKeys(IdLess, ids);
      listing := listing[obj := list];
    }
  }

  method ListRejections(store: Store, rejected: set<Id>) returns (rejections: seq<Rejection>)
    requires forall h :: h in rejected ==> ReasonOf(store, h).Some?
    ensures Rejects(rejections, store, rejected)
  {
    IdsStrictTotal(rejected);
    var list := SortedKeys(IdLess, rejected);
    hide ReasonOf;
    rejections := [];
    assert forall k :: 0 <= k < |list| ==> list[k] in list && list[k] in rejected;
    for i := 0 to |list|
      invariant |rejections| == i
      invariant forall k :: 0 <= k < i ==> rejections[k].commit == list[k] && ReasonOf(store, list[k]) == Some(rejections[k].reason)
    {
      rejections := rejections + [Rejection(list[i], ReasonOf(store, list[i]).value)];
    }
    RejectionsListed(store, rejected, list, rejections);
  }

  lemma RejectionsListed(store: Store, rejected: set<Id>, list: seq<Id>, rejections: seq<Rejection>)
    requires SortedListOf(IdLess, list, rejected) && |rejections| == |list|
    requires forall k :: 0 <= k < |list| ==> rejections[k].commit == list[k] && ReasonOf(store, list[k]) == Some(rejections[k].reason)
    ensures Rejects(rejections, store, rejected)
  {
    hide ReasonOf;
    forall i, j | 0 <= i < j < |rejections| ensures rejections[i].commit < rejections[j].commit {
      assert IdLess(list[i], list[j]);
    }
    forall k | 0 <= k < |list| ensures list[k] in rejected { assert list[k] in list; }
    forall r: Rejection | r.commit in rejected && ReasonOf(store, r.commit) == Some(r.reason) ensures r in rejections {
      var k :| 0 <= k < |list| && list[k] == r.commit;
      assert rejections[k] == r;
    }
  }

  /** Decodes the commits met, in the order they were met. */
  method Decode(store: Store, decode: seq<Id>) returns (ops: map<Id, Op>, rejected: set<Id>)
    requires forall h :: h in decode ==> h in store
    ensures forall h :: h in ops <==> h in decode && store[h].decoded.Accepted?
    ensures forall h :: h in ops ==> ops[h] == store[h].decoded.op
    ensures forall h :: h in rejected <==> h in decode && store[h].decoded.Rejected?
  {
    ops, rejected := map[], {};
    for i := 0 to |decode|
      invariant forall h :: h in ops <==> h in decode[..i] && store[h].decoded.Accepted?
      invariant forall h :: h in ops ==> h in decode && ops[h] == store[h].decoded.op
      invariant forall h :: h in rejected <==> h in decode[..i] && store[h].decoded.Rejected?
    {
      var h := decode[i];
      assert h in decode && decode[..i + 1] == decode[..i] + [h];
      match store[h].decoded
      case Accepted(op) => ops := ops[h := op];
      case Rejected(_) => rejected := rejected + {h};
    }
    assert decode[..|decode|] == decode;
  }

  /** The ops of the commits fresh since the cursors. */
  ghost predicate IsDelta(store: Store, chains: Refs, cursors: Cursors, delta: map<Id, Op>) {
    && (forall h :: h in delta <==> h in store && store[h].decoded.Accepted? && FreshSince(store, chains, cursors, h))
    && forall h :: h in delta ==> delta[h] == store[h].decoded.op
  }

  ghost predicate IsFreshSet(store: Store, chains: Refs, cursors: Cursors, ids: set<Id>) {
    forall h :: h in ids <==> FreshSince(store, chains, cursors, h)
  }

  function Present(store: Store, ids: set<Id>): set<Id> { set h | h in ids && h in store }

  ghost predicate IsRewound(store: Store, chains: Refs, cursors: Cursors, rewound: seq<string>) {
    exists refs: set<string> :: RewoundSet(store, chains, cursors, refs) && rewound == Strings.Sorted(refs)
  }

  ghost predicate RewoundSet(store: Store, chains: Refs, cursors: Cursors, refs: set<string>) {
    forall r :: r in refs <==> r in chains && MoveOf(store, chains, cursors, r).Rewind?
  }

  /** One walk since the cursors: the ops of exactly the fresh commits, listed by object; every other fresh
    * commit with the reason it was rejected; the current tips as the next cursors; and the refs rolled back.
    */
  method EnumerateSince(store: Store, chains: Refs, cursors: Cursors) returns (r: EnumerateResult, ghost visited: set<Id>)
    requires WellFormed(store)
    ensures IsFreshSet(store, chains, cursors, visited)
    ensures IsDelta(store, chains, cursors, r.ops) && Lists(r.listing, r.ops)
    ensures r.cursors == chains && IsRewound(store, chains, cursors, r.rewound)
    ensures Rejects(r.rejections, store, set h | h in visited && ReasonOf(store, h).Some?)
    ensures r.decodedCommits == |Present(store, visited)|
  {
    hide MoveOf, Fresh, WellFormed, Starts, Stops;
    var startTips, boundary, refs := Analyze(store, chains, cursors);
    var decode, missing := Walk(store, startTips, boundary);
    visited := missing + Elements(decode);
    Visited(store, chains, cursors, decode, missing);
    hide IsFreshSet, FreshSince;
    var ops, rejected := Decode(store, decode);
    hide Lists, Rejects, IsRewound;
    var listing := ListOps(ops);
    var rejections := ListRejections(store, missing + rejected);
    assert missing + rejected == set h | h in visited && ReasonOf(store, h).Some?;
    var rewound := Strings.SortStrings(refs);
    RewoundListed(store, chains, cursors, refs, rewound);
    DecodedCount(store, decode, visited);
    r := EnumerateResult(ops, listing, chains, rewound, rejections, |decode|);
  }

  lemma Visited(store: Store, chains: Refs, cursors: Cursors, decode: seq<Id>, missing: set<Id>)
    requires forall h :: h in decode <==> h in store && Fresh(store, Starts(store, chains, cursors), Stops(store, chains, cursors), h)
    requires forall h :: h in missing <==> h !in store && Fresh(store, Starts(store, chains, cursors), Stops(store, chains, cursors), h)
    ensures IsFreshSet(store, chains, cursors, missing + Elements(decode))
    ensures forall h :: h in decode <==> h in store && FreshSince(store, chains, cursors, h)
  {
    hide Fresh, Starts, Stops;
  }

  lemma RewoundListed(store: Store, chains: Refs, cursors: Cursors, refs: set<string>, rewound: seq<string>)
    requires RewoundSet(store, chains, cursors, refs) && rewound == Strings.Sorted(refs)
    ensures IsRewound(store, chains, cursors, rewound)
  {}

  lemma DecodedCount(store: Store, decode: seq<Id>, visited: set<Id>)
    requires Distinct(decode) && forall h :: h in decode <==> h in visited && h in store
    ensures |decode| == |Present(store, visited)|
  {
    DistinctSize(decode, Present(store, visited));
  }

  // ---- One result ----

  /** Store, refs and cursors determine everything an enumeration returns. */
  lemma {:induction false} EnumerationUnique(store: Store, chains: Refs, cursors: Cursors, a: EnumerateResult, b: EnumerateResult, seenA: set<Id>, seenB: set<Id>)
    requires IsFreshSet(store, chains, cursors, seenA) && IsFreshSet(store, chains, cursors, seenB)
    requires IsDelta(store, chains, cursors, a.ops) && IsDelta(store, chains, cursors, b.ops)
    requires Lists(a.listing, a.ops) && Lists(b.listing, b.ops) && a.cursors == chains && b.cursors == chains
    requires IsRewound(store, chains, cursors, a.rewound) && IsRewound(store, chains, cursors, b.rewound)
    requires Rejects(a.rejections, store, set h | h in seenA && ReasonOf(store, h).Some?)
    requires Rejects(b.rejections, store, set h | h in seenB && ReasonOf(store, h).Some?)
    requires a.decodedCommits == |Present(store, seenA)| && b.decodedCommits == |Present(store, seenB)|
    ensures a == b
  {
    SameDelta(store, chains, cursors, a.ops, b.ops);
    SameFresh(store, chains, cursors, seenA, seenB);
    hide *;
    ListingUnique(a.listing, b.listing, a.ops);
    RejectionsUnique(a.rejections, b.rejections, store, set h | h in seenA && ReasonOf(store, h).Some?);
    RewoundUnique(store, chains, cursors, a.rewound, b.rewound);
  }

  lemma {:induction false} SameDelta(store: Store, chains: Refs, cursors: Cursors, a: map<Id, Op>, b: map<Id, Op>)
    requires IsDelta(store, chains, cursors, a) && IsDelta(store, chains, cursors, b)
    ensures a == b
  {
    hide FreshSince;
  }

  lemma {:induction false} SameFresh(store: Store, chains: Refs, cursors: Cursors, a: set<Id>, b: set<Id>)
    requires IsFreshSet(store, chains, cursors, a) && IsFreshSet(store, chains, cursors, b)
    ensures a == b
  {
    hide FreshSince;
  }

  lemma {:induction false} ListingUnique(a: map<string, seq<Id>>, b: map<string, seq<Id>>, ops: map<Id, Op>)
    requires Lists(a, ops) && Lists(b, ops)
    ensures a == b
  {
    hide SortedListOf, Objects;
    forall obj | obj in a ensures a[obj] == b[obj] {
      var ids := set h | h in ops && ops[h].objectID == obj;
      IdsStrictTotal(ids);
      SortedListUnique(IdLess, a[obj], b[obj], ids);
    }
  }

  lemma {:induction false} RewoundUnique(store: Store, chains: Refs, cursors: Cursors, a: seq<string>, b: seq<string>)
    requires IsRewound(store, chains, cursors, a) && IsRewound(store, chains, cursors, b)
    ensures a == b
  {
    hide MoveOf;
    var x: set<string> :| RewoundSet(store, chains, cursors, x) && a == Strings.Sorted(x);
    var y: set<string> :| RewoundSet(store, chains, cursors, y) && b == Strings.Sorted(y);
    assert x == y;
  }

  function CommitsOf(rejections: seq<Rejection>): seq<Id> { seq(|rejections|, i requires 0 <= i < |rejections| => rejections[i].commit) }

  lemma {:induction false} CommitsSorted(rejections: seq<Rejection>, store: Store, commits: set<Id>)
    requires Rejects(rejections, store, commits) && forall h :: h in commits ==> ReasonOf(store, h).Some?
    ensures SortedListOf(IdLess, CommitsOf(rejections), commits)
  {
    hide ReasonOf;
    var list := CommitsOf(rejections);
    forall h ensures h in list <==> h in commits {
      if h in list {
        var i :| 0 <= i < |list| && list[i] == h;
        assert rejections[i] in rejections;
      }
      if h in commits {
        var r := Rejection(h, ReasonOf(store, h).value);
        assert r in rejections;
        var i :| 0 <= i < |rejections| && rejections[i] == r;
        assert list[i] == h;
      }
    }
  }

  lemma {:induction false} RejectionsUnique(a: seq<Rejection>, b: seq<Rejection>, store: Store, commits: set<Id>)
    requires Rejects(a, store, commits) && Rejects(b, store, commits) && forall h :: h in commits ==> ReasonOf(store, h).Some?
    ensures a == b
  {
    CommitsSorted(a, store, commits);
    CommitsSorted(b, store, commits);
    IdsStrictTotal(commits);
    hide ReasonOf, SortedListOf;
    SortedListUnique(IdLess, CommitsOf(a), CommitsOf(b), commits);
    assert |a| == |CommitsOf(a)| && |b| == |CommitsOf(b)|;
    forall i | 0 <= i < |a| ensures a[i] == b[i] {
      assert CommitsOf(a)[i] == a[i].commit && CommitsOf(b)[i] == b[i].commit;
      assert a[i] in a && b[i] in b;
    }
  }
}
