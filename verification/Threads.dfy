/** The reply forest of a thread listing: who replies to whom, with reply cycles cut. */
module Threads {
  import opened Sorting

  /** `createdAt` is an instant; the id is never empty, and no reply has `inReplyTo` empty. */
  datatype Comment = Comment(id: string, inReplyTo: string, createdAt: int)

  datatype Thread = Thread(id: string, replies: seq<Thread>)

  type Parents = map<string, string>

  // ---- Following parents ----

  /** Following parents `k` times leads from `a` to `b`. */
  predicate Leads(parents: Parents, a: string, b: string, k: nat)
    decreases k
  {
    if k == 0 then a == b else a in parents && Leads(parents, parents[a], b, k - 1)
  }

  ghost predicate LeadsTo(parents: Parents, a: string, b: string) { exists k: nat :: Leads(parents, a, b, k) }

  ghost predicate OnCycle(parents: Parents, a: string) { exists k: nat :: k > 0 && Leads(parents, a, a, k) }

  ghost predicate Acyclic(parents: Parents) { forall a :: !OnCycle(parents, a) }

  predicate ClosedUp(parents: Parents, nodes: set<string>) {
    forall n :: n in nodes && n in parents ==> parents[n] in nodes
  }

  lemma {:induction false} LeadsOn(parents: Parents, a: string, b: string, c: string, k: nat, m: nat)
    requires Leads(parents, a, b, k) && Leads(parents, b, c, m)
    ensures Leads(parents, a, c, k + m)
    decreases k
  {
    if k == 0 {
    } else {
      LeadsOn(parents, parents[a], b, c, k - 1, m);
    }
  }

  /** Two walks from one node: the shorter one's end leads to the longer one's. */
  lemma {:induction false} LeadsRest(parents: Parents, a: string, b: string, c: string, k: nat, m: nat)
    requires Leads(parents, a, b, k) && Leads(parents, a, c, m) && k <= m
    ensures Leads(parents, b, c, m - k)
    decreases k
  {
    if k == 0 {
    } else {
      LeadsRest(parents, parents[a], b, c, k - 1, m - 1);
    }
  }

  lemma {:induction false} LeadsStays(parents: Parents, a: string, b: string, k: nat, nodes: set<string>)
    requires ClosedUp(parents, nodes) && Leads(parents, a, b, k) && a in nodes
    ensures b in nodes
    decreases k
  {
    if k == 0 {
    } else {
      LeadsStays(parents, parents[a], b, k - 1, nodes);
    }
  }

  /** A node on a cycle can be returned to from anywhere it leads. */
  lemma {:induction false} CycleReturns(parents: Parents, a: string, b: string, k: nat, m: nat)
    requires k > 0 && Leads(parents, a, a, k) && Leads(parents, a, b, m)
    ensures LeadsTo(parents, b, a)
    decreases m
  {
    if m == 0 {
    } else {
      var next := parents[a];
      assert Leads(parents, next, a, k - 1);
      assert Leads(parents, a, next, 1) by { assert Leads(parents, next, next, 0); }
      LeadsOn(parents, next, a, next, k - 1, 1);
      CycleReturns(parents, next, b, k, m - 1);
      var j :| Leads(parents, b, next, j);
      LeadsOn(parents, b, next, a, j, k - 1);
    }
  }

  /** Whatever leads into a closed set from outside is on no cycle. */
  lemma OutsideNoCycle(parents: Parents, a: string, b: string, m: nat, nodes: set<string>)
    requires ClosedUp(parents, nodes) && b in nodes && a !in nodes && Leads(parents, a, b, m)
    ensures !OnCycle(parents, a)
  {
    if k: nat :| k > 0 && Leads(parents, a, a, k) {
      CycleReturns(parents, a, b, k, m);
      var j: nat :| Leads(parents, b, a, j);
      LeadsStays(parents, b, a, j, nodes);
    }
  }

  // ---- Marking the cycles ----

  /** The walk's path: distinct nodes, each one's parent next, and `next` after the last. */
  predicate Path(parents: Parents, path: seq<string>, next: string) {
    && (forall i :: 0 <= i < |path| - 1 ==> path[i] in parents && parents[path[i]] == path[i + 1])
    && (forall i, j :: 0 <= i < j < |path| ==> path[i] != path[j])
    && (path != [] ==>
          var last := path[|path| - 1];
          if last in parents then next == parents[last] else next == "")
  }

  lemma {:induction false} PathLeads(parents: Parents, path: seq<string>, next: string, i: nat, j: nat)
    requires Path(parents, path, next) && i <= j < |path|
    ensures Leads(parents, path[i], path[j], j - i)
    decreases j - i
  {
    if i == j {
    } else {
      PathLeads(parents, path, next, i + 1, j);
    }
  }

  lemma PathLeadsOut(parents: Parents, path: seq<string>, next: string, i: nat)
    requires Path(parents, path, next) && i < |path| && path[|path| - 1] in parents
    ensures Leads(parents, path[i], next, |path| - i)
  {
    PathLeads(parents, path, next, i, |path| - 1);
    var last := path[|path| - 1];
    assert Leads(parents, last, next, 1) by { assert Leads(parents, next, next, 0); }
    LeadsOn(parents, path[i], last, next, |path| - 1 - i, 1);
  }

  /** The part of a path from a given node on leads only into itself once the walk came back to that node. */
  lemma LoopClosed(parents: Parents, path: seq<string>, next: string, at: nat, loop: set<string>)
    requires Path(parents, path, next) && at < |path| && path[at] == next
    requires forall n :: n in loop <==> exists k :: at <= k < |path| && path[k] == n
    ensures ClosedUp(parents, loop)
  {
    forall n | n in loop && n in parents ensures parents[n] in loop {
      var k :| at <= k < |path| && path[k] == n;
      if k + 1 < |path| { assert parents[n] == path[k + 1]; }
    }
  }

  lemma PathLoops(parents: Parents, path: seq<string>, next: string, at: nat, i: nat)
    requires Path(parents, path, next) && at <= i < |path| && path[at] == next && path[|path| - 1] in parents
    ensures OnCycle(parents, path[i])
  {
    PathLeadsOut(parents, path, next, i);
    PathLeads(parents, path, next, at, i);
    LeadsOn(parents, path[i], next, path[i], |path| - i, i - at);
  }

  function PartFrom(path: seq<string>, at: nat): (part: set<string>)
    requires at <= |path|
  {
    set n | n in path[at..]
  }

  lemma PartMembers(path: seq<string>, at: nat, n: string)
    requires at <= |path|
    ensures n in PartFrom(path, at) <==> exists k :: at <= k < |path| && path[k] == n
  {
    if k :| at <= k < |path| && path[k] == n { assert path[at..][k - at] == n; }
  }

  /** What leads up to the node the walk came back to is on no cycle. */
  lemma LeadInNoCycle(parents: Parents, path: seq<string>, next: string, at: nat, i: nat)
    requires Path(parents, path, next) && i < at < |path| && path[at] == next && path[|path| - 1] in parents
    ensures !OnCycle(parents, path[i])
  {
    var loop := PartFrom(path, at);
    assert forall k :: at <= k < |path| ==> path[k] != path[i];
    forall n ensures n in loop <==> exists k :: at <= k < |path| && path[k] == n { PartMembers(path, at, n); }
    hide OnCycle, PartFrom, ClosedUp, Leads;
    LoopClosed(parents, path, next, at, loop);
    PathLeadsOut(parents, path, next, i);
    hide Path;
    assert path[i] !in loop && next in loop;
    OutsideNoCycle(parents, path[i], next, |path| - i, loop);
  }

  /** The walk came back to its own path: the part from there on is a cycle, what led there is not. */
  lemma PathMeetsItself(parents: Parents, path: seq<string>, next: string, at: nat, i: nat)
    requires Path(parents, path, next) && "" !in path && at < |path| && path[at] == next && i < |path|
    ensures OnCycle(parents, path[i]) <==> at <= i
  {
    assert path[at] in path && path[|path| - 1] in parents;
    hide OnCycle, Path;
    if at <= i { PathLoops(parents, path, next, at, i); } else { LeadInNoCycle(parents, path, next, at, i); }
  }

  lemma PathMeetsDone(parents: Parents, path: seq<string>, next: string, done: set<string>, i: nat)
    requires Path(parents, path, next) && i < |path| && path[|path| - 1] in parents
    requires ClosedUp(parents, done) && next in done && path[i] !in done
    ensures !OnCycle(parents, path[i])
  {
    PathLeadsOut(parents, path, next, i);
    OutsideNoCycle(parents, path[i], next, |path| - i, done);
  }

  lemma PathEnds(parents: Parents, path: seq<string>, next: string, i: nat)
    requires Path(parents, path, next) && i < |path| && path[|path| - 1] !in parents
    ensures !OnCycle(parents, path[i])
  {
    var last := path[|path| - 1];
    if i < |path| - 1 {
      PathLeads(parents, path, next, i, |path| - 1);
      OutsideNoCycle(parents, path[i], last, |path| - 1 - i, {last});
    }
  }

  function Mark(visited: map<string, int>, n: string): int { if n in visited then visited[n] else 0 }

  /** What the marks mean between two walks: nothing is under way, everything settled is closed under
    * parents, and among it exactly the nodes on cycles are marked.
    */
  ghost predicate Settled(parents: Parents, visited: map<string, int>, inCycle: set<string>, done: set<string>) {
    && ClosedUp(parents, done)
    && (forall n :: Mark(visited, n) == (if n in done then 2 else 0))
    && forall n :: n in inCycle <==> n in done && OnCycle(parents, n)
  }

  /** What the marks mean during a walk. */
  ghost predicate Walking(parents: Parents, visited: map<string, int>, done: set<string>, path: seq<string>) {
    forall n :: Mark(visited, n) == if n in done then 2 else if n in path then 1 else 0
  }

  /** The nodes of a parent map: replies and those replied to. */
  ghost predicate Nodes(parents: Parents, ids: set<string>) {
    "" !in ids && forall n :: n in parents ==> n in ids && parents[n] in ids
  }

  method MarkCycles(parents: Parents, order: seq<string>, ghost ids: set<string>) returns (inCycle: set<string>)
    requires Nodes(parents, ids) && forall n :: n in order <==> n in ids
    ensures forall n :: n in inCycle <==> OnCycle(parents, n)
  {
    var visited: map<string, int> := map[];
    inCycle := {};
    ghost var done: set<string> := {};
    for i := 0 to |order|
      invariant Settled(parents, visited, inCycle, done)
      invariant done <= ids && forall k :: 0 <= k < i ==> order[k] in done
    {
      if Mark(visited, order[i]) == 0 {
        assert order[i] in ids;
        visited, inCycle, done := Walk(parents, order[i], visited, inCycle, done, ids);
      }
    }
    forall n | OnCycle(parents, n) ensures n in ids {
      var k: nat :| k > 0 && Leads(parents, n, n, k);
      assert n in parents;
    }
  }

  /** Climbs unmarked parents from `start`, marking each node as on the path. */
  method Climb(parents: Parents, start: string, visited0: map<string, int>, ghost done: set<string>, ghost ids: set<string>)
    returns (visited: map<string, int>, path: seq<string>, curr: string)
    requires Nodes(parents, ids) && start in ids && start !in done && Walking(parents, visited0, done, [])
    ensures path != [] && path[0] == start && Path(parents, path, curr) && Walking(parents, visited, done, path)
    ensures (forall n :: n in path ==> n in ids && n !in done) && (curr == "" || Mark(visited, curr) != 0)
  {
    visited, path, curr := visited0, [], start;
    ghost var seen: set<string> := {};
    while curr != "" && Mark(visited, curr) == 0
      invariant Path(parents, path, curr) && (if path == [] then curr == start else path[0] == start)
      invariant (curr == "" || curr in ids) && forall n :: n in path ==> n in ids && n !in done
      invariant Walking(parents, visited, done, path)
      invariant forall n :: n in seen <==> n in path
      decreases ids - seen
    {
      seen := seen + {curr};
      visited := visited[curr := 1];
      path := path + [curr];
      curr := if curr in parents then parents[curr] else "";
    }
  }

  /** The nodes of a path from a given one on: the loop that flips `cycleStart`. */
  method FromOn(path: seq<string>, curr: string) returns (nodes: set<string>, ghost at: nat)
    requires curr in path
    ensures at < |path| && path[at] == curr && (forall n :: n in nodes <==> exists k :: at <= k < |path| && path[k] == n)
  {
    nodes := {};
    var cycleStart := false;
    at := 0;
    for i := 0 to |path|
      invariant !cycleStart ==> nodes == {} && forall k :: 0 <= k < i ==> path[k] != curr
      invariant cycleStart ==> at < i && path[at] == curr && forall n :: n in nodes <==> exists k :: at <= k < i && path[k] == n
    {
      if path[i] == curr && !cycleStart {
        cycleStart, at := true, i;
      }
      if cycleStart { nodes := nodes + {path[i]}; }
    }
  }

  method Settle(path: seq<string>, visited0: map<string, int>) returns (visited: map<string, int>)
    ensures forall n :: Mark(visited, n) == if n in path then 2 else Mark(visited0, n)
  {
    visited := visited0;
    for i := 0 to |path|
      invariant forall k :: 0 <= k < i ==> Mark(visited, path[k]) == 2
      invariant forall n :: n !in path ==> Mark(visited, n) == Mark(visited0, n)
    {
      visited := visited[path[i] := 2];
    }
  }

  lemma SettledAfter(parents: Parents, path: seq<string>, curr: string, inCycle: set<string>, found: set<string>, done: set<string>, at: nat, ids: set<string>)
    requires Nodes(parents, ids) && path != [] && Path(parents, path, curr) && "" !in path && (forall n :: n in path ==> n !in done)
    requires ClosedUp(parents, done) && (forall n :: n in inCycle <==> n in done && OnCycle(parents, n))
    requires curr == "" || curr in done || curr in path
    requires if curr != "" && curr in path
             then at < |path| && path[at] == curr && forall n :: n in found <==> exists k :: at <= k < |path| && path[k] == n
             else found == {}
    ensures var all := done + set n | n in path;
            ClosedUp(parents, all) && forall n :: n in inCycle + found <==> n in all && OnCycle(parents, n)
  {
    var all := done + set n | n in path;
    var last := path[|path| - 1];
    assert ClosedUp(parents, all) by {
      forall n | n in all && n in parents ensures parents[n] in all {
        if n in path {
          var i :| 0 <= i < |path| && path[i] == n;
          assert i < |path| - 1 ==> path[i + 1] in path;
        }
      }
    }
    forall n | n in path ensures n in found <==> OnCycle(parents, n) {
      var i :| 0 <= i < |path| && path[i] == n;
      PathVerdict(parents, path, curr, done, at, i, ids);
    }
    forall n | n in found ensures n in path {}
  }

  /** A walk ends in one of three ways, and each one decides every node of its path. */
  lemma PathVerdict(parents: Parents, path: seq<string>, curr: string, done: set<string>, at: nat, i: nat, ids: set<string>)
    requires Nodes(parents, ids) && i < |path| && Path(parents, path, curr) && "" !in path && (forall n :: n in path ==> n !in done)
    requires ClosedUp(parents, done) && (curr == "" || curr in done || (curr in path && at < |path| && path[at] == curr))
    ensures OnCycle(parents, path[i]) <==> curr != "" && curr in path && at <= i
  {
    assert path[i] in path;
    if path[|path| - 1] !in parents {
      PathEnds(parents, path, curr, i);
    } else if curr in path {
      PathMeetsItself(parents, path, curr, at, i);
    } else {
      PathMeetsDone(parents, path, curr, done, i);
    }
  }

  method Walk(parents: Parents, start: string, visited0: map<string, int>, inCycle0: set<string>, ghost done0: set<string>, ghost ids: set<string>)
    returns (visited: map<string, int>, inCycle: set<string>, ghost done: set<string>)
    requires Nodes(parents, ids) && start in ids && done0 <= ids && start !in done0
    requires Settled(parents, visited0, inCycle0, done0)
    ensures Settled(parents, visited, inCycle, done) && done0 + {start} <= done <= ids
  {
    var path, curr;
    visited, path, curr := Climb(parents, start, visited0, done0, ids);
    assert path[0] in path;
    inCycle := inCycle0;
    var found: set<string> := {};
    ghost var at := 0;
    if curr != "" && Mark(visited, curr) == 1 {
      found, at := FromOn(path, curr);
      inCycle := inCycle + found;
    }
    SettledAfter(parents, path, curr, inCycle0, found, done0, at, ids);
    visited := Settle(path, visited);
    done := done0 + set n | n in path;
  }

  // ---- The forest ----

  ghost predicate Comments(comments: seq<Comment>) {
    && (forall i :: 0 <= i < |comments| ==> comments[i].id != "")
    && forall i, j :: 0 <= i < j < |comments| ==> comments[i].id != comments[j].id
  }

  function IdSet(comments: seq<Comment>): set<string> { set c | c in comments :: c.id }

  /** A reply's parent is the comment it names, if that is another comment of the listing. */
  predicate RepliesTo(c: Comment, ids: set<string>) {
    c.inReplyTo != "" && c.inReplyTo != c.id && c.inReplyTo in ids
  }

  ghost predicate ParentsOf(comments: seq<Comment>, parents: Parents) {
    && (forall n :: n in parents ==> exists c :: c in comments && c.id == n)
    && forall c :: c in comments ==>
         if RepliesTo(c, IdSet(comments)) then c.id in parents && parents[c.id] == c.inReplyTo else c.id !in parents
  }

  /** Earlier siblings first: by creation time, then by place in the listing. */
  predicate Before(comments: seq<Comment>, i: nat, j: nat) {
    && i < |comments| && j < |comments|
    && (comments[i].createdAt < comments[j].createdAt || (comments[i].createdAt == comments[j].createdAt && i < j))
  }

  predicate Earlier(comments: seq<Comment>, a: string, b: string) {
    exists i: nat, j: nat :: i < |comments| && j < |comments| && comments[i].id == a && comments[j].id == b && Before(comments, i, j)
  }

  function Order(comments: seq<Comment>): (string, string) -> bool { (a, b) => Earlier(comments, a, b) }

  lemma OrderStrictTotal(comments: seq<Comment>, ids: set<string>)
    requires Comments(comments) && ids <= IdSet(comments)
    ensures StrictTotal(Order(comments), ids)
  {
    forall a, b | a in ids && b in ids && a != b ensures Earlier(comments, a, b) || Earlier(comments, b, a) {
      var i := PlaceOf(comments, a);
      var j := PlaceOf(comments, b);
      assert Before(comments, i, j) || Before(comments, j, i);
    }
    forall a ensures !Earlier(comments, a, a) {
      NotEarlier(comments, a);
    }
    forall a, b, c | Earlier(comments, a, b) && Earlier(comments, b, c) ensures Earlier(comments, a, c) {
      var i: nat, j: nat :| i < |comments| && j < |comments| && comments[i].id == a && comments[j].id == b && Before(comments, i, j);
      var k: nat, m: nat :| k < |comments| && m < |comments| && comments[k].id == b && comments[m].id == c && Before(comments, k, m);
      assert j == k && Before(comments, i, m);
    }
  }

  lemma PlaceOf(comments: seq<Comment>, id: string) returns (i: nat)
    requires id in IdSet(comments)
    ensures i < |comments| && comments[i].id == id
  {
    var c :| c in comments && c.id == id;
    i :| i < |comments| && comments[i] == c;
  }

  lemma NotEarlier(comments: seq<Comment>, a: string)
    requires Comments(comments)
    ensures !Earlier(comments, a, a)
  {}

  function IdsOf(threads: seq<Thread>): (ids: seq<string>)
    ensures |ids| == |threads| && forall i :: 0 <= i < |ids| ==> ids[i] == threads[i].id
  {
    if threads == [] then [] else [threads[0].id] + IdsOf(threads[1..])
  }

  ghost function ChildrenOf(cut: Parents, ids: set<string>, id: string): set<string> {
    set n | n in ids && n in cut && cut[n] == id
  }

  ghost function Roots(cut: Parents, ids: set<string>): set<string> { set n | n in ids && n !in cut }

  /** The thread of a comment: its replies, in order, are the threads of exactly the comments below it. */
  ghost predicate IsThread(t: Thread, cut: Parents, ids: set<string>, comments: seq<Comment>)
    decreases t
  {
    && SortedListOf(Order(comments), IdsOf(t.replies), ChildrenOf(cut, ids, t.id))
    && forall i :: 0 <= i < |t.replies| ==> IsThread(t.replies[i], cut, ids, comments)
  }

  ghost predicate IsForest(threads: seq<Thread>, roots: set<string>, cut: Parents, ids: set<string>, comments: seq<Comment>) {
    && SortedListOf(Order(comments), IdsOf(threads), roots)
    && forall i :: 0 <= i < |threads| ==> IsThread(threads[i], cut, ids, comments)
  }

  /** Every comment of a thread, and of a list of threads, counted as often as it appears. */
  ghost function Appearing(t: Thread): multiset<string>
    decreases t
  {
    multiset{t.id} + AppearingIn(t.replies)
  }

  ghost function AppearingIn(threads: seq<Thread>): multiset<string>
    decreases threads
  {
    if threads == [] then multiset{} else Appearing(threads[0]) + AppearingIn(threads[1..])
  }

  // ---- Every comment exactly once ----

  lemma {:induction false} LeadsInCut(parents: Parents, cut: Parents, a: string, b: string, k: nat)
    requires (forall n :: n in cut ==> n in parents && cut[n] == parents[n]) && Leads(cut, a, b, k)
    ensures Leads(parents, a, b, k)
    decreases k
  {
    if k == 0 {
    } else {
      LeadsInCut(parents, cut, parents[a], b, k - 1);
    }
  }

  /** Cutting the parent links of the comments on cycles leaves no cycle. */
  lemma CutAcyclic(parents: Parents, inCycle: set<string>)
    requires forall n :: n in inCycle <==> OnCycle(parents, n)
    ensures Acyclic(parents - inCycle)
  {
    var cut := parents - inCycle;
    forall a ensures !OnCycle(cut, a) {
      if k: nat :| k > 0 && Leads(cut, a, a, k) {
        LeadsInCut(parents, cut, a, a, k);
        assert OnCycle(parents, a);
      }
    }
  }

  ghost function Below(cut: Parents, ids: set<string>, roots: seq<string>): set<string> {
    set n | n in ids && exists r :: r in roots && LeadsTo(cut, n, r)
  }

  ghost predicate Separate(cut: Parents, roots: seq<string>) {
    forall i, j, n :: 0 <= i < j < |roots| ==> !(LeadsTo(cut, n, roots[i]) && LeadsTo(cut, n, roots[j]))
  }

  /** No comment is below two siblings, or below two roots. */
  lemma SiblingsSeparate(cut: Parents, n: string, a: string, b: string)
    requires Acyclic(cut) && a != b && LeadsTo(cut, n, a) && LeadsTo(cut, n, b)
    ensures !(a in cut && b in cut && cut[a] == cut[b])
    ensures !(a !in cut && b !in cut)
  {
    var k: nat :| Leads(cut, n, a, k);
    var m: nat :| Leads(cut, n, b, m);
    if k <= m {
      LeadsRest(cut, n, a, b, k, m);
      AboveSibling(cut, a, b, m - k);
    } else {
      LeadsRest(cut, n, b, a, m, k);
      AboveSibling(cut, b, a, k - m);
    }
  }

  lemma AboveSibling(cut: Parents, a: string, b: string, k: nat)
    requires Acyclic(cut) && a != b && Leads(cut, a, b, k)
    ensures a in cut && !(b in cut && cut[a] == cut[b])
  {
    if b in cut && cut[a] == cut[b] {
      var p := cut[a];
      assert Leads(cut, p, b, k - 1);
      assert Leads(cut, b, p, 1) by { assert Leads(cut, p, p, 0); }
      LeadsOn(cut, p, b, p, k - 1, 1);
      assert OnCycle(cut, p);
    }
  }

  lemma {:induction false} ForestCovers(threads: seq<Thread>, cut: Parents, ids: set<string>, comments: seq<Comment>)
    requires Comments(comments) && Nodes(cut, ids) && Acyclic(cut) && Separate(cut, IdsOf(threads))
    requires forall i :: 0 <= i < |threads| ==> threads[i].id in ids && IsThread(threads[i], cut, ids, comments)
    ensures AppearingIn(threads) == multiset(Below(cut, ids, IdsOf(threads)))
    decreases threads
  {
    if threads == [] {
      assert Below(cut, ids, []) == {};
    } else {
      hide Below, Separate, IsThread, Acyclic, Nodes, Comments, IdsOf;
      var first, rest := threads[0], threads[1..];
      TailSeparate(threads, cut);
      ThreadCovers(first, cut, ids, comments);
      ForestCovers(rest, cut, ids, comments);
      BelowSplits(first.id, IdsOf(rest), cut, ids);
    }
  }

  lemma TailSeparate(threads: seq<Thread>, cut: Parents)
    requires threads != [] && Separate(cut, IdsOf(threads))
    ensures IdsOf(threads) == [threads[0].id] + IdsOf(threads[1..]) && Separate(cut, IdsOf(threads[1..]))
  {
    hide LeadsTo;
    var roots, rest := IdsOf(threads), IdsOf(threads[1..]);
    forall i, j, n | 0 <= i < j < |rest| ensures !(LeadsTo(cut, n, rest[i]) && LeadsTo(cut, n, rest[j])) {
      assert rest[i] == roots[i + 1] && rest[j] == roots[j + 1];
    }
  }

  lemma BelowSplits(first: string, rest: seq<string>, cut: Parents, ids: set<string>)
    requires Separate(cut, [first] + rest)
    ensures multiset(Below(cut, ids, [first] + rest)) == multiset(Below(cut, ids, [first])) + multiset(Below(cut, ids, rest))
  {
    var all, one, others := Below(cut, ids, [first] + rest), Below(cut, ids, [first]), Below(cut, ids, rest);
    var roots := [first] + rest;
    forall n | n in others ensures n !in one {
      var r :| r in rest && LeadsTo(cut, n, r);
      var j :| 0 <= j < |rest| && rest[j] == r;
      var a, b := roots[0], roots[j + 1];
      assert !(LeadsTo(cut, n, a) && LeadsTo(cut, n, b));
    }
    assert all == one + others;
  }

  lemma {:induction false} ThreadCovers(t: Thread, cut: Parents, ids: set<string>, comments: seq<Comment>)
    requires Comments(comments) && Nodes(cut, ids) && Acyclic(cut) && t.id in ids && IsThread(t, cut, ids, comments)
    ensures Appearing(t) == multiset(Below(cut, ids, [t.id]))
    decreases t
  {
    var replies := IdsOf(t.replies);
    forall i | 0 <= i < |replies| ensures replies[i] in ChildrenOf(cut, ids, t.id) { assert replies[i] in replies; }
    forall i, j, n | 0 <= i < j < |replies| ensures !(LeadsTo(cut, n, replies[i]) && LeadsTo(cut, n, replies[j])) {
      if LeadsTo(cut, n, replies[i]) && LeadsTo(cut, n, replies[j]) {
        RepliesDiffer(replies, comments, i, j);
        SiblingsSeparate(cut, n, replies[i], replies[j]);
      }
    }
    ForestCovers(t.replies, cut, ids, comments);
    BelowOne(t.id, replies, cut, ids);
  }

  lemma RepliesDiffer(list: seq<string>, comments: seq<Comment>, i: nat, j: nat)
    requires Comments(comments) && StrictlySorted(Order(comments), list) && i < j < |list|
    ensures list[i] != list[j]
  {
    assert Order(comments)(list[i], list[j]);
    NotEarlier(comments, list[i]);
  }

  /** Below a comment are itself, once, and what is below its replies. */
  lemma BelowOne(id: string, replies: seq<string>, cut: Parents, ids: set<string>)
    requires Nodes(cut, ids) && Acyclic(cut) && id in ids && (forall n :: n in replies <==> n in ChildrenOf(cut, ids, id))
    ensures multiset(Below(cut, ids, [id])) == multiset{id} + multiset(Below(cut, ids, replies))
  {
    var under, below := Below(cut, ids, [id]), Below(cut, ids, replies);
    assert Leads(cut, id, id, 0) && LeadsTo(cut, id, id) && id in [id];
    forall n ensures n in under <==> n == id || n in below {
      if n in below {
        var r :| r in replies && LeadsTo(cut, n, r);
        var k: nat :| Leads(cut, n, r, k);
        StepUp(cut, n, r, id, k);
      }
      if n in under && n != id {
        assert LeadsTo(cut, n, id);
        var k: nat :| Leads(cut, n, id, k);
        var r := LastStep(cut, n, id, k, ids);
      }
    }
    if id in below {
      var r :| r in replies && LeadsTo(cut, id, r);
      var k: nat :| Leads(cut, id, r, k);
      StepUp(cut, id, r, id, k);
      assert OnCycle(cut, id);
    }
    assert under == {id} + below;
  }

  lemma StepUp(cut: Parents, n: string, r: string, id: string, k: nat)
    requires Leads(cut, n, r, k) && r in cut && cut[r] == id
    ensures Leads(cut, n, id, k + 1) && LeadsTo(cut, n, id)
  {
    assert Leads(cut, r, id, 1) by { assert Leads(cut, id, id, 0); }
    LeadsOn(cut, n, r, id, k, 1);
  }

  lemma {:induction false} LastStep(cut: Parents, n: string, id: string, k: nat, ids: set<string>) returns (r: string)
    requires Leads(cut, n, id, k) && n in ids && n != id && Nodes(cut, ids)
    ensures r in ChildrenOf(cut, ids, id) && LeadsTo(cut, n, r)
    decreases k
  {
    if cut[n] == id {
      r := n;
      assert Leads(cut, n, n, 0);
    } else {
      r := LastStep(cut, cut[n], id, k - 1, ids);
      var m: nat :| Leads(cut, cut[n], r, m);
      assert Leads(cut, n, r, m + 1);
    }
  }

  /** Following parents from any comment ends at a root. */
  lemma {:induction false} ReachesRoot(cut: Parents, ids: set<string>, n: string, seen: set<string>) returns (r: string)
    requires Nodes(cut, ids) && Acyclic(cut) && n in ids && seen <= ids
    requires forall m :: m in seen ==> m != n && LeadsTo(cut, m, n)
    ensures r in Roots(cut, ids) && LeadsTo(cut, n, r)
    decreases ids - seen
  {
    assert Leads(cut, n, n, 0);
    if n !in cut {
      r := n;
    } else {
      var p := cut[n];
      forall m | m in seen + {n} ensures m != p && LeadsTo(cut, m, p) {
        var k: nat :| Leads(cut, m, n, k);
        StepUp(cut, m, n, p, k);
        if m == p { assert OnCycle(cut, m); }
      }
      r := ReachesRoot(cut, ids, p, seen + {n});
      var k: nat :| Leads(cut, p, r, k);
      assert Leads(cut, n, r, k + 1);
    }
  }

  lemma RootsSeparate(roots: seq<string>, cut: Parents, ids: set<string>, comments: seq<Comment>)
    requires Comments(comments) && Acyclic(cut) && SortedListOf(Order(comments), roots, Roots(cut, ids))
    ensures Separate(cut, roots)
  {
    forall i | 0 <= i < |roots| ensures roots[i] !in cut { assert roots[i] in roots; }
    forall i, j, n | 0 <= i < j < |roots| ensures !(LeadsTo(cut, n, roots[i]) && LeadsTo(cut, n, roots[j])) {
      RepliesDiffer(roots, comments, i, j);
      hide *;
      if LeadsTo(cut, n, roots[i]) && LeadsTo(cut, n, roots[j]) { SiblingsSeparate(cut, n, roots[i], roots[j]); }
    }
  }

  lemma AllBelowRoots(roots: seq<string>, cut: Parents, ids: set<string>)
    requires Nodes(cut, ids) && Acyclic(cut) && forall r :: r in roots <==> r in Roots(cut, ids)
    ensures Below(cut, ids, roots) == ids
  {
    forall n | n in ids ensures n in Below(cut, ids, roots) {
      var r := ReachesRoot(cut, ids, n, {});
    }
  }

  /** A forest over acyclic parents shows every comment exactly once. */
  lemma EveryCommentOnce(threads: seq<Thread>, cut: Parents, ids: set<string>, comments: seq<Comment>)
    requires Comments(comments) && Nodes(cut, ids) && Acyclic(cut) && IsForest(threads, Roots(cut, ids), cut, ids, comments)
    ensures AppearingIn(threads) == multiset(ids)
  {
    var roots := IdsOf(threads);
    RootsSeparate(roots, cut, ids, comments);
    AllBelowRoots(roots, cut, ids);
    forall i | 0 <= i < |threads| ensures threads[i].id in ids { assert roots[i] in roots; }
    hide Separate, Acyclic, Nodes, Below, Comments;
    ForestCovers(threads, cut, ids, comments);
  }

  // ---- Building it ----

  method ListParents(comments: seq<Comment>) returns (parents: Parents)
    requires Comments(comments)
    ensures ParentsOf(comments, parents)
  {
    parents := map[];
    var known := IdSet(comments);
    for i := 0 to |comments|
      invariant forall n :: n in parents ==> exists k :: 0 <= k < i && comments[k].id == n
      invariant forall k :: 0 <= k < i ==>
                  if RepliesTo(comments[k], known) then comments[k].id in parents && parents[comments[k].id] == comments[k].inReplyTo
                  else comments[k].id !in parents
    {
      var c := comments[i];
      if RepliesTo(c, known) {
        parents := parents[c.id := c.inReplyTo];
      }
    }
  }

  lemma ParentNodes(comments: seq<Comment>, parents: Parents)
    requires Comments(comments) && ParentsOf(comments, parents)
    ensures Nodes(parents, IdSet(comments))
  {
    forall n | n in parents ensures n in IdSet(comments) && parents[n] in IdSet(comments) {
      var c :| c in comments && c.id == n;
    }
    forall c | c in comments ensures c.id != "" {
      var k :| 0 <= k < |comments| && comments[k] == c;
    }
  }

  function Listed(children: map<string, seq<string>>, p: string): seq<string> {
    if p in children then children[p] else []
  }

  ghost predicate ChildrenListed(children: map<string, seq<string>>, cut: Parents, ids: set<string>) {
    forall p, n :: n in Listed(children, p) <==> n in ChildrenOf(cut, ids, p)
  }

  method ListChildren(comments: seq<Comment>, cut: Parents) returns (children: map<string, seq<string>>, roots: seq<string>)
    ensures ChildrenListed(children, cut, IdSet(comments))
    ensures forall n :: n in roots <==> n in Roots(cut, IdSet(comments))
  {
    children, roots := map[], [];
    ghost var done: set<string> := {};
    for i := 0 to |comments|
      invariant forall n :: n in done <==> exists k :: 0 <= k < i && comments[k].id == n
      invariant ChildrenListed(children, cut, done)
      invariant forall n :: n in roots <==> n in Roots(cut, done)
    {
      var id := comments[i].id;
      if id in cut {
        children := AddChild(children, cut, done, id);
      } else {
        roots := roots + [id];
      }
      done := done + {id};
    }
    assert done == IdSet(comments) by {
      forall n ensures n in done <==> n in IdSet(comments) {
        if n in IdSet(comments) {
          var c :| c in comments && c.id == n;
          var k :| 0 <= k < |comments| && comments[k] == c;
        }
      }
    }
  }

  method AddChild(children: map<string, seq<string>>, cut: Parents, ghost done: set<string>, id: string) returns (more: map<string, seq<string>>)
    requires id in cut && ChildrenListed(children, cut, done)
    ensures ChildrenListed(more, cut, done + {id})
  {
    var parent := cut[id];
    more := children[parent := Listed(children, parent) + [id]];
    forall p, n ensures n in Listed(more, p) <==> n in ChildrenOf(cut, done + {id}, p) {
      assert n in Listed(children, p) <==> n in ChildrenOf(cut, done, p);
    }
  }

  /** Distinct comments in any order, put in sibling order. Places in the listing differ, so the third
    * comparison the program makes, by id, is never reached.
    */
  method SortIds(list: seq<string>, comments: seq<Comment>) returns (sorted: seq<string>)
    requires Comments(comments) && forall n :: n in list ==> n in IdSet(comments)
    ensures SortedListOf(Order(comments), sorted, set n | n in list)
  {
    var items := set n | n in list;
    OrderStrictTotal(comments, items);
    sorted := SortedKeys(Order(comments), items);
  }

  ghost function Under(cut: Parents, ids: set<string>, id: string): set<string> {
    set n | n in ids && LeadsTo(cut, n, id)
  }

  lemma UnderShrinks(cut: Parents, ids: set<string>, id: string, child: string)
    requires Acyclic(cut) && id in ids && child in ChildrenOf(cut, ids, id)
    ensures Under(cut, ids, child) < Under(cut, ids, id)
  {
    forall n | n in Under(cut, ids, child) ensures n in Under(cut, ids, id) {
      var k: nat :| Leads(cut, n, child, k);
      StepUp(cut, n, child, id, k);
    }
    assert Leads(cut, id, id, 0);
    if k: nat :| Leads(cut, id, child, k) {
      StepUp(cut, id, child, id, k);
      assert OnCycle(cut, id);
    }
    assert id in Under(cut, ids, id) && id !in Under(cut, ids, child);
  }

  /** The first trees of a list of comments. */
  ghost predicate Built(trees: seq<Thread>, list: seq<string>, cut: Parents, comments: seq<Comment>) {
    && |trees| <= |list|
    && forall k :: 0 <= k < |trees| ==> trees[k].id == list[k] && IsThread(trees[k], cut, IdSet(comments), comments)
  }

  lemma BuiltForest(trees: seq<Thread>, list: seq<string>, roots: set<string>, cut: Parents, comments: seq<Comment>)
    requires Built(trees, list, cut, comments) && |trees| == |list| && SortedListOf(Order(comments), list, roots)
    ensures IsForest(trees, roots, cut, IdSet(comments), comments)
  {
    assert IdsOf(trees) == list;
  }

  method SortedReplies(id: string, comments: seq<Comment>, children: map<string, seq<string>>, ghost cut: Parents)
    returns (list: seq<string>)
    requires Comments(comments) && ChildrenListed(children, cut, IdSet(comments))
    ensures SortedListOf(Order(comments), list, ChildrenOf(cut, IdSet(comments), id))
    ensures forall k :: 0 <= k < |list| ==> list[k] in ChildrenOf(cut, IdSet(comments), id)
  {
    list := SortIds(Listed(children, id), comments);
    assert (set n | n in Listed(children, id)) == ChildrenOf(cut, IdSet(comments), id);
    assert forall k :: 0 <= k < |list| ==> list[k] in list;
  }

  method BuildTree(id: string, comments: seq<Comment>, children: map<string, seq<string>>, ghost cut: Parents)
    returns (t: Thread)
    requires Comments(comments) && Acyclic(cut) && ChildrenListed(children, cut, IdSet(comments)) && id in IdSet(comments)
    ensures t.id == id && IsThread(t, cut, IdSet(comments), comments)
    decreases Under(cut, IdSet(comments), id)
  {
    hide Acyclic, ChildrenListed, SortedListOf, Under, IdSet, Comments;
    ghost var ids := IdSet(comments);
    var list := SortedReplies(id, comments, children, cut);
    var replies: seq<Thread> := [];
    for i := 0 to |list|
      invariant |replies| == i && Built(replies, list, cut, comments)
    {
      UnderShrinks(cut, ids, id, list[i]);
      var reply := BuildTree(list[i], comments, children, cut);
      replies := replies + [reply];
    }
    BuiltForest(replies, list, ChildrenOf(cut, ids, id), cut, comments);
    t := Thread(id, replies);
  }

  /** The parents a listing's forest hangs by: each reply's, except those on a reply cycle. */
  ghost predicate CutParents(comments: seq<Comment>, cut: Parents) {
    exists parents :: ParentsOf(comments, parents) && cut == Uncycled(parents)
  }

  ghost function Uncycled(parents: Parents): Parents {
    map n | n in parents && !OnCycle(parents, n) :: parents[n]
  }

  /** The reply forest: every comment exactly once; a comment is a root exactly when it replies to no other
    * comment of the listing or lies on a reply cycle, and otherwise hangs below the comment it replies to.
    */
  method Threads(comments: seq<Comment>) returns (threads: seq<Thread>, ghost cut: Parents)
    requires Comments(comments)
    ensures CutParents(comments, cut)
    ensures IsForest(threads, Roots(cut, IdSet(comments)), cut, IdSet(comments), comments)
    ensures AppearingIn(threads) == multiset(IdSet(comments))
  {
    var parents := ListParents(comments);
    ParentNodes(comments, parents);
    ghost var ids := IdSet(comments);
    var order := IdList(comments);
    var inCycle := MarkCycles(parents, order, ids);
    CutAcyclic(parents, inCycle);
    var kept := parents - inCycle;
    cut := kept;
    assert cut == Uncycled(parents);
    var children, unsorted := ListChildren(comments, kept);
    var rootIds := SortIds(unsorted, comments);
    threads := [];
    for i := 0 to |rootIds|
      invariant |threads| == i && Built(threads, rootIds, cut, comments)
    {
      assert rootIds[i] in rootIds;
      var t := BuildTree(rootIds[i], comments, children, cut);
      threads := threads + [t];
    }
    assert (set n | n in unsorted) == Roots(cut, ids);
    BuiltForest(threads, rootIds, Roots(cut, ids), cut, comments);
    EveryCommentOnce(threads, cut, ids, comments);
  }

  function IdList(comments: seq<Comment>): (list: seq<string>)
    ensures forall n :: n in list <==> n in IdSet(comments)
  {
    if comments == [] then []
    else
      assert IdSet(comments) == {comments[0].id} + IdSet(comments[1..]);
      [comments[0].id] + IdList(comments[1..])
  }

  // ---- What the forest shows, read off the comments ----

  /** `t` is a thread of the list, or hangs anywhere below one. */
  ghost predicate Within(threads: seq<Thread>, t: Thread)
    decreases threads
  {
    exists i :: 0 <= i < |threads| && (threads[i] == t || Within(threads[i].replies, t))
  }

  lemma {:induction false} WithinIsThread(threads: seq<Thread>, t: Thread, cut: Parents, ids: set<string>, comments: seq<Comment>)
    requires (forall i :: 0 <= i < |threads| ==> IsThread(threads[i], cut, ids, comments)) && Within(threads, t)
    ensures IsThread(t, cut, ids, comments)
    decreases threads
  {
    var i :| 0 <= i < |threads| && (threads[i] == t || Within(threads[i].replies, t));
    if threads[i] != t { WithinIsThread(threads[i].replies, t, cut, ids, comments); }
  }

  /** The roots, or the replies to one comment. */
  ghost predicate Siblings(threads: seq<Thread>, list: seq<Thread>) {
    list == threads || exists t :: Within(threads, t) && list == t.replies
  }

  /** Among siblings the older comment comes first, and of two of the same age the one listed first. */
  lemma {:induction false} SiblingsInOrder(comments: seq<Comment>, cut: Parents, threads: seq<Thread>, list: seq<Thread>, i: nat, j: nat, p: nat, q: nat)
    requires Comments(comments) && IsForest(threads, Roots(cut, IdSet(comments)), cut, IdSet(comments), comments)
    requires Siblings(threads, list) && i < j < |list|
    requires p < |comments| && q < |comments| && comments[p].id == list[i].id && comments[q].id == list[j].id
    ensures comments[p].createdAt <= comments[q].createdAt
    ensures comments[p].createdAt == comments[q].createdAt ==> p < q
  {
    hide Comments, Before, Roots, ChildrenOf, IdSet;
    if list != threads {
      var t :| Within(threads, t) && list == t.replies;
      WithinIsThread(threads, t, cut, IdSet(comments), comments);
    }
    assert IdsOf(list)[i] == list[i].id && IdsOf(list)[j] == list[j].id;
    assert Earlier(comments, list[i].id, list[j].id);
    var k: nat, m: nat :| k < |comments| && m < |comments| && comments[k].id == list[i].id && comments[m].id == list[j].id && Before(comments, k, m);
    SamePlace(comments, k, p);
    SamePlace(comments, m, q);
    BeforeMeans(comments, p, q);
  }

  lemma {:induction false} SamePlace(comments: seq<Comment>, k: nat, p: nat)
    requires Comments(comments) && k < |comments| && p < |comments| && comments[k].id == comments[p].id
    ensures k == p
  {}

  lemma {:induction false} BeforeMeans(comments: seq<Comment>, p: nat, q: nat)
    requires Before(comments, p, q)
    ensures comments[p].createdAt <= comments[q].createdAt
    ensures comments[p].createdAt == comments[q].createdAt ==> p < q
  {}

  /** Each comment of the chain replies to the next one, which is another comment of the listing. */
  ghost predicate ReplyChain(comments: seq<Comment>, chain: seq<Comment>) {
    && (forall i :: 0 <= i < |chain| ==> chain[i] in comments)
    && forall i :: 0 <= i < |chain| - 1 ==> chain[i].inReplyTo == chain[i + 1].id && chain[i].id != chain[i + 1].id
  }

  /** Following replies from `c` leads back to it. */
  ghost predicate InReplyLoop(comments: seq<Comment>, c: Comment) {
    exists chain: seq<Comment> :: |chain| > 1 && chain[0] == c && chain[|chain| - 1] == c && ReplyChain(comments, chain)
  }

  /** `c` replies to a comment of the listing other than itself. */
  predicate IsReply(comments: seq<Comment>, c: Comment) {
    c.inReplyTo != c.id && exists d :: d in comments && d.id == c.inReplyTo
  }

  lemma {:induction false} ReplyIsParent(comments: seq<Comment>, parents: Parents, c: Comment)
    requires Comments(comments) && ParentsOf(comments, parents) && c in comments
    ensures c.id in parents <==> IsReply(comments, c)
    ensures c.id in parents ==> parents[c.id] == c.inReplyTo
  {
    if d :| d in comments && d.id == c.inReplyTo {
      var i :| 0 <= i < |comments| && comments[i] == d;
      assert d.id != "" && d.id in IdSet(comments);
    }
  }

  lemma {:induction false} ChainLeads(comments: seq<Comment>, parents: Parents, chain: seq<Comment>)
    requires Comments(comments) && ParentsOf(comments, parents) && ReplyChain(comments, chain) && chain != []
    ensures Leads(parents, chain[0].id, chain[|chain| - 1].id, |chain| - 1)
    decreases |chain|
  {
    if |chain| == 1 {
    } else {
      assert chain[1] in comments && chain[0].inReplyTo == chain[1].id;
      ReplyIsParent(comments, parents, chain[0]);
      hide ParentsOf, Comments;
      ChainLeads(comments, parents, chain[1..]);
    }
  }

  lemma {:induction false} LeadsChain(comments: seq<Comment>, parents: Parents, c: Comment, b: string, k: nat) returns (chain: seq<Comment>)
    requires Comments(comments) && ParentsOf(comments, parents) && c in comments && Leads(parents, c.id, b, k)
    ensures |chain| == k + 1 && chain[0] == c && chain[k].id == b && ReplyChain(comments, chain)
    decreases k
  {
    if k == 0 {
      chain := [c];
    } else {
      ReplyIsParent(comments, parents, c);
      hide ParentsOf, Comments;
      var d :| d in comments && d.id == c.inReplyTo;
      var rest := LeadsChain(comments, parents, d, b, k - 1);
      chain := [c] + rest;
    }
  }

  lemma {:induction false} LoopIsCycle(comments: seq<Comment>, parents: Parents, c: Comment)
    requires Comments(comments) && ParentsOf(comments, parents) && c in comments
    ensures OnCycle(parents, c.id) <==> InReplyLoop(comments, c)
  {
    if k: nat :| k > 0 && Leads(parents, c.id, c.id, k) {
      var chain := LeadsChain(comments, parents, c, c.id, k);
      assert chain[k] in comments;
      SameComment(comments, chain[k], c);
    }
    if chain: seq<Comment> :| |chain| > 1 && chain[0] == c && chain[|chain| - 1] == c && ReplyChain(comments, chain) {
      ChainLeads(comments, parents, chain);
    }
  }

  lemma {:induction false} SameComment(comments: seq<Comment>, c: Comment, d: Comment)
    requires Comments(comments) && c in comments && d in comments && c.id == d.id
    ensures c == d
  {}

  /** A comment is a root exactly when it replies to no other comment of the listing or lies on a reply loop. */
  lemma {:induction false} RootsMean(comments: seq<Comment>, cut: Parents, threads: seq<Thread>, c: Comment)
    requires Comments(comments) && CutParents(comments, cut)
    requires IsForest(threads, Roots(cut, IdSet(comments)), cut, IdSet(comments), comments) && c in comments
    ensures c.id in IdsOf(threads) <==> !IsReply(comments, c) || InReplyLoop(comments, c)
  {
    hide ReplyChain, InReplyLoop, IsReply, IsThread, OnCycle, Comments, ParentsOf;
    var parents :| ParentsOf(comments, parents) && cut == Uncycled(parents);
    ReplyIsParent(comments, parents, c);
    LoopIsCycle(comments, parents, c);
    assert c.id in IdSet(comments);
  }

  /** Below a comment hang exactly the comments that reply to it and lie on no reply loop. */
  lemma {:induction false} RepliesMean(comments: seq<Comment>, cut: Parents, threads: seq<Thread>, t: Thread, c: Comment)
    requires Comments(comments) && CutParents(comments, cut)
    requires IsForest(threads, Roots(cut, IdSet(comments)), cut, IdSet(comments), comments) && Within(threads, t) && c in comments
    ensures c.id in IdsOf(t.replies) <==> IsReply(comments, c) && c.inReplyTo == t.id && !InReplyLoop(comments, c)
  {
    WithinIsThread(threads, t, cut, IdSet(comments), comments);
    hide ReplyChain, InReplyLoop, IsReply, OnCycle, Comments, ParentsOf, Within;
    var parents :| ParentsOf(comments, parents) && cut == Uncycled(parents);
    ReplyIsParent(comments, parents, c);
    LoopIsCycle(comments, parents, c);
    assert c.id in IdSet(comments);
  }
}
