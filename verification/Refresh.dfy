/** The projection cache: refreshed incrementally, it holds what a cold rebuild would exactly when no op commit
  * was lost.
  */
module Refresh {
  import opened CausalGraph
  import opened Enumerate
  import opened Options
  import Strings

  datatype Side = OldSide | NewSide

  /** What resolving a comment's anchor against one commit's tree says about each side it has. */
  datatype Resolution = Resolution(onOld: Option<string>, onNew: Option<string>) {
    function On(side: Side): Option<string> { if side.OldSide? then onOld else onNew }
  }

  /** The typed row an object folds to; a comment row may carry an anchor. */
  datatype Row = Row(content: string, anchor: Option<string>)

  /** The reducers and the resolver, as functions that may fail: of an object's ops, and of an anchor
    * and a commit's tree. A failure aborts the transaction.
    */
  datatype Readers = Readers(fold: map<Id, Op> -> Option<Row>, resolve: (string, Id) -> Option<Resolution>)

  datatype Key = Key(comment: string, commit: Id, side: Side)

  /** Code tips may be recorded as empty; nothing is resolved against those. */
  const NO_TIP: Id := 0

  datatype Tables = Tables(ops: map<Id, Op>, chainTips: Refs, codeTips: Refs, rows: map<string, Row>, resolutions: map<Key, string>)

  const EMPTY := Tables(map[], map[], map[], map[], map[])

  // ---- What the tables should hold ----

  function OpsFor(ops: map<Id, Op>, obj: string): map<Id, Op> { map h | h in ops && ops[h].objectID == obj :: ops[h] }

  ghost function OpsBelow(store: Store, tips: set<Id>): map<Id, Op> {
    map h | h in store && store[h].decoded.Accepted? && BelowAny(View(store), h, tips) :: store[h].decoded.op
  }

  /** One row per object, folded from all its stored ops. */
  ghost predicate Folded(ops: map<Id, Op>, rows: map<string, Row>, readers: Readers) {
    && rows.Keys == Objects(ops)
    && forall obj :: obj in rows ==> readers.fold(OpsFor(ops, obj)) == Some(rows[obj])
  }

  predicate Targets(codeTips: Refs, commit: Id) { commit != NO_TIP && exists r :: r in codeTips && codeTips[r] == commit }

  predicate Anchored(rows: map<string, Row>, comment: string) { comment in rows && rows[comment].anchor.Some? }

  /** The entry the full recomputation has at `key`, if any. */
  function Expected(rows: map<string, Row>, codeTips: Refs, readers: Readers, key: Key): Option<string> {
    if Anchored(rows, key.comment) && Targets(codeTips, key.commit) then
      match readers.resolve(rows[key.comment].anchor.value, key.commit)
      case Some(res) => res.On(key.side)
      case None => None
    else None
  }

  /** Every anchored comment against every code tip: no entry missing, none stale. */
  ghost predicate Resolved(rows: map<string, Row>, codeTips: Refs, readers: Readers, resolutions: map<Key, string>) {
    forall key :: Expected(rows, codeTips, readers, key) == if key in resolutions then Some(resolutions[key]) else None
  }

  /** The tables a from-scratch pass over the current refs leaves behind. */
  ghost predicate Cold(t: Tables, store: Store, chains: Refs, codeTips: Refs, readers: Readers) {
    && t.ops == OpsBelow(store, Tips(chains))
    && t.chainTips == chains && t.codeTips == codeTips
    && Folded(t.ops, t.rows, readers)
    && Resolved(t.rows, t.codeTips, readers, t.resolutions)
  }

  /** Every anchor can be resolved against every code tip. */
  ghost predicate Resolvable(rows: map<string, Row>, codeTips: Refs, readers: Readers) {
    forall c, commit :: Anchored(rows, c) && Targets(codeTips, commit) ==> readers.resolve(rows[c].anchor.value, commit).Some?
  }

  /** No reducer fails on these ops, and the resolver fails on no anchor they carry. */
  ghost predicate Readable(ops: map<Id, Op>, codeTips: Refs, readers: Readers) {
    exists rows :: Folded(ops, rows, readers) && Resolvable(rows, codeTips, readers)
  }

  lemma UnfoldableUnreadable(ops: map<Id, Op>, codeTips: Refs, readers: Readers)
    requires exists obj :: obj in Objects(ops) && readers.fold(OpsFor(ops, obj)).None?
    ensures !Readable(ops, codeTips, readers)
  {
    hide OpsFor, Objects, Resolvable;
  }

  lemma ReadableIffResolvable(ops: map<Id, Op>, codeTips: Refs, readers: Readers, rows: map<string, Row>)
    requires Folded(ops, rows, readers)
    ensures Readable(ops, codeTips, readers) <==> Resolvable(rows, codeTips, readers)
  {
    hide Resolvable, Folded;
    forall other | Folded(ops, other, readers) ensures other == rows {
      RowsUnique(ops, other, rows, readers);
    }
  }

  /** There is only one such set of tables. */
  lemma ColdUnique(a: Tables, b: Tables, store: Store, chains: Refs, codeTips: Refs, readers: Readers)
    requires Cold(a, store, chains, codeTips, readers) && Cold(b, store, chains, codeTips, readers)
    ensures a == b
  {
    hide Expected, Objects, OpsFor, OpsBelow;
    RowsUnique(a.ops, a.rows, b.rows, readers);
    forall key ensures key in a.resolutions <==> key in b.resolutions {
      assert Expected(a.rows, codeTips, readers, key) == Expected(b.rows, codeTips, readers, key);
    }
    forall key | key in a.resolutions ensures a.resolutions[key] == b.resolutions[key] {
      assert Expected(a.rows, codeTips, readers, key) == Some(b.resolutions[key]);
    }
  }

  lemma RowsUnique(ops: map<Id, Op>, a: map<string, Row>, b: map<string, Row>, readers: Readers)
    requires Folded(ops, a, readers) && Folded(ops, b, readers)
    ensures a == b
  {
    hide OpsFor, Objects;
    forall obj | obj in a ensures a[obj] == b[obj] {
      assert Some(a[obj]) == Some(b[obj]);
    }
  }

  /** The cache is right about the tips it recorded, whatever the refs have done since. */
  ghost predicate Coherent(t: Tables, store: Store, readers: Readers) {
    Cold(t, store, t.chainTips, t.codeTips, readers)
  }

  /** What always holds of the cache: every stored op is one below the recorded tips, and rows and resolutions
    * are those of the stored ops. Some ops below the recorded tips may be missing.
    */
  ghost predicate Honest(t: Tables, store: Store, readers: Readers) {
    && t.ops.Keys <= OpsBelow(store, Tips(t.chainTips)).Keys && AgreesWith(t.ops, store)
    && Folded(t.ops, t.rows, readers)
    && Resolved(t.rows, t.codeTips, readers, t.resolutions)
  }

  ghost predicate AgreesWith(ops: map<Id, Op>, store: Store) {
    forall h :: h in ops ==> h in store && store[h].decoded == Accepted(ops[h])
  }

  /** An op commit below a recorded tip that the cache does not have. */
  ghost predicate Missed(t: Tables, store: Store, h: Id) {
    h in OpsBelow(store, Tips(t.chainTips)) && h !in t.ops
  }

  lemma CoherentIfComplete(t: Tables, store: Store, readers: Readers)
    ensures Coherent(t, store, readers) <==> Honest(t, store, readers) && forall h :: !Missed(t, store, h)
  {
    var all := OpsBelow(store, Tips(t.chainTips));
    assert AgreesWith(all, store);
    hide OpsBelow, Folded, Resolved, AgreesWith;
    if Honest(t, store, readers) && forall h :: !Missed(t, store, h) {
      forall h | h in all ensures h in t.ops { assert !Missed(t, store, h); }
      SameOps(t.ops, all, store);
    }
  }

  // ---- What the tables say, read off the commits ----

  /** Each row is what its reducer makes of the object's ops, all of them and no other. */
  lemma RowsMean(ops: map<Id, Op>, rows: map<string, Row>, readers: Readers, obj: string, part: map<Id, Op>)
    requires Folded(ops, rows, readers)
    requires forall h :: h in part <==> h in ops && ops[h].objectID == obj
    requires forall h :: h in part ==> part[h] == ops[h]
    ensures obj in rows <==> part != map[]
    ensures obj in rows ==> readers.fold(part) == Some(rows[obj])
  {
    assert part == OpsFor(ops, obj);
    if h :| h in part { assert ops[h].objectID in Objects(ops); }
    if obj in rows {
      var h :| h in ops && ops[h].objectID == obj;
      assert h in part;
    }
  }

  /** `part` holds the ops of `obj` that commits at or below a current tip decode to. */
  ghost predicate OpsAtTips(store: Store, chains: Refs, obj: string, part: map<Id, Op>) {
    && (forall h :: h in part <==>
          && h in store && store[h].decoded.Accepted? && store[h].decoded.op.objectID == obj
          && exists r :: r in chains && Below(View(store), h, chains[r]))
    && forall h :: h in part ==> store[h].decoded == Accepted(part[h])
  }

  /** After a cold rebuild an object has a row exactly when some commit at or below a tip carries an op of it, and
    * the row is folded from all of those.
    */
  lemma ColdRows(t: Tables, store: Store, chains: Refs, codeTips: Refs, readers: Readers, obj: string, part: map<Id, Op>)
    requires Cold(t, store, chains, codeTips, readers) && OpsAtTips(store, chains, obj, part)
    ensures obj in t.rows <==> part != map[]
    ensures obj in t.rows ==> readers.fold(part) == Some(t.rows[obj])
  {
    hide Folded, Resolved, Below;
    forall h ensures h in part <==> h in t.ops && t.ops[h].objectID == obj {
      if h in part {
        var r :| r in chains && Below(View(store), h, chains[r]);
        assert chains[r] in Tips(chains);
      }
      if h in t.ops {
        var tip :| tip in Tips(chains) && Below(View(store), h, tip);
      }
    }
    RowsMean(t.ops, t.rows, readers, obj, part);
  }

  /** `part` holds the ops of `obj` stored before and those of the commits fresh since the recorded tips. */
  ghost predicate OpsSoFar(t: Tables, store: Store, chains: Refs, obj: string, part: map<Id, Op>) {
    && (forall h :: h in part <==>
          || (h in t.ops && t.ops[h].objectID == obj)
          || (h in store && store[h].decoded.Accepted? && store[h].decoded.op.objectID == obj
              && FreshSince(store, chains, AsCursors(t.chainTips), h)))
    && forall h :: h in part ==> h in store && store[h].decoded == Accepted(part[h])
  }

  /** After any refresh each row is folded from exactly its object's ops: those below the current tips if a chain
    * vanished or was rolled back, else those stored before and those met by the walk.
    */
  lemma RefreshedRows(t: Tables, t': Tables, store: Store, chains: Refs, targetTips: Refs, readers: Readers, obj: string, part: map<Id, Op>)
    requires Honest(t, store, readers) && Refreshed(t, t', store, chains, targetTips, readers)
    requires if OnlyForward(store, chains, AsCursors(t.chainTips)) then OpsSoFar(t, store, chains, obj, part) else OpsAtTips(store, chains, obj, part)
    ensures obj in t'.rows <==> part != map[]
    ensures obj in t'.rows ==> readers.fold(part) == Some(t'.rows[obj])
  {
    if OnlyForward(store, chains, AsCursors(t.chainTips)) {
      hide OnlyForward, FreshSince, OpsBelow, Folded, Resolved, AsCursors;
      RowsMean(t'.ops, t'.rows, readers, obj, part);
    } else {
      hide OnlyForward, Folded, Resolved, OpsAtTips;
      ColdRows(t', store, chains, targetTips, readers, obj, part);
    }
  }

  /** In rebuilt tables a comment with an anchor has, at each code tip, exactly the sides its anchor resolves to. */
  lemma ColdResolutions(t: Tables, store: Store, chains: Refs, codeTips: Refs, readers: Readers, c: string, anchor: string, r: string, res: Resolution)
    requires Cold(t, store, chains, codeTips, readers)
    requires c in t.rows && t.rows[c].anchor == Some(anchor) && r in codeTips && codeTips[r] != 0
    requires readers.resolve(anchor, codeTips[r]) == Some(res)
    ensures var key := Key(c, codeTips[r], OldSide);
            if key in t.resolutions then res.onOld == Some(t.resolutions[key]) else res.onOld == None
    ensures var key := Key(c, codeTips[r], NewSide);
            if key in t.resolutions then res.onNew == Some(t.resolutions[key]) else res.onNew == None
  {
    hide OpsBelow, Folded;
    var commit := codeTips[r];
    assert Expected(t.rows, codeTips, readers, Key(c, commit, OldSide)) == res.onOld;
    assert Expected(t.rows, codeTips, readers, Key(c, commit, NewSide)) == res.onNew;
  }

  /** And no other entry is there. */
  lemma ColdResolutionsOnly(t: Tables, store: Store, chains: Refs, codeTips: Refs, readers: Readers, key: Key)
    requires Cold(t, store, chains, codeTips, readers) && key in t.resolutions
    ensures key.comment in t.rows && t.rows[key.comment].anchor.Some?
    ensures key.commit != 0 && exists r :: r in codeTips && codeTips[r] == key.commit
  {
    hide OpsBelow, Folded;
    assert Expected(t.rows, codeTips, readers, key) == Some(t.resolutions[key]);
  }

  // ---- Folding the objects a batch touches ----

  ghost predicate FoldedExcept(ops: map<Id, Op>, rows: map<string, Row>, readers: Readers, todo: set<string>) {
    && rows.Keys + todo == Objects(ops) + todo
    && forall obj :: obj in rows && obj !in todo ==> readers.fold(OpsFor(ops, obj)) == Some(rows[obj])
  }

  /** Deletes and refolds each touched object; its resolutions go with it. */
  method Materialize(readers: Readers, ops: map<Id, Op>, touched: set<string>, rows: map<string, Row>, resolutions: map<Key, string>)
    returns (ok: bool, rows': map<string, Row>, resolutions': map<Key, string>)
    requires FoldedExcept(ops, rows, readers, touched) && touched <= Objects(ops)
    ensures ok ==> Folded(ops, rows', readers)
    ensures !ok ==> exists obj :: obj in Objects(ops) && readers.fold(OpsFor(ops, obj)).None?
    ensures forall obj :: obj !in touched ==> (obj in rows <==> obj in rows') && (obj in rows ==> rows'[obj] == rows[obj])
    ensures resolutions' == map key | key in resolutions && key.comment !in touched :: resolutions[key]
  {
    hide OpsFor, Objects;
    ok, rows', resolutions' := true, rows, map key | key in resolutions && key.comment !in touched :: resolutions[key];
    var todo := touched;
    while todo != {}
      invariant todo <= touched && FoldedExcept(ops, rows', readers, todo)
      invariant forall obj :: obj !in touched ==> (obj in rows <==> obj in rows') && (obj in rows ==> rows'[obj] == rows[obj])
      decreases todo
    {
      var obj :| obj in todo;
      var folded := readers.fold(OpsFor(ops, obj));
      if folded.None? {
        ok := false;
        return;
      }
      rows' := rows'[obj := folded.value];
      todo := todo - {obj};
    }
  }

  // ---- Anchor resolutions ----

  function Lookup(resolutions: map<Key, string>, key: Key): Option<string> {
    if key in resolutions then Some(resolutions[key]) else None
  }

  /** What the table holds for one comment at one commit. */
  function EntriesAt(resolutions: map<Key, string>, c: string, commit: Id): Resolution {
    Resolution(Lookup(resolutions, Key(c, commit, OldSide)), Lookup(resolutions, Key(c, commit, NewSide)))
  }

  const NOTHING := Resolution(None, None)

  function AnchorOf(rows: map<string, Row>, c: string): string
    requires Anchored(rows, c)
  {
    rows[c].anchor.value
  }

  ghost predicate PairRight(rows: map<string, Row>, readers: Readers, resolutions: map<Key, string>, c: string, commit: Id) {
    Anchored(rows, c) && readers.resolve(AnchorOf(rows, c), commit) == Some(EntriesAt(resolutions, c, commit))
  }

  /** Each comment is resolved at a commit in full or not at all. */
  ghost predicate Consistent(rows: map<string, Row>, readers: Readers, resolutions: map<Key, string>) {
    forall c, commit :: EntriesAt(resolutions, c, commit) != NOTHING ==> commit != NO_TIP && PairRight(rows, readers, resolutions, c, commit)
  }

  /** The insertions for one resolved anchor. */
  function Put(resolutions: map<Key, string>, c: string, commit: Id, res: Resolution): map<Key, string> {
    var one := if res.onOld.Some? then resolutions[Key(c, commit, OldSide) := res.onOld.value] else resolutions;
    if res.onNew.Some? then one[Key(c, commit, NewSide) := res.onNew.value] else one
  }

  lemma PutEntries(resolutions: map<Key, string>, c: string, commit: Id, res: Resolution)
    requires EntriesAt(resolutions, c, commit) == NOTHING
    ensures var more := Put(resolutions, c, commit, res);
            forall d, other :: EntriesAt(more, d, other) == if d == c && other == commit then res else EntriesAt(resolutions, d, other)
  {}

  predicate Exists(resolutions: map<Key, string>, c: string, commit: Id) {
    Key(c, commit, OldSide) in resolutions || Key(c, commit, NewSide) in resolutions
  }

  /** Resolves against one commit every anchored comment that has no entry there. */
  method ResolveAgainst(readers: Readers, rows: map<string, Row>, comments: set<string>, commit: Id, resolutions: map<Key, string>)
    returns (ok: bool, more: map<Key, string>)
    requires Consistent(rows, readers, resolutions) && commit != NO_TIP && forall c :: c in comments <==> Anchored(rows, c)
    ensures ok ==> forall c, other :: other != commit || c !in comments ==> EntriesAt(more, c, other) == EntriesAt(resolutions, c, other)
    ensures ok ==> forall c :: c in comments ==> PairRight(rows, readers, more, c, commit)
    ensures !ok ==> exists c :: Anchored(rows, c) && readers.resolve(AnchorOf(rows, c), commit).None?
  {
    var existing := set c | c in comments && Exists(resolutions, c, commit);
    assert forall c :: c in existing ==> PairRight(rows, readers, resolutions, c, commit);
    assert forall c :: c in comments && c !in existing ==> EntriesAt(resolutions, c, commit) == NOTHING;
    hide Anchored, Put, EntriesAt, Consistent, Exists, AnchorOf;
    ok, more := true, resolutions;
    var todo := comments;
    while todo != {}
      invariant todo <= comments
      invariant forall c :: c in comments && c !in todo ==> PairRight(rows, readers, more, c, commit)
      invariant forall c, other :: (other != commit || c !in comments - todo || c in existing) ==> EntriesAt(more, c, other) == EntriesAt(resolutions, c, other)
      decreases todo
    {
      var c :| c in todo;
      todo := todo - {c};
      if c in existing {
        continue;
      }
      var res := readers.resolve(AnchorOf(rows, c), commit);
      if res.None? {
        ok := false;
        return;
      }
      PutEntries(more, c, commit, res.value);
      more := Put(more, c, commit, res.value);
    }
  }

  /** Entries only at current code tips, all of them right. */
  ghost predicate Current(rows: map<string, Row>, codeTips: Refs, readers: Readers, resolutions: map<Key, string>) {
    forall c, commit :: EntriesAt(resolutions, c, commit) != NOTHING ==> Targets(codeTips, commit) && PairRight(rows, readers, resolutions, c, commit)
  }

  ghost predicate ResolvedAt(rows: map<string, Row>, readers: Readers, resolutions: map<Key, string>, commits: set<Id>) {
    forall c, commit :: commit in commits && Anchored(rows, c) ==> PairRight(rows, readers, resolutions, c, commit)
  }

  lemma AllResolved(rows: map<string, Row>, codeTips: Refs, readers: Readers, resolutions: map<Key, string>, commits: set<Id>)
    requires Current(rows, codeTips, readers, resolutions) && ResolvedAt(rows, readers, resolutions, commits)
    requires forall commit :: commit in commits <==> Targets(codeTips, commit)
    ensures Resolved(rows, codeTips, readers, resolutions) && Resolvable(rows, codeTips, readers)
  {
    forall c, commit | Anchored(rows, c) && Targets(codeTips, commit)
      ensures readers.resolve(rows[c].anchor.value, commit).Some?
    {
      assert PairRight(rows, readers, resolutions, c, commit);
    }
    forall key ensures Expected(rows, codeTips, readers, key) == Lookup(resolutions, key) {
      var e := EntriesAt(resolutions, key.comment, key.commit);
      assert Lookup(resolutions, key) == e.On(key.side);
      hide Targets, Anchored, Lookup, EntriesAt;
      if Anchored(rows, key.comment) && Targets(codeTips, key.commit) {
        assert PairRight(rows, readers, resolutions, key.comment, key.commit);
      } else {
        assert e == NOTHING;
      }
    }
  }

  lemma Prune(rows: map<string, Row>, codeTips: Refs, readers: Readers, resolutions: map<Key, string>)
    requires Consistent(rows, readers, resolutions)
    ensures Current(rows, codeTips, readers, map key | key in resolutions && key.commit in codeTips.Values :: resolutions[key])
  {
    var pruned := map key | key in resolutions && key.commit in codeTips.Values :: resolutions[key];
    forall c, commit | EntriesAt(pruned, c, commit) != NOTHING
      ensures Targets(codeTips, commit) && PairRight(rows, readers, pruned, c, commit)
    {
      assert commit in codeTips.Values;
      assert EntriesAt(pruned, c, commit) == EntriesAt(resolutions, c, commit);
      hide AnchorOf, Anchored, EntriesAt;
    }
  }

  lemma ResolvedMore(rows: map<string, Row>, codeTips: Refs, readers: Readers, a: map<Key, string>, b: map<Key, string>, commits: set<Id>, commit: Id)
    requires Current(rows, codeTips, readers, a) && ResolvedAt(rows, readers, a, commits) && Targets(codeTips, commit) && commit !in commits
    requires forall c, other :: other != commit || !Anchored(rows, c) ==> EntriesAt(b, c, other) == EntriesAt(a, c, other)
    requires forall c :: Anchored(rows, c) ==> PairRight(rows, readers, b, c, commit)
    ensures Current(rows, codeTips, readers, b) && ResolvedAt(rows, readers, b, commits + {commit})
  {
    hide AnchorOf, Anchored, EntriesAt, Targets;
  }

  lemma CurrentConsistent(rows: map<string, Row>, codeTips: Refs, readers: Readers, resolutions: map<Key, string>)
    requires Current(rows, codeTips, readers, resolutions)
    ensures Consistent(rows, readers, resolutions)
  {
    hide EntriesAt, PairRight;
  }

  /** Prunes entries for commits that are no longer code tips and resolves what is missing. The code
    * also keeps each commit's tree while it works; here the resolver is a function of the commit.
    */
  method MaterializeAnchors(readers: Readers, rows: map<string, Row>, codeTips: Refs, resolutions: map<Key, string>)
    returns (ok: bool, current: map<Key, string>)
    requires Consistent(rows, readers, resolutions)
    ensures ok ==> Resolved(rows, codeTips, readers, current)
    ensures ok <==> Resolvable(rows, codeTips, readers)
  {
    Prune(rows, codeTips, readers, resolutions);
    ok, current := true, map key | key in resolutions && key.commit in codeTips.Values :: resolutions[key];
    var targetCommits := set r | r in codeTips && codeTips[r] != NO_TIP :: codeTips[r];
    var comments := set c | c in rows && rows[c].anchor.Some?;
    assert (forall commit :: commit in targetCommits <==> Targets(codeTips, commit)) && forall c :: c in comments <==> Anchored(rows, c);
    hide Consistent, Current, EntriesAt, PairRight, Resolved, Targets, Resolvable;
    if targetCommits == {} || comments == {} {
      NothingToResolve(rows, readers, current, targetCommits, comments);
      AllResolved(rows, codeTips, readers, current, targetCommits);
      return;
    }
    hide Anchored, AnchorOf;
    var todo := targetCommits;
    while todo != {}
      invariant todo <= targetCommits && Current(rows, codeTips, readers, current)
      invariant ResolvedAt(rows, readers, current, targetCommits - todo)
      decreases todo
    {
      hide ResolvedAt;
      var commit :| commit in todo;
      CurrentConsistent(rows, codeTips, readers, current);
      NotEmptyTip(codeTips, commit);
      ghost var before := current;
      ok, current := ResolveAgainst(readers, rows, comments, commit, current);
      if !ok {
        Unresolvable(rows, codeTips, readers, commit);
        return;
      }
      ResolvedMore(rows, codeTips, readers, before, current, targetCommits - todo, commit);
      todo := todo - {commit};
      assert targetCommits - todo == (targetCommits - (todo + {commit})) + {commit};
    }
    assert targetCommits - {} == targetCommits;
    AllResolved(rows, codeTips, readers, current, targetCommits);
  }

  lemma Unresolvable(rows: map<string, Row>, codeTips: Refs, readers: Readers, commit: Id)
    requires Targets(codeTips, commit) && exists c :: Anchored(rows, c) && readers.resolve(AnchorOf(rows, c), commit).None?
    ensures !Resolvable(rows, codeTips, readers)
  {
    hide Targets;
  }

  lemma NotEmptyTip(codeTips: Refs, commit: Id)
    requires Targets(codeTips, commit)
    ensures commit != NO_TIP
  {}

  lemma NothingToResolve(rows: map<string, Row>, readers: Readers, current: map<Key, string>, commits: set<Id>, comments: set<string>)
    requires commits == {} || comments == {}
    requires forall c :: c in comments <==> Anchored(rows, c)
    ensures ResolvedAt(rows, readers, current, commits)
  {
    hide Anchored, PairRight;
  }

  // ---- The delta ----

  function AsCursors(tips: Refs): Cursors { map r | r in tips :: Some(tips[r]) }

  lemma SameTips(tips: Refs)
    ensures OldTips(AsCursors(tips)) == Tips(tips)
  {
    var a, b := OldTips(AsCursors(tips)), Tips(tips);
    forall h ensures h in a <==> h in b {
      if h in b {
        var r :| r in tips && tips[r] == h;
        assert AsCursors(tips)[r].value == h;
      }
    }
  }

  ghost function DeltaOf(store: Store, chains: Refs, cursors: Cursors): map<Id, Op> {
    map h | h in store && store[h].decoded.Accepted? && FreshSince(store, chains, cursors, h) :: store[h].decoded.op
  }

  /** The ops a refresh leaves: stored and fresh ones while chains move forward, else all below the tips. */
  ghost function NextOps(t: Tables, store: Store, chains: Refs): map<Id, Op> {
    if OnlyForward(store, chains, AsCursors(t.chainTips)) then t.ops + DeltaOf(store, chains, AsCursors(t.chainTips))
    else OpsBelow(store, Tips(chains))
  }

  /** Added to what is stored, `delta` gives the ops a refresh leaves, and contradicts nothing. */
  ghost predicate IsNews(t: Tables, store: Store, chains: Refs, delta: map<Id, Op>) {
    t.ops + delta == NextOps(t, store, chains) && forall h :: h in delta && h in t.ops ==> t.ops[h] == delta[h]
  }

  /** Either the refresh rebuilds, or the walk meets every op the cache missed. */
  ghost predicate NothingLost(t: Tables, store: Store, chains: Refs) {
    OnlyForward(store, chains, AsCursors(t.chainTips)) ==>
      forall h :: Missed(t, store, h) ==> FreshSince(store, chains, AsCursors(t.chainTips), h)
  }

  /** While chains move forward, stored and fresh ops are some of those below the current tips. */
  lemma NextOpsBelow(t: Tables, store: Store, chains: Refs, readers: Readers)
    requires Honest(t, store, readers) && OnlyForward(store, chains, AsCursors(t.chainTips))
    ensures AgreesWith(NextOps(t, store, chains), store)
    ensures NextOps(t, store, chains).Keys <= OpsBelow(store, Tips(chains)).Keys
    ensures forall h :: h in OpsBelow(store, Tips(chains)) && h !in NextOps(t, store, chains) <==>
              Missed(t, store, h) && !FreshSince(store, chains, AsCursors(t.chainTips), h)
  {
    var cursors := AsCursors(t.chainTips);
    hide *;
    forall h ensures h in NextOps(t, store, chains) ==> h in OpsBelow(store, Tips(chains)) {
      NextOpsAt(t, store, chains, readers, h);
    }
    forall h ensures h in OpsBelow(store, Tips(chains)) && h !in NextOps(t, store, chains) <==> Missed(t, store, h) && !FreshSince(store, chains, cursors, h) {
      NextOpsAt(t, store, chains, readers, h);
    }
    NextOpsAgree(t, store, chains, readers);
  }

  lemma NextOpsAgree(t: Tables, store: Store, chains: Refs, readers: Readers)
    requires Honest(t, store, readers) && OnlyForward(store, chains, AsCursors(t.chainTips))
    ensures AgreesWith(NextOps(t, store, chains), store)
  {
    DeltaAgrees(store, chains, AsCursors(t.chainTips));
    hide OpsBelow, FreshSince, DeltaOf, OnlyForward, Folded, Resolved, AsCursors, Tips;
  }

  lemma NextOpsAt(t: Tables, store: Store, chains: Refs, readers: Readers, h: Id)
    requires Honest(t, store, readers) && OnlyForward(store, chains, AsCursors(t.chainTips))
    ensures h in NextOps(t, store, chains) ==> h in OpsBelow(store, Tips(chains))
    ensures h in OpsBelow(store, Tips(chains)) && h !in NextOps(t, store, chains) <==>
              Missed(t, store, h) && !FreshSince(store, chains, AsCursors(t.chainTips), h)
  {
    OpsGrow(store, chains, t.chainTips, h);
    if Missed(t, store, h) { DeltaIsFresh(t, store, chains, h); }
    hide OpsBelow, FreshSince, DeltaOf, OnlyForward, Folded, Resolved, AsCursors, Tips;
  }

  lemma OpsGrow(store: Store, chains: Refs, tips: Refs, h: Id)
    requires OnlyForward(store, chains, AsCursors(tips))
    ensures h in OpsBelow(store, Tips(chains)) <==> h in OpsBelow(store, Tips(tips)) || h in DeltaOf(store, chains, AsCursors(tips))
  {
    SameTips(tips);
    OldPlusFresh(store, chains, AsCursors(tips), h);
    hide BelowAny, FreshSince, OnlyForward, AsCursors, Tips;
  }

  lemma DeltaAgrees(store: Store, chains: Refs, cursors: Cursors)
    ensures AgreesWith(DeltaOf(store, chains, cursors), store)
  {
    hide FreshSince;
  }

  lemma DeltaIsFresh(t: Tables, store: Store, chains: Refs, h: Id)
    requires Missed(t, store, h)
    ensures h in DeltaOf(store, chains, AsCursors(t.chainTips)) <==> FreshSince(store, chains, AsCursors(t.chainTips), h)
  {
    hide FreshSince, BelowAny, AsCursors, Tips;
  }

  /** Exactly when a refresh leaves the ops below the current tips: when it rebuilds, or when every op commit
    * the cache missed is met by the walk.
    */
  lemma NextOpsExact(t: Tables, store: Store, chains: Refs, readers: Readers)
    requires Honest(t, store, readers)
    ensures NextOps(t, store, chains) == OpsBelow(store, Tips(chains)) <==> NothingLost(t, store, chains)
    ensures AgreesWith(NextOps(t, store, chains), store) && NextOps(t, store, chains).Keys <= OpsBelow(store, Tips(chains)).Keys
  {
    var next, all := NextOps(t, store, chains), OpsBelow(store, Tips(chains));
    assert AgreesWith(all, store);
    if OnlyForward(store, chains, AsCursors(t.chainTips)) {
      NextOpsBelow(t, store, chains, readers);
      hide NextOps, OpsBelow, Missed, FreshSince, OnlyForward, Honest, AsCursors, Tips;
      if forall h :: h in all ==> h in next { SameOps(next, all, store); }
    }
  }

  lemma SameOps(a: map<Id, Op>, b: map<Id, Op>, store: Store)
    requires AgreesWith(a, store) && AgreesWith(b, store) && a.Keys <= b.Keys && forall h :: h in b ==> h in a
    ensures a == b
  {
    forall h | h in a ensures a[h] == b[h] { assert Accepted(a[h]) == Accepted(b[h]); }
  }

  /** Objects outside the delta keep their ops, so their rows stand. */
  lemma DeltaFolds(ops: map<Id, Op>, rows: map<string, Row>, readers: Readers, delta: map<Id, Op>)
    requires Folded(ops, rows, readers) && forall h :: h in delta && h in ops ==> ops[h] == delta[h]
    ensures FoldedExcept(ops + delta, rows, readers, Objects(delta)) && Objects(delta) <= Objects(ops + delta)
  {
    var more := ops + delta;
    forall obj ensures obj in Objects(more) <==> obj in Objects(ops) || obj in Objects(delta) {
      if obj in Objects(ops) {
        var h :| h in ops && ops[h].objectID == obj;
        assert more[h].objectID == obj;
      }
      if obj in Objects(delta) {
        var h :| h in delta && delta[h].objectID == obj;
        assert more[h].objectID == obj;
      }
    }
    forall obj | obj !in Objects(delta) ensures OpsFor(more, obj) == OpsFor(ops, obj) {}
    hide OpsFor, Objects;
  }

  lemma NewsFolds(t: Tables, store: Store, chains: Refs, readers: Readers, delta: map<Id, Op>)
    requires IsNews(t, store, chains, delta) && Folded(t.ops, t.rows, readers)
    ensures t.ops + delta == NextOps(t, store, chains)
    ensures FoldedExcept(t.ops + delta, t.rows, readers, Objects(delta)) && Objects(delta) <= Objects(t.ops + delta)
  {
    assert forall h :: h in delta && h in t.ops ==> t.ops[h] == delta[h];
    hide NextOps, Folded, FoldedExcept, Objects;
    DeltaFolds(t.ops, t.rows, readers, delta);
  }

  lemma DeltaConsistent(rows: map<string, Row>, codeTips: Refs, readers: Readers, resolutions: map<Key, string>,
                        touched: set<string>, rows': map<string, Row>)
    requires Resolved(rows, codeTips, readers, resolutions)
    requires forall obj :: obj !in touched ==> (obj in rows <==> obj in rows') && (obj in rows ==> rows'[obj] == rows[obj])
    ensures Consistent(rows', readers, map key | key in resolutions && key.comment !in touched :: resolutions[key])
  {
    var kept := map key | key in resolutions && key.comment !in touched :: resolutions[key];
    forall c, commit | EntriesAt(kept, c, commit) != NOTHING
      ensures commit != NO_TIP && PairRight(rows', readers, kept, c, commit)
    {
      assert EntriesAt(kept, c, commit) == EntriesAt(resolutions, c, commit);
      ResolvedPair(rows, codeTips, readers, resolutions, c, commit);
    }
  }

  lemma ResolvedPair(rows: map<string, Row>, codeTips: Refs, readers: Readers, resolutions: map<Key, string>, c: string, commit: Id)
    requires Resolved(rows, codeTips, readers, resolutions) && EntriesAt(resolutions, c, commit) != NOTHING
    ensures commit != NO_TIP && PairRight(rows, readers, resolutions, c, commit)
  {
    assert Expected(rows, codeTips, readers, Key(c, commit, OldSide)) == Lookup(resolutions, Key(c, commit, OldSide));
    assert Expected(rows, codeTips, readers, Key(c, commit, NewSide)) == Lookup(resolutions, Key(c, commit, NewSide));
  }

  // ---- The projection ----

  class Projection {
    const readers: Readers
    var ops: map<Id, Op>
    var chainTips: Refs
    var codeTips: Refs
    var rows: map<string, Row>
    var resolutions: map<Key, string>

    ghost function Now(): Tables
      reads this
    {
      Tables(ops, chainTips, codeTips, rows, resolutions)
    }

    constructor (readers: Readers)
      ensures this.readers == readers && Now() == EMPTY
    {
      this.readers := readers;
      ops, chainTips, codeTips, rows, resolutions := map[], map[], map[], map[], map[];
    }

    method Save(t: Tables)
      modifies this
      ensures Now() == t
    {
      ops, chainTips, codeTips, rows, resolutions := t.ops, t.chainTips, t.codeTips, t.rows, t.resolutions;
    }

    /** Discards the cache and rebuilds it from the current refs; on failure nothing changes. */
    method Rebuild(store: Store, chains: Refs, targetTips: Refs) returns (ok: bool)
      requires WellFormed(store)
      modifies this
      ensures ok <==> Readable(OpsBelow(store, Tips(chains)), targetTips, readers)
      ensures ok ==> Cold(Now(), store, chains, targetTips, readers)
      ensures !ok ==> Now() == old(Now())
    {
      hide *;
      ghost var visited;
      var res;
      res, visited := EnumerateSince(store, chains, map[]);
      ColdDelta(store, chains, readers, res.ops);
      var folded, newRows, cleared := Materialize(readers, res.ops, Objects(res.ops), map[], map[]);
      if !folded {
        UnfoldableUnreadable(res.ops, targetTips, readers);
        return false;
      }
      ReadableIffResolvable(res.ops, targetTips, readers, newRows);
      NoneConsistent(newRows, readers, cleared);
      var resolved, newResolutions := MaterializeAnchors(readers, newRows, targetTips, cleared);
      if !resolved {
        return false;
      }
      Save(Tables(res.ops, res.cursors, targetTips, newRows, newResolutions));
      IsCold(Now(), store, chains, targetTips, readers);
      return true;
    }

    /** Brings the cache up to date: only new commits are read and only touched objects refolded. A
      * vanished or rolled-back chain falls through to a rebuild. Either the transaction commits, or nothing
      * changes; and once committed, the tables are those of a cold rebuild exactly when nothing was lost.
      */
    method Refresh(store: Store, chains: Refs, targetTips: Refs) returns (ok: bool)
      requires WellFormed(store) && Honest(Now(), store, readers)
      modifies this
      ensures ok <==> Readable(NextOps(old(Now()), store, chains), targetTips, readers)
      ensures ok ==> Refreshed(old(Now()), Now(), store, chains, targetTips, readers)
      ensures ok ==> (Cold(Now(), store, chains, targetTips, readers) <==> NothingLost(old(Now()), store, chains))
      ensures !ok ==> Now() == old(Now())
    {
      var forward, delta := ReadNew(store, chains);
      hide *;
      if forward {
        ok := Advance(store, chains, targetTips, delta);
      } else {
        ok := RebuildInstead(store, chains, targetTips);
      }
    }

    /** Reads the new ops, unless a chain has vanished or was rolled back. */
    method ReadNew(store: Store, chains: Refs) returns (forward: bool, delta: map<Id, Op>)
      requires WellFormed(store) && Honest(Now(), store, readers)
      ensures forward <==> OnlyForward(store, chains, AsCursors(chainTips))
      ensures forward ==> IsNews(Now(), store, chains, delta)
    {
      assert chainTips == Now().chainTips;
      hide *;
      if exists r :: r in chainTips && r !in chains {
        Vanished(store, chains, chainTips);
        return false, map[];
      }
      ghost var visited;
      var res;
      res, visited := EnumerateSince(store, chains, AsCursors(chainTips));
      if res.rewound != [] {
        SomeRewound(store, chains, AsCursors(chainTips), res.rewound);
        return false, map[];
      }
      NoneRewound(store, chains, chainTips, res.rewound);
      ForwardOps(Now(), store, chains, readers, res.ops);
      return true, res.ops;
    }

    /** A refresh that may not be incremental. */
    method RebuildInstead(store: Store, chains: Refs, targetTips: Refs) returns (ok: bool)
      requires WellFormed(store) && Honest(Now(), store, readers) && !OnlyForward(store, chains, AsCursors(chainTips))
      modifies this
      ensures ok <==> Readable(NextOps(old(Now()), store, chains), targetTips, readers)
      ensures ok ==> Refreshed(old(Now()), Now(), store, chains, targetTips, readers)
      ensures ok ==> (Cold(Now(), store, chains, targetTips, readers) <==> NothingLost(old(Now()), store, chains))
      ensures !ok ==> Now() == old(Now())
    {
      ghost var before := Now();
      assert before.chainTips == chainTips;
      hide *;
      NotForward(before, store, chains, readers);
      ok := Rebuild(store, chains, targetTips);
      if ok { ColdRefreshed(before, Now(), store, chains, targetTips, readers); }
    }

    /** The incremental part: refolds what the new ops touch and resolves what has no entry yet. */
    method Advance(ghost store: Store, chains: Refs, targetTips: Refs, delta: map<Id, Op>) returns (ok: bool)
      requires Honest(Now(), store, readers) && OnlyForward(store, chains, AsCursors(chainTips))
      requires IsNews(Now(), store, chains, delta)
      modifies this
      ensures ok <==> Readable(NextOps(old(Now()), store, chains), targetTips, readers)
      ensures ok ==> Refreshed(old(Now()), Now(), store, chains, targetTips, readers)
      ensures ok ==> (Cold(Now(), store, chains, targetTips, readers) <==> NothingLost(old(Now()), store, chains))
      ensures !ok ==> Now() == old(Now())
    {
      ghost var before := Now();
      assert Folded(ops, rows, readers) && Resolved(rows, codeTips, readers, resolutions);
      assert before == Tables(ops, chainTips, codeTips, rows, resolutions);
      hide *;
      NewsFolds(before, store, chains, readers, delta);
      var newOps := ops + delta;
      var folded, newRows, cleared := Materialize(readers, newOps, Objects(delta), rows, resolutions);
      if !folded {
        UnfoldableUnreadable(newOps, targetTips, readers);
        return false;
      }
      ReadableIffResolvable(newOps, targetTips, readers, newRows);
      DeltaConsistent(rows, codeTips, readers, resolutions, Objects(delta), newRows);
      var resolved, newResolutions := MaterializeAnchors(readers, newRows, targetTips, cleared);
      if !resolved {
        return false;
      }
      Save(Tables(newOps, chains, targetTips, newRows, newResolutions));
      IsRefreshed(before, Now(), store, chains, targetTips, readers);
      return true;
    }
  }

  /** What a committed refresh leaves. */
  ghost predicate Refreshed(t: Tables, t': Tables, store: Store, chains: Refs, targetTips: Refs, readers: Readers) {
    && t'.ops == NextOps(t, store, chains) && t'.chainTips == chains && t'.codeTips == targetTips
    && Honest(t', store, readers)
  }

  /** The tables after a refresh are those of a cold rebuild exactly when nothing was lost. */
  lemma RefreshedExact(t: Tables, t': Tables, store: Store, chains: Refs, targetTips: Refs, readers: Readers)
    requires Honest(t, store, readers) && Refreshed(t, t', store, chains, targetTips, readers)
    ensures Cold(t', store, chains, targetTips, readers) <==> NothingLost(t, store, chains)
  {
    NextOpsExact(t, store, chains, readers);
    hide NextOps, NothingLost, OpsBelow, Folded, Resolved, AgreesWith;
  }

  lemma IsRefreshed(t: Tables, t': Tables, store: Store, chains: Refs, targetTips: Refs, readers: Readers)
    requires Honest(t, store, readers)
    requires t'.ops == NextOps(t, store, chains) && t'.chainTips == chains && t'.codeTips == targetTips
    requires Folded(t'.ops, t'.rows, readers) && Resolved(t'.rows, t'.codeTips, readers, t'.resolutions)
    ensures Refreshed(t, t', store, chains, targetTips, readers)
    ensures Cold(t', store, chains, targetTips, readers) <==> NothingLost(t, store, chains)
  {
    NextOpsExact(t, store, chains, readers);
    assert Refreshed(t, t', store, chains, targetTips, readers) by { hide NextOps, OpsBelow, Folded, Resolved, AgreesWith; }
    hide *;
    RefreshedExact(t, t', store, chains, targetTips, readers);
  }

  lemma ColdRefreshed(t: Tables, t': Tables, store: Store, chains: Refs, targetTips: Refs, readers: Readers)
    requires Honest(t, store, readers) && Cold(t', store, chains, targetTips, readers)
    requires !OnlyForward(store, chains, AsCursors(t.chainTips))
    ensures Refreshed(t, t', store, chains, targetTips, readers)
    ensures Cold(t', store, chains, targetTips, readers) <==> NothingLost(t, store, chains)
  {
    assert t'.ops == NextOps(t, store, chains);
    assert Folded(t'.ops, t'.rows, readers) && Resolved(t'.rows, t'.codeTips, readers, t'.resolutions);
    hide *;
    IsRefreshed(t, t', store, chains, targetTips, readers);
  }

  lemma IsCold(t: Tables, store: Store, chains: Refs, targetTips: Refs, readers: Readers)
    requires t.ops == OpsBelow(store, Tips(chains)) && t.chainTips == chains && t.codeTips == targetTips
    requires Folded(t.ops, t.rows, readers) && Resolved(t.rows, t.codeTips, readers, t.resolutions)
    ensures Cold(t, store, chains, targetTips, readers)
  {
    hide OpsBelow, Folded, Resolved;
  }

  lemma NotForward(t: Tables, store: Store, chains: Refs, readers: Readers)
    requires !OnlyForward(store, chains, AsCursors(t.chainTips))
    ensures NextOps(t, store, chains) == OpsBelow(store, Tips(chains))
  {}

  lemma Vanished(store: Store, chains: Refs, tips: Refs)
    requires exists r :: r in tips && r !in chains
    ensures !OnlyForward(store, chains, AsCursors(tips))
  {
    hide MoveOf;
  }

  lemma SomeRewound(store: Store, chains: Refs, cursors: Cursors, rewound: seq<string>)
    requires IsRewound(store, chains, cursors, rewound) && rewound != []
    ensures !OnlyForward(store, chains, cursors)
  {
    hide MoveOf;
    var refs: set<string> :| RewoundSet(store, chains, cursors, refs) && rewound == Strings.Sorted(refs);
    assert rewound[0] in rewound && rewound[0] in refs;
    NoCursorNoRewind(store, chains, cursors, rewound[0]);
  }

  lemma NoCursorNoRewind(store: Store, chains: Refs, cursors: Cursors, r: string)
    requires r in chains && MoveOf(store, chains, cursors, r).Rewind?
    ensures r in cursors
  {}

  lemma NoneRewound(store: Store, chains: Refs, tips: Refs, rewound: seq<string>)
    requires IsRewound(store, chains, AsCursors(tips), rewound) && rewound == [] && forall r :: r in tips ==> r in chains
    ensures OnlyForward(store, chains, AsCursors(tips))
  {
    hide MoveOf;
    var cursors := AsCursors(tips);
    var refs: set<string> :| RewoundSet(store, chains, cursors, refs) && rewound == Strings.Sorted(refs);
    forall r | r in cursors ensures r in chains && !MoveOf(store, chains, cursors, r).Rewind? {
      assert r in refs ==> r in rewound;
    }
  }

  lemma ForwardOps(t: Tables, store: Store, chains: Refs, readers: Readers, delta: map<Id, Op>)
    requires OnlyForward(store, chains, AsCursors(t.chainTips)) && Honest(t, store, readers)
    requires IsDelta(store, chains, AsCursors(t.chainTips), delta)
    ensures IsNews(t, store, chains, delta)
  {
    hide FreshSince, OnlyForward, OpsBelow, Folded, Resolved, AsCursors;
    assert delta == DeltaOf(store, chains, AsCursors(t.chainTips));
  }

  /** With no cursors everything below the tips is new. */
  lemma ColdDelta(store: Store, chains: Refs, readers: Readers, delta: map<Id, Op>)
    requires IsDelta(store, chains, map[], delta)
    ensures delta == OpsBelow(store, Tips(chains))
    ensures FoldedExcept(delta, map[], readers, Objects(delta))
  {
    assert OnlyForward(store, chains, map[]);
    assert OldTips(map[]) == {};
    forall h ensures BelowAny(View(store), h, Tips(chains)) <==> FreshSince(store, chains, map[], h) {
      OldPlusFresh(store, chains, map[], h);
    }
    hide BelowAny, FreshSince, OnlyForward;
  }

  lemma NoneConsistent(rows: map<string, Row>, readers: Readers, resolutions: map<Key, string>)
    requires resolutions == map[]
    ensures Consistent(rows, readers, resolutions)
  {}
}
