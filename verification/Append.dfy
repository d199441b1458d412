/** Appending to a writer's chain: processes race to move one ref by compare-and-swap, each retrying at
  * most sixteen times.
  */
module Append {
  import opened Options

  /** A commit is its content, as a content-addressed hash is: same content, same commit. */
  datatype Commit = Commit(payload: string, time: int, parents: seq<Commit>)

  const MAX_CAS_RETRIES: nat := 16

  type Process = nat

  /** Where a process stands inside an Append call. `begun` and `seen` remember how many appends had
    * succeeded when the call started and when the ref was last read; the code keeps neither.
    */
  datatype Call =
    | Idle
    | AtRead(payload: string, causal: seq<Commit>, attempt: nat, begun: nat)
    | AtSwap(payload: string, causal: seq<Commit>, attempt: nat, begun: nat, oldRef: Option<Commit>, built: Commit, seen: nat)

  /** What a call returned to its caller, in the order the calls returned. */
  datatype Success = Success(writer: Process, payload: string, causal: seq<Commit>, commit: Commit)

  datatype Return =
    | Appended(success: Success)
    | Exhausted(writer: Process, begun: nat, ended: nat)
    | Failed(writer: Process)

  datatype State = State(ref: Option<Commit>, calls: map<Process, Call>, history: seq<Return>)

  function CallOf(s: State, p: Process): Call { if p in s.calls then s.calls[p] else Idle }

  /** The successful returns, in order. */
  function Successes(history: seq<Return>): seq<Success> {
    if history == [] then []
    else
      var n := |history| - 1;
      Successes(history[..n]) + if history[n].Appended? then [history[n].success] else []
  }

  function Log(s: State): seq<Success> { Successes(s.history) }

  /** The previous tip first, then the caller's causal parents; without a tip only the latter. */
  function ParentsOn(oldRef: Option<Commit>, causal: seq<Commit>): seq<Commit> {
    match oldRef
    case None => causal
    case Some(tip) => [tip] + causal
  }

  function Finish(s: State, p: Process, r: Return): State {
    s.(calls := s.calls[p := Idle], history := s.history + [r])
  }

  // ---- Steps ----

  ghost predicate Begin(s: State, s': State, p: Process, payload: string, causal: seq<Commit>) {
    && CallOf(s, p).Idle?
    && s' == s.(calls := s.calls[p := AtRead(payload, causal, 0, |Log(s)|)])
  }

  /** Looks the ref up, and builds and stores the commit on what it found. */
  ghost predicate Read(s: State, s': State, p: Process, now: int) {
    var c := CallOf(s, p);
    && c.AtRead?
    && s' == s.(calls := s.calls[p := AtSwap(c.payload, c.causal, c.attempt, c.begun, s.ref,
                                           Commit(c.payload, now, ParentsOn(s.ref, c.causal)), |Log(s)|)])
  }

  /** The atomic compare-and-swap: it moves the ref if the ref still is what was read; otherwise the
    * call retries, or gives up after the sixteenth attempt.
    */
  ghost predicate Swap(s: State, s': State, p: Process) {
    var c := CallOf(s, p);
    && c.AtSwap?
    && s' == if s.ref == c.oldRef then
               Finish(s.(ref := Some(c.built)), p, Appended(Success(p, c.payload, c.causal, c.built)))
             else if c.attempt + 1 < MAX_CAS_RETRIES then
               s.(calls := s.calls[p := AtRead(c.payload, c.causal, c.attempt + 1, c.begun)])
             else
               Finish(s, p, Exhausted(p, c.begun, |Log(s)|))
  }

  /** Any other storage error ends the call without touching the ref. */
  ghost predicate Fail(s: State, s': State, p: Process) {
    !CallOf(s, p).Idle? && s' == Finish(s, p, Failed(p))
  }

  ghost predicate StepOf(s: State, s': State, p: Process) {
    || (exists payload, causal :: Begin(s, s', p, payload, causal))
    || (exists now :: Read(s, s', p, now))
    || Swap(s, s', p)
    || Fail(s, s', p)
  }

  ghost predicate Next(s: State, s': State) { exists p :: StepOf(s, s', p) }

  ghost predicate Init(s: State) { s.ref == None && s.calls == map[] && s.history == [] }

  ghost predicate IsRun(run: seq<State>) {
    && run != [] && Init(run[0])
    && forall i :: 0 <= i < |run| - 1 ==> Next(run[i], run[i + 1])
  }

  // ---- Invariant ----

  function TipAt(log: seq<Success>, n: nat): Option<Commit>
    requires n <= |log|
  {
    if n == 0 then None else Some(log[n - 1].commit)
  }

  /** Each success built its commit directly on the one before. */
  ghost predicate Linked(log: seq<Success>)
  {
    forall i :: 0 <= i < |log| ==>
      log[i].commit.payload == log[i].payload && log[i].commit.parents == ParentsOn(TipAt(log, i), log[i].causal)
  }

  /** Since position `from` of the log nobody but other processes has succeeded. */
  ghost predicate OthersOnly(log: seq<Success>, from: nat, p: Process) {
    from <= |log| && forall i :: from <= i < |log| ==> log[i].writer != p
  }

  /** A call has lost one attempt to each distinct success counted so far. */
  ghost predicate CallOk(log: seq<Success>, p: Process, c: Call)
  {
    match c
    case Idle => true
    case AtRead(payload, causal, attempt, begun) =>
      attempt < MAX_CAS_RETRIES && OthersOnly(log, begun, p) && begun + attempt <= |log|
    case AtSwap(payload, causal, attempt, begun, oldRef, built, seen) =>
      && attempt < MAX_CAS_RETRIES && OthersOnly(log, begun, p) && begun + attempt <= seen <= |log|
      && oldRef == TipAt(log, seen)
      && built.payload == payload && built.parents == ParentsOn(oldRef, causal)
  }

  /** A call that gave up lost to at least sixteen appends of other processes while it ran. */
  ghost predicate ReturnOk(log: seq<Success>, r: Return) {
    r.Exhausted? ==>
      && r.begun + MAX_CAS_RETRIES <= r.ended <= |log|
      && forall i :: r.begun <= i < r.ended ==> log[i].writer != r.writer
  }

  ghost predicate Inv(s: State) {
    && s.ref == TipAt(Log(s), |Log(s)|)
    && Linked(Log(s))
    && (forall p :: p in s.calls ==> CallOk(Log(s), p, s.calls[p]))
    && forall r :: r in s.history ==> ReturnOk(Log(s), r)
  }

  lemma {:induction false} SuccessesExtend(history: seq<Return>, r: Return)
    ensures Successes(history + [r]) == Successes(history) + if r.Appended? then [r.success] else []
  {
    assert (history + [r])[..|history|] == history;
  }

  /** A longer log breaks nothing already established about the calls of other processes. */
  lemma {:induction false} CallSurvives(log: seq<Success>, r: Success, p: Process, c: Call)
    requires CallOk(log, p, c) && (c.Idle? || r.writer != p)
    ensures CallOk(log + [r], p, c)
  {}

  lemma {:induction false} LinkedExtend(log: seq<Success>, r: Success)
    requires Linked(log)
    requires r.commit.payload == r.payload && r.commit.parents == ParentsOn(TipAt(log, |log|), r.causal)
    ensures Linked(log + [r])
  {
    hide ParentsOn;
    var longer := log + [r];
    forall i | 0 <= i < |longer|
      ensures longer[i].commit.payload == longer[i].payload && longer[i].commit.parents == ParentsOn(TipAt(longer, i), longer[i].causal)
    {
      assert TipAt(longer, i) == TipAt(log, i);
      if i < |log| { assert longer[i] == log[i]; }
    }
  }

  /** The swap found the ref it had read. */
  lemma {:induction false} WinKeeps(s: State, s': State, p: Process)
    requires Inv(s) && Swap(s, s', p) && s.ref == CallOf(s, p).oldRef
    ensures Inv(s')
  {
    var c, log := CallOf(s, p), Log(s);
    assert CallOk(log, p, c);
    var r := Success(p, c.payload, c.causal, c.built);
    SuccessesExtend(s.history, Appended(r));
    LinkedExtend(log, r);
    assert Log(s') == log + [r];
    hide Successes, Linked, ParentsOn;
    forall q | q in s'.calls ensures CallOk(log + [r], q, s'.calls[q]) {
      if q != p { CallSurvives(log, r, q, s.calls[q]); }
    }
    hide CallOk;
    forall x | x in s'.history ensures ReturnOk(log + [r], x) {
      if x in s.history { assert ReturnOk(log, x); }
    }
  }

  /** A lost swap is charged to a success that followed the read. */
  lemma {:induction false} LostTo(log: seq<Success>, p: Process, c: Call)
    requires CallOk(log, p, c) && c.AtSwap? && c.oldRef != TipAt(log, |log|)
    ensures c.seen < |log| && OthersOnly(log, c.seen, p) && OthersOnly(log, c.begun, p)
    ensures c.begun + c.attempt + 1 <= |log| && c.attempt < MAX_CAS_RETRIES
  {}

  /** One more attempt is accounted for, or all sixteen are. */
  lemma {:induction false} LossCharged(log: seq<Success>, p: Process, c: Call)
    requires CallOk(log, p, c) && c.AtSwap? && c.oldRef != TipAt(log, |log|)
    ensures c.attempt + 1 < MAX_CAS_RETRIES ==> CallOk(log, p, AtRead(c.payload, c.causal, c.attempt + 1, c.begun))
    ensures c.attempt + 1 >= MAX_CAS_RETRIES ==> ReturnOk(log, Exhausted(p, c.begun, |log|))
  {
    LostTo(log, p, c);
  }

  /** The ref had moved: the attempt is spent, and the log has grown since the read. */
  lemma {:induction false} LossKeeps(s: State, s': State, p: Process)
    requires Inv(s) && Swap(s, s', p) && s.ref != CallOf(s, p).oldRef
    ensures Inv(s')
  {
    hide CallOk, ReturnOk, TipAt, OthersOnly, Successes, Linked, ParentsOn;
    var c, log := CallOf(s, p), Log(s);
    LossCharged(log, p, c);
    hide Inv;
    if c.attempt + 1 < MAX_CAS_RETRIES {
      OneCallChanges(s, p, AtRead(c.payload, c.causal, c.attempt + 1, c.begun));
    } else {
      QuietReturn(s, p, Exhausted(p, c.begun, |log|));
    }
  }

  lemma {:induction false} OneCallChanges(s: State, p: Process, c: Call)
    requires Inv(s) && CallOk(Log(s), p, c)
    ensures Inv(s.(calls := s.calls[p := c]))
  {
    hide CallOk, ReturnOk, Successes, Linked;
  }

  /** A call that returns without success leaves the log alone. */
  lemma {:induction false} QuietReturn(s: State, p: Process, r: Return)
    requires Inv(s) && !r.Appended? && ReturnOk(Log(s), r)
    ensures Inv(Finish(s, p, r))
  {
    SuccessesExtend(s.history, r);
    var s' := Finish(s, p, r);
    assert Log(s') == Log(s);
    assert CallOk(Log(s), p, Idle);
    hide CallOk, ReturnOk, Successes, Linked;
  }

  lemma {:induction false} OtherStepsKeep(s: State, s': State, p: Process)
    requires Inv(s) && StepOf(s, s', p) && !Swap(s, s', p)
    ensures Inv(s')
  {
    hide Linked, ParentsOn;
    if payload, causal :| Begin(s, s', p, payload, causal) {
      OneCallChanges(s, p, CallOf(s', p));
    } else if now :| Read(s, s', p, now) {
      assert CallOk(Log(s), p, CallOf(s, p));
      OneCallChanges(s, p, CallOf(s', p));
    } else {
      QuietReturn(s, p, Failed(p));
    }
  }

  lemma {:induction false} NextKeeps(s: State, s': State)
    requires Inv(s) && Next(s, s')
    ensures Inv(s')
  {
    hide Inv, Begin, Read, Fail;
    var p :| StepOf(s, s', p);
    if Swap(s, s', p) {
      if s.ref == CallOf(s, p).oldRef { WinKeeps(s, s', p); } else { LossKeeps(s, s', p); }
    } else {
      OtherStepsKeep(s, s', p);
    }
  }

  lemma {:induction false} Always(run: seq<State>, i: nat)
    requires IsRun(run) && i < |run|
    ensures Inv(run[i])
  {
    if i == 0 {
    } else {
      Always(run, i - 1);
      hide Inv;
      assert Next(run[i - 1], run[i - 1 + 1]);
      NextKeeps(run[i - 1], run[i]);
    }
  }

  // ---- Theorems ----

  /** The commit and what `git log --first-parent` walks below it. */
  function FirstParents(c: Commit): seq<Commit> {
    [c] + if c.parents == [] then [] else FirstParents(c.parents[0])
  }

  function Reversed(log: seq<Success>): seq<Commit>
  {
    if log == [] then [] else [log[|log| - 1].commit] + Reversed(log[..|log| - 1])
  }

  /** What lies below the first append of the chain: its first causal parent, if it named any. */
  function Foundation(log: seq<Success>): seq<Commit>
    requires log != []
  {
    if log[0].causal == [] then [] else FirstParents(log[0].causal[0])
  }

  lemma {:induction false} LinkedInit(log: seq<Success>)
    requires Linked(log) && log != []
    ensures Linked(log[..|log| - 1])
  {
    hide ParentsOn;
    var init := log[..|log| - 1];
    forall i | 0 <= i < |init|
      ensures init[i].commit.payload == init[i].payload && init[i].commit.parents == ParentsOn(TipAt(init, i), init[i].causal)
    {
      assert TipAt(init, i) == TipAt(log, i) && init[i] == log[i];
    }
  }

  lemma {:induction false} LinkedAt(log: seq<Success>, i: nat)
    requires Linked(log) && i < |log|
    ensures log[i].commit.parents == if i == 0 then log[0].causal else [log[i - 1].commit] + log[i].causal
  {
    assert log[i].commit.parents == ParentsOn(TipAt(log, i), log[i].causal);
  }

  lemma {:induction false} FirstParentsStep(c: Commit, below: Commit, causal: seq<Commit>)
    requires c.parents == [below] + causal
    ensures FirstParents(c) == [c] + FirstParents(below)
  {}

  lemma {:induction false} ChainStep(log: seq<Success>)
    requires Linked(log) && |log| > 1
    ensures var n := |log| - 1;
            && log[..n][n - 1] == log[n - 1]
            && FirstParents(log[n].commit) == [log[n].commit] + FirstParents(log[n - 1].commit)
            && Reversed(log) == [log[n].commit] + Reversed(log[..n])
            && Foundation(log) == Foundation(log[..n])
  {
    var n := |log| - 1;
    LinkedAt(log, n);
    hide Linked;
    FirstParentsStep(log[n].commit, log[n - 1].commit, log[n].causal);
  }

  lemma {:induction false} LinkedChain(log: seq<Success>)
    requires Linked(log) && log != []
    ensures FirstParents(log[|log| - 1].commit) == Reversed(log) + Foundation(log)
  {
    var n := |log| - 1;
    if n == 0 {
      LinkedAt(log, 0);
      assert log[..0] == [];
    } else {
      LinkedInit(log);
      ChainStep(log);
      hide Linked, FirstParents, Reversed, Foundation;
      LinkedChain(log[..n]);
    }
  }

  /** None lost, none duplicated, none reordered: walking first parents from the ref meets exactly the
    * successful appends, last first, and then whatever the very first of them was built on.
    */
  lemma {:induction false} ChainIsHistory(run: seq<State>, i: nat)
    requires IsRun(run) && i < |run|
    ensures run[i].ref.None? <==> Log(run[i]) == []
    ensures run[i].ref.Some? ==> FirstParents(run[i].ref.value) == Reversed(Log(run[i])) + Foundation(Log(run[i]))
  {
    Always(run, i);
    if Log(run[i]) != [] { LinkedChain(Log(run[i])); }
  }

  /** The chain ends at the first append exactly when that append named no causal parents: with no tip to
    * put first, its first causal parent takes the chain parent's place.
    */
  lemma {:induction false} ChainEndsExactly(run: seq<State>, i: nat)
    requires IsRun(run) && i < |run| && run[i].ref.Some?
    ensures Log(run[i]) != [] && (FirstParents(run[i].ref.value) == Reversed(Log(run[i])) <==> Log(run[i])[0].causal == [])
  {
    ChainIsHistory(run, i);
    var log := Log(run[i]);
    if log[0].causal != [] { assert Foundation(log) != []; }
    assert |FirstParents(run[i].ref.value)| == |Reversed(log)| + |Foundation(log)|;
  }

  /** Distinct successes are distinct commits, even with equal payloads and clocks. */
  lemma {:induction false} SuccessesDistinct(run: seq<State>, i: nat, j: nat, k: nat)
    requires IsRun(run) && i < |run| && j < k < |Log(run[i])|
    ensures Log(run[i])[j].commit != Log(run[i])[k].commit
  {
    Always(run, i);
    DepthIs(Log(run[i]), j);
    DepthIs(Log(run[i]), k);
  }

  function Depth(c: Commit): nat { if c.parents == [] then 0 else 1 + Depth(c.parents[0]) }

  lemma {:induction false} OneDeeper(log: seq<Success>, k: nat)
    requires Linked(log) && 0 < k < |log|
    ensures Depth(log[k].commit) == 1 + Depth(log[k - 1].commit)
  {
    LinkedAt(log, k);
    hide Linked;
    var c := log[k].commit;
    assert c.parents != [] && c.parents[0] == log[k - 1].commit;
  }

  lemma {:induction false} DepthIs(log: seq<Success>, k: nat)
    requires Linked(log) && k < |log|
    ensures Depth(log[k].commit) == Depth(log[0].commit) + k
  {
    hide Linked, Depth;
    for i := 0 to k
      invariant Depth(log[i].commit) == Depth(log[0].commit) + i
    {
      OneDeeper(log, i + 1);
    }
  }

  /** A failed attempt is another process's success: between the read and the swap the log grew, and not
    * by this process.
    */
  lemma {:induction false} FailureIsCharged(run: seq<State>, i: nat, p: Process)
    requires IsRun(run) && i < |run| && CallOf(run[i], p).AtSwap? && run[i].ref != CallOf(run[i], p).oldRef
    ensures var c := CallOf(run[i], p);
            c.seen < |Log(run[i])| && forall k :: c.seen <= k < |Log(run[i])| ==> Log(run[i])[k].writer != p
  {
    Always(run, i);
    assert CallOk(Log(run[i]), p, CallOf(run[i], p));
    LostTo(Log(run[i]), p, CallOf(run[i], p));
    hide CallOk, Linked, Successes, IsRun;
  }

  /** Giving up takes at least sixteen successes of other processes during the call. */
  lemma {:induction false} ExhaustionMeansContention(run: seq<State>, i: nat, r: Return)
    requires IsRun(run) && i < |run| && r in run[i].history && r.Exhausted?
    ensures r.ended - r.begun >= 16 && r.ended <= |Log(run[i])|
    ensures forall k :: r.begun <= k < r.ended ==> Log(run[i])[k].writer != r.writer
  {
    Always(run, i);
    assert ReturnOk(Log(run[i]), r);
  }

  // ---- What each step can do ----

  /** From any state in which a process is not in a call, it can append: left alone for three steps it moves the ref to a
    * commit of its payload on the tip it found and on the causal parents it named, and its call returns that commit.
    */
  lemma {:induction false} AppendGoesThrough(s: State, p: Process, payload: string, causal: seq<Commit>, now: int) returns (read: State, swap: State, s': State)
    requires CallOf(s, p) == Idle
    ensures StepOf(s, read, p) && StepOf(read, swap, p) && StepOf(swap, s', p)
    ensures var made := Commit(payload, now, if s.ref == None then causal else [s.ref.value] + causal);
            s'.ref == Some(made) && s'.history == s.history + [Appended(Success(p, payload, causal, made))]
    ensures CallOf(s', p) == Idle && forall q :: q != p ==> CallOf(s', q) == CallOf(s, q)
  {
    var made := Commit(payload, now, ParentsOn(s.ref, causal));
    read := s.(calls := s.calls[p := AtRead(payload, causal, 0, |Log(s)|)]);
    swap := read.(calls := read.calls[p := AtSwap(payload, causal, 0, |Log(s)|, s.ref, made, |Log(s)|)]);
    s' := Finish(swap.(ref := Some(made)), p, Appended(Success(p, payload, causal, made)));
    hide Successes;
    assert Begin(s, read, p, payload, causal);
    assert Read(read, swap, p, now);
    assert Swap(swap, s', p);
  }

  /** With the ref moved since it was read, the swap leaves it alone: the call reads again, or after its sixteenth attempt
    * returns empty-handed.
    */
  lemma {:induction false} SwapLoses(s: State, p: Process) returns (s': State)
    requires var c := CallOf(s, p); c.AtSwap? && s.ref != c.oldRef
    ensures StepOf(s, s', p) && s'.ref == s.ref
    ensures var c := CallOf(s, p);
            if c.attempt >= 15 then CallOf(s', p) == Idle && |s'.history| == |s.history| + 1 && s'.history[|s.history|].Exhausted?
            else CallOf(s', p) == AtRead(c.payload, c.causal, c.attempt + 1, c.begun) && s'.history == s.history
  {
    var c := CallOf(s, p);
    hide Successes;
    if c.attempt + 1 < MAX_CAS_RETRIES {
      s' := s.(calls := s.calls[p := AtRead(c.payload, c.causal, c.attempt + 1, c.begun)]);
    } else {
      s' := Finish(s, p, Exhausted(p, c.begun, |Log(s)|));
    }
    assert Swap(s, s', p);
  }

  /** Runs start with nothing appended, and go on by any step of any process. */
  lemma {:induction false} RunGoesOn(run: seq<State>, s': State, p: Process)
    ensures IsRun([State(None, map[], [])])
    ensures IsRun(run) && StepOf(run[|run| - 1], s', p) ==> IsRun(run + [s'])
  {
    hide StepOf;
    if IsRun(run) && StepOf(run[|run| - 1], s', p) {
      var longer := run + [s'];
      assert Next(run[|run| - 1], s');
      hide Next;
      forall i | 0 <= i < |longer| - 1 ensures Next(longer[i], longer[i + 1]) {
        assert i < |run| - 1 ==> longer[i] == run[i] && longer[i + 1] == run[i + 1];
      }
    }
  }

  /** A call can end on any other error, leaving the ref alone. */
  lemma {:induction false} CallFails(s: State, p: Process) returns (s': State)
    requires CallOf(s, p) != Idle
    ensures StepOf(s, s', p) && s'.ref == s.ref && s'.history == s.history + [Failed(p)] && CallOf(s', p) == Idle
  {
    s' := Finish(s, p, Failed(p));
    assert Fail(s, s', p);
  }
}
