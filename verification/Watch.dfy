/** Change notifications: each subscriber reads from a bounded channel, and an overflow is announced by a
  * reset before anything else is delivered.
  */
module Watch {
  import opened Options

  const BUFFER_SIZE: nat := 128

  datatype Kind = Created | Changed | Reset

  datatype Event = Event(kind: Kind, objectType: string, objectId: string, opTypes: seq<string>, at: int)

  function ResetAt(at: int): Event { Event(Reset, "", "", [], at) }

  /** What became of an event, in the order it happened: put into the channel, or dropped. `Announced` is a
    * reset put into the channel because events were dropped; an emitted reset that arrives just then is
    * told by the same reset, and is `Merged`.
    */
  datatype Entry = Sent(event: Event) | Dropped(event: Event) | Announced(reset: Event) | Merged(event: Event)

  type Log = seq<Entry>

  /** The events emitted so far. */
  function Emitted(log: Log): seq<Event> {
    if log == [] then []
    else
      var last := log[|log| - 1];
      Emitted(log[..|log| - 1]) + (if last.Announced? then [] else [last.event])
  }

  /** Everything put into the channel so far. */
  function Delivered(log: Log): seq<Event> {
    if log == [] then []
    else
      var last := log[|log| - 1];
      Delivered(log[..|log| - 1]) +
      (match last
       case Sent(e) => [e]
       case Announced(r) => [r]
       case _ => [])
  }

  /** Whether some event was dropped and no reset sent since. */
  predicate Gap(log: Log) {
    log != [] && (
      var last := log[|log| - 1];
      last.Dropped? || (!last.Announced? && Gap(log[..|log| - 1])))
  }

  /** Nothing is sent while a gap is open but the reset that closes it, and such a reset only closes gaps. */
  predicate Faithful(log: Log) {
    log == [] || (
      var last, before := log[|log| - 1], log[..|log| - 1];
      Faithful(before) && Follows(before, last))
  }

  /** How one more entry changes what the log says. */
  lemma Logged(log: Log, entry: Entry)
    ensures var longer := log + [entry];
            && longer != [] && longer[|longer| - 1] == entry
            && Emitted(longer) == Emitted(log) + (if entry.Announced? then [] else [entry.event])
            && Delivered(longer) == Delivered(log) + (if entry.Sent? then [entry.event] else if entry.Announced? then [entry.reset] else [])
            && Gap(longer) == (entry.Dropped? || (!entry.Announced? && Gap(log)))
            && (Faithful(longer) <==> Faithful(log) && Follows(log, entry))
  {
    assert (log + [entry])[..|log|] == log;
  }

  /** The ways a log may go on. */
  predicate Follows(log: Log, entry: Entry) {
    match entry
    case Sent(_) => !Gap(log)
    case Dropped(_) => true
    case Announced(r) => Gap(log) && r == ResetAt(r.at)
    case Merged(e) => e.kind == Reset && log != [] && log[|log| - 1].Announced?
  }

  class Subscriber {
    var ch: seq<Event>
    var closed: bool
    var overflow: bool
    ghost var log: Log
    ghost var received: seq<Event>

    ghost predicate Valid() reads this {
      && |ch| <= BUFFER_SIZE
      && received + ch == Delivered(log)
      && overflow == Gap(log)
      && Faithful(log)
    }

    constructor ()
      ensures Valid() && log == [] && received == [] && ch == [] && !closed
    {
      ch, closed, overflow, log, received := [], false, false, [], [];
    }

    /** A send that does not wait: it goes through exactly when the channel has room. Go panics on a send to
      * a closed channel.
      */
    method TrySend(ev: Event) returns (ok: bool)
      requires !closed
      modifies `ch
      ensures ok == (|old(ch)| < BUFFER_SIZE)
      ensures ch == if ok then old(ch) + [ev] else old(ch)
    {
      ok := |ch| < BUFFER_SIZE;
      if ok { ch := ch + [ev]; }
    }

    /** With a gap open, only a reset may be sent, and the event behind it if it is not one itself. */
    method EmitInGap(ev: Event)
      requires Valid() && overflow && !closed
      modifies this
      ensures Valid() && !closed && received == old(received)
      ensures old(log) < log && Emitted(log) == Emitted(old(log)) + [ev]
      ensures log[|log| - 1].Dropped? ==> |ch| == 128
      ensures overflow <==> |old(ch)| + (if ev.kind == Reset then 0 else 1) >= 128
      ensures log[|old(log)|].Announced? <==> |old(ch)| < 128
    {
      hide Emitted, Delivered, Gap, Faithful;
      ghost var before := log;
      var sent := TrySend(ResetAt(ev.at));
      if !sent {
        Logged(before, Dropped(ev));
        log := before + [Dropped(ev)];
        return;
      }
      overflow := false;
      ghost var told := before + [Announced(ResetAt(ev.at))];
      Logged(before, Announced(ResetAt(ev.at)));
      ghost var last := Merged(ev);
      if ev.kind != Reset {
        sent := TrySend(ev);
        if !sent { overflow := true; }
        last := if sent then Sent(ev) else Dropped(ev);
      }
      Logged(told, last);
      log := told + [last];
    }

    /** Emitting never waits: the event is sent if nothing is missing and there is room, and it is dropped
      * only because the channel is full. A gap ends when an emit finds room for the reset and for its event.
      */
    method Emit(ev: Event)
      requires Valid() && !closed
      modifies this
      ensures Valid() && !closed && received == old(received)
      ensures old(log) < log && Emitted(log) == Emitted(old(log)) + [ev]
      ensures log[|log| - 1].Dropped? ==> |ch| == 128
      ensures !old(overflow) ==> log == old(log) + [if |old(ch)| < 128 then Sent(ev) else Dropped(ev)]
      ensures !old(overflow) ==> (overflow <==> |old(ch)| == 128)
      ensures old(overflow) ==> (overflow <==> |old(ch)| + (if ev.kind == Reset then 0 else 1) >= 128)
      ensures old(overflow) ==> (log[|old(log)|].Announced? <==> |old(ch)| < 128)
    {
      hide Emitted, Delivered, Gap, Faithful;
      if overflow {
        EmitInGap(ev);
        return;
      }
      var sent := TrySend(ev);
      if !sent { overflow := true; }
      ghost var entry := if sent then Sent(ev) else Dropped(ev);
      Logged(log, entry);
      log := log + [entry];
    }

    /** Reading makes room, and that is all: it neither closes a gap nor sends the reset that would. A closed
      * channel still gives up what it holds, and nothing after that.
      */
    method Receive() returns (ev: Option<Event>)
      requires Valid() && (ch != [] || closed)
      modifies this
      ensures Valid() && log == old(log) && overflow == old(overflow) && closed == old(closed)
      ensures ev.None? <==> old(ch) == []
      ensures received + ch == old(received + ch)
      ensures ev.Some? ==> received == old(received) + [ev.value] && [ev.value] + ch == old(ch)
    {
      if ch == [] {
        return None;
      }
      ev := Some(ch[0]);
      received := received + [ch[0]];
      ch := ch[1..];
    }
  }

  // ---- Publishing a refresh to every subscriber ----

  datatype Change = Change(objectType: string, objectId: string, opTypes: seq<string>, created: bool)

  datatype Stats = Stats(rebuilt: bool, changed: seq<Change>)

  function EventOf(c: Change, at: int): Event {
    Event(if c.created then Created else Changed, c.objectType, c.objectId, c.opTypes, at)
  }

  /** What a refresh tells: a reset after a rebuild, otherwise one event a changed object. */
  function EventsOf(changed: seq<Change>, at: int): seq<Event> {
    if changed == [] then [] else EventsOf(changed[..|changed| - 1], at) + [EventOf(changed[|changed| - 1], at)]
  }

  function Told(stats: Stats, at: int): seq<Event> {
    if stats.rebuilt then [ResetAt(at)] else EventsOf(stats.changed, at)
  }

  class Store {
    var subscribers: seq<Subscriber>
    var closed: bool

    constructor ()
      ensures Valid() && subscribers == [] && !closed
    {
      subscribers, closed := [], false;
    }

    /** Everyone listed once, and every listed channel open: nothing is ever sent to a closed one. */
    ghost predicate Valid() reads this, subscribers {
      && (forall i, j :: 0 <= i < j < |subscribers| ==> subscribers[i] != subscribers[j])
      && (forall s :: s in subscribers ==> s.Valid() && !s.closed)
      && (closed ==> subscribers == [])
    }

    /** A closed store hands out a closed channel. */
    method Subscribe() returns (s: Subscriber)
      requires Valid()
      modifies this
      ensures Valid() && fresh(s) && s.Valid() && s.log == [] && closed == old(closed) && s.closed == closed
      ensures subscribers == if closed then old(subscribers) else old(subscribers) + [s]
    {
      s := new Subscriber();
      if closed {
        s.closed := true;
        return;
      }
      subscribers := subscribers + [s];
    }

    /** Removes one subscriber and closes its channel, leaving what it holds to be read; the others keep their
      * order, and an unknown one changes nothing.
      */
    method Unsubscribe(s: Subscriber)
      requires Valid()
      modifies this, s`closed
      ensures Valid() && s !in subscribers && closed == old(closed)
      ensures s.closed == (old(s.closed) || s in old(subscribers))
      ensures s !in old(subscribers) ==> subscribers == old(subscribers)
      ensures forall i :: 0 <= i < |old(subscribers)| && old(subscribers)[i] == s ==>
                subscribers == old(subscribers)[..i] + old(subscribers)[i + 1..]
    {
      if closed {
        return;
      }
      for i := 0 to |subscribers|
        invariant subscribers == old(subscribers) && s !in subscribers[..i] && s.closed == old(s.closed)
        invariant closed == old(closed)
      {
        if subscribers[i] == s {
          subscribers := subscribers[..i] + subscribers[i + 1..];
          s.closed := true;
          return;
        }
      }
    }

    /** Closes every channel, once: closing a channel twice would panic. */
    method Close()
      requires Valid()
      modifies this, set s | s in subscribers :: s`closed
      ensures Valid() && closed && subscribers == []
      ensures forall s :: s in old(subscribers) ==> s.closed
    {
      if closed {
        return;
      }
      closed := true;
      for i := 0 to |subscribers|
        invariant subscribers == old(subscribers) && closed
        invariant forall k :: 0 <= k < |subscribers| ==> (subscribers[k].closed <==> k < i)
      {
        assert subscribers[i] in old(subscribers) && !subscribers[i].closed;
        subscribers[i].closed := true;
      }
      subscribers := [];
    }

    /** One event to every subscriber. */
    method EmitAll(ev: Event)
      requires Valid()
      modifies set s | s in subscribers
      ensures Valid()
      ensures forall s :: s in subscribers ==> s.received == old(s.received)
      ensures forall s :: s in subscribers ==> old(s.log) < s.log && Emitted(s.log) == old(Emitted(s.log)) + [ev]
    {
      hide Emitted, Delivered, Gap, Faithful;
      for i := 0 to |subscribers|
        invariant Valid()
        invariant forall s :: s in subscribers ==> s.received == old(s.received)
        invariant forall k :: 0 <= k < i ==>
                    old(subscribers[k].log) < subscribers[k].log
                    && Emitted(subscribers[k].log) == old(Emitted(subscribers[k].log)) + [ev]
        invariant forall k :: i <= k < |subscribers| ==> subscribers[k].log == old(subscribers[k].log)
      {
        subscribers[i].Emit(ev);
      }
    }

    /** Every subscriber is told of the whole refresh, in order. */
    method EmitStats(stats: Stats, now: int)
      requires Valid()
      modifies set s | s in subscribers
      ensures Valid()
      ensures forall s :: s in subscribers ==> s.received == old(s.received)
      ensures forall s :: s in subscribers ==>
                old(s.log) <= s.log && Emitted(s.log) == old(Emitted(s.log)) + Told(stats, now)
    {
      hide Emitted, Delivered, Gap, Faithful;
      if |subscribers| == 0 {
        return;
      }
      if stats.rebuilt {
        EmitAll(ResetAt(now));
        return;
      }
      for i := 0 to |stats.changed|
        invariant Valid()
        invariant forall s :: s in subscribers ==> s.received == old(s.received)
        invariant forall s :: s in subscribers ==>
                    old(s.log) <= s.log && Emitted(s.log) == old(Emitted(s.log)) + EventsOf(stats.changed[..i], now)
      {
        EmitAll(EventOf(stats.changed[i], now));
        assert stats.changed[..i + 1][..i] == stats.changed[..i];
      }
      assert stats.changed[..|stats.changed|] == stats.changed;
    }
  }

  /** After a rebuild subscribers are told to start over, once; otherwise of each changed object, in order: that it was
    * created, if it was, and else that it changed, by which types of op.
    */
  lemma {:induction false} ToldMeans(stats: Stats, at: int)
    ensures stats.rebuilt ==> |Told(stats, at)| == 1 && Told(stats, at)[0] == Event(Reset, "", "", [], at)
    ensures !stats.rebuilt ==> |Told(stats, at)| == |stats.changed|
    ensures !stats.rebuilt ==> forall i :: 0 <= i < |stats.changed| ==>
              var c, e := stats.changed[i], Told(stats, at)[i];
              && (c.created ==> e.kind == Created) && (!c.created ==> e.kind == Changed) && e.at == at
              && e.objectType == c.objectType && e.objectId == c.objectId && e.opTypes == c.opTypes
  {
    EventsMean(stats.changed, at);
  }

  lemma {:induction false} EventsMean(changed: seq<Change>, at: int)
    ensures |EventsOf(changed, at)| == |changed| && forall i :: 0 <= i < |changed| ==> EventsOf(changed, at)[i] == EventOf(changed[i], at)
  {
    if changed == [] {
    } else {
      EventsMean(changed[..|changed| - 1], at);
    }
  }

  // ---- What a log that is faithful tells its reader ----

  lemma PrefixFaithful(log: Log, n: nat)
    requires Faithful(log) && n <= |log|
    ensures Faithful(log[..n]) && (n < |log| ==> Follows(log[..n], log[n]))
    decreases |log|
  {
    if n < |log| {
      var before := log[..|log| - 1];
      if n < |before| { PrefixFaithful(before, n); }
      assert before[..n] == log[..n];
    } else {
      assert log[..n] == log;
    }
  }

  /** A gap is open exactly when something dropped has no reset after it. */
  lemma {:induction false} GapIsUnannounced(log: Log)
    ensures Gap(log) <==> exists i :: 0 <= i < |log| && log[i].Dropped? && forall k :: i < k < |log| ==> !log[k].Announced?
    decreases |log|
  {
    if log == [] {
    } else {
      var before, last := log[..|log| - 1], log[|log| - 1];
      GapIsUnannounced(before);
      if Gap(before) {
        var i :| 0 <= i < |before| && before[i].Dropped? && forall k :: i < k < |before| ==> !before[k].Announced?;
        if !last.Announced? {
          assert log[i].Dropped? && forall k :: i < k < |log| ==> !log[k].Announced?;
        }
      }
      if i :| 0 <= i < |log| && log[i].Dropped? && forall k :: i < k < |log| ==> !log[k].Announced? {
        if i < |before| {
          assert before[i].Dropped? && forall k :: i < k < |before| ==> !before[k].Announced?;
        }
      }
    }
  }

  /** Nothing is delivered past a drop without a reset in between, and a reset sent for drops is never
    * spurious: something was dropped since the last one.
    */
  lemma ResetBeforeMore(log: Log, j: nat)
    requires Faithful(log) && j < |log|
    ensures log[j].Sent? ==>
              forall i :: 0 <= i < j && log[i].Dropped? ==> exists k :: i < k < j && log[k].Announced?
    ensures log[j].Announced? ==>
              exists i :: 0 <= i < j && log[i].Dropped? && forall k :: i < k < j ==> !log[k].Announced?
  {
    PrefixFaithful(log, j);
    GapIsUnannounced(log[..j]);
  }

  /** Between two resets a subscriber reads exactly what was emitted, in order, with nothing missing: up to
    * any event it was sent, if no reset for drops came in between.
    */
  lemma ReadsEverything(log: Log, i: nat, j: nat)
    requires Faithful(log) && i < j <= |log| && log[j - 1].Sent?
    requires forall k :: i <= k < j ==> !log[k].Announced? && !log[k].Merged?
    ensures Delivered(log[i..j]) == Emitted(log[i..j])
  {
    ResetBeforeMore(log, j - 1);
    hide *;
    assert forall k :: i <= k < j ==> log[k].Sent?;
    AllSent(log[i..j]);
  }

  lemma {:induction false} AllSent(part: Log)
    requires forall k :: 0 <= k < |part| ==> part[k].Sent?
    ensures Delivered(part) == Emitted(part)
    decreases |part|
  {
    if part == [] {
    } else {
      AllSent(part[..|part| - 1]);
    }
  }

  /** What an entry put into the channel is the next thing the reader gets after all earlier ones. */
  lemma {:induction false} DeliveredAt(log: Log, k: nat)
    requires k < |log| && (log[k].Sent? || log[k].Announced?)
    ensures |Delivered(log[..k])| < |Delivered(log)| && Delivered(log)[|Delivered(log[..k])|] == Carried(log[k])
    decreases |log|
  {
    var before := log[..|log| - 1];
    if k < |before| {
      DeliveredAt(before, k);
      assert before[..k] == log[..k];
    }
  }

  function Carried(entry: Entry): Event { if entry.Announced? then entry.reset else entry.event }

  /** The reader has read what entry `k` put into the channel, in its turn. */
  ghost predicate Read(s: Subscriber, k: int)
    reads s
  {
    && 0 <= k < |s.log| && (s.log[k].Sent? || s.log[k].Announced?)
    && |Delivered(s.log[..k])| < |s.received| && s.received[|Delivered(s.log[..k])|] == Carried(s.log[k])
  }

  /** The reader knows of the event of entry `i`: it read it, or a reset sent after it, or the one it was merged with. */
  ghost predicate Knows(s: Subscriber, i: int)
    reads s
    requires 0 <= i < |s.log|
  {
    match s.log[i]
    case Sent(_) => Read(s, i)
    case Announced(_) => Read(s, i)
    case Dropped(_) => exists k :: i < k < |s.log| && s.log[k].Announced? && Read(s, k)
    case Merged(_) => i > 0 && s.log[i - 1].Announced? && Read(s, i - 1)
  }

  /** A subscriber that has drained its channel knows of every event emitted exactly when no gap is open. With a
    * gap open it does not, however long it waits: only the next emit can tell it.
    */
  lemma {:induction false} DrainedKnowsAll(s: Subscriber)
    requires s.Valid() && s.ch == []
    ensures !s.overflow <==> forall i :: 0 <= i < |s.log| ==> Knows(s, i)
  {
    var log := s.log;
    GapIsUnannounced(log);
    forall k | 0 <= k < |log| && (log[k].Sent? || log[k].Announced?) ensures Read(s, k) { DeliveredAt(log, k); }
    forall k | 0 <= k < |log| && log[k].Merged? ensures k > 0 && log[k - 1].Announced? { MergedAfter(log, k); }
    hide Delivered, Gap, Faithful, Read;
    if s.overflow {
      var i :| 0 <= i < |log| && log[i].Dropped? && forall k :: i < k < |log| ==> !log[k].Announced?;
      assert !Knows(s, i);
    }
  }

  lemma {:induction false} MergedAfter(log: Log, k: nat)
    requires Faithful(log) && k < |log| && log[k].Merged?
    ensures k > 0 && log[k - 1].Announced?
  {
    PrefixFaithful(log, k);
  }
}
