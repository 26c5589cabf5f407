/** The server's event bus: numbered events, a ring buffer of the latest ones, and replay after a reconnect. */
module EventBus {
  import opened Text

  datatype Event = Event(number: nat, eventType: string, entityType: string, entityId: string,
                         detail: Option<string>, timestamp: int)

  datatype Metrics = Metrics(activeConnections: nat, totalConnections: nat, eventsPushed: nat, reconnects: nat,
                             reconnectReplays: nat)

  const RING_BUFFER_SIZE: nat := 1000


  /** Events with a number above k. */
  function After(events: seq<Event>, k: int): seq<Event> {
    if events == [] then []
    else if events[0].number > k then [events[0]] + After(events[1..], k)
    else After(events[1..], k)
  }

  class SyncPointEventBus {
    var currentSeq: nat
    var ring: seq<Event>
    var metrics: Metrics

    constructor ()
      ensures currentSeq == 0 && ring == [] && metrics == Metrics(0, 0, 0, 0, 0)
    {
      currentSeq, ring, metrics := 0, [], Metrics(0, 0, 0, 0, 0);
    }

    /** The numbering and the ring as a value. */
    function State(): BusState
      reads this
    {
      BusState(currentSeq, ring)
    }

    /** data is what the listeners are called with. */
    method EmitEvent(eventType: string, entityType: string, entityId: string, detail: Option<string>, now: int)
      returns (data: Event)
      modifies this
      ensures data == Event(old(currentSeq) + 1, eventType, entityType, entityId, detail, now)
      ensures State() == Emitted(old(State()), data)
      ensures metrics == old(metrics).(eventsPushed := old(metrics).eventsPushed + 1)
    {
      currentSeq := currentSeq + 1;
      data := Event(currentSeq, eventType, entityType, entityId, detail, now);
      if |ring| >= RING_BUFFER_SIZE {
        ring := ring[1..];
      }
      ring := ring + [data];
      metrics := metrics.(eventsPushed := metrics.eventsPushed + 1);
    }

    method ResetSequence()
      modifies this
      ensures State() == BusState(0, []) && metrics == old(metrics)
    {
      currentSeq, ring := 0, [];
    }

    method RecoverSeq(maxSeq: int)
      modifies this
      ensures State() == Recovered(old(State()), maxSeq) && metrics == old(metrics)
    {
      if maxSeq > currentSeq {
        currentSeq := maxSeq;
      }
    }

    method ReplayAfter(lastSeq: int) returns (events: seq<Event>)
      modifies this
      ensures events == Replay(State(), lastSeq) && State() == old(State())
      ensures metrics == old(metrics).(reconnectReplays := old(metrics).reconnectReplays + |events|)
    {
      if lastSeq <= 0 {
        return [];
      }
      events := After(ring, lastSeq);
      metrics := metrics.(reconnectReplays := metrics.reconnectReplays + |events|);
    }

    method ConnectionOpened()
      modifies this
      ensures State() == old(State())
      ensures metrics == old(metrics).(activeConnections := old(metrics).activeConnections + 1,
                                       totalConnections := old(metrics).totalConnections + 1)
    {
      metrics := metrics.(activeConnections := metrics.activeConnections + 1,
                          totalConnections := metrics.totalConnections + 1);
    }

    method ConnectionClosed()
      modifies this
      ensures State() == old(State())
      ensures var n := old(metrics).activeConnections;
              metrics == old(metrics).(activeConnections := if n == 0 then 0 else n - 1)
    {
      if metrics.activeConnections > 0 {
        metrics := metrics.(activeConnections := metrics.activeConnections - 1);
      }
    }
  }

  // ---- the bus as a value, and the log it stands for ------------------------------------------------------

  datatype BusState = BusState(currentSeq: nat, ring: seq<Event>)

  function Emitted(b: BusState, data: Event): BusState {
    BusState(b.currentSeq + 1,
             (if |b.ring| >= RING_BUFFER_SIZE then b.ring[1..] else b.ring) + [data])
  }

  function Recovered(b: BusState, maxSeq: int): BusState {
    if maxSeq > b.currentSeq then b.(currentSeq := maxSeq) else b
  }

  function Replay(b: BusState, lastSeq: int): seq<Event> {
    if lastSeq <= 0 then [] else After(b.ring, lastSeq)
  }

  datatype Op =
    | Emit(eventType: string, entityType: string, entityId: string, detail: Option<string>, now: int)
    | Recover(maxSeq: int)
    | Reset

  function EventOf(currentSeq: nat, op: Op): Event
    requires op.Emit?
  {
    Event(currentSeq + 1, op.eventType, op.entityType, op.entityId, op.detail, op.now)
  }

  function Step(b: BusState, op: Op): BusState {
    match op
    case Emit(_, _, _, _, _) => Emitted(b, EventOf(b.currentSeq, op))
    case Recover(maxSeq) => Recovered(b, maxSeq)
    case Reset => BusState(0, [])
  }

  function Run(b: BusState, ops: seq<Op>): BusState
    decreases |ops|
  {
    if ops == [] then b else Run(Step(b, ops[0]), ops[1..])
  }

  /** The specification: an unbounded log with a counter, nothing is ever evicted. */
  datatype Log = Log(currentSeq: nat, events: seq<Event>)

  function LogStep(l: Log, op: Op): Log {
    match op
    case Emit(_, _, _, _, _) => Log(l.currentSeq + 1, l.events + [EventOf(l.currentSeq, op)])
    case Recover(maxSeq) => if maxSeq > l.currentSeq then l.(currentSeq := maxSeq) else l
    case Reset => Log(0, [])
  }

  function LogRun(l: Log, ops: seq<Op>): Log
    decreases |ops|
  {
    if ops == [] then l else LogRun(LogStep(l, ops[0]), ops[1..])
  }

  function LastN<T>(s: seq<T>, n: nat): seq<T> {
    if |s| <= n then s else s[|s| - n..]
  }

  ghost predicate WellNumbered(l: Log) {
    && (forall i, j :: 0 <= i < j < |l.events| ==> l.events[i].number < l.events[j].number)
    && (forall i :: 0 <= i < |l.events| ==> 0 < l.events[i].number <= l.currentSeq)
  }

  /** The ring holds exactly the latest events of the log. */
  ghost predicate Refines(b: BusState, l: Log) {
    b.currentSeq == l.currentSeq && b.ring == LastN(l.events, RING_BUFFER_SIZE) && WellNumbered(l)
  }

  lemma LastNSnoc<T>(s: seq<T>, x: T, n: nat)
    requires n > 0
    ensures var kept := LastN(s, n); LastN(s + [x], n) == (if |kept| >= n then kept[1..] else kept) + [x]
  {
  }

  lemma StepRefines(b: BusState, l: Log, op: Op)
    requires Refines(b, l)
    ensures Refines(Step(b, op), LogStep(l, op))
  {
    if op.Emit? {
      var e := EventOf(b.currentSeq, op);
      LastNSnoc(l.events, e, RING_BUFFER_SIZE);
    }
  }

  /** In every run of emits, recoveries and resets the ring is the last 1000 events of the log, strictly numbered. */
  lemma {:induction false} RunRefines(b: BusState, l: Log, ops: seq<Op>)
    requires Refines(b, l)
    ensures Refines(Run(b, ops), LogRun(l, ops))
    decreases |ops|
  {
    if ops != [] {
      StepRefines(b, l, ops[0]);
      RunRefines(Step(b, ops[0]), LogStep(l, ops[0]), ops[1..]);
    }
  }

  /** A new bus, whatever happens to it. */
  lemma EveryRunRefines(ops: seq<Op>)
    ensures Refines(Run(BusState(0, []), ops), LogRun(Log(0, []), ops))
  {
    RunRefines(BusState(0, []), Log(0, []), ops);
  }

  // ---- replay ---------------------------------------------------------------------------------------------

  /** In a strictly numbered list the events above k are a tail. */
  lemma {:induction false} AfterIsTail(events: seq<Event>, k: int) returns (c: nat)
    requires forall i, j :: 0 <= i < j < |events| ==> events[i].number < events[j].number
    ensures c <= |events| && After(events, k) == events[c..]
    ensures forall i :: 0 <= i < |events| ==> (events[i].number > k <==> c <= i)
    decreases |events|
  {
    if events == [] {
      c := 0;
    } else {
      var d := AfterIsTail(events[1..], k);
      assert forall i :: 0 < i < |events| ==> events[i] == events[1..][i - 1];
      if events[0].number > k {
        assert d == 0 by {
          if |events| > 1 {
            assert events[1..][0].number > k;
          }
        }
        c := 0;
      } else {
        c := d + 1;
      }
    }
  }

  lemma {:induction false} AfterFrom(events: seq<Event>, k: int, c: nat)
    requires c <= |events|
    requires forall i :: 0 <= i < |events| ==> (events[i].number > k <==> c <= i)
    ensures After(events, k) == events[c..]
    decreases |events|
  {
    if events != [] {
      assert events[0].number > k <==> c == 0;
      AfterFrom(events[1..], k, if c == 0 then 0 else c - 1);
    }
  }

  /** Replay returns the latest 1000 of the logged events above lastSeq. */
  lemma ReplayIsRecentLog(b: BusState, l: Log, lastSeq: int)
    requires Refines(b, l) && lastSeq > 0
    ensures Replay(b, lastSeq) == LastN(After(l.events, lastSeq), 1000)
  {
    var c := AfterIsTail(l.events, lastSeq);
    var off := |l.events| - |b.ring|;
    var d := if c >= off then c - off else 0;
    forall i | 0 <= i < |b.ring| ensures b.ring[i].number > lastSeq <==> d <= i {
      assert b.ring[i] == l.events[off + i];
    }
    AfterFrom(b.ring, lastSeq, d);
  }

  /** The ring keeps a thousand events. */
  lemma RingKeepsThousand(b: BusState, l: Log)
    requires Refines(b, l)
    ensures |b.ring| == (if |l.events| < 1000 then |l.events| else 1000)
    ensures forall i :: 0 <= i < |b.ring| ==> b.ring[i] == l.events[|l.events| - |b.ring| + i]
  {
  }

  /** Nothing is missing from the replay exactly when no evicted event has a number above lastSeq. */
  lemma ReplayCompleteExact(b: BusState, l: Log, lastSeq: int)
    requires Refines(b, l) && lastSeq > 0
    ensures var evicted := l.events[..|l.events| - |b.ring|];
            Replay(b, lastSeq) == After(l.events, lastSeq)
            <==> forall i :: 0 <= i < |evicted| ==> evicted[i].number <= lastSeq
  {
    ReplayIsRecentLog(b, l, lastSeq);
    var c := AfterIsTail(l.events, lastSeq);
    var evicted := l.events[..|l.events| - |b.ring|];
    if c < |evicted| {
      assert evicted[c].number > lastSeq;
    }
  }

  predicate NoReset(ops: seq<Op>) {
    forall i :: 0 <= i < |ops| ==> !ops[i].Reset?
  }

  /** Without a reset the log only grows, with numbers above the counter. */
  lemma {:induction false} LogOnlyGrows(l: Log, ops: seq<Op>)
    requires WellNumbered(l) && NoReset(ops)
    ensures var l' := LogRun(l, ops);
            && WellNumbered(l') && l.events <= l'.events
            && (forall i :: |l.events| <= i < |l'.events| ==> l'.events[i].number > l.currentSeq)
    decreases |ops|
  {
    if ops != [] {
      LogOnlyGrows(LogStep(l, ops[0]), ops[1..]);
    }
  }

  /** A client that has seen everything up to the counter when it lost its connection gets exactly the events it
      missed if and only if it missed none, or the counter was not 0 and it missed at most 1000. */
  lemma CatchUpExact(b: BusState, l: Log, missed: seq<Op>)
    requires Refines(b, l) && NoReset(missed)
    ensures var events := LogRun(l, missed).events;
            && |l.events| <= |events|
            && var lost := events[|l.events|..];
               Replay(Run(b, missed), b.currentSeq) == lost
               <==> lost == [] || (b.currentSeq > 0 && |lost| <= 1000)
  {
    RunRefines(b, l, missed);
    LogOnlyGrows(l, missed);
    var l' := LogRun(l, missed);
    var lost := l'.events[|l.events|..];
    if b.currentSeq > 0 {
      ReplayIsRecentLog(Run(b, missed), l', b.currentSeq);
      forall i | 0 <= i < |l'.events| ensures l'.events[i].number > b.currentSeq <==> |l.events| <= i {
        if i < |l.events| {
          assert l'.events[i] == l.events[i];
        }
      }
      AfterFrom(l'.events, b.currentSeq, |l.events|);
    }
  }

  /** What is emitted is what a client is sent: the newest event carries the next number and all that was said. */
  lemma EmittedAsSaid(b: BusState, op: Op)
    requires op.Emit?
    ensures var ring := Step(b, op).ring;
            ring != [] && ring[|ring| - 1]
            == Event(b.currentSeq + 1, op.eventType, op.entityType, op.entityId, op.detail, op.now)
  {
  }
}
