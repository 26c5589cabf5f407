/** The life of a gate under the server: acknowledgements, lazy reconciliation, explicit resolution. */
module GateService {
  import opened Lists
  import opened SyncGate
  import opened GateVotes

  /** Reconcile stands for every call that only looks: a vote, a status query, the check of an agent. Resolve stands for
      every explicit resolution: by a caller, by a negotiation, or because the conflict of claims behind the gate is
      gone; Cancel likewise. */
  datatype GateEvent = Ack(agent: string, now: int) | Reconcile(now: int) | Resolve | Cancel

  /** The gate after a call, or the reason it was refused. */
  datatype Outcome = Done(gate: Gate) | NotRequired | WrongState

  predicate CanContinue(status: SyncGateStatus) {
    status == SYNC_REQUESTED || status == SYNC_ACKED
  }

  function ReconcileGate(gate: Gate, now: int): Gate {
    var action := EvaluateGateLiveness(gate, now);
    if (action == AUTO_RESOLVE || action == ALLOW_QUORUM_RESOLVE) && CanContinue(gate.status)
    then gate.(status := READY_TO_CONTINUE)
    else gate
  }

  function WithAck(gate: Gate, agent: string): Gate {
    if agent in gate.ackedAgentIds then gate else gate.(ackedAgentIds := gate.ackedAgentIds + [agent])
  }

  /** Only required agents may acknowledge, only a requested gate, and each counts once. */
  function Acknowledge(gate: Gate, agent: string, now: int): Outcome {
    if agent !in gate.requiredAgentIds then NotRequired
    else if gate.status != SYNC_REQUESTED then WrongState
    else
      var acked := WithAck(gate, agent);
      Done(ReconcileGate(if AllAcked(acked) then acked.(status := SYNC_ACKED) else acked, now))
  }

  function Serve(gate: Gate, event: GateEvent): Outcome {
    match event
    case Ack(agent, now) => Acknowledge(gate, agent, now)
    case Reconcile(now) => Done(ReconcileGate(gate, now))
    case Resolve => if CanContinue(gate.status) then Done(gate.(status := READY_TO_CONTINUE)) else WrongState
    case Cancel => if IsGateBlocking(gate) then Done(gate.(status := CANCELLED)) else WrongState
  }

  /** A refused call changes nothing. */
  function Step(gate: Gate, event: GateEvent): Gate {
    match Serve(gate, event)
    case Done(next) => next
    case NotRequired => gate
    case WrongState => gate
  }

  function Run(gate: Gate, events: seq<GateEvent>): Gate
    decreases |events|
  {
    if events == [] then gate else Run(Step(gate, events[0]), events[1..])
  }

  /** Who acknowledges by this call. */
  function Heard(gate: Gate, event: GateEvent): set<string> {
    if event.Ack? && Serve(gate, event).Done? then {event.agent} else {}
  }

  /** The agents whose acknowledgement was accepted during a run. */
  function Acknowledgers(gate: Gate, events: seq<GateEvent>): set<string>
    decreases |events|
  {
    if events == [] then {} else Heard(gate, events[0]) + Acknowledgers(Step(gate, events[0]), events[1..])
  }

  /** Everything but status and acknowledgements. */
  predicate SameTerms(a: Gate, b: Gate) {
    a == b.(status := a.status, ackedAgentIds := a.ackedAgentIds)
  }

  /** Each acknowledgement is listed once and comes from a required agent. */
  predicate Honest(gate: Gate) {
    Distinct(gate.ackedAgentIds) && Elements(gate.ackedAgentIds) <= Elements(gate.requiredAgentIds)
  }

  /** As the server creates it. */
  predicate Fresh(gate: Gate) {
    gate.ackedAgentIds == [] && (gate.status == NEEDS_SYNC || gate.status == SYNC_REQUESTED)
  }

  lemma WithAckKeeps(gate: Gate, agent: string)
    requires Honest(gate) && agent in gate.requiredAgentIds
    ensures Honest(WithAck(gate, agent)) && SameTerms(WithAck(gate, agent), gate)
    ensures Elements(WithAck(gate, agent).ackedAgentIds) == Elements(gate.ackedAgentIds) + {agent}
  {
    AckedElements(gate, agent);
    DistinctSize(gate.ackedAgentIds);
  }

  lemma StepKeeps(gate: Gate, event: GateEvent)
    requires Honest(gate)
    ensures Honest(Step(gate, event)) && SameTerms(Step(gate, event), gate)
    ensures Elements(Step(gate, event).ackedAgentIds) == Elements(gate.ackedAgentIds) + Heard(gate, event)
  {
    if event.Ack? && event.agent in gate.requiredAgentIds {
      WithAckKeeps(gate, event.agent);
    }
  }

  /** In every run the list of acknowledgements grows by exactly the agents that were heard. */
  lemma {:induction false} RunKeeps(gate: Gate, events: seq<GateEvent>)
    requires Honest(gate)
    ensures var last := Run(gate, events);
            && Honest(last) && SameTerms(last, gate)
            && Elements(last.ackedAgentIds) == Elements(gate.ackedAgentIds) + Acknowledgers(gate, events)
    decreases |events|
  {
    if events != [] {
      StepKeeps(gate, events[0]);
      RunKeeps(Step(gate, events[0]), events[1..]);
    }
  }

  /** Counting acknowledgements is counting required agents, after every run of a new gate and for every quorum. */
  lemma QuorumIsRequiredAgents(gate: Gate, events: seq<GateEvent>, quorum: nat)
    requires Fresh(gate)
    ensures Acknowledgers(gate, events) <= Elements(gate.requiredAgentIds)
    ensures QuorumMet(Run(gate, events), quorum) <==> |Acknowledgers(gate, events)| >= quorum
  {
    RunKeeps(gate, events);
    DistinctSize(Run(gate, events).ackedAgentIds);
  }

  /** The status says who was heard: while the gate blocks it is acknowledged exactly when everyone required was. */
  predicate StatusTells(gate: Gate) {
    IsGateBlocking(gate) ==> (gate.status == SYNC_ACKED <==> AllAcked(gate))
  }

  lemma {:induction false} RunKeepsStatus(gate: Gate, events: seq<GateEvent>)
    requires StatusTells(gate)
    ensures StatusTells(Run(gate, events))
    decreases |events|
  {
    if events != [] {
      RunKeepsStatus(Step(gate, events[0]), events[1..]);
    }
  }

  /** In every run of a new gate, while it blocks: it is acknowledged exactly when the agents heard are all required
      ones, of which there is at least one. */
  lemma AcknowledgedExact(gate: Gate, events: seq<GateEvent>)
    requires Fresh(gate)
    ensures IsGateBlocking(Run(gate, events)) ==>
              (Run(gate, events).status == SYNC_ACKED
               <==> gate.requiredAgentIds != [] && Acknowledgers(gate, events) == Elements(gate.requiredAgentIds))
  {
    var last := Run(gate, events);
    assert gate.requiredAgentIds != [] ==> gate.requiredAgentIds[0] !in gate.ackedAgentIds;
    RunKeepsStatus(gate, events);
    RunKeeps(gate, events);
    forall id ensures (id in last.requiredAgentIds <==> id in Elements(last.requiredAgentIds))
                   && (id in last.ackedAgentIds <==> id in Acknowledgers(gate, events)) {
      assert id in last.ackedAgentIds <==> id in Elements(last.ackedAgentIds);
    }
  }

  // ---- why a gate opens -------------------------------------------------------------------------------------

  predicate Timed(event: GateEvent) {
    event.Ack? || event.Reconcile?
  }

  /** A deadline that cancels had passed at some call. */
  predicate TimedOut(gate: Gate, events: seq<GateEvent>) {
    gate.policy.timeoutAction == TIMEOUT_CANCEL
    && exists event :: event in events && Timed(event) && Passed(gate.policy.deadlineAt, event.now)
  }

  predicate Opens(gate: Gate, events: seq<GateEvent>, heard: set<string>) {
    || Resolve in events
    || TimedOut(gate, events)
    || (gate.policy.kind == QUORUM_ACK && |heard| >= Quorum(gate))
  }

  /** Why reconciling opens a gate. */
  lemma ReconcileOpens(gate: Gate, now: int)
    requires IsGateBlocking(gate) && ReconcileGate(gate, now).status == READY_TO_CONTINUE
    ensures (gate.policy.timeoutAction == TIMEOUT_CANCEL && Passed(gate.policy.deadlineAt, now))
         || (gate.policy.kind == QUORUM_ACK && |gate.ackedAgentIds| >= Quorum(gate))
  {
  }

  lemma OpensNow(gate: Gate, event: GateEvent, last: Gate)
    requires Timed(event) && SameTerms(last, gate) && Honest(last)
    requires (last.policy.timeoutAction == TIMEOUT_CANCEL && Passed(last.policy.deadlineAt, event.now))
          || (last.policy.kind == QUORUM_ACK && |last.ackedAgentIds| >= Quorum(last))
    ensures Opens(gate, [event], Elements(last.ackedAgentIds))
  {
    DistinctSize(last.ackedAgentIds);
    assert event in [event];
  }

  lemma AckOpens(gate: Gate, agent: string, now: int)
    requires Honest(gate) && IsGateBlocking(gate) && Acknowledge(gate, agent, now).Done?
    requires Acknowledge(gate, agent, now).gate.status == READY_TO_CONTINUE
    ensures Opens(gate, [Ack(agent, now)], Elements(gate.ackedAgentIds) + {agent})
  {
    WithAckKeeps(gate, agent);
    var acked := WithAck(gate, agent);
    var marked := if AllAcked(acked) then acked.(status := SYNC_ACKED) else acked;
    ReconcileOpens(marked, now);
    OpensNow(gate, Ack(agent, now), marked);
  }

  lemma StepOpens(gate: Gate, event: GateEvent)
    requires Honest(gate) && IsGateBlocking(gate) && Step(gate, event).status == READY_TO_CONTINUE
    ensures Opens(gate, [event], Elements(gate.ackedAgentIds) + Heard(gate, event))
  {
    match event
    case Ack(agent, now) => AckOpens(gate, agent, now);
    case Reconcile(now) =>
      ReconcileOpens(gate, now);
      OpensNow(gate, event, gate);
      assert Elements(gate.ackedAgentIds) + {} == Elements(gate.ackedAgentIds);
    case Resolve => assert event in [event];
    case Cancel =>
  }

  lemma OpensLater(gate: Gate, next: Gate, event: GateEvent, rest: seq<GateEvent>, heard: set<string>)
    requires SameTerms(next, gate) && Opens(next, rest, heard)
    ensures Opens(gate, [event] + rest, heard)
  {
    assert forall e :: e in rest ==> e in [event] + rest;
  }

  lemma OpensWithMore(gate: Gate, event: GateEvent, rest: seq<GateEvent>, heard: set<string>, more: set<string>)
    requires Opens(gate, [event], heard) && heard <= more
    ensures Opens(gate, [event] + rest, more)
  {
    SubsetSize(heard, more);
    assert forall e :: e in [event] ==> e in [event] + rest;
  }

  lemma {:induction false} OpenedFor(gate: Gate, events: seq<GateEvent>)
    requires Honest(gate) && IsGateBlocking(gate) && Run(gate, events).status == READY_TO_CONTINUE
    ensures Opens(gate, events, Elements(gate.ackedAgentIds) + Acknowledgers(gate, events))
    decreases |events|
  {
    if events != [] {
      var event, rest := events[0], events[1..];
      var next := Step(gate, event);
      var heard := Elements(gate.ackedAgentIds) + Acknowledgers(gate, events);
      assert events == [event] + rest;
      StepKeeps(gate, event);
      assert heard == Elements(next.ackedAgentIds) + Acknowledgers(next, rest);
      if next.status == READY_TO_CONTINUE {
        StepOpens(gate, event);
        OpensWithMore(gate, event, rest, Elements(gate.ackedAgentIds) + Heard(gate, event), heard);
      } else if IsGateBlocking(next) {
        OpenedFor(next, rest);
        OpensLater(gate, next, event, rest, heard);
      } else {
        CancelledStays(next, rest);
      }
    }
  }

  lemma {:induction false} CancelledStays(gate: Gate, events: seq<GateEvent>)
    requires !IsGateBlocking(gate)
    ensures Run(gate, events) == gate && Acknowledgers(gate, events) == {}
    decreases |events|
  {
    if events != [] {
      CancelledStays(gate, events[1..]);
    }
  }

  /** Safety: in every run of a new gate it opens only by an explicit resolution, by a passed deadline that cancels, or
      because a quorum of different required agents acknowledged. */
  lemma OpensOnlyFor(gate: Gate, events: seq<GateEvent>)
    requires Fresh(gate)
    ensures Run(gate, events).status == READY_TO_CONTINUE ==> Opens(gate, events, Acknowledgers(gate, events))
  {
    if Run(gate, events).status == READY_TO_CONTINUE {
      OpenedFor(gate, events);
      assert Elements(gate.ackedAgentIds) + Acknowledgers(gate, events) == Acknowledgers(gate, events);
    }
  }

  // ---- quorum gates -----------------------------------------------------------------------------------------

  /** A quorum gate without a deadline or a lease. */
  predicate PureQuorum(gate: Gate) {
    && gate.policy.kind == QUORUM_ACK && Quorum(gate) > 0
    && gate.policy.deadlineAt.None? && gate.policy.leaseExpiresAt.None?
  }

  /** The gate is open exactly from the quorum on. */
  predicate QuorumDecides(gate: Gate) {
    && PureQuorum(gate) && gate.status != NEEDS_SYNC && gate.status != CANCELLED
    && (gate.status == READY_TO_CONTINUE <==> |gate.ackedAgentIds| >= Quorum(gate))
  }

  lemma {:induction false} RunKeepsQuorum(gate: Gate, events: seq<GateEvent>)
    requires QuorumDecides(gate) && Resolve !in events && Cancel !in events
    ensures QuorumDecides(Run(gate, events))
    decreases |events|
  {
    if events != [] {
      assert events[0] in events;
      assert forall e :: e in events[1..] ==> e in events;
      RunKeepsQuorum(Step(gate, events[0]), events[1..]);
    }
  }

  /** A quorum gate that nobody resolves or cancels opens in every run exactly when a quorum of different required
      agents has acknowledged, with the very call that completes it. */
  lemma QuorumGateExact(gate: Gate, events: seq<GateEvent>)
    requires Fresh(gate) && gate.status == SYNC_REQUESTED && PureQuorum(gate)
    requires Resolve !in events && Cancel !in events
    ensures Run(gate, events).status == READY_TO_CONTINUE <==> |Acknowledgers(gate, events)| >= Quorum(gate)
  {
    RunKeepsQuorum(gate, events);
    RunKeeps(gate, events);
    QuorumIsRequiredAgents(gate, events, Quorum(gate));
  }

  // ---- single calls -----------------------------------------------------------------------------------------

  /** An acknowledgement is taken exactly from a required agent while synchronisation is requested. Then the agent is
      listed, others stay listed, and if the gate blocks on it is marked as acknowledged exactly when everyone required
      is listed. */
  lemma AckExact(gate: Gate, agent: string, now: int)
    ensures var outcome := Serve(gate, Ack(agent, now));
            && (outcome == NotRequired <==> agent !in gate.requiredAgentIds)
            && (outcome == WrongState <==> agent in gate.requiredAgentIds && gate.status != SYNC_REQUESTED)
            && (outcome.Done? ==>
                  && Elements(outcome.gate.ackedAgentIds) == Elements(gate.ackedAgentIds) + {agent}
                  && SameTerms(outcome.gate, gate)
                  && outcome.gate.status in {SYNC_REQUESTED, SYNC_ACKED, READY_TO_CONTINUE}
                  && (outcome.gate.status == SYNC_ACKED ==> Elements(gate.requiredAgentIds) <= Elements(outcome.gate.ackedAgentIds))
                  && (outcome.gate.status == SYNC_REQUESTED ==> !(Elements(gate.requiredAgentIds) <= Elements(outcome.gate.ackedAgentIds))))
  {
    if agent in gate.requiredAgentIds && gate.status == SYNC_REQUESTED {
      AckedElements(gate, agent);
      var acked := WithAck(gate, agent);
      assert agent in acked.requiredAgentIds;
      assert AllAcked(acked) <==> Elements(gate.requiredAgentIds) <= Elements(acked.ackedAgentIds) by {
        assert forall id :: id in acked.requiredAgentIds <==> id in Elements(gate.requiredAgentIds);
        assert forall id :: id in acked.ackedAgentIds <==> id in Elements(acked.ackedAgentIds);
      }
    }
  }

  lemma AckedElements(gate: Gate, agent: string)
    ensures Elements(WithAck(gate, agent).ackedAgentIds) == Elements(gate.ackedAgentIds) + {agent}
    ensures SameTerms(WithAck(gate, agent), gate) && WithAck(gate, agent).status == gate.status
  {
    var acked := gate.ackedAgentIds;
    if agent !in acked {
      assert Elements(acked + [agent]) == Elements(acked) + {agent};
    } else {
      assert Elements(acked) == Elements(acked) + {agent};
    }
  }

  /** A gate that waits for acknowledgements can be resolved, any gate that blocks can be cancelled, and a gate that is
      open or cancelled stays as it is. */
  lemma ResolveAndCancelExact(gate: Gate)
    ensures Serve(gate, Resolve)
         == if gate.status in {SYNC_REQUESTED, SYNC_ACKED} then Done(gate.(status := READY_TO_CONTINUE)) else WrongState
    ensures Serve(gate, Cancel)
         == if gate.status in {NEEDS_SYNC, SYNC_REQUESTED, SYNC_ACKED} then Done(gate.(status := CANCELLED)) else WrongState
    ensures gate.status in {READY_TO_CONTINUE, CANCELLED} ==> forall event :: Step(gate, event) == gate
  {
  }
}
