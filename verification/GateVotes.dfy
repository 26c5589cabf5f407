/** Votes, acknowledgements and liveness of a synchronisation gate. */
module GateVotes {
  import opened Text
  import opened LastWrite
  import opened Lists
  import opened SyncGate

  datatype VoteKind = APPROVE | REJECT | ABSTAIN | ESCALATE

  type Vote = Entry<VoteKind>

  datatype VoteCounts = VoteCounts(approve: nat, reject: nat, abstain: nat, escalate: nat) {
    function Plus(kind: VoteKind): VoteCounts {
      match kind
      case APPROVE => this.(approve := approve + 1)
      case REJECT => this.(reject := reject + 1)
      case ABSTAIN => this.(abstain := abstain + 1)
      case ESCALATE => this.(escalate := escalate + 1)
    }
  }

  /** The agents among some whose latest vote is of a kind. */
  function Voting(latest: map<string, VoteKind>, agents: set<string>, kind: VoteKind): set<string> {
    set a | a in agents && a in latest && latest[a] == kind
  }

  function Tally(latest: map<string, VoteKind>, agents: set<string>): VoteCounts {
    VoteCounts(|Voting(latest, agents, APPROVE)|, |Voting(latest, agents, REJECT)|,
               |Voting(latest, agents, ABSTAIN)|, |Voting(latest, agents, ESCALATE)|)
  }

  lemma TallyMore(latest: map<string, VoteKind>, agents: set<string>, a: string)
    requires a in latest && a !in agents
    ensures Tally(latest, agents + {a}) == Tally(latest, agents).Plus(latest[a])
  {
    VotingMore(latest, agents, a, APPROVE);
    VotingMore(latest, agents, a, REJECT);
    VotingMore(latest, agents, a, ABSTAIN);
    VotingMore(latest, agents, a, ESCALATE);
  }

  lemma VotingMore(latest: map<string, VoteKind>, agents: set<string>, a: string, kind: VoteKind)
    requires a in latest && a !in agents
    ensures |Voting(latest, agents + {a}, kind)| == |Voting(latest, agents, kind)| + (if latest[a] == kind then 1 else 0)
  {
    assert Voting(latest, agents + {a}, kind) == Voting(latest, agents, kind) + (if latest[a] == kind then {a} else {});
  }

  method LastVotes(votes: seq<Vote>) returns (lastVoteByAgent: map<string, VoteKind>)
    ensures lastVoteByAgent == Latest(votes)
  {
    lastVoteByAgent := map[];
    for i := 0 to |votes|
      invariant lastVoteByAgent == Latest(votes[..i])
    {
      lastVoteByAgent := lastVoteByAgent[votes[i].agent := votes[i].value];
      assert votes[..i + 1][..i] == votes[..i];
    }
    assert votes[..|votes|] == votes;
  }

  lemma TallyNobody(latest: map<string, VoteKind>)
    ensures Tally(latest, {}) == VoteCounts(0, 0, 0, 0)
  {
    assert forall kind :: Voting(latest, {}, kind) == {};
  }

  /** The counting loop; the order in which the map lists its agents does not matter. */
  method TallyVotes(latest: map<string, VoteKind>) returns (counts: VoteCounts)
    ensures counts == Tally(latest, latest.Keys)
    ensures counts.approve == |set a | a in latest && latest[a] == APPROVE|
    ensures counts.reject == |set a | a in latest && latest[a] == REJECT|
    ensures counts.abstain == |set a | a in latest && latest[a] == ABSTAIN|
    ensures counts.escalate == |set a | a in latest && latest[a] == ESCALATE|
  {
    counts := VoteCounts(0, 0, 0, 0);
    var pending := latest.Keys;
    ghost var done: set<string> := {};
    TallyNobody(latest);
    while pending != {}
      invariant done !! pending && done + pending == latest.Keys
      invariant counts == Tally(latest, done)
      decreases |pending|
    {
      var agent :| agent in pending;
      TallyMore(latest, done, agent);
      counts := counts.Plus(latest[agent]);
      pending, done := pending - {agent}, done + {agent};
    }
    assert done == latest.Keys;
    assert forall kind :: Voting(latest, done, kind) == set a | a in latest && latest[a] == kind;
  }

  /** The agents whose last vote is of a kind. */
  function LastVoters(votes: seq<Vote>, kind: VoteKind): set<string> {
    set v | v in votes && LastSays(votes, v.agent, kind) :: v.agent
  }

  lemma VotingExact(votes: seq<Vote>, kind: VoteKind)
    ensures Voting(Latest(votes), Latest(votes).Keys, kind) == LastVoters(votes, kind)
  {
    forall agent ensures agent in Voting(Latest(votes), Latest(votes).Keys, kind) <==> agent in LastVoters(votes, kind) {
      LatestSays(votes, agent, kind);
      if LastSays(votes, agent, kind) {
        var i :| 0 <= i < |votes| && LastAt(votes, i, agent, kind);
        assert votes[i] in votes && votes[i].agent == agent;
      }
    }
  }

  /** Each field counts the agents whose last vote is of its kind. */
  method CountVotes(votes: seq<Vote>) returns (counts: VoteCounts)
    ensures counts == Tally(Latest(votes), Latest(votes).Keys)
    ensures counts.approve == |LastVoters(votes, APPROVE)| && counts.reject == |LastVoters(votes, REJECT)|
    ensures counts.abstain == |LastVoters(votes, ABSTAIN)| && counts.escalate == |LastVoters(votes, ESCALATE)|
  {
    var lastVoteByAgent := LastVotes(votes);
    counts := TallyVotes(lastVoteByAgent);
    VotingExact(votes, APPROVE);
    VotingExact(votes, REJECT);
    VotingExact(votes, ABSTAIN);
    VotingExact(votes, ESCALATE);
  }

  /** Spamming votes does not help: the counts add up to the number of distinct voters. */
  lemma {:induction false} CountsSumToVoters(latest: map<string, VoteKind>, agents: set<string>)
    requires agents <= latest.Keys
    ensures var t := Tally(latest, agents); t.approve + t.reject + t.abstain + t.escalate == |agents|
    decreases |agents|
  {
    if agents == {} {
      assert forall kind :: Voting(latest, {}, kind) == {};
    } else {
      var a :| a in agents;
      CountsSumToVoters(latest, agents - {a});
      TallyMore(latest, agents - {a}, a);
      assert agents - {a} + {a} == agents;
    }
  }

  /** The voters are the agents with at least one vote. */
  lemma VotersAreAgents(votes: seq<Vote>, agent: string)
    ensures agent in Latest(votes) <==> exists v :: v in votes && v.agent == agent
  {
    LatestIsLast(votes, agent);
    if Of(votes, agent) != [] {
      var v := Of(votes, agent)[0];
      AllOfAgent(votes, agent);
      InOf(votes, v);
    }
    if v :| v in votes && v.agent == agent {
      InOf(votes, v);
    }
  }

  lemma {:induction false} AllOfAgent<V>(log: seq<Entry<V>>, agent: string)
    ensures forall e :: e in Of(log, agent) ==> e.agent == agent
    decreases |log|
  {
    if log != [] {
      AllOfAgent(log[..|log| - 1], agent);
    }
  }

  /** Counting ignores how the votes of different agents interleave. */
  lemma CountsIgnoreInterleaving(a: seq<Vote>, b: seq<Vote>)
    requires SameButForInterleaving(a, b)
    ensures Tally(Latest(a), Latest(a).Keys) == Tally(Latest(b), Latest(b).Keys)
  {
    LatestIgnoresInterleaving(a, b);
  }

  // ---- available actions ----------------------------------------------------------------------------------

  datatype GateAction = ACK | VOTE | CHANGE_VOTE | RESOLVE | CANCEL | ESCALATE_GATE | REQUEST_MORE_INFO | VIEW_ONLY

  function ActionsFor(gate: Gate, agentId: string, hasVoted: bool): seq<GateAction> {
    if !IsGateBlocking(gate) then [VIEW_ONLY]
    else
      var isRequired, isOwner := agentId in gate.requiredAgentIds, gate.requestedByAgentId == agentId;
      var isEscalation := agentId in gate.policy.escalationAgentIds;
      var actions := (if isRequired && agentId !in gate.ackedAgentIds then [ACK] else [])
                     + (if isRequired || isOwner then [if hasVoted then CHANGE_VOTE else VOTE] else [])
                     + (if isEscalation || isOwner then [RESOLVE, CANCEL, ESCALATE_GATE, REQUEST_MORE_INFO] else []);
      if |actions| > 0 then actions else [VIEW_ONLY]
  }

  method ComputeAvailableActions(gate: Gate, agentId: string, votes: seq<Vote>) returns (actions: seq<GateAction>)
    ensures actions == ActionsFor(gate, agentId, agentId in Latest(votes))
  {
    if !IsGateBlocking(gate) {
      return [VIEW_ONLY];
    }
    var isRequired, isOwner := agentId in gate.requiredAgentIds, gate.requestedByAgentId == agentId;
    var isEscalation := agentId in gate.policy.escalationAgentIds;
    var lastVoteByAgent := LastVotes(votes);
    actions := [];
    if isRequired && agentId !in gate.ackedAgentIds {
      actions := actions + [ACK];
    }
    if isRequired || isOwner {
      actions := actions + [if agentId in lastVoteByAgent then CHANGE_VOTE else VOTE];
    }
    if isEscalation || isOwner {
      actions := actions + [RESOLVE, CANCEL, ESCALATE_GATE, REQUEST_MORE_INFO];
    }
    if |actions| == 0 {
      actions := [VIEW_ONLY];
    }
  }

  /** On a blocking gate: required agents acknowledge once; required agents and the requester vote, and vote for the
      first time exactly while no vote of theirs is on record; the requester and escalation agents steer the gate; an
      agent can only look on exactly when it has no role at all. */
  lemma ActionsExact(gate: Gate, agentId: string, votes: seq<Vote>)
    requires IsGateBlocking(gate)
    ensures var actions := ActionsFor(gate, agentId, agentId in Latest(votes));
            var voter := agentId in gate.requiredAgentIds || gate.requestedByAgentId == agentId;
            && (ACK in actions <==> agentId in gate.requiredAgentIds && agentId !in gate.ackedAgentIds)
            && (forall steer :: steer in {RESOLVE, CANCEL, ESCALATE_GATE, REQUEST_MORE_INFO} ==>
                  (steer in actions
                   <==> agentId in gate.policy.escalationAgentIds || gate.requestedByAgentId == agentId))
            && (VOTE in actions <==> voter && !(exists v :: v in votes && v.agent == agentId))
            && (CHANGE_VOTE in actions <==> voter && exists v :: v in votes && v.agent == agentId)
            && (VIEW_ONLY in actions <==> !voter && agentId !in gate.policy.escalationAgentIds)
  {
    VotersAreAgents(votes, agentId);
    var owner := gate.requestedByAgentId == agentId;
    var required := agentId in gate.requiredAgentIds;
    var escalation := agentId in gate.policy.escalationAgentIds;
    if !required && !owner && !escalation {
      assert ActionsFor(gate, agentId, agentId in Latest(votes)) == [VIEW_ONLY];
    }
  }

  /** On a gate that no longer blocks there is nothing to do but look. */
  lemma ClosedGateOnlyShows(gate: Gate, agentId: string, votes: seq<Vote>)
    requires gate.status in {READY_TO_CONTINUE, CANCELLED}
    ensures ActionsFor(gate, agentId, agentId in Latest(votes)) == [VIEW_ONLY]
  {
  }

  lemma ActionsIgnoreInterleaving(gate: Gate, agentId: string, a: seq<Vote>, b: seq<Vote>)
    requires SameButForInterleaving(a, b)
    ensures ActionsFor(gate, agentId, agentId in Latest(a)) == ActionsFor(gate, agentId, agentId in Latest(b))
  {
    LatestIgnoresInterleaving(a, b);
  }

  // ---- liveness -------------------------------------------------------------------------------------------

  datatype LivenessAction = CONTINUE_BLOCKING | ESCALATE_LIVENESS | ALLOW_QUORUM_RESOLVE | AUTO_RESOLVE

  predicate AllAcked(gate: Gate) {
    gate.requiredAgentIds != [] && forall id :: id in gate.requiredAgentIds ==> id in gate.ackedAgentIds
  }

  function PendingFrom(required: seq<string>, acked: seq<string>): seq<string> {
    if required == [] then []
    else if required[0] in acked then PendingFrom(required[1..], acked)
    else [required[0]] + PendingFrom(required[1..], acked)
  }

  function PendingAgents(gate: Gate): seq<string> {
    PendingFrom(gate.requiredAgentIds, gate.ackedAgentIds)
  }

  lemma {:induction false} PendingExact(required: seq<string>, acked: seq<string>, id: string)
    ensures id in PendingFrom(required, acked) <==> id in required && id !in acked
    decreases |required|
  {
    if required != [] {
      PendingExact(required[1..], acked, id);
      assert required == [required[0]] + required[1..];
    }
  }

  /** Everyone has acknowledged exactly when somebody is required and nobody is pending. */
  lemma AllAckedExact(gate: Gate)
    ensures AllAcked(gate) <==> gate.requiredAgentIds != [] && PendingAgents(gate) == []
  {
    var pending := PendingAgents(gate);
    forall id {
      PendingExact(gate.requiredAgentIds, gate.ackedAgentIds, id);
    }
    assert pending != [] ==> pending[0] in pending;
  }

  function Quorum(gate: Gate): nat {
    if gate.policy.quorum.Some? then gate.policy.quorum.value else (|gate.requiredAgentIds| + 1) / 2
  }

  /** The quorum test counts acknowledgements, whoever gave them. */
  predicate QuorumMet(gate: Gate, quorum: nat) {
    |gate.ackedAgentIds| >= quorum
  }

  function EvaluateGateLiveness(gate: Gate, now: int): LivenessAction {
    if !IsGateBlocking(gate) then CONTINUE_BLOCKING
    else if gate.policy.deadlineAt.Some? && now >= gate.policy.deadlineAt.value then
      if gate.policy.timeoutAction == TIMEOUT_CANCEL then AUTO_RESOLVE else ESCALATE_LIVENESS
    else if gate.policy.leaseExpiresAt.Some? && now >= gate.policy.leaseExpiresAt.value then ESCALATE_LIVENESS
    else if gate.policy.kind == QUORUM_ACK && QuorumMet(gate, Quorum(gate)) then ALLOW_QUORUM_RESOLVE
    else CONTINUE_BLOCKING
  }

  /** Without a configured quorum, half of the required agents rounded up. */
  lemma DefaultQuorumIsHalf(gate: Gate)
    requires gate.policy.quorum.None?
    ensures 2 * Quorum(gate) >= |gate.requiredAgentIds| > 2 * (Quorum(gate) - 1)
         || (gate.requiredAgentIds == [] && Quorum(gate) == 0)
  {
  }

  predicate Passed(instant: Option<int>, now: int) {
    instant.Some? && instant.value <= now
  }

  /** Cancellation only by a passed deadline that asks for it, escalation by any other passed deadline or lease, and a
      quorum only before both. */
  lemma LivenessExact(gate: Gate, now: int)
    ensures var action, late := EvaluateGateLiveness(gate, now), Passed(gate.policy.deadlineAt, now);
            var cancels := gate.policy.timeoutAction == TIMEOUT_CANCEL;
            && (action == AUTO_RESOLVE <==> IsGateBlocking(gate) && late && cancels)
            && (action == ESCALATE_LIVENESS
                <==> IsGateBlocking(gate)
                     && if late then !cancels else Passed(gate.policy.leaseExpiresAt, now))
            && (action == ALLOW_QUORUM_RESOLVE
                <==> IsGateBlocking(gate) && !late && !Passed(gate.policy.leaseExpiresAt, now)
                     && gate.policy.kind == QUORUM_ACK && |gate.ackedAgentIds| >= Quorum(gate))
  {
  }

  /** Over time a gate moves from waiting or quorum to escalation or cancellation and never back; further
      acknowledgements never withdraw a quorum. */
  lemma LivenessIsMonotone(gate: Gate, now: int, later: int, more: seq<string>)
    requires now <= later
    ensures EvaluateGateLiveness(gate, now) == AUTO_RESOLVE ==> EvaluateGateLiveness(gate, later) == AUTO_RESOLVE
    ensures EvaluateGateLiveness(gate, now) == ESCALATE_LIVENESS ==>
              EvaluateGateLiveness(gate, later) in {ESCALATE_LIVENESS, AUTO_RESOLVE}
    ensures EvaluateGateLiveness(gate, now) == ALLOW_QUORUM_RESOLVE ==>
              EvaluateGateLiveness(gate.(ackedAgentIds := gate.ackedAgentIds + more), now) == ALLOW_QUORUM_RESOLVE
  {
  }

  /** Counting acknowledgements is counting the required agents that acknowledged, whatever the quorum, exactly when
      each agent is listed once and only required agents are. */
  lemma QuorumCountsRequired(gate: Gate)
    ensures var acked, required := Elements(gate.ackedAgentIds), Elements(gate.requiredAgentIds);
            (forall quorum: nat :: QuorumMet(gate, quorum) <==> |acked * required| >= quorum)
            <==> Distinct(gate.ackedAgentIds) && acked <= required
  {
    var acked, required := Elements(gate.ackedAgentIds), Elements(gate.requiredAgentIds);
    DistinctSize(gate.ackedAgentIds);
    SubsetSize(acked * required, acked);
    assert acked <= required ==> acked * required == acked;
    assert acked * required == acked ==> acked <= required;
    assert QuorumMet(gate, |gate.ackedAgentIds|);
  }

  /** The acknowledgement of an outsider opens the gate although no required agent acknowledged. */
  lemma OutsiderMeetsQuorum(gate: Gate, required: string, outsider: string, now: int)
    requires required != outsider && IsGateBlocking(gate)
    requires gate.requiredAgentIds == [required] && gate.ackedAgentIds == [outsider]
    requires gate.policy.kind == QUORUM_ACK && gate.policy.quorum.None?
    requires gate.policy.deadlineAt.None? && gate.policy.leaseExpiresAt.None?
    ensures PendingAgents(gate) == [required] && EvaluateGateLiveness(gate, now) == ALLOW_QUORUM_RESOLVE
  {
    var none: seq<string> := [];
    assert gate.requiredAgentIds[1..] == none;
    assert required !in gate.ackedAgentIds;
    assert PendingFrom(gate.requiredAgentIds, gate.ackedAgentIds) == [required] + PendingFrom(none, gate.ackedAgentIds);
  }
}
