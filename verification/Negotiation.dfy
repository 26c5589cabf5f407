/** Rounds of a negotiation: stances, deadlock, and when to advance. */
module Negotiation {
  import opened Text
  import opened LastWrite
  import opened Lists

  datatype Status = OPEN | ROUND_ACTIVE | WAITING_FOR_RESPONSES | RESOLVED | DEADLOCKED | TIMED_OUT | ESCALATED

  datatype MessageKind = PROPOSAL | COUNTER | ACCEPT | REJECT | COMMENT

  datatype Content = Content(round: nat, kind: MessageKind)

  /** A message is an entry of its agent. */
  type Message = Entry<Content>

  /** Deadlines are instants; None stands for an absent or empty field. roundDeadline is the configured length. */
  datatype Session = Session(participantIds: seq<string>, status: Status, currentRound: nat, maxRounds: nat,
                             roundDeadline: nat, roundStartedAt: Option<int>, deadlineAt: Option<int>)

  datatype Action = CONTINUE | ADVANCE_ROUND | DEADLOCK | TIMEOUT | RESOLVE

  predicate IsNegotiationExpired(s: Session, now: int) {
    s.deadlineAt.Some? && s.deadlineAt.value <= now
  }

  predicate IsRoundExpired(s: Session, now: int) {
    s.roundStartedAt.Some? && s.roundStartedAt.value + s.roundDeadline <= now
  }

  /** The messages of one round, as stances of their agents. */
  function InRound(messages: seq<Message>, round: int): seq<Entry<MessageKind>> {
    if messages == [] then []
    else
      var last := messages[|messages| - 1];
      InRound(messages[..|messages| - 1], round)
      + if last.value.round == round then [Entry(last.agent, last.value.kind)] else []
  }

  /** The latest stance of each agent in a round. */
  function Stances(messages: seq<Message>, round: int): map<string, MessageKind> {
    Latest(InRound(messages, round))
  }

  function StanceOf(stances: map<string, MessageKind>, agent: string): Option<MessageKind> {
    if agent in stances then Some(stances[agent]) else None
  }

  predicate IsProposal(kind: MessageKind) {
    kind == PROPOSAL || kind == COUNTER
  }

  predicate HasNewProposal(messages: seq<Message>, round: int) {
    exists m :: m in messages && m.value.round == round && IsProposal(m.value.kind)
  }

  /** Deadlocked: from round 2 on, no new proposal and every participant's stance, or silence, as in the last round. */
  predicate Deadlocked(messages: seq<Message>, currentRound: int, participantIds: seq<string>) {
    && currentRound >= 2
    && !HasNewProposal(messages, currentRound)
    && forall p :: p in participantIds ==>
         StanceOf(Stances(messages, currentRound - 1), p) == StanceOf(Stances(messages, currentRound), p)
  }

  method RoundStances(messages: seq<Message>, round: int) returns (stances: map<string, MessageKind>)
    ensures stances == Stances(messages, round)
  {
    stances := map[];
    for i := 0 to |messages|
      invariant stances == Stances(messages[..i], round)
    {
      var m := messages[i];
      ghost var before := InRound(messages[..i], round);
      assert messages[..i + 1][..i] == messages[..i];
      if m.value.round == round {
        var e := Entry(m.agent, m.value.kind);
        assert InRound(messages[..i + 1], round) == before + [e];
        assert (before + [e])[..|before|] == before;
        stances := stances[m.agent := m.value.kind];
      } else {
        assert InRound(messages[..i + 1], round) == before;
      }
    }
    assert messages[..|messages|] == messages;
  }

  method DetectDeadlock(messages: seq<Message>, currentRound: int, participantIds: seq<string>) returns (b: bool)
    ensures b <==> Deadlocked(messages, currentRound, participantIds)
  {
    if currentRound < 2 {
      return false;
    }
    var prev := RoundStances(messages, currentRound - 1);
    var curr := RoundStances(messages, currentRound);
    if HasNewProposal(messages, currentRound) {
      return false;
    }
    for i := 0 to |participantIds|
      invariant forall j :: 0 <= j < i ==> StanceOf(prev, participantIds[j]) == StanceOf(curr, participantIds[j])
    {
      if StanceOf(prev, participantIds[i]) != StanceOf(curr, participantIds[i]) {
        return false;
      }
    }
    b := true;
  }

  predicate AllAccepted(s: Session, messages: seq<Message>) {
    s.participantIds != []
    && forall p :: p in s.participantIds ==> StanceOf(Stances(messages, s.currentRound), p) == Some(ACCEPT)
  }

  /** The number of agents that posted in the round. */
  function RespondedCount(messages: seq<Message>, round: int): nat {
    |Stances(messages, round).Keys|
  }

  /** Everyone had a say or time is up: what happens to the round. */
  function EndOfRound(s: Session, messages: seq<Message>): Action {
    if Deadlocked(messages, s.currentRound, s.participantIds) then DEADLOCK
    else if s.currentRound >= s.maxRounds then DEADLOCK
    else ADVANCE_ROUND
  }

  function Verdict(s: Session, messages: seq<Message>, now: int): Action {
    if s.status == RESOLVED || s.status == ESCALATED then RESOLVE
    else if IsNegotiationExpired(s, now) then TIMEOUT
    else if AllAccepted(s, messages) then RESOLVE
    else if !IsRoundExpired(s, now) && RespondedCount(messages, s.currentRound) < |s.participantIds| then CONTINUE
    else EndOfRound(s, messages)
  }

  method EvaluateNegotiation(s: Session, messages: seq<Message>, now: int) returns (action: Action)
    ensures action == Verdict(s, messages, now)
  {
    if s.status == RESOLVED {
      return RESOLVE;
    }
    if s.status == ESCALATED {
      return RESOLVE;
    }
    if IsNegotiationExpired(s, now) {
      return TIMEOUT;
    }
    var latestStance := RoundStances(messages, s.currentRound);
    if |s.participantIds| > 0 && forall p :: p in s.participantIds ==> StanceOf(latestStance, p) == Some(ACCEPT) {
      return RESOLVE;
    }
    if IsRoundExpired(s, now) {
      var stuck := DetectDeadlock(messages, s.currentRound, s.participantIds);
      if stuck {
        return DEADLOCK;
      }
      if s.currentRound >= s.maxRounds {
        return DEADLOCK;
      }
      return ADVANCE_ROUND;
    }
    var responded := latestStance.Keys;
    if |responded| < |s.participantIds| {
      return CONTINUE;
    }
    var stuck := DetectDeadlock(messages, s.currentRound, s.participantIds);
    if stuck {
      return DEADLOCK;
    }
    if s.currentRound >= s.maxRounds {
      return DEADLOCK;
    }
    return ADVANCE_ROUND;
  }

  predicate Closed(s: Session) {
    s.status == RESOLVED || s.status == ESCALATED
  }

  // ---- the verdict in terms of the messages -----------------------------------------------------------------

  /** A message of the round sets its agent's stance; others change nothing. */
  lemma StancesSnoc(init: seq<Message>, last: Message, round: int)
    ensures Stances(init + [last], round)
         == if last.value.round == round then Stances(init, round)[last.agent := last.value.kind] else Stances(init, round)
  {
    var messages := init + [last];
    assert messages[..|messages| - 1] == init;
    var before := InRound(init, round);
    if last.value.round == round {
      var e := Entry(last.agent, last.value.kind);
      assert InRound(messages, round) == before + [e];
      assert (before + [e])[..|before|] == before;
    } else {
      assert InRound(messages, round) == before;
    }
  }

  /** The message at i is the agent's last one in the round, and of this kind. */
  predicate LastInRoundAt(messages: seq<Message>, i: int, round: int, agent: string, kind: MessageKind) {
    && 0 <= i < |messages| && messages[i].agent == agent && messages[i].value.round == round && messages[i].value.kind == kind
    && forall j :: i < j < |messages| && messages[j].agent == agent ==> messages[j].value.round != round
  }

  /** The last message of the agent in the round is of this kind. */
  predicate LastInRound(messages: seq<Message>, round: int, agent: string, kind: MessageKind) {
    exists i :: 0 <= i < |messages| && LastInRoundAt(messages, i, round, agent, kind)
  }

  lemma {:induction false} StanceExact(messages: seq<Message>, round: int, agent: string, kind: MessageKind)
    ensures StanceOf(Stances(messages, round), agent) == Some(kind) <==> LastInRound(messages, round, agent, kind)
    decreases |messages|
  {
    if messages != [] {
      var init, last := messages[..|messages| - 1], messages[|messages| - 1];
      assert messages == init + [last];
      StanceExact(init, round, agent, kind);
      StancesSnoc(init, last, round);
      LastInRoundSnoc(init, last, round, agent, kind);
    }
  }

  lemma LastInRoundSnoc(init: seq<Message>, last: Message, round: int, agent: string, kind: MessageKind)
    ensures LastInRound(init + [last], round, agent, kind)
       <==> if last.agent == agent && last.value.round == round then last.value.kind == kind
            else LastInRound(init, round, agent, kind)
  {
    var messages := init + [last];
    if last.agent == agent && last.value.round == round {
      assert LastInRoundAt(messages, |init|, round, agent, kind) <==> last.value.kind == kind;
    } else {
      forall i ensures LastInRoundAt(messages, i, round, agent, kind) <==> LastInRoundAt(init, i, round, agent, kind) {
        assert 0 <= i < |init| ==> messages[i] == init[i];
        if LastInRoundAt(messages, i, round, agent, kind) {
          assert forall j :: i < j < |init| ==> messages[j] == init[j];
        }
      }
    }
  }

  /** Deadlock: from the second round on, when nobody made a proposal or a counter-proposal in the round and the last
      message of every participant, if any, is of the same kind as in the round before. */
  ghost predicate Stuck(messages: seq<Message>, round: int, participants: seq<string>) {
    && round >= 2
    && (forall m :: m in messages && m.value.round == round ==> m.value.kind !in {PROPOSAL, COUNTER})
    && forall p, kind :: p in participants ==>
         (LastInRound(messages, round - 1, p, kind) <==> LastInRound(messages, round, p, kind))
  }

  lemma SameStance(messages: seq<Message>, before: int, after: int, p: string)
    ensures StanceOf(Stances(messages, before), p) == StanceOf(Stances(messages, after), p)
       <==> forall kind :: LastInRound(messages, before, p, kind) <==> LastInRound(messages, after, p, kind)
  {
    var x, y := StanceOf(Stances(messages, before), p), StanceOf(Stances(messages, after), p);
    forall kind ensures (x == Some(kind) <==> LastInRound(messages, before, p, kind))
                     && (y == Some(kind) <==> LastInRound(messages, after, p, kind)) {
      StanceExact(messages, before, p, kind);
      StanceExact(messages, after, p, kind);
    }
    if x != y {
      var kind := if x.Some? then x.value else y.value;
      assert LastInRound(messages, before, p, kind) <==> x == Some(kind);
      assert LastInRound(messages, after, p, kind) <==> y == Some(kind);
    }
  }

  lemma DeadlockExact(messages: seq<Message>, round: int, participants: seq<string>)
    ensures Deadlocked(messages, round, participants) <==> Stuck(messages, round, participants)
  {
    forall p ensures StanceOf(Stances(messages, round - 1), p) == StanceOf(Stances(messages, round), p)
                <==> forall kind :: LastInRound(messages, round - 1, p, kind) <==> LastInRound(messages, round, p, kind) {
      SameStance(messages, round - 1, round, p);
    }
  }

  /** Everyone invited, and somebody is, accepted with the last message of the round. */
  ghost predicate Agreed(s: Session, messages: seq<Message>) {
    s.participantIds != [] && forall p :: p in s.participantIds ==> LastInRound(messages, s.currentRound, p, ACCEPT)
  }

  /** The agents with a message in the round. */
  function Posters(messages: seq<Message>, round: int): set<string> {
    set m | m in messages && m.value.round == round :: m.agent
  }

  lemma PostersExact(messages: seq<Message>, round: int)
    ensures Stances(messages, round).Keys == Posters(messages, round)
  {
    forall agent ensures agent in Stances(messages, round) <==> agent in Posters(messages, round) {
      SilenceHasNoStance(messages, round, agent);
    }
  }

  predicate Due(start: Option<int>, length: int, now: int) {
    start.Some? && start.value + length <= now
  }

  /** Each advice by its exact condition, read off session and messages: closed sessions first, then the deadline, then
      agreement, then the end of the round, which is due or in which as many agents posted as were invited. */
  lemma VerdictExact(s: Session, messages: seq<Message>, now: int)
    ensures var action, open := Verdict(s, messages, now), s.status !in {RESOLVED, ESCALATED};
            var undecided := open && !Due(s.deadlineAt, 0, now) && !Agreed(s, messages);
            var over := Due(s.roundStartedAt, s.roundDeadline, now) || |Posters(messages, s.currentRound)| >= |s.participantIds|;
            var stuck := Stuck(messages, s.currentRound, s.participantIds) || s.currentRound >= s.maxRounds;
            && (action == RESOLVE <==> !open || (!Due(s.deadlineAt, 0, now) && Agreed(s, messages)))
            && (action == TIMEOUT <==> open && Due(s.deadlineAt, 0, now))
            && (action == CONTINUE <==> undecided && !over)
            && (action == DEADLOCK <==> undecided && over && stuck)
            && (action == ADVANCE_ROUND <==> undecided && over && !stuck)
  {
    DeadlockExact(messages, s.currentRound, s.participantIds);
    PostersExact(messages, s.currentRound);
    forall p ensures StanceOf(Stances(messages, s.currentRound), p) == Some(ACCEPT)
                <==> LastInRound(messages, s.currentRound, p, ACCEPT) {
      StanceExact(messages, s.currentRound, p, ACCEPT);
    }
  }

  // ---- interleaving ---------------------------------------------------------------------------------------

  /** Taking a round and taking an agent's messages commute. */
  lemma {:induction false} RoundOfAgent(messages: seq<Message>, round: int, agent: string)
    ensures Of(InRound(messages, round), agent) == InRound(Of(messages, agent), round)
    decreases |messages|
  {
    if messages != [] {
      var init, last := messages[..|messages| - 1], messages[|messages| - 1];
      RoundOfAgent(init, round, agent);
      var inInit := InRound(init, round);
      if last.value.round == round {
        var e := Entry(last.agent, last.value.kind);
        assert InRound(messages, round) == inInit + [e];
        assert (inInit + [e])[..|inInit|] == inInit;
      } else {
        assert InRound(messages, round) == inInit;
      }
      if last.agent == agent {
        var own := Of(init, agent);
        assert (own + [last])[..|own|] == own;
        assert InRound(own + [last], round) == InRound(own, round) + if last.value.round == round then [Entry(last.agent, last.value.kind)] else [];
      }
    }
  }

  lemma StancesIgnoreInterleaving(a: seq<Message>, b: seq<Message>, round: int)
    requires SameButForInterleaving(a, b)
    ensures Stances(a, round) == Stances(b, round)
  {
    forall agent ensures Of(InRound(a, round), agent) == Of(InRound(b, round), agent) {
      RoundOfAgent(a, round, agent);
      RoundOfAgent(b, round, agent);
      assert Of(a, agent) == Of(b, agent);
    }
    LatestIgnoresInterleaving(InRound(a, round), InRound(b, round));
  }

  lemma ProposalsIgnoreInterleaving(a: seq<Message>, b: seq<Message>, round: int)
    requires SameButForInterleaving(a, b)
    ensures HasNewProposal(a, round) <==> HasNewProposal(b, round)
  {
    forall m ensures m in a <==> m in b {
      SameEntries(a, b, m);
    }
  }

  /** Any reordering that keeps each agent's own order leaves the deadlock test and the verdict unchanged. */
  lemma VerdictIgnoresInterleaving(s: Session, a: seq<Message>, b: seq<Message>, now: int)
    requires SameButForInterleaving(a, b)
    ensures Deadlocked(a, s.currentRound, s.participantIds) <==> Deadlocked(b, s.currentRound, s.participantIds)
    ensures Verdict(s, a, now) == Verdict(s, b, now)
  {
    StancesIgnoreInterleaving(a, b, s.currentRound - 1);
    StancesIgnoreInterleaving(a, b, s.currentRound);
    ProposalsIgnoreInterleaving(a, b, s.currentRound);
  }

  // ---- runs -----------------------------------------------------------------------------------------------

  /** One look at the session: what has been posted, the time, and when the round began. */
  datatype Look = Look(messages: seq<Message>, now: int, roundStartedAt: Option<int>)

  function At(s: Session, look: Look): Session {
    s.(roundStartedAt := look.roundStartedAt)
  }

  /** A driver that follows the advice: it opens the next round when told to and leaves the session alone otherwise. */
  function Follow(s: Session, look: Look): Session {
    if Verdict(At(s, look), look.messages, look.now) == ADVANCE_ROUND then At(s, look).(currentRound := s.currentRound + 1)
    else At(s, look)
  }

  function Advances(s: Session, looks: seq<Look>): nat
    decreases |looks|
  {
    if looks == [] then 0
    else (if Verdict(At(s, looks[0]), looks[0].messages, looks[0].now) == ADVANCE_ROUND then 1 else 0)
         + Advances(Follow(s, looks[0]), looks[1..])
  }

  /** However the looks fall, a negotiation advances at most maxRounds - currentRound times. */
  lemma {:induction false} AdvancesAreBounded(s: Session, looks: seq<Look>)
    ensures Advances(s, looks) <= if s.currentRound < s.maxRounds then s.maxRounds - s.currentRound else 0
    decreases |looks|
  {
    if looks != [] {
      AdvancesAreBounded(Follow(s, looks[0]), looks[1..]);
    }
  }

  ghost predicate Ends(s: Session, looks: seq<Look>)
    decreases |looks|
  {
    looks != [] &&
    (Verdict(At(s, looks[0]), looks[0].messages, looks[0].now) in {DEADLOCK, TIMEOUT, RESOLVE}
     || Ends(Follow(s, looks[0]), looks[1..]))
  }

  /** If every look finds its round expired, the negotiation ends within maxRounds - currentRound + 1 looks. */
  lemma {:induction false} ExpiredRoundsEnd(s: Session, looks: seq<Look>)
    requires forall k :: 0 <= k < |looks| ==> IsRoundExpired(At(s, looks[k]), looks[k].now)
    requires |looks| > if s.currentRound < s.maxRounds then s.maxRounds - s.currentRound else 0
    ensures Ends(s, looks)
    decreases |looks|
  {
    var action := Verdict(At(s, looks[0]), looks[0].messages, looks[0].now);
    if action == ADVANCE_ROUND {
      var next := Follow(s, looks[0]);
      forall k | 0 <= k < |looks[1..]| ensures IsRoundExpired(At(next, looks[1..][k]), looks[1..][k].now) {
        assert looks[1..][k] == looks[k + 1];
        assert IsRoundExpired(At(s, looks[k + 1]), looks[k + 1].now);
      }
      ExpiredRoundsEnd(next, looks[1..]);
    }
  }

  // ---- who has responded ----------------------------------------------------------------------------------

  lemma {:induction false} SilenceHasNoStance(messages: seq<Message>, round: int, agent: string)
    ensures agent in Stances(messages, round) <==> exists m :: m in messages && m.agent == agent && m.value.round == round
    decreases |messages|
  {
    if messages != [] {
      var init, last := messages[..|messages| - 1], messages[|messages| - 1];
      SilenceHasNoStance(init, round, agent);
      assert messages == init + [last];
      StancesSnoc(init, last, round);
    }
  }

  /** How many participant entries repeat an earlier one. */
  function Repeats(s: Session): int {
    |s.participantIds| - |Elements(s.participantIds)|
  }

  /** The count of responses says that some participant is silent exactly when nobody is silent and no repeated entry
      is left waiting, or when outsiders that posted are fewer than silent participants and repeated entries. */
  lemma WaitingExact(s: Session, messages: seq<Message>)
    ensures var posted, invited := Stances(messages, s.currentRound).Keys, Elements(s.participantIds);
            var waits := RespondedCount(messages, s.currentRound) < |s.participantIds|;
            var silent := exists p :: p in s.participantIds && p !in posted;
            && (waits <==> |posted - invited| < |invited - posted| + Repeats(s))
            && ((waits <==> silent)
                <==> if invited <= posted then Repeats(s) <= |posted - invited|
                     else |posted - invited| < |invited - posted| + Repeats(s))
  {
    var posted, invited := Stances(messages, s.currentRound).Keys, Elements(s.participantIds);
    SplitSize(posted, invited);
    SplitSize(invited, posted);
    assert posted * invited == invited * posted;
    if invited <= posted {
      assert invited - posted == {};
      assert forall p :: p in s.participantIds ==> p in invited;
    } else {
      var p :| p in invited && p !in posted;
    }
  }

  /** For distinct participants: exactly when nobody is silent, or fewer outsiders posted than participants are
      silent. */
  lemma WaitingOfDistinct(s: Session, messages: seq<Message>)
    requires Distinct(s.participantIds)
    ensures var posted, invited := Stances(messages, s.currentRound).Keys, Elements(s.participantIds);
            var silent := exists p :: p in s.participantIds && p !in posted;
            (RespondedCount(messages, s.currentRound) < |s.participantIds| <==> silent)
            <==> !silent || |posted - invited| < |invited - posted|
  {
    WaitingExact(s, messages);
    DistinctSize(s.participantIds);
  }

  /** A post by an outsider counts as a response: the round advances although participant q never spoke. */
  lemma OutsiderEndsTheWait(p: string, q: string, o: string, now: int)
    requires p != q && o != p && o != q
    ensures var s := Session([p, q], ROUND_ACTIVE, 1, 3, 15, None, None);
            var messages := [Entry(p, Content(1, COMMENT)), Entry(o, Content(1, COMMENT))];
            q !in Stances(messages, 1) && Verdict(s, messages, now) == ADVANCE_ROUND
  {
    var s := Session([p, q], ROUND_ACTIVE, 1, 3, 15, None, None);
    var messages := [Entry(p, Content(1, COMMENT)), Entry(o, Content(1, COMMENT))];
    var stances := Stances(messages, 1);
    forall agent ensures agent in stances <==> agent in {p, o} {
      SilenceHasNoStance(messages, 1, agent);
      assert messages[0] in messages && messages[1] in messages;
    }
    assert stances.Keys == {p, o};
    assert s.participantIds[1] == q;
    assert StanceOf(stances, q) == None;
  }
}
