/** The life of a negotiation under the server: posts, lazy reconciliation, explicit resolution and escalation. */
module NegotiationService {
  import opened Text
  import opened LastWrite
  import opened Lists
  import opened Negotiation

  /** A session with the messages posted to it. */
  datatype Desk = Desk(session: Session, messages: seq<Message>)

  datatype Event = Post(agent: string, kind: MessageKind) | Reconcile(now: int) | Conclude | Escalate

  /** The desk after a call, or the reason it was refused. */
  datatype Outcome = Done(desk: Desk) | Forbidden | WrongState

  predicate Open(s: Session) {
    s.status == ROUND_ACTIVE || s.status == WAITING_FOR_RESPONSES
  }

  /** A post belongs to the current round; the one that completes the round marks the session. */
  function PostMessage(d: Desk, agent: string, kind: MessageKind): Outcome {
    if !Open(d.session) then WrongState
    else if agent !in d.session.participantIds then Forbidden
    else
      var s, messages := d.session, d.messages + [Entry(agent, Content(d.session.currentRound, kind))];
      var complete := RespondedCount(messages, s.currentRound) >= |s.participantIds|;
      Done(Desk(if complete && s.status == ROUND_ACTIVE then s.(status := WAITING_FOR_RESPONSES) else s, messages))
  }

  /** The advice of the evaluation is carried out; only resolved and escalated sessions are left alone. */
  function ReconcileDesk(d: Desk, now: int): Desk {
    var s := d.session;
    if Negotiation.Closed(s) then d
    else
      match Verdict(s, d.messages, now)
      case RESOLVE => d.(session := s.(status := RESOLVED))
      case TIMEOUT => d.(session := s.(status := TIMED_OUT))
      case DEADLOCK => d.(session := s.(status := DEADLOCKED))
      case ADVANCE_ROUND =>
        d.(session := s.(status := ROUND_ACTIVE, currentRound := s.currentRound + 1, roundStartedAt := Some(now)))
      case CONTINUE => d
  }

  function Serve(d: Desk, event: Event): Outcome {
    match event
    case Post(agent, kind) => PostMessage(d, agent, kind)
    case Reconcile(now) => Done(ReconcileDesk(d, now))
    case Conclude => if d.session.status == RESOLVED then WrongState else Done(d.(session := d.session.(status := RESOLVED)))
    case Escalate =>
      if d.session.status == DEADLOCKED || d.session.status == TIMED_OUT then Done(d.(session := d.session.(status := ESCALATED)))
      else WrongState
  }

  /** A refused call changes nothing. */
  function Step(d: Desk, event: Event): Desk {
    match Serve(d, event)
    case Done(next) => next
    case Forbidden => d
    case WrongState => d
  }

  function Run(d: Desk, events: seq<Event>): Desk
    decreases |events|
  {
    if events == [] then d else Run(Step(d, events[0]), events[1..])
  }

  /** As the server starts it: at least two different participants, round one, nothing posted. */
  predicate Fresh(d: Desk) {
    && |d.session.participantIds| >= 2 && Distinct(d.session.participantIds)
    && d.session.status == ROUND_ACTIVE && d.session.currentRound == 1 && d.session.maxRounds >= 1
    && d.messages == []
  }

  predicate Posted(d: Desk, agent: string) {
    agent in Stances(d.messages, d.session.currentRound)
  }

  predicate EveryonePosted(d: Desk) {
    forall p :: p in d.session.participantIds ==> Posted(d, p)
  }

  /** Nothing but participants' posts up to the current round, and the status says whether all have posted in it. */
  predicate Orderly(d: Desk) {
    && |d.session.participantIds| >= 2 && Distinct(d.session.participantIds)
    && 1 <= d.session.currentRound <= d.session.maxRounds
    && (forall m :: m in d.messages ==> m.agent in d.session.participantIds && m.value.round <= d.session.currentRound)
    && (Open(d.session) ==> (d.session.status == WAITING_FOR_RESPONSES <==> EveryonePosted(d)))
  }

  lemma PostersAreParticipants(d: Desk)
    requires Orderly(d)
    ensures Stances(d.messages, d.session.currentRound).Keys <= Elements(d.session.participantIds)
  {
    forall agent | agent in Stances(d.messages, d.session.currentRound).Keys ensures agent in Elements(d.session.participantIds) {
      SilenceHasNoStance(d.messages, d.session.currentRound, agent);
    }
  }

  /** At an orderly desk the count of responses is right. */
  lemma CountTellsSilence(participants: seq<string>, posted: set<string>)
    requires Distinct(participants) && posted <= Elements(participants)
    ensures |posted| < |participants| <==> exists p :: p in participants && p !in posted
  {
    DistinctSize(participants);
    SubsetSize(posted, Elements(participants));
    assert Elements(participants) <= posted ==> posted == Elements(participants);
    assert (exists p :: p in participants && p !in posted) <==> !(Elements(participants) <= posted);
  }

  lemma PostKeeps(d: Desk, agent: string, kind: MessageKind)
    requires Orderly(d) && Open(d.session) && agent in d.session.participantIds
    ensures Orderly(Step(d, Post(agent, kind)))
  {
    var s, round := d.session, d.session.currentRound;
    var m := Entry(agent, Content(round, kind));
    var messages := d.messages + [m];
    var posted := Stances(messages, round).Keys;
    forall a ensures a in posted <==> a == agent || Posted(d, a) {
      SilenceHasNoStance(d.messages, round, a);
      SilenceHasNoStance(messages, round, a);
      assert m in messages;
    }
    PostersAreParticipants(d);
    CountTellsSilence(s.participantIds, posted);
  }

  lemma NobodyPostedYet(d: Desk, agent: string)
    requires forall m :: m in d.messages ==> m.value.round < d.session.currentRound
    ensures !Posted(d, agent)
  {
    SilenceHasNoStance(d.messages, d.session.currentRound, agent);
  }

  lemma ReconcileKeeps(d: Desk, now: int)
    requires Orderly(d)
    ensures Orderly(ReconcileDesk(d, now))
  {
    var next := ReconcileDesk(d, now);
    if next.session.currentRound != d.session.currentRound {
      NobodyPostedYet(next, next.session.participantIds[0]);
      assert !EveryonePosted(next);
    }
  }

  lemma StepKeeps(d: Desk, event: Event)
    requires Orderly(d)
    ensures Orderly(Step(d, event))
  {
    match event
    case Post(agent, kind) =>
      if Open(d.session) && agent in d.session.participantIds {
        PostKeeps(d, agent, kind);
      }
    case Reconcile(now) => ReconcileKeeps(d, now);
    case Conclude =>
    case Escalate =>
  }

  lemma {:induction false} RunKeeps(d: Desk, events: seq<Event>)
    requires Orderly(d)
    ensures Orderly(Run(d, events))
    decreases |events|
  {
    if events != [] {
      StepKeeps(d, events[0]);
      RunKeeps(Step(d, events[0]), events[1..]);
    }
  }

  lemma FreshIsOrderly(d: Desk)
    requires Fresh(d)
    ensures Orderly(d)
  {
    NobodyPostedYet(d, d.session.participantIds[0]);
  }

  /** In every run of a new negotiation: it stays within its rounds; the count of responses falls short exactly while
      some participant is silent in the round; and an open session is marked as waiting exactly when nobody is. */
  lemma WaitingTellsSilence(d: Desk, events: seq<Event>)
    requires Fresh(d)
    ensures var now := Run(d, events);
            && 1 <= now.session.currentRound <= now.session.maxRounds
            && (RespondedCount(now.messages, now.session.currentRound) < |now.session.participantIds| <==> !EveryonePosted(now))
            && (Open(now.session) ==> (now.session.status == WAITING_FOR_RESPONSES <==> EveryonePosted(now)))
  {
    FreshIsOrderly(d);
    RunKeeps(d, events);
    PostersAreParticipants(Run(d, events));
    CountTellsSilence(Run(d, events).session.participantIds,
                      Stances(Run(d, events).messages, Run(d, events).session.currentRound).Keys);
  }

  /** In every run of a new negotiation a round is only left for the next one when its time is up or every participant
      has posted in it. */
  lemma NobodyIsPassedOver(d: Desk, events: seq<Event>, now: int)
    requires Fresh(d)
    ensures var here := Run(d, events);
            Step(here, Reconcile(now)).session.currentRound != here.session.currentRound ==>
              IsRoundExpired(here.session, now) || EveryonePosted(here)
  {
    WaitingTellsSilence(d, events);
  }

  // ---- what is over stays over ------------------------------------------------------------------------------

  /** No later evaluation can reopen the session: it is closed, or past its deadline, or stuck without agreement. */
  predicate Over(d: Desk, clock: int) {
    var s := d.session;
    || Negotiation.Closed(s)
    || (s.status == TIMED_OUT && IsNegotiationExpired(s, clock))
    || (s.status == DEADLOCKED && !AllAccepted(s, d.messages)
        && (s.currentRound >= s.maxRounds || Deadlocked(d.messages, s.currentRound, s.participantIds)))
  }

  /** The evaluation never looks at a deadlock or timeout it recorded before, so this is what keeps those final. */
  predicate EndsForGood(d: Desk, clock: int) {
    Open(d.session) || Over(d, clock)
  }

  function Clock(clock: int, event: Event): int {
    if event.Reconcile? then event.now else clock
  }

  function ClockAfter(clock: int, events: seq<Event>): int
    decreases |events|
  {
    if events == [] then clock else ClockAfter(Clock(clock, events[0]), events[1..])
  }

  /** The clock never runs backwards. */
  predicate Clocked(clock: int, events: seq<Event>)
    decreases |events|
  {
    events == [] || (Clock(clock, events[0]) >= clock && Clocked(Clock(clock, events[0]), events[1..]))
  }

  lemma OverStays(d: Desk, clock: int, event: Event)
    requires Over(d, clock) && Clock(clock, event) >= clock
    ensures var next := Step(d, event);
            Over(next, Clock(clock, event)) && next.messages == d.messages && next.session.currentRound == d.session.currentRound
  {
  }

  lemma EndIsForGood(d: Desk, clock: int, event: Event)
    requires EndsForGood(d, clock) && Clock(clock, event) >= clock
    ensures EndsForGood(Step(d, event), Clock(clock, event))
  {
    if Over(d, clock) {
      OverStays(d, clock, event);
    }
  }

  lemma {:induction false} RunEndsForGood(d: Desk, clock: int, events: seq<Event>)
    requires EndsForGood(d, clock) && Clocked(clock, events)
    ensures EndsForGood(Run(d, events), ClockAfter(clock, events))
    decreases |events|
  {
    if events != [] {
      EndIsForGood(d, clock, events[0]);
      RunEndsForGood(Step(d, events[0]), Clock(clock, events[0]), events[1..]);
    }
  }

  lemma {:induction false} OverForGood(d: Desk, clock: int, events: seq<Event>)
    requires Over(d, clock) && Clocked(clock, events)
    ensures var last := Run(d, events);
            !Open(last.session) && last.messages == d.messages && last.session.currentRound == d.session.currentRound
    decreases |events|
  {
    if events != [] {
      OverStays(d, clock, events[0]);
      OverForGood(Step(d, events[0]), Clock(clock, events[0]), events[1..]);
    }
  }

  /** Whenever a run has ended a negotiation (resolved, escalated, timed out or deadlocked), no further run takes a post
      or opens a round, as long as the clock does not run backwards. */
  lemma OnceOverStaysOver(d: Desk, clock: int, first: seq<Event>, then': seq<Event>)
    requires Fresh(d) && Clocked(clock, first) && Clocked(ClockAfter(clock, first), then')
    requires !Open(Run(d, first).session)
    ensures var here, last := Run(d, first), Run(Run(d, first), then');
            !Open(last.session) && last.messages == here.messages && last.session.currentRound == here.session.currentRound
  {
    RunEndsForGood(d, clock, first);
    OverForGood(Run(d, first), ClockAfter(clock, first), then');
  }

  // ---- the table of transitions -----------------------------------------------------------------------------

  function Targets(status: Status): set<Status> {
    match status
    case OPEN => {ROUND_ACTIVE, RESOLVED, TIMED_OUT}
    case ROUND_ACTIVE => {WAITING_FOR_RESPONSES, RESOLVED, TIMED_OUT}
    case WAITING_FOR_RESPONSES => {ROUND_ACTIVE, RESOLVED, DEADLOCKED, TIMED_OUT}
    case RESOLVED => {}
    case DEADLOCKED => {ESCALATED, RESOLVED}
    case TIMED_OUT => {ESCALATED, RESOLVED}
    case ESCALATED => {RESOLVED}
  }

  /** A change of status the declared table does not have. */
  predicate LeavesTable(d: Desk, event: Event) {
    var before, next := d.session.status, Step(d, event).session.status;
    before != next && next !in Targets(before)
  }

  /** Reconciliation does not consult the table. In every run of a new negotiation a call leaves it exactly when it finds
      an active round deadlocked, although not everyone has posted, or a deadlocked negotiation past its deadline. */
  lemma TableExact(d: Desk, clock: int, events: seq<Event>, event: Event)
    requires Fresh(d) && Clocked(clock, events) && Clock(ClockAfter(clock, events), event) >= ClockAfter(clock, events)
    ensures var here := Run(d, events);
            LeavesTable(here, event)
            <==> event.Reconcile?
                 && ((here.session.status == ROUND_ACTIVE && !EveryonePosted(here)
                      && Verdict(here.session, here.messages, event.now) == DEADLOCK)
                     || (here.session.status == DEADLOCKED && IsNegotiationExpired(here.session, event.now)))
  {
    RunEndsForGood(d, clock, events);
    WaitingTellsSilence(d, events);
  }

  /** With a clock set back it can: a timed-out negotiation whose round is over opens its next round. */
  lemma ClockSetBackReopens(p: string, q: string, deadline: int)
    requires p != q
    ensures var s := Session([p, q], ROUND_ACTIVE, 1, 3, 0, Some(0), Some(deadline));
            var timedOut := Run(Desk(s, []), [Reconcile(deadline)]);
            deadline > 0 ==>
              timedOut.session.status == TIMED_OUT && Step(timedOut, Reconcile(0)).session.status == ROUND_ACTIVE
  {
    var s := Session([p, q], ROUND_ACTIVE, 1, 3, 0, Some(0), Some(deadline));
    var none: seq<Message> := [];
    assert p in s.participantIds;
    SilenceHasNoStance(none, 1, p);
    var looks := [Reconcile(deadline)];
    var rest: seq<Event> := [];
    assert looks[1..] == rest;
    var d := Desk(s, none);
    assert Run(d, looks) == Run(Step(d, looks[0]), rest) == Step(d, looks[0]);
  }

  /** Whatever has happened, a person can still conclude the negotiation; doing so twice is refused. */
  lemma ConcludeResolves(d: Desk, events: seq<Event>)
    ensures Run(d, events + [Conclude]) == Run(d, events).(session := Run(d, events).session.(status := RESOLVED))
    ensures Serve(Run(d, events), Conclude) == WrongState <==> Run(d, events).session.status == RESOLVED
  {
    RunSnoc(d, events, Conclude);
  }

  lemma {:induction false} RunSnoc(d: Desk, events: seq<Event>, event: Event)
    ensures Run(d, events + [event]) == Step(Run(d, events), event)
    decreases |events|
  {
    var all := events + [event];
    if events == [] {
      assert all[1..] == [];
    } else {
      assert all[1..] == events[1..] + [event];
      RunSnoc(Step(d, events[0]), events[1..], event);
    }
  }

  // ---- single calls -----------------------------------------------------------------------------------------

  /** A post is taken exactly from a participant of an open negotiation. It is listed last, in the current round; the
      negotiation stays open, is marked as waiting exactly when everyone has posted, and is otherwise as before. */
  lemma PostExact(d: Desk, agent: string, kind: MessageKind)
    requires Orderly(d)
    ensures var outcome := Serve(d, Post(agent, kind));
            && (outcome == WrongState <==> d.session.status !in {ROUND_ACTIVE, WAITING_FOR_RESPONSES})
            && (outcome == Forbidden <==>
                  d.session.status in {ROUND_ACTIVE, WAITING_FOR_RESPONSES} && agent !in d.session.participantIds)
            && (outcome.Done? ==>
                  && outcome.desk.messages == d.messages + [Entry(agent, Content(d.session.currentRound, kind))]
                  && outcome.desk.session == d.session.(status := outcome.desk.session.status)
                  && outcome.desk.session.status == (if EveryonePosted(outcome.desk) then WAITING_FOR_RESPONSES else ROUND_ACTIVE))
  {
    if Open(d.session) && agent in d.session.participantIds {
      PostKeeps(d, agent, kind);
    }
  }

  /** Only a deadlocked or timed-out negotiation is escalated. */
  lemma EscalateExact(d: Desk)
    ensures Serve(d, Escalate)
         == if d.session.status in {DEADLOCKED, TIMED_OUT} then Done(d.(session := d.session.(status := ESCALATED))) else WrongState
  {
  }

  /** The driver that follows the advice opens the rounds the server opens. */
  lemma DriverIsServer(s: Session, messages: seq<Message>, now: int)
    requires Open(s)
    ensures Follow(s, Look(messages, now, s.roundStartedAt)).currentRound == ReconcileDesk(Desk(s, messages), now).session.currentRound
  {
    assert At(s, Look(messages, now, s.roundStartedAt)) == s;
  }
}
