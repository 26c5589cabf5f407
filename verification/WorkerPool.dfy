/** Several workers under one guard, in every interleaving of their loop heads and loop bodies. */
module WorkerPool {
  import opened Text
  import opened Safety

  /** Where a worker is: at the loop test, inside the body, out of the loop, or thrown out of run(). */
  datatype Phase = AtTop | InBody | Stopped | Escaped

  datatype Worker = Worker(phase: Phase, counts: map<string, nat>)

  datatype Limits = Limits(maxIterations: nat, maxFailuresPerTask: nat, dryRun: bool)

  datatype Pool = Pool(iteration: nat, aborted: bool, workers: seq<Worker>)

  /** Begin: worker w tests the signal and bumps the counter. Finish: its body ends with this work done. */
  datatype Event = Begin(w: nat) | Finish(w: nat, work: Work) | Abort

  predicate Enabled(p: Pool, e: Event) {
    match e
    case Begin(w) => w < |p.workers| && p.workers[w].phase == AtTop
    case Finish(w, _) => w < |p.workers| && p.workers[w].phase == InBody
    case Abort => true
  }

  predicate Enters(p: Pool, e: Event, limits: Limits) {
    e.Begin? && Enabled(p, e) && !p.aborted && p.iteration + 1 <= limits.maxIterations
  }

  predicate IsStoppedByGuard(p: Pool, e: Event, limits: Limits) {
    e.Begin? && Enabled(p, e) && !p.aborted && p.iteration + 1 > limits.maxIterations
  }

  function Finished(v: Worker, work: Work, limits: Limits): Worker {
    Worker(if EscapesFrom(v.counts, limits.dryRun, work, limits.maxFailuresPerTask) then Escaped else AtTop,
           CountsAfter(v.counts, limits.dryRun, work))
  }

  /** Events that are not enabled change nothing. */
  function Step(p: Pool, e: Event, limits: Limits): Pool {
    if !Enabled(p, e) then p
    else
      match e
      case Abort => p.(aborted := true)
      case Finish(w, work) => p.(workers := p.workers[w := Finished(p.workers[w], work, limits)])
      case Begin(w) =>
        if p.aborted then p.(workers := p.workers[w := p.workers[w].(phase := Stopped)])
        else
          var phase := if p.iteration + 1 > limits.maxIterations then Stopped else InBody;
          p.(iteration := p.iteration + 1, workers := p.workers[w := p.workers[w].(phase := phase)])
  }

  function Run(p: Pool, events: seq<Event>, limits: Limits): Pool
    decreases |events|
  {
    if events == [] then p else Run(Step(p, events[0], limits), events[1..], limits)
  }

  function Start(n: nat): Pool {
    Pool(0, false, seq(n, i => Worker(AtTop, map[])))
  }

  // ---- the budget -------------------------------------------------------------------------------------------

  /** Loop bodies entered along the run. */
  function Bodies(p: Pool, events: seq<Event>, limits: Limits): nat
    decreases |events|
  {
    if events == [] then 0
    else (if Enters(p, events[0], limits) then 1 else 0) + Bodies(Step(p, events[0], limits), events[1..], limits)
  }

  /** Workers the guard stopped along the run. */
  function GuardStops(p: Pool, events: seq<Event>, limits: Limits): nat
    decreases |events|
  {
    if events == [] then 0
    else
      var first := if IsStoppedByGuard(p, events[0], limits) then 1 else 0;
      first + GuardStops(Step(p, events[0], limits), events[1..], limits)
  }

  function InPhase(workers: seq<Worker>, phase: Phase): nat {
    if workers == [] then 0 else (if workers[0].phase == phase then 1 else 0) + InPhase(workers[1..], phase)
  }

  lemma {:induction false} InPhaseUpdate(workers: seq<Worker>, w: nat, v: Worker, phase: Phase)
    requires w < |workers|
    ensures InPhase(workers[w := v], phase)
         == InPhase(workers, phase) - (if workers[w].phase == phase then 1 else 0)
            + (if v.phase == phase then 1 else 0)
  {
    if w > 0 {
      InPhaseUpdate(workers[1..], w - 1, v, phase);
      assert workers[w := v][1..] == workers[1..][w - 1 := v];
    } else {
      assert workers[w := v][1..] == workers[1..];
    }
  }

  lemma {:induction false} InPhaseTotal(workers: seq<Worker>)
    ensures InPhase(workers, AtTop) + InPhase(workers, InBody) + InPhase(workers, Stopped)
          + InPhase(workers, Escaped) == |workers|
  {
    if workers != [] {
      InPhaseTotal(workers[1..]);
      match workers[0].phase
      case AtTop =>
      case InBody =>
      case Stopped =>
      case Escaped =>
    }
  }

  /** What one event does to the counter and to the number of stopped workers. */
  lemma StepBudget(p: Pool, e: Event, limits: Limits)
    ensures var q := Step(p, e, limits);
            && |q.workers| == |p.workers|
            && q.iteration == p.iteration + (if Enters(p, e, limits) then 1 else 0)
                              + (if IsStoppedByGuard(p, e, limits) then 1 else 0)
            && InPhase(q.workers, Stopped) >= InPhase(p.workers, Stopped)
                                              + (if IsStoppedByGuard(p, e, limits) then 1 else 0)
            && (p.aborted ==> q.aborted)
            && (!p.aborted ==> InPhase(q.workers, Stopped)
                               == InPhase(p.workers, Stopped) + (if IsStoppedByGuard(p, e, limits) then 1 else 0))
  {
    if Enabled(p, e) && !e.Abort? {
      var v := Step(p, e, limits).workers[e.w];
      InPhaseUpdate(p.workers, e.w, v, Stopped);
      assert Step(p, e, limits).workers == p.workers[e.w := v];
    }
  }

  function Min(a: nat, b: nat): nat {
    if a < b then a else b
  }

  /** Every increment is either a body or a stopped worker, and bodies are entered exactly while the counter is
      below the limit. */
  lemma {:induction false} BudgetAccount(p: Pool, events: seq<Event>, limits: Limits)
    ensures var q, max := Run(p, events, limits), limits.maxIterations;
            && |q.workers| == |p.workers|
            && q.iteration == p.iteration + Bodies(p, events, limits) + GuardStops(p, events, limits)
            && Bodies(p, events, limits) == Min(q.iteration, max) - Min(p.iteration, max)
            && InPhase(q.workers, Stopped) >= InPhase(p.workers, Stopped) + GuardStops(p, events, limits)
            && (!q.aborted ==>
                  !p.aborted
                  && InPhase(q.workers, Stopped) == InPhase(p.workers, Stopped) + GuardStops(p, events, limits))
    decreases |events|
  {
    if events != [] {
      StepBudget(p, events[0], limits);
      BudgetAccount(Step(p, events[0], limits), events[1..], limits);
    }
  }

  lemma {:induction false} NoneStoppedYet(n: nat)
    ensures InPhase(Start(n).workers, Stopped) == 0
  {
    if n > 0 {
      NoneStoppedYet(n - 1);
      assert Start(n).workers[1..] == Start(n - 1).workers;
    }
  }

  /** The global limit, for any number of workers in any order: at most maxIterations bodies run, and the counter
      overshoots by at most one per worker. */
  lemma GlobalLimit(n: nat, events: seq<Event>, limits: Limits)
    ensures Bodies(Start(n), events, limits) == Min(Run(Start(n), events, limits).iteration, limits.maxIterations)
    ensures Run(Start(n), events, limits).iteration <= limits.maxIterations + n
  {
    NoneStoppedYet(n);
    BudgetAccount(Start(n), events, limits);
    InPhaseTotal(Run(Start(n), events, limits).workers);
  }

  /** Without an abort the budget is never left unspent: a single worker that left its loop means all the bodies
      have been run, and the counter is past the limit by the number of workers that left. */
  lemma BudgetIsSpent(n: nat, events: seq<Event>, limits: Limits)
    requires !Run(Start(n), events, limits).aborted
    requires InPhase(Run(Start(n), events, limits).workers, Stopped) > 0
    ensures Bodies(Start(n), events, limits) == limits.maxIterations
    ensures Run(Start(n), events, limits).iteration
         == limits.maxIterations + InPhase(Run(Start(n), events, limits).workers, Stopped)
  {
    NoneStoppedYet(n);
    BudgetAccount(Start(n), events, limits);
    StopsMeanFull(Start(n), events, limits);
  }

  lemma {:induction false} StopsMeanFull(p: Pool, events: seq<Event>, limits: Limits)
    requires GuardStops(p, events, limits) > 0
    ensures Run(p, events, limits).iteration > limits.maxIterations
    decreases |events|
  {
    var q := Step(p, events[0], limits);
    StepBudget(p, events[0], limits);
    BudgetAccount(q, events[1..], limits);
    if !IsStoppedByGuard(p, events[0], limits) {
      StopsMeanFull(q, events[1..], limits);
    }
  }

  // ---- failure counts ---------------------------------------------------------------------------------------

  /** One finished item of a worker. */
  datatype Note = Note(taskId: string, ending: Ending)

  /** Failures on a task since its last success. */
  function Streak(notes: seq<Note>, taskId: string): nat {
    if notes == [] then 0
    else
      var last, before := notes[|notes| - 1], notes[..|notes| - 1];
      if last.taskId != taskId || last.ending == Quiet then Streak(before, taskId)
      else if last.ending == Success then 0
      else Streak(before, taskId) + 1
  }

  /** The last item crashed when its streak was one short of the limit. */
  predicate Fatal(notes: seq<Note>, limit: nat) {
    && notes != []
    && notes[|notes| - 1].ending == Crash
    && Streak(notes[..|notes| - 1], notes[|notes| - 1].taskId) + 1 >= limit
  }

  function NoteOf(p: Pool, e: Event, w: nat, limits: Limits): seq<Note> {
    if e.Finish? && e.w == w && Enabled(p, e) && !e.work.NoWork?
    then [Note(e.work.taskId, EndingOf(limits.dryRun, e.work))]
    else []
  }

  /** What worker w finished along the run, whatever the others did in between. */
  function Notes(p: Pool, events: seq<Event>, w: nat, limits: Limits): seq<Note>
    decreases |events|
  {
    if events == [] then []
    else NoteOf(p, events[0], w, limits) + Notes(Step(p, events[0], limits), events[1..], w, limits)
  }

  ghost predicate Matches(v: Worker, notes: seq<Note>, limit: nat) {
    && (forall t :: Count(v.counts, t) == Streak(notes, t))
    && (v.phase == Escaped <==> Fatal(notes, limit))
  }

  lemma StreakGrows(notes: seq<Note>, n: Note, taskId: string)
    ensures Streak(notes + [n], taskId)
         == if n.taskId != taskId || n.ending == Quiet then Streak(notes, taskId)
            else if n.ending == Success then 0 else Streak(notes, taskId) + 1
  {
    assert (notes + [n])[..|notes|] == notes;
  }

  lemma FinishMatches(v: Worker, notes: seq<Note>, work: Work, limits: Limits)
    requires Matches(v, notes, limits.maxFailuresPerTask) && !work.NoWork?
    ensures Matches(Finished(v, work, limits), notes + [Note(work.taskId, EndingOf(limits.dryRun, work))],
                    limits.maxFailuresPerTask)
  {
    var n := Note(work.taskId, EndingOf(limits.dryRun, work));
    assert (notes + [n])[..|notes|] == notes;
    forall t ensures Count(Finished(v, work, limits).counts, t) == Streak(notes + [n], t) {
      StreakGrows(notes, n, t);
      match n.ending
      case Quiet =>
      case Success =>
      case Failure =>
      case Crash =>
    }
  }

  lemma StepMatches(p: Pool, e: Event, w: nat, notes: seq<Note>, limits: Limits)
    requires w < |p.workers| && Matches(p.workers[w], notes, limits.maxFailuresPerTask)
    ensures |Step(p, e, limits).workers| == |p.workers|
    ensures Matches(Step(p, e, limits).workers[w], notes + NoteOf(p, e, w, limits), limits.maxFailuresPerTask)
  {
    if e.Finish? && e.w == w && Enabled(p, e) && !e.work.NoWork? {
      FinishMatches(p.workers[w], notes, e.work, limits);
    } else {
      assert notes + NoteOf(p, e, w, limits) == notes;
    }
  }

  lemma {:induction false} RunMatches(p: Pool, events: seq<Event>, w: nat, notes: seq<Note>, limits: Limits)
    requires w < |p.workers| && Matches(p.workers[w], notes, limits.maxFailuresPerTask)
    ensures |Run(p, events, limits).workers| == |p.workers|
    ensures Matches(Run(p, events, limits).workers[w], notes + Notes(p, events, w, limits),
                    limits.maxFailuresPerTask)
    decreases |events|
  {
    if events == [] {
      assert notes + [] == notes;
    } else {
      var q, one := Step(p, events[0], limits), NoteOf(p, events[0], w, limits);
      StepMatches(p, events[0], w, notes, limits);
      RunMatches(q, events[1..], w, notes + one, limits);
      Assoc(notes, one, Notes(q, events[1..], w, limits));
    }
  }

  /** In every interleaving a worker's count for a task is its own failures since its own last success, and a
      worker is thrown out of its loop exactly by an unexpected error that brings a streak to the limit. */
  lemma CountsAreStreaks(n: nat, events: seq<Event>, w: nat, taskId: string, limits: Limits)
    requires w < n
    ensures |Run(Start(n), events, limits).workers| == n
    ensures Count(Run(Start(n), events, limits).workers[w].counts, taskId)
         == Streak(Notes(Start(n), events, w, limits), taskId)
    ensures Run(Start(n), events, limits).workers[w].phase == Escaped
       <==> Fatal(Notes(Start(n), events, w, limits), limits.maxFailuresPerTask)
  {
    RunMatches(Start(n), events, w, [], limits);
    assert [] + Notes(Start(n), events, w, limits) == Notes(Start(n), events, w, limits);
  }

  // ---- one worker -------------------------------------------------------------------------------------------

  /** What a worker alone does with these pieces of work. */
  function Solo(works: seq<Work>): seq<Event> {
    if works == [] then [] else [Begin(0), Finish(0, works[0])] + Solo(works[1..])
  }

  function Undisturbed(works: seq<Work>): (passes: seq<Pass>)
    ensures |passes| == |works| && forall i :: 0 <= i < |works| ==> passes[i] == Pass(0, works[i])
  {
    seq(|works|, i requires 0 <= i < |works| => Pass(0, works[i]))
  }

  function OneWorker(iteration: nat, phase: Phase, counts: map<string, nat>): Pool {
    Pool(iteration, false, [Worker(phase, counts)])
  }

  lemma {:induction false} GoneStays(iteration: nat, phase: Phase, counts: map<string, nat>, works: seq<Work>, limits: Limits)
    requires phase == Stopped || phase == Escaped
    ensures Run(OneWorker(iteration, phase, counts), Solo(works), limits) == OneWorker(iteration, phase, counts)
    decreases |works|
  {
    if works != [] {
      RunTwo(OneWorker(iteration, phase, counts), Begin(0), Finish(0, works[0]), Solo(works[1..]), limits);
      GoneStays(iteration, phase, counts, works[1..], limits);
    }
  }

  lemma RunTwo(p: Pool, a: Event, b: Event, rest: seq<Event>, limits: Limits)
    ensures Run(p, [a, b] + rest, limits) == Run(Step(Step(p, a, limits), b, limits), rest, limits)
  {
    var events := [a, b] + rest;
    assert events[1..] == [b] + rest && events[1..][1..] == rest;
  }

  lemma SoloSteps(iteration: nat, counts: map<string, nat>, w: Work, limits: Limits)
    ensures var p := OneWorker(iteration, AtTop, counts);
            var q := Step(Step(p, Begin(0), limits), Finish(0, w), limits);
            q == if iteration + 1 > limits.maxIterations then OneWorker(iteration + 1, Stopped, counts)
                 else OneWorker(iteration + 1,
                                if EscapesFrom(counts, limits.dryRun, w, limits.maxFailuresPerTask) then Escaped else AtTop,
                                CountsAfter(counts, limits.dryRun, w))
  {
  }

  /** run() of a worker whose counter nobody else moves is the run of a pool of one: the same counter, the same failure
      table, and it is rejected exactly when the pool's worker is thrown out. */
  lemma {:induction false} SoloRun(iteration: nat, counts: map<string, nat>, works: seq<Work>, limits: Limits)
    ensures var r := RunOf(iteration, counts, Undisturbed(works), limits.dryRun, limits.maxIterations, limits.maxFailuresPerTask);
            var last := Run(OneWorker(iteration, AtTop, counts), Solo(works), limits);
            && last.iteration == r.iteration && |last.workers| == 1 && last.workers[0].counts == r.counts
            && (last.workers[0].phase == Escaped <==> r.exit == Rejected)
    decreases |works|
  {
    if works != [] {
      var w, rest := works[0], works[1..];
      RunTwo(OneWorker(iteration, AtTop, counts), Begin(0), Finish(0, w), Solo(rest), limits);
      SoloSteps(iteration, counts, w, limits);
      assert Undisturbed(works)[1..] == Undisturbed(rest);
      var after := CountsAfter(counts, limits.dryRun, w);
      if iteration + 1 > limits.maxIterations {
        GoneStays(iteration + 1, Stopped, counts, rest, limits);
      } else if EscapesFrom(counts, limits.dryRun, w, limits.maxFailuresPerTask) {
        GoneStays(iteration + 1, Escaped, after, rest, limits);
      } else {
        SoloRun(iteration + 1, after, rest, limits);
      }
    }
  }

  /** Others only move the counter before the pass. */
  lemma OthersMoveTheCounter(iteration: nat, counts: map<string, nat>, passes: seq<Pass>, dryRun: bool, max: nat, limit: nat)
    requires passes != []
    ensures RunOf(iteration, counts, passes, dryRun, max, limit)
         == RunOf(iteration + passes[0].others, counts, [Pass(0, passes[0].work)] + passes[1..], dryRun, max, limit)
  {
    assert ([Pass(0, passes[0].work)] + passes[1..])[1..] == passes[1..];
  }

  // ---- what is handled --------------------------------------------------------------------------------------

  /** Bodies that end along the run. */
  function Handled(p: Pool, events: seq<Event>, limits: Limits): nat
    decreases |events|
  {
    if events == [] then 0
    else (if events[0].Finish? && Enabled(p, events[0]) then 1 else 0) + Handled(Step(p, events[0], limits), events[1..], limits)
  }

  lemma StepBodies(p: Pool, e: Event, limits: Limits)
    ensures InPhase(Step(p, e, limits).workers, InBody)
         == InPhase(p.workers, InBody) + (if Enters(p, e, limits) then 1 else 0) - (if e.Finish? && Enabled(p, e) then 1 else 0)
  {
    if Enabled(p, e) && !e.Abort? {
      var v := Step(p, e, limits).workers[e.w];
      InPhaseUpdate(p.workers, e.w, v, InBody);
      assert Step(p, e, limits).workers == p.workers[e.w := v];
    }
  }

  /** Every body that ends was entered, or is one a worker was in before. */
  lemma {:induction false} BodiesAccount(p: Pool, events: seq<Event>, limits: Limits)
    ensures Handled(p, events, limits) + InPhase(Run(p, events, limits).workers, InBody)
         == Bodies(p, events, limits) + InPhase(p.workers, InBody)
    decreases |events|
  {
    if events != [] {
      StepBodies(p, events[0], limits);
      BodiesAccount(Step(p, events[0], limits), events[1..], limits);
    }
  }

  lemma {:induction false} NobodyInside(workers: seq<Worker>)
    requires forall i :: 0 <= i < |workers| ==> workers[i].phase == AtTop
    ensures InPhase(workers, InBody) == 0
  {
    if workers != [] {
      NobodyInside(workers[1..]);
    }
  }

  /** However they interleave, the workers together handle at most maxIterations pieces of work. */
  lemma HandledWithinBudget(n: nat, events: seq<Event>, limits: Limits)
    ensures Handled(Start(n), events, limits) <= limits.maxIterations
  {
    BodiesAccount(Start(n), events, limits);
    NobodyInside(Start(n).workers);
    GlobalLimit(n, events, limits);
  }
}
