/** The safety guard and the autonomous worker that runs under it
    (packages/syncpoint-loop-runner/src/safety.ts, worker.ts). The answers of the server and of the agent process
    are inputs. */
module Safety {
  import opened Text

  datatype Reason = MaxIterations | MaxTaskFailures
  datatype Error = SafetyError(reason: Reason) | OtherError

  /** The failure table, a map that its owner passes to the guard. */
  class FailureTable {
    var counts: map<string, nat>

    constructor ()
      ensures counts == map[]
    {
      counts := map[];
    }
  }

  /** A missing key reads as zero. */
  function Count(counts: map<string, nat>, taskId: string): nat {
    if taskId in counts then counts[taskId] else 0
  }

  class SafetyGuard {
    var iteration: nat
    const maxIterations: nat
    const maxFailuresPerTask: nat

    constructor (maxIterations: nat, maxFailuresPerTask: nat)
      ensures iteration == 0
      ensures this.maxIterations == maxIterations && this.maxFailuresPerTask == maxFailuresPerTask
    {
      iteration := 0;
      this.maxIterations := maxIterations;
      this.maxFailuresPerTask := maxFailuresPerTask;
    }

    /** The counter moves even when the limit is passed. */
    method IncrementIteration() returns (thrown: Option<Error>)
      modifies this
      ensures iteration == old(iteration) + 1
      ensures thrown == if iteration > maxIterations then Some(SafetyError(MaxIterations)) else None
    {
      iteration := iteration + 1;
      if iteration > maxIterations {
        return Some(SafetyError(MaxIterations));
      }
      return None;
    }

    /** The count is stored before the limit is looked at. */
    method RecordFailure(taskId: string, failures: FailureTable) returns (thrown: Option<Error>)
      modifies failures
      ensures failures.counts == old(failures.counts)[taskId := Count(old(failures.counts), taskId) + 1]
      ensures thrown == if Count(failures.counts, taskId) >= maxFailuresPerTask
                        then Some(SafetyError(MaxTaskFailures)) else None
    {
      var next := Count(failures.counts, taskId) + 1;
      failures.counts := failures.counts[taskId := next];
      if next >= maxFailuresPerTask {
        return Some(SafetyError(MaxTaskFailures));
      }
      return None;
    }

    method RecordSuccess(taskId: string, failures: FailureTable)
      modifies failures
      ensures failures.counts == old(failures.counts) - {taskId}
    {
      failures.counts := failures.counts - {taskId};
    }
  }

  // ---- what handling one work item amounts to ---------------------------------------------------------------

  datatype Reply<T> = Got(value: T) | Lost
  datatype Resume = Resume(gateBlocked: bool, gateIds: seq<string>, constraintWarnings: seq<string>)
  datatype RunResult = RunResult(timedOut: bool, exitCode: int)

  /** The answers the handlers can meet; the last four concern wake requests only. */
  datatype Replies = Replies(
    bootFails: bool, resume: Reply<Resume>, run: Reply<RunResult>, checkpointFails: bool,
    ackFails: bool, startFails: bool, doneFails: bool, failFails: bool)

  /** Quiet leaves the failure table alone, Failure is counted by the handler, Crash is counted by the loop. */
  datatype Ending = Quiet | Success | Failure | Crash

  predicate HasBlockedWarning(warnings: seq<string>) {
    exists i :: 0 <= i < |warnings| && StartsWith(warnings[i], "[BLOCKED]")
  }

  function TaskEnding(dryRun: bool, r: Replies): Ending {
    if dryRun then Quiet
    else if r.bootFails || r.resume.Lost? then Crash
    else if r.resume.value.gateBlocked || HasBlockedWarning(r.resume.value.constraintWarnings) then Quiet
    else if r.run.Lost? then Crash
    else if r.run.value.timedOut then Failure
    else if r.run.value.exitCode != 0 then Failure
    else if r.checkpointFails then Crash
    else Success
  }

  function WakeEnding(dryRun: bool, r: Replies): Ending {
    if dryRun || r.ackFails || r.startFails then Quiet
    else if r.bootFails || r.resume.Lost? then Crash
    else if r.resume.value.gateBlocked then (if r.failFails then Crash else Quiet)
    else if r.run.Lost? then Crash
    else if r.run.value.exitCode == 0 then (if r.checkpointFails || r.doneFails then Crash else Success)
    else if r.failFails then Crash
    else Failure
  }

  /** The failure table after one item. */
  function Recorded(counts: map<string, nat>, taskId: string, ending: Ending): map<string, nat> {
    match ending
    case Quiet => counts
    case Success => counts - {taskId}
    case Failure => counts[taskId := Count(counts, taskId) + 1]
    case Crash => counts[taskId := Count(counts, taskId) + 1]
  }

  /** Recording a crash throws when the streak is at the limit, and nothing catches that. */
  predicate Escapes(counts: map<string, nat>, taskId: string, ending: Ending, limit: nat) {
    ending == Crash && Count(counts, taskId) + 1 >= limit
  }

  // ---- the worker ---------------------------------------------------------------------------------------------

  datatype WorkerState =
    Idle | Working(taskId: string) | Blocked(taskId: string, gateIds: seq<string>) | Shutdown

  /** What one pass through the loop body meets: no work (or a failed query), or an item. */
  datatype Work = NoWork | Task(taskId: string, replies: Replies) | Wake(taskId: string, replies: Replies)

  function EndingOf(dryRun: bool, w: Work): Ending
    requires !w.NoWork?
  {
    if w.Wake? then WakeEnding(dryRun, w.replies) else TaskEnding(dryRun, w.replies)
  }

  /** A warning that blocks starts with the mark. */
  predicate Warned(warnings: seq<string>) {
    exists w :: w in warnings && |w| >= 9 && w[..9] == "[BLOCKED]"
  }

  lemma WarnedExact(warnings: seq<string>)
    ensures HasBlockedWarning(warnings) <==> Warned(warnings)
  {
  }

  /** The item is picked up; a wake request has to be acknowledged and started. */
  predicate PickedUp(dryRun: bool, w: Work)
    requires !w.NoWork?
  {
    !dryRun && (w.Wake? ==> !w.replies.ackFails && !w.replies.startFails)
  }

  /** The agent is booted and told how things stand, and a gate, or for a task a warning, holds it back. */
  predicate HeldBack(w: Work)
    requires !w.NoWork?
  {
    var r := w.replies;
    && !r.bootFails && r.resume.Got?
    && (r.resume.value.gateBlocked || (w.Task? && Warned(r.resume.value.constraintWarnings)))
  }

  /** The item reaches its process. */
  predicate Reaches(dryRun: bool, w: Work)
    requires !w.NoWork?
  {
    PickedUp(dryRun, w) && !w.replies.bootFails && w.replies.resume.Got? && !HeldBack(w)
  }

  /** How an item ends. It succeeds when its process ends with code 0, in time if it is a task, and the result can be
      recorded; it fails when the process ends otherwise and that can be reported; it leaves no trace when it is not
      picked up, or is held back and that can be reported. Anything else is a crash. */
  lemma EndingExact(dryRun: bool, w: Work)
    requires !w.NoWork?
    ensures var r, ending := w.replies, EndingOf(dryRun, w);
            var answered := Reaches(dryRun, w) && r.run.Got?;
            var good := answered && r.run.value.exitCode == 0 && (w.Task? ==> !r.run.value.timedOut);
            && (ending == Success <==> good && !r.checkpointFails && (w.Wake? ==> !r.doneFails))
            && (ending == Failure <==> answered && !good && (w.Wake? ==> !r.failFails))
            && (ending == Quiet <==> !PickedUp(dryRun, w) || (HeldBack(w) && (w.Wake? ==> !r.failFails)))
  {
    if w.replies.resume.Got? {
      WarnedExact(w.replies.resume.value.constraintWarnings);
    }
  }

  /** The handlers of tasks and of wakes judge the same answers alike, exactly unless the item reaches the process and
      either a constraint warning blocks it or the process was timed out and still ended with code 0: the wake handler
      looks at neither. */
  lemma HandlersAgreeExact(dryRun: bool, taskId: string, r: Replies)
    requires !r.ackFails && !r.startFails && !r.doneFails && !r.failFails
    ensures EndingOf(dryRun, Task(taskId, r)) == EndingOf(dryRun, Wake(taskId, r))
       <==> || dryRun || r.bootFails || r.resume.Lost? || r.resume.value.gateBlocked
            || (&& !Warned(r.resume.value.constraintWarnings)
                && !(r.run.Got? && r.run.value.timedOut && r.run.value.exitCode == 0))
  {
    if r.resume.Got? {
      WarnedExact(r.resume.value.constraintWarnings);
    }
    if !dryRun && !r.bootFails && r.resume.Got? && r.run.Got? {
      match r.run.value
      case RunResult(timedOut, exitCode) =>
    }
  }

  function CountsAfter(counts: map<string, nat>, dryRun: bool, w: Work): map<string, nat> {
    if w.NoWork? then counts else Recorded(counts, w.taskId, EndingOf(dryRun, w))
  }

  predicate EscapesFrom(counts: map<string, nat>, dryRun: bool, w: Work, limit: nat) {
    !w.NoWork? && Escapes(counts, w.taskId, EndingOf(dryRun, w), limit)
  }

  /** How run() ends. */
  datatype Exit = Finished | Rejected

  /** The answers of one pass, after other workers moved the shared counter this many times. */
  datatype Pass = Pass(others: nat, work: Work)

  datatype RunState = RunState(iteration: nat, counts: map<string, nat>, exit: Exit)

  /** run() until the answers are used up, which is when the signal is aborted. */
  function RunOf(iteration: nat, counts: map<string, nat>, passes: seq<Pass>, dryRun: bool, max: nat, limit: nat)
    : RunState
    decreases |passes|
  {
    if passes == [] then RunState(iteration, counts, Finished)
    else
      var it, w := iteration + passes[0].others + 1, passes[0].work;
      if it > max then RunState(it, counts, Finished)
      else if EscapesFrom(counts, dryRun, w, limit) then RunState(it, CountsAfter(counts, dryRun, w), Rejected)
      else RunOf(it, CountsAfter(counts, dryRun, w), passes[1..], dryRun, max, limit)
  }

  class AgentWorker {
    var state: WorkerState
    const taskFailures: FailureTable
    const safety: SafetyGuard
    const dryRun: bool

    constructor (safety: SafetyGuard, dryRun: bool)
      ensures state == Idle && this.safety == safety && this.dryRun == dryRun
      ensures fresh(taskFailures) && taskFailures.counts == map[]
    {
      state, this.safety, this.dryRun := Idle, safety, dryRun;
      taskFailures := new FailureTable();
    }

    /** The error, if any, that leaves a handler. */
    ghost predicate Throws(thrown: Option<Error>, taskId: string, ending: Ending)
      reads taskFailures
    {
      match ending
      case Quiet => thrown == None
      case Success => thrown == None
      case Crash => thrown == Some(OtherError)
      case Failure => thrown == if Count(taskFailures.counts, taskId) >= safety.maxFailuresPerTask
                                then Some(SafetyError(MaxTaskFailures)) else None
    }

    /** The table as the handlers leave it: a crash is not theirs to count. */
    ghost predicate HandlerRecorded(before: map<string, nat>, taskId: string, ending: Ending)
      reads taskFailures
    {
      taskFailures.counts == if ending == Crash then before else Recorded(before, taskId, ending)
    }

    method HandleTask(taskId: string, r: Replies) returns (thrown: Option<Error>)
      modifies this, taskFailures
      ensures HandlerRecorded(old(taskFailures.counts), taskId, TaskEnding(dryRun, r))
      ensures Throws(thrown, taskId, TaskEnding(dryRun, r))
      ensures state == (if !dryRun && !r.bootFails && r.resume.Got? && r.resume.value.gateBlocked
                        then Blocked(taskId, r.resume.value.gateIds) else old(state))
    {
      thrown := None;
      if dryRun {
        return;
      }
      if r.bootFails || r.resume.Lost? {
        return Some(OtherError);
      }
      var resumed := r.resume.value;
      if resumed.gateBlocked {
        state := Blocked(taskId, resumed.gateIds);
        return;
      }
      if HasBlockedWarning(resumed.constraintWarnings) {
        return;
      }
      if r.run.Lost? {
        return Some(OtherError);
      }
      if r.run.value.timedOut {
        thrown := safety.RecordFailure(taskId, taskFailures);
        return;
      }
      if r.run.value.exitCode == 0 {
        if r.checkpointFails {
          return Some(OtherError);
        }
        safety.RecordSuccess(taskId, taskFailures);
      } else {
        thrown := safety.RecordFailure(taskId, taskFailures);
      }
    }

    /** Whatever is thrown after the acknowledgement is passed on. */
    method HandleWake(taskId: string, r: Replies) returns (thrown: Option<Error>)
      modifies this, taskFailures
      ensures HandlerRecorded(old(taskFailures.counts), taskId, WakeEnding(dryRun, r))
      ensures Throws(thrown, taskId, WakeEnding(dryRun, r))
      ensures state == old(state)
    {
      thrown := None;
      if dryRun || r.ackFails || r.startFails {
        return;
      }
      if r.bootFails || r.resume.Lost? {
        return Some(OtherError);
      }
      if r.resume.value.gateBlocked {
        if r.failFails {
          return Some(OtherError);
        }
        return;
      }
      if r.run.Lost? {
        return Some(OtherError);
      }
      if r.run.value.exitCode == 0 {
        if r.checkpointFails || r.doneFails {
          return Some(OtherError);
        }
        safety.RecordSuccess(taskId, taskFailures);
      } else {
        if r.failFails {
          return Some(OtherError);
        }
        thrown := safety.RecordFailure(taskId, taskFailures);
      }
    }

    /** One item between picking it up and the finally block. A counted failure never stops the loop; an
        unexpected error does when counting it throws. */
    method HandleItem(w: Work) returns (escaped: bool)
      requires !w.NoWork?
      modifies this, taskFailures
      ensures taskFailures.counts == CountsAfter(old(taskFailures.counts), dryRun, w)
      ensures escaped == EscapesFrom(old(taskFailures.counts), dryRun, w, safety.maxFailuresPerTask)
      ensures state == Idle
    {
      state := Working(w.taskId);
      escaped := false;
      var thrown: Option<Error>;
      if w.Wake? {
        thrown := HandleWake(w.taskId, w.replies);
      } else {
        thrown := HandleTask(w.taskId, w.replies);
      }
      if thrown == Some(OtherError) {
        var again := safety.RecordFailure(w.taskId, taskFailures);
        escaped := again.Some?;
      }
      state := Idle;
    }

    /** run(). The guard is shared: before each pass the other workers have moved its counter. A rejected run
        leaves the worker reading as idle, not as shut down. */
    method Run(passes: seq<Pass>) returns (exit: Exit)
      requires state == Idle
      modifies this, taskFailures, safety
      ensures RunState(safety.iteration, taskFailures.counts, exit)
           == RunOf(old(safety.iteration), old(taskFailures.counts), passes, dryRun, safety.maxIterations,
                    safety.maxFailuresPerTask)
      ensures state == if exit == Finished then Shutdown else Idle
    {
      var i := 0;
      while i < |passes|
        invariant 0 <= i <= |passes| && state == Idle
        invariant RunOf(safety.iteration, taskFailures.counts, passes[i..], dryRun, safety.maxIterations,
                        safety.maxFailuresPerTask)
               == RunOf(old(safety.iteration), old(taskFailures.counts), passes, dryRun, safety.maxIterations,
                        safety.maxFailuresPerTask)
      {
        assert passes[i..][1..] == passes[i + 1..];
        safety.iteration := safety.iteration + passes[i].others;
        var stop := safety.IncrementIteration();
        if stop.Some? {
          state := Shutdown;
          return Finished;
        }
        var w := passes[i].work;
        if !w.NoWork? {
          var escaped := HandleItem(w);
          if escaped {
            return Rejected;
          }
        }
        i := i + 1;
      }
      state := Shutdown;
      return Finished;
    }
  }
}
