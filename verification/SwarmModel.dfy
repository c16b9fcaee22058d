/**
 Records, counts and from-scratch definitions behind the scheduler of
 src/axiom_qwen38_swarm_scheduler.cpp.  An id is the position of its record, one less than in the
 source; records are never removed.
 */
module SwarmModel {
  import opened Common

  datatype AgentState = AgentIdle | AgentBusy | AgentDraining | AgentOffline | AgentFailed

  datatype WaveState =
    | WavePending | WaveRunning | WaveCancelling
    | WaveSucceeded | WaveFailed | WaveCancelled | WaveTimedOut | WaveBudgetExhausted

  datatype TaskState =
    | Queued | Running | RetryWait
    | Succeeded | Failed | Cancelled | TimedOut | BudgetExhausted

  datatype Outcome = OSucceeded | OFailed | OCancelled | OTimedOut | OBudgetExhausted

  datatype RetryPolicy = RetryPolicy(
    maxAttempts: nat, onFailure: bool, onTimeout: bool, onBudget: bool,
    exponential: bool, backoff: int, maxBackoff: int)

  datatype Parent = Parent(task: Option<nat>, wave: Option<nat>)

  datatype TaskSpec = TaskSpec(
    priority: int, wave: Option<nat>, parent: Parent,
    maxTokens: Option<nat>, maxDuration: Option<int>, retry: RetryPolicy)

  datatype Task = Task(
    spec: TaskSpec, state: TaskState, queueSeq: nat, attempts: nat, tokens: nat, tokensTotal: nat,
    agent: Option<nat>, flagged: bool, deadline: Option<int>, notBefore: Option<int>)

  datatype Wave = Wave(
    maxConcurrent: Option<nat>, parent: Parent, state: WaveState, flagged: bool, started: bool, active: nat)

  datatype Agent = Agent(maxConcurrent: nat, admin: AgentState, active: nat)

  /** Running totals: submissions, the five final counters, started attempts. */
  datatype Telemetry = Telemetry(
    submitted: nat, rejected: nat, attempts: nat, retries: nat,
    succeeded: nat, failed: nat, cancelled: nat, timedOut: nat, budgetExhausted: nat)

  datatype Config = Config(maxConcurrent: nat, maxQueued: Option<nat>)

  datatype State = State(
    agents: seq<Agent>, waves: seq<Wave>, tasks: seq<Task>, active: nat, nextQueue: nat, tel: Telemetry)

  predicate Terminal(s: TaskState) {
    s.Succeeded? || s.Failed? || s.Cancelled? || s.TimedOut? || s.BudgetExhausted?
  }

  predicate TerminalWave(s: WaveState) {
    s.WaveSucceeded? || s.WaveFailed? || s.WaveCancelled? || s.WaveTimedOut? || s.WaveBudgetExhausted?
  }

  predicate Waiting(s: TaskState) {
    s == Queued || s == RetryWait
  }

  function StateFor(outcome: Outcome): TaskState {
    match outcome
    case OSucceeded => Succeeded
    case OFailed => Failed
    case OCancelled => Cancelled
    case OTimedOut => TimedOut
    case OBudgetExhausted => BudgetExhausted
  }

  // --------------------------------------------------------------------- counts

  function Count(p: Task -> bool, tasks: seq<Task>): (n: nat)
    ensures n <= |tasks|
  {
    if tasks == [] then 0
    else Count(p, tasks[..|tasks| - 1]) + (if p(tasks[|tasks| - 1]) then 1 else 0)
  }

  function One(b: bool): nat { if b then 1 else 0 }

  lemma CountAppend(p: Task -> bool, tasks: seq<Task>, t: Task)
    ensures Count(p, tasks + [t]) == Count(p, tasks) + One(p(t))
  {
    assert (tasks + [t])[..|tasks|] == tasks;
  }

  lemma CountPrefix(p: Task -> bool, tasks: seq<Task>, i: nat)
    requires i < |tasks|
    ensures Count(p, tasks[..i + 1]) == Count(p, tasks[..i]) + One(p(tasks[i]))
  {
    CountAppend(p, tasks[..i], tasks[i]);
    assert tasks[..i + 1] == tasks[..i] + [tasks[i]];
  }

  /** Replacing one record changes a count by what that record contributes. */
  lemma {:induction false} CountUpdate(p: Task -> bool, tasks: seq<Task>, i: nat, t: Task)
    requires i < |tasks|
    ensures Count(p, tasks[i := t]) + One(p(tasks[i])) == Count(p, tasks) + One(p(t))
    decreases |tasks|
  {
    var n := |tasks| - 1;
    if i < n {
      CountUpdate(p, tasks[..n], i, t);
      assert tasks[i := t][..n] == tasks[..n][i := t];
    } else {
      assert tasks[i := t][..n] == tasks[..n];
    }
  }

  lemma {:induction false} CountWitness(p: Task -> bool, tasks: seq<Task>, i: nat)
    requires i < |tasks| && p(tasks[i])
    ensures Count(p, tasks) > 0
  {
    if i < |tasks| - 1 { CountWitness(p, tasks[..|tasks| - 1], i); }
  }

  lemma {:induction false} CountNone(p: Task -> bool, tasks: seq<Task>)
    requires forall i :: 0 <= i < |tasks| ==> !p(tasks[i])
    ensures Count(p, tasks) == 0
  {
    if tasks != [] { CountNone(p, tasks[..|tasks| - 1]); }
  }

  lemma {:induction false} CountSplit(p: Task -> bool, q: Task -> bool, r: Task -> bool, tasks: seq<Task>)
    requires forall i :: 0 <= i < |tasks| ==> One(r(tasks[i])) == One(p(tasks[i])) + One(q(tasks[i]))
    ensures Count(r, tasks) == Count(p, tasks) + Count(q, tasks)
  {
    if tasks != [] { CountSplit(p, q, r, tasks[..|tasks| - 1]); }
  }

  function SumAttempts(tasks: seq<Task>): nat {
    if tasks == [] then 0 else SumAttempts(tasks[..|tasks| - 1]) + tasks[|tasks| - 1].attempts
  }

  function SumMaxAttempts(tasks: seq<Task>): nat {
    if tasks == [] then 0 else SumMaxAttempts(tasks[..|tasks| - 1]) + tasks[|tasks| - 1].spec.retry.maxAttempts
  }

  lemma {:induction false} SumUpdate(tasks: seq<Task>, i: nat, t: Task)
    requires i < |tasks| && t.spec == tasks[i].spec
    ensures SumAttempts(tasks[i := t]) + tasks[i].attempts == SumAttempts(tasks) + t.attempts
    ensures SumMaxAttempts(tasks[i := t]) == SumMaxAttempts(tasks)
  {
    var n := |tasks| - 1;
    if i < n {
      SumUpdate(tasks[..n], i, t);
      assert tasks[i := t][..n] == tasks[..n][i := t];
    } else {
      assert tasks[i := t][..n] == tasks[..n];
    }
  }

  lemma {:induction false} SumBounded(tasks: seq<Task>)
    requires forall i :: 0 <= i < |tasks| ==> tasks[i].attempts <= tasks[i].spec.retry.maxAttempts
    ensures SumAttempts(tasks) <= SumMaxAttempts(tasks)
  {
    if tasks != [] { SumBounded(tasks[..|tasks| - 1]); }
  }

  // --------------------------------------------------- what the counters count

  function IsRunning(): Task -> bool { (t: Task) => t.state == Running }

  function IsWaiting(): Task -> bool { (t: Task) => Waiting(t.state) }

  function IsIn(s: TaskState): Task -> bool { (t: Task) => t.state == s }

  function RunsOn(agent: nat): Task -> bool { (t: Task) => t.state == Running && t.agent == Some(agent) }

  function RunsIn(wave: nat): Task -> bool { (t: Task) => t.state == Running && t.spec.wave == Some(wave) }

  function Of(wave: nat): Task -> bool { (t: Task) => t.spec.wave == Some(wave) }

  function LiveIn(wave: nat): Task -> bool { (t: Task) => t.spec.wave == Some(wave) && !Terminal(t.state) }

  function EndedIn(wave: nat, s: TaskState): Task -> bool { (t: Task) => t.spec.wave == Some(wave) && t.state == s }

  /** The state of a wave computed from scratch from its tasks, its start flag and its cancel flag. */
  function WaveStateOf(tasks: seq<Task>, wave: nat, started: bool, flagged: bool): WaveState {
    if Count(Of(wave), tasks) == 0 then (if flagged then WaveCancelled else WavePending)
    else if flagged then (if Count(LiveIn(wave), tasks) > 0 then WaveCancelling else WaveCancelled)
    else if Count(LiveIn(wave), tasks) > 0 then (if started then WaveRunning else WavePending)
    else if Count(EndedIn(wave, Failed), tasks) > 0 then WaveFailed
    else if Count(EndedIn(wave, TimedOut), tasks) > 0 then WaveTimedOut
    else if Count(EndedIn(wave, BudgetExhausted), tasks) > 0 then WaveBudgetExhausted
    else if Count(EndedIn(wave, Cancelled), tasks) > 0 then WaveCancelled
    else WaveSucceeded
  }

  /** A record of another wave does not matter to a wave's state. */
  lemma WaveStateUpdate(tasks: seq<Task>, i: nat, t: Task, wave: nat, started: bool, flagged: bool)
    requires i < |tasks| && t.spec == tasks[i].spec && tasks[i].spec.wave != Some(wave)
    ensures WaveStateOf(tasks[i := t], wave, started, flagged) == WaveStateOf(tasks, wave, started, flagged)
  {
    CountUpdate(Of(wave), tasks, i, t);
    CountUpdate(LiveIn(wave), tasks, i, t);
    CountUpdate(EndedIn(wave, Failed), tasks, i, t);
    CountUpdate(EndedIn(wave, TimedOut), tasks, i, t);
    CountUpdate(EndedIn(wave, BudgetExhausted), tasks, i, t);
    CountUpdate(EndedIn(wave, Cancelled), tasks, i, t);
  }

  /** Nor does a change that keeps the record's state. */
  lemma WaveStateSame(tasks: seq<Task>, i: nat, t: Task, wave: nat, started: bool, flagged: bool)
    requires i < |tasks| && t.spec == tasks[i].spec && t.state == tasks[i].state
    ensures WaveStateOf(tasks[i := t], wave, started, flagged) == WaveStateOf(tasks, wave, started, flagged)
  {
    CountUpdate(Of(wave), tasks, i, t);
    CountUpdate(LiveIn(wave), tasks, i, t);
    CountUpdate(EndedIn(wave, Failed), tasks, i, t);
    CountUpdate(EndedIn(wave, TimedOut), tasks, i, t);
    CountUpdate(EndedIn(wave, BudgetExhausted), tasks, i, t);
    CountUpdate(EndedIn(wave, Cancelled), tasks, i, t);
  }

  lemma WaveStateAppend(tasks: seq<Task>, t: Task, wave: nat, started: bool, flagged: bool)
    requires t.spec.wave != Some(wave)
    ensures WaveStateOf(tasks + [t], wave, started, flagged) == WaveStateOf(tasks, wave, started, flagged)
  {
    CountAppend(Of(wave), tasks, t);
    CountAppend(LiveIn(wave), tasks, t);
    CountAppend(EndedIn(wave, Failed), tasks, t);
    CountAppend(EndedIn(wave, TimedOut), tasks, t);
    CountAppend(EndedIn(wave, BudgetExhausted), tasks, t);
    CountAppend(EndedIn(wave, Cancelled), tasks, t);
  }
}
