/**
 The elementary changes of the scheduler as functions of its state, each shown to keep the
 invariant.
 */
module SwarmTransitions {
  import opened Common
  import opened SwarmModel
  import opened SwarmInvariant

  function Dec(n: nat): nat { if n > 0 then n - 1 else 0 }

  ghost function OwnWave(t: Task): set<nat> {
    if t.spec.wave.Some? then {t.spec.wave.value} else {}
  }

  // -------------------------------------------------------------- recomputation

  /** recompute_wave: the wave's state becomes the from-scratch one. */
  function Recomputed(st: State, w: nat): State
    requires w < |st.waves|
  {
    var v := st.waves[w];
    st.(waves := st.waves[w := v.(state := WaveStateOf(st.tasks, w, v.started, v.flagged))])
  }

  lemma RecomputeWaves(st: State, w: nat)
    requires WavesOk(st) && w < |st.waves|
    ensures WavesOk(Recomputed(st, w))
  {
    var st' := Recomputed(st, w);
    forall v | 0 <= v < |st'.waves| ensures WaveLinks(st'.tasks, st'.waves[v], v) && WaveCounts(st'.tasks, st'.waves[v], v) {
      assert WaveLinks(st.tasks, st.waves[v], v) && WaveCounts(st.tasks, st.waves[v], v);
    }
  }

  lemma RecomputeStates(st: State, w: nat, stale: set<nat>)
    requires WaveStatesOk(st, stale) && w < |st.waves|
    requires st.waves[w].flagged ==> forall i :: 0 <= i < |st.tasks| && st.tasks[i].spec.wave == Some(w) ==> Halted(st.tasks[i])
    ensures WaveStatesOk(Recomputed(st, w), stale - {w})
  {
  }

  /** A recomputed wave is stale no more. */
  lemma RecomputeKeeps(config: Config, st: State, w: nat, stale: set<nat>)
    requires Inv(config, st, stale) && w < |st.waves|
    requires st.waves[w].flagged ==> forall i :: 0 <= i < |st.tasks| && st.tasks[i].spec.wave == Some(w) ==> Halted(st.tasks[i])
    ensures Inv(config, Recomputed(st, w), stale - {w})
  {
    RecomputeWaves(st, w);
    RecomputeStates(st, w, stale);
  }

  /** A stale wave may be recomputed early; it stays stale. */
  lemma RecomputeEarly(config: Config, st: State, w: nat, stale: set<nat>)
    requires Inv(config, st, stale) && w < |st.waves| && w in stale
    ensures Inv(config, Recomputed(st, w), stale)
  {
    RecomputeWaves(st, w);
  }

  // ------------------------------------------------------------ ending an attempt

  function DropAgent(agents: seq<Agent>, a: Option<nat>): seq<Agent> {
    if a.Some? && a.value < |agents| then agents[a.value := agents[a.value].(active := Dec(agents[a.value].active))] else agents
  }

  function DropWave(waves: seq<Wave>, w: Option<nat>): seq<Wave> {
    if w.Some? && w.value < |waves| then waves[w.value := waves[w.value].(active := Dec(waves[w.value].active))] else waves
  }

  /** release_resources. */
  function Released(st: State, i: nat): State
    requires i < |st.tasks|
  {
    var t := st.tasks[i];
    st.(agents := DropAgent(st.agents, t.agent), waves := DropWave(st.waves, t.spec.wave), active := Dec(st.active),
        tasks := st.tasks[i := t.(agent := None, deadline := None)])
  }

  function Tallied(tel: Telemetry, s: TaskState): Telemetry {
    match s
    case Succeeded => tel.(succeeded := tel.succeeded + 1)
    case Failed => tel.(failed := tel.failed + 1)
    case Cancelled => tel.(cancelled := tel.cancelled + 1)
    case TimedOut => tel.(timedOut := tel.timedOut + 1)
    case BudgetExhausted => tel.(budgetExhausted := tel.budgetExhausted + 1)
    case _ => tel
  }

  /** The record of a task whose attempt ended. */
  function Ended(t: Task, outcome: Outcome, now: int, seqNo: nat): Task {
    var done := t.(agent := None, deadline := None, tokensTotal := t.tokensTotal + t.tokens);
    if ShouldRetry(t, outcome) then
      done.(state := RetryWait, notBefore := Some(now + RetryDelay(t.spec.retry, t.attempts)), queueSeq := seqNo,
            tokens := 0, flagged := false)
    else done.(state := StateFor(outcome), notBefore := None)
  }

  /** finish_attempt up to the recomputation of the wave. */
  function Finished(st: State, i: nat, outcome: Outcome, now: int): State
    requires i < |st.tasks|
  {
    var t, r := st.tasks[i], Released(st, i);
    r.(tasks := st.tasks[i := Ended(t, outcome, now, st.nextQueue)],
       nextQueue := if ShouldRetry(t, outcome) then st.nextQueue + 1 else st.nextQueue,
       tel := if ShouldRetry(t, outcome) then st.tel.(retries := st.tel.retries + 1)
              else Tallied(st.tel, StateFor(outcome)))
  }

  lemma FinishedReplaces(st: State, i: nat, outcome: Outcome, now: int)
    requires i < |st.tasks|
    ensures Replaces(st, Finished(st, i, outcome, now), i)
  {
  }

  lemma FinishAgents(st: State, i: nat, outcome: Outcome, now: int)
    requires AgentsOk(st) && i < |st.tasks| && st.tasks[i].state == Running
    requires st.tasks[i].agent.Some? && st.tasks[i].agent.value < |st.agents|
    ensures AgentsOk(Finished(st, i, outcome, now))
  {
    CountWitness(RunsOn(st.tasks[i].agent.value), st.tasks, i);
    FinishedReplaces(st, i, outcome, now);
    ReplaceAgents(st, Finished(st, i, outcome, now), i);
  }

  lemma FinishWaves(st: State, i: nat, outcome: Outcome, now: int)
    requires WavesOk(st) && i < |st.tasks| && st.tasks[i].state == Running
    requires st.tasks[i].spec.wave.Some? ==> st.tasks[i].spec.wave.value < |st.waves|
    ensures WavesOk(Finished(st, i, outcome, now))
  {
    var t, st' := st.tasks[i], Finished(st, i, outcome, now);
    if t.spec.wave.Some? { CountWitness(RunsIn(t.spec.wave.value), st.tasks, i); }
    forall w | 0 <= w < |st.waves|
      ensures st'.waves[w].active + One(RunsIn(w)(t)) == st.waves[w].active + One(RunsIn(w)(st'.tasks[i]))
      ensures st.waves[w].maxConcurrent.Some? ==> st'.waves[w].active <= st.waves[w].maxConcurrent.value
    {
      assert WaveCounts(st.tasks, st.waves[w], w);
    }
    FinishedReplaces(st, i, outcome, now);
    ReplaceWaves(st, st', i);
  }

  lemma FinishTotals(config: Config, st: State, i: nat, outcome: Outcome, now: int)
    requires TotalsOk(config, st) && FinalsOk(st) && i < |st.tasks| && st.tasks[i].state == Running
    ensures TotalsOk(config, Finished(st, i, outcome, now)) && FinalsOk(Finished(st, i, outcome, now))
  {
    CountWitness(IsRunning(), st.tasks, i);
    FinishedReplaces(st, i, outcome, now);
    ReplaceTotals(config, st, Finished(st, i, outcome, now), i);
    ReplaceFinals(st, Finished(st, i, outcome, now), i);
  }

  /** Ending an attempt keeps the invariant; only the task's own wave is left to recompute. */
  lemma FinishKeeps(config: Config, st: State, i: nat, outcome: Outcome, now: int, stale: set<nat>)
    requires Inv(config, st, stale) && i < |st.tasks| && st.tasks[i].state == Running
    requires st.tasks[i].flagged ==> outcome == OCancelled
    ensures Inv(config, Finished(st, i, outcome, now), stale + OwnWave(st.tasks[i]))
  {
    var t, st' := st.tasks[i], Finished(st, i, outcome, now);
    assert TaskOk(|st.agents|, |st.waves|, st.nextQueue, t, i);
    FinishAgents(st, i, outcome, now);
    FinishWaves(st, i, outcome, now);
    FinishTotals(config, st, i, outcome, now);
    FinishedReplaces(st, i, outcome, now);
    ReplaceTasks(st, st', i);
    ReplaceWaveStates(st, st', i, stale);
  }

  // ---------------------------------------------------------------- cancelling

  /** cancel_task_locked on a waiting task, up to the recomputation of its wave. */
  function CancelledWaiting(st: State, i: nat): State
    requires i < |st.tasks|
  {
    st.(tasks := st.tasks[i := st.tasks[i].(flagged := true, state := Cancelled, notBefore := None)],
        tel := Tallied(st.tel, Cancelled))
  }

  lemma CancelWaitingKeeps(config: Config, st: State, i: nat, stale: set<nat>)
    requires Inv(config, st, stale) && i < |st.tasks| && Waiting(st.tasks[i].state)
    ensures Inv(config, CancelledWaiting(st, i), stale + OwnWave(st.tasks[i]))
  {
    var st' := CancelledWaiting(st, i);
    assert TaskOk(|st.agents|, |st.waves|, st.nextQueue, st.tasks[i], i);
    ReplaceTasks(st, st', i);
    ReplaceAgents(st, st', i);
    WavesUntouched(st, st', i);
    ReplaceWaveStates(st, st', i, stale);
    ReplaceTotals(config, st, st', i);
    ReplaceFinals(st, st', i);
  }

  /** A change that does not touch who runs keeps the wave counters. */
  lemma WavesUntouched(st: State, st': State, i: nat)
    requires WavesOk(st) && Replaces(st, st', i) && st'.waves == st.waves
    requires (st.tasks[i].state == Running) == (st'.tasks[i].state == Running)
    ensures WavesOk(st')
  {
    forall w | 0 <= w < |st.waves|
      ensures st.waves[w].maxConcurrent.Some? ==> st.waves[w].active <= st.waves[w].maxConcurrent.value
    {
      assert WaveCounts(st.tasks, st.waves[w], w);
    }
    ReplaceWaves(st, st', i);
  }

  /** A change to a task that keeps its state, such as a flag or a token count. */
  function Touched(st: State, i: nat, t: Task): State
    requires i < |st.tasks|
  {
    st.(tasks := st.tasks[i := t])
  }

  lemma TouchKeeps(config: Config, st: State, i: nat, t: Task, stale: set<nat>)
    requires Inv(config, st, stale) && i < |st.tasks| && st.tasks[i].state == Running
    requires t == st.tasks[i].(flagged := t.flagged, tokens := t.tokens) && (st.tasks[i].flagged ==> t.flagged)
    ensures Inv(config, Touched(st, i, t), stale)
  {
    var st' := Touched(st, i, t);
    assert TaskOk(|st.agents|, |st.waves|, st.nextQueue, st.tasks[i], i);
    ReplaceTasks(st, st', i);
    ReplaceAgents(st, st', i);
    WavesUntouched(st, st', i);
    ReplaceTotals(config, st, st', i);
    ReplaceFinals(st, st', i);
    forall w | 0 <= w < |st.waves| && w !in stale
      ensures st.waves[w].state == WaveStateOf(st'.tasks, w, st.waves[w].started, st.waves[w].flagged)
    {
      WaveStateSame(st.tasks, i, t, w, st.waves[w].started, st.waves[w].flagged);
    }
  }

  // ------------------------------------------------------------------ admission

  /** The task may start now: waiting, not cancelled, due, and its wave has room. */
  predicate Eligible(st: State, i: nat, now: int)
    requires i < |st.tasks|
  {
    var t := st.tasks[i];
    && !t.flagged && Waiting(t.state)
    && (t.state == RetryWait && t.notBefore.Some? ==> t.notBefore.value <= now)
    && (t.spec.wave.Some? ==>
          && t.spec.wave.value < |st.waves| && !st.waves[t.spec.wave.value].flagged
          && (var v := st.waves[t.spec.wave.value]; v.maxConcurrent.Some? ==> v.active < v.maxConcurrent.value))
  }

  predicate Available(st: State, a: nat)
    requires a < |st.agents|
  {
    st.agents[a].admin == AgentIdle && st.agents[a].active < st.agents[a].maxConcurrent
  }

  /** The record of an admitted task. */
  function Admitted(t: Task, a: nat, now: int): Task {
    t.(state := Running, attempts := t.attempts + 1, tokens := 0, agent := Some(a), notBefore := None,
       deadline := if t.spec.maxDuration.Some? then Some(now + t.spec.maxDuration.value) else None)
  }

  function Entered(waves: seq<Wave>, w: Option<nat>): seq<Wave> {
    if w.Some? && w.value < |waves| then
      waves[w.value := waves[w.value].(active := waves[w.value].active + 1, started := true, state := WaveRunning)]
    else waves
  }

  function Started(st: State, i: nat, a: nat, now: int): State
    requires i < |st.tasks| && a < |st.agents|
  {
    st.(agents := st.agents[a := st.agents[a].(active := st.agents[a].active + 1)],
        waves := Entered(st.waves, st.tasks[i].spec.wave), active := st.active + 1,
        tasks := st.tasks[i := Admitted(st.tasks[i], a, now)],
        tel := st.tel.(attempts := st.tel.attempts + 1))
  }

  lemma StartedReplaces(st: State, i: nat, a: nat, now: int)
    requires i < |st.tasks| && a < |st.agents|
    ensures Replaces(st, Started(st, i, a, now), i)
  {
  }

  lemma StartWaves(st: State, i: nat, a: nat, now: int)
    requires WavesOk(st) && i < |st.tasks| && a < |st.agents| && Eligible(st, i, now)
    ensures WavesOk(Started(st, i, a, now))
  {
    var st' := Started(st, i, a, now);
    forall w | 0 <= w < |st.waves|
      ensures st'.waves[w].active + One(RunsIn(w)(st.tasks[i])) == st.waves[w].active + One(RunsIn(w)(st'.tasks[i]))
      ensures st.waves[w].maxConcurrent.Some? ==> st'.waves[w].active <= st.waves[w].maxConcurrent.value
    {
      assert WaveCounts(st.tasks, st.waves[w], w);
    }
    StartedReplaces(st, i, a, now);
    ReplaceWaves(st, st', i);
  }

  lemma StartWaveStates(st: State, i: nat, a: nat, now: int)
    requires WaveStatesOk(st, {}) && i < |st.tasks| && a < |st.agents| && Eligible(st, i, now)
    ensures WaveStatesOk(Started(st, i, a, now), {})
  {
    var t, st' := st.tasks[i], Started(st, i, a, now);
    StartedReplaces(st, i, a, now);
    ReplaceWaveStates(st, st', i, {});
    if t.spec.wave.Some? {
      CountWitness(Of(t.spec.wave.value), st'.tasks, i);
      CountWitness(LiveIn(t.spec.wave.value), st'.tasks, i);
    }
  }

  /** Admission keeps the invariant. */
  lemma StartKeeps(config: Config, st: State, i: nat, a: nat, now: int)
    requires Inv(config, st, {}) && i < |st.tasks| && a < |st.agents|
    requires Eligible(st, i, now) && Available(st, a) && st.active < config.maxConcurrent
    ensures Inv(config, Started(st, i, a, now), {})
  {
    var st' := Started(st, i, a, now);
    assert TaskOk(|st.agents|, |st.waves|, st.nextQueue, st.tasks[i], i);
    StartedReplaces(st, i, a, now);
    ReplaceTasks(st, st', i);
    ReplaceAgents(st, st', i);
    StartWaves(st, i, a, now);
    StartWaveStates(st, i, a, now);
    ReplaceTotals(config, st, st', i);
    ReplaceFinals(st, st', i);
  }

  // ------------------------------------------------------------------ new records

  /** What submit accepts. */
  predicate Acceptable(config: Config, st: State, spec: TaskSpec) {
    && spec.retry.maxAttempts > 0 && spec.retry.backoff >= 0 && spec.retry.maxBackoff >= 0
    && (spec.maxDuration.Some? ==> spec.maxDuration.value >= 0)
    && (spec.wave.Some? ==>
          && spec.wave.value < |st.waves|
          && !TerminalWave(st.waves[spec.wave.value].state) && !st.waves[spec.wave.value].flagged)
    && (spec.parent.wave.Some? ==> spec.parent.wave.value < |st.waves|)
    && (spec.parent.task.Some? ==> spec.parent.task.value < |st.tasks|)
    && (config.maxQueued.Some? ==> Count(IsWaiting(), st.tasks) < config.maxQueued.value)
  }

  function NewTask(spec: TaskSpec, seqNo: nat): Task {
    Task(spec, Queued, seqNo, 0, 0, 0, None, false, None, None)
  }

  function Submitted(st: State, spec: TaskSpec): State {
    st.(tasks := st.tasks + [NewTask(spec, st.nextQueue)], nextQueue := st.nextQueue + 1,
        tel := st.tel.(submitted := st.tel.submitted + 1))
  }

  lemma SubmitWaves(config: Config, st: State, spec: TaskSpec)
    requires WavesOk(st) && Acceptable(config, st, spec)
    ensures WavesOk(Submitted(st, spec))
  {
    var t, st' := NewTask(spec, st.nextQueue), Submitted(st, spec);
    forall w | 0 <= w < |st.waves| ensures WaveLinks(st'.tasks, st.waves[w], w) && WaveCounts(st'.tasks, st.waves[w], w) {
      assert WaveLinks(st.tasks, st.waves[w], w) && WaveCounts(st.tasks, st.waves[w], w);
      CountAppend(RunsIn(w), st.tasks, t);
      CountAppend(Of(w), st.tasks, t);
    }
  }

  lemma SubmitWaveStates(config: Config, st: State, spec: TaskSpec)
    requires WavesOk(st) && WaveStatesOk(st, {}) && Acceptable(config, st, spec)
    ensures WaveStatesOk(Submitted(st, spec), {})
  {
    var t, st' := NewTask(spec, st.nextQueue), Submitted(st, spec);
    forall w | 0 <= w < |st.waves|
      ensures st.waves[w].state == WaveStateOf(st'.tasks, w, st.waves[w].started, st.waves[w].flagged)
    {
      if spec.wave == Some(w) {
        assert WaveCounts(st.tasks, st.waves[w], w);
        CountAppend(Of(w), st.tasks, t);
        CountAppend(LiveIn(w), st.tasks, t);
      } else {
        WaveStateAppend(st.tasks, t, w, st.waves[w].started, st.waves[w].flagged);
      }
    }
  }

  lemma SubmitTotals(config: Config, st: State, spec: TaskSpec)
    requires TotalsOk(config, st) && FinalsOk(st) && AgentsOk(st) && Acceptable(config, st, spec)
    ensures TotalsOk(config, Submitted(st, spec)) && FinalsOk(Submitted(st, spec)) && AgentsOk(Submitted(st, spec))
  {
    var t, st' := NewTask(spec, st.nextQueue), Submitted(st, spec);
    CountAppend(IsRunning(), st.tasks, t);
    CountAppend(IsWaiting(), st.tasks, t);
    CountAppend(IsIn(Succeeded), st.tasks, t);
    CountAppend(IsIn(Failed), st.tasks, t);
    CountAppend(IsIn(Cancelled), st.tasks, t);
    CountAppend(IsIn(TimedOut), st.tasks, t);
    CountAppend(IsIn(BudgetExhausted), st.tasks, t);
    assert st'.tasks[..|st.tasks|] == st.tasks;
    forall a | 0 <= a < |st.agents| ensures st.agents[a].active == Count(RunsOn(a), st'.tasks) {
      CountAppend(RunsOn(a), st.tasks, t);
    }
  }

  /** A submission keeps the invariant. */
  lemma SubmitKeeps(config: Config, st: State, spec: TaskSpec)
    requires Inv(config, st, {}) && Acceptable(config, st, spec)
    ensures Inv(config, Submitted(st, spec), {})
  {
    var st' := Submitted(st, spec);
    forall i | 0 <= i < |st'.tasks| ensures TaskOk(|st.agents|, |st.waves|, st'.nextQueue, st'.tasks[i], i) {
      if i < |st.tasks| {
        assert TaskOk(|st.agents|, |st.waves|, st.nextQueue, st.tasks[i], i);
      }
    }
    forall j, k | 0 <= j < k < |st'.tasks| ensures SeqNo(st'.tasks, j) != SeqNo(st'.tasks, k) {
      if k < |st.tasks| { assert SeqNo(st.tasks, j) != SeqNo(st.tasks, k); }
    }
    SubmitWaves(config, st, spec);
    SubmitWaveStates(config, st, spec);
    SubmitTotals(config, st, spec);
  }

  function NewAgent(maxConcurrent: nat): Agent { Agent(maxConcurrent, AgentIdle, 0) }

  lemma RegisterKeeps(config: Config, st: State, maxConcurrent: nat)
    requires Inv(config, st, {})
    ensures Inv(config, st.(agents := st.agents + [NewAgent(maxConcurrent)]), {})
  {
    var st' := st.(agents := st.agents + [NewAgent(maxConcurrent)]);
    forall i | 0 <= i < |st.tasks| ensures TaskOk(|st'.agents|, |st.waves|, st.nextQueue, st.tasks[i], i) {
      assert TaskOk(|st.agents|, |st.waves|, st.nextQueue, st.tasks[i], i);
    }
    var a := |st.agents|;
    forall i | 0 <= i < |st.tasks| ensures !RunsOn(a)(st.tasks[i]) {
      assert TaskOk(|st.agents|, |st.waves|, st.nextQueue, st.tasks[i], i);
    }
    CountNone(RunsOn(a), st.tasks);
  }

  function NewWave(maxConcurrent: Option<nat>, parent: Parent): Wave {
    Wave(maxConcurrent, parent, WavePending, false, false, 0)
  }

  lemma NobodyInNewWave(st: State)
    requires TasksOk(st)
    ensures Count(Of(|st.waves|), st.tasks) == 0 && Count(RunsIn(|st.waves|), st.tasks) == 0
  {
    forall i | 0 <= i < |st.tasks| ensures !Of(|st.waves|)(st.tasks[i]) && !RunsIn(|st.waves|)(st.tasks[i]) {
      assert TaskOk(|st.agents|, |st.waves|, st.nextQueue, st.tasks[i], i);
    }
    CountNone(Of(|st.waves|), st.tasks);
    CountNone(RunsIn(|st.waves|), st.tasks);
  }

  lemma CreateWaveLinks(st: State, maxConcurrent: Option<nat>, parent: Parent)
    requires TasksOk(st) && WavesOk(st)
    requires (parent.wave.Some? ==> parent.wave.value < |st.waves|) && (parent.task.Some? ==> parent.task.value < |st.tasks|)
    ensures WavesOk(st.(waves := st.waves + [NewWave(maxConcurrent, parent)]))
  {
    var waves := st.waves + [NewWave(maxConcurrent, parent)];
    NobodyInNewWave(st);
    if parent.task.Some? {
      assert TaskOk(|st.agents|, |st.waves|, st.nextQueue, st.tasks[parent.task.value], parent.task.value);
    }
    forall v | 0 <= v < |waves| ensures WaveLinks(st.tasks, waves[v], v) && WaveCounts(st.tasks, waves[v], v) {
      if v < |st.waves| { assert WaveLinks(st.tasks, st.waves[v], v) && WaveCounts(st.tasks, st.waves[v], v); }
    }
  }

  /** A new wave keeps the invariant. */
  lemma CreateWaveKeeps(config: Config, st: State, maxConcurrent: Option<nat>, parent: Parent)
    requires Inv(config, st, {})
    requires (parent.wave.Some? ==> parent.wave.value < |st.waves|) && (parent.task.Some? ==> parent.task.value < |st.tasks|)
    ensures Inv(config, st.(waves := st.waves + [NewWave(maxConcurrent, parent)]), {})
  {
    CreateWaveLinks(st, maxConcurrent, parent);
    NobodyInNewWave(st);
    forall i | 0 <= i < |st.tasks| ensures TaskOk(|st.agents|, |st.waves| + 1, st.nextQueue, st.tasks[i], i) {
      assert TaskOk(|st.agents|, |st.waves|, st.nextQueue, st.tasks[i], i);
    }
  }

  // ------------------------------------------------------------- wave cancel flags

  /** One selected wave is flagged, and shows it unless it had ended. */
  function FlaggedWave(v: Wave): Wave {
    v.(flagged := true, state := if v.state == WavePending || v.state == WaveRunning then WaveCancelling else v.state)
  }

  lemma FlagKeeps(config: Config, st: State, w: nat, stale: set<nat>)
    requires Inv(config, st, stale) && w < |st.waves|
    ensures Inv(config, st.(waves := st.waves[w := FlaggedWave(st.waves[w])]), stale + {w})
  {
    var st' := st.(waves := st.waves[w := FlaggedWave(st.waves[w])]);
    forall v | 0 <= v < |st.waves| ensures WaveLinks(st.tasks, st'.waves[v], v) && WaveCounts(st.tasks, st'.waves[v], v) {
      assert WaveLinks(st.tasks, st.waves[v], v) && WaveCounts(st.tasks, st.waves[v], v);
    }
  }

  lemma AgentStateKeeps(config: Config, st: State, a: nat, admin: AgentState, stale: set<nat>)
    requires Inv(config, st, stale) && a < |st.agents|
    ensures Inv(config, st.(agents := st.agents[a := st.agents[a].(admin := admin)]), stale)
  {
  }
}
