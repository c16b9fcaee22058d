/**
 What cancelling a wave does to waves that had ended, and to what is submitted below it afterwards
 (src/axiom_qwen38_swarm_scheduler.cpp).
 */
module SwarmCancellation {
  import opened Common
  import opened SwarmModel
  import opened SwarmInvariant
  import opened SwarmTransitions
  import opened SwarmAncestry
  import opened SwarmScheduler

  // ---------------------------------------------------------- waves that had ended

  lemma {:induction false} CountSame(p: Task -> bool, tasks: seq<Task>, tasks': seq<Task>)
    requires |tasks| == |tasks'| && forall i :: 0 <= i < |tasks| ==> p(tasks[i]) == p(tasks'[i])
    ensures Count(p, tasks) == Count(p, tasks')
  {
    if tasks != [] { CountSame(p, tasks[..|tasks| - 1], tasks'[..|tasks'| - 1]); }
  }

  lemma {:induction false} LiveAreOf(w: nat, tasks: seq<Task>)
    ensures Count(LiveIn(w), tasks) <= Count(Of(w), tasks)
  {
    if tasks != [] { LiveAreOf(w, tasks[..|tasks| - 1]); }
  }

  /** A wave that has ended holds no live task. */
  lemma EndedHoldsNoLive(tasks: seq<Task>, w: nat, started: bool, flagged: bool, i: nat)
    requires TerminalWave(WaveStateOf(tasks, w, started, flagged)) && i < |tasks| && tasks[i].spec.wave == Some(w)
    ensures Terminal(tasks[i].state)
  {
    LiveAreOf(w, tasks);
    if !Terminal(tasks[i].state) { CountWitness(LiveIn(w), tasks, i); }
  }

  /** Its tasks stay as they ended, and the tasks of other waves do not matter to it. */
  ghost predicate SameIn(tasks: seq<Task>, tasks': seq<Task>, w: nat) {
    |tasks'| == |tasks| && forall i :: 0 <= i < |tasks| ==>
      tasks'[i].spec == tasks[i].spec && (tasks[i].spec.wave == Some(w) ==> tasks'[i] == tasks[i])
  }

  lemma SameCounts(tasks: seq<Task>, tasks': seq<Task>, w: nat)
    requires SameIn(tasks, tasks', w)
    ensures Count(Of(w), tasks') == Count(Of(w), tasks) && Count(LiveIn(w), tasks') == Count(LiveIn(w), tasks)
    ensures forall s :: Count(EndedIn(w, s), tasks') == Count(EndedIn(w, s), tasks)
  {
    CountSame(Of(w), tasks, tasks');
    CountSame(LiveIn(w), tasks, tasks');
    forall s ensures Count(EndedIn(w, s), tasks') == Count(EndedIn(w, s), tasks) { CountSame(EndedIn(w, s), tasks, tasks'); }
  }

  /** A wave that has ended and whose tasks stay is cancelled by the flag, and keeps its state without it. */
  lemma EndedStateAfter(tasks: seq<Task>, tasks': seq<Task>, w: nat, started: bool, started': bool, flagged: bool, flagged': bool)
    requires SameIn(tasks, tasks', w) && TerminalWave(WaveStateOf(tasks, w, started, flagged)) && (flagged ==> flagged')
    ensures WaveStateOf(tasks', w, started', flagged') ==
            if flagged' then WaveCancelled else WaveStateOf(tasks, w, started, flagged)
  {
    SameCounts(tasks, tasks', w);
    LiveAreOf(w, tasks);
  }

  lemma EndedTasksStay(config: Config, mid: State, st: State, v: nat)
    requires Inv(config, mid, {}) && Follows(mid, st) && |st.tasks| == |mid.tasks|
    requires v < |mid.waves| && TerminalWave(mid.waves[v].state)
    ensures SameIn(mid.tasks, st.tasks, v)
  {
    forall i | 0 <= i < |mid.tasks|
      ensures st.tasks[i].spec == mid.tasks[i].spec && (mid.tasks[i].spec.wave == Some(v) ==> st.tasks[i] == mid.tasks[i])
    {
      assert TaskFollows(mid.tasks[i], st.tasks[i]);
      if mid.tasks[i].spec.wave == Some(v) { EndedHoldsNoLive(mid.tasks, v, mid.waves[v].started, mid.waves[v].flagged, i); }
    }
  }

  /** cancel_wave leaves a wave that had ended as it ended if and only if it does not select it, or the wave had
      ended cancelled. */
  lemma EndedWaveKeptIff(config: Config, mid: State, st: State, wave: nat, descendants: bool, marks: seq<bool>, v: nat)
    requires Inv(config, mid, {}) && Inv(config, st, {}) && Follows(mid, st)
    requires WaveCancelledIn(mid, st, wave, descendants, marks) && v < |mid.waves| && TerminalWave(mid.waves[v].state)
    ensures st.waves[v].state == mid.waves[v].state <==>
            !SelectedWave(LinksOf(mid), v, wave, descendants) || mid.waves[v].state == WaveCancelled
    ensures SelectedWave(LinksOf(mid), v, wave, descendants) ==> st.waves[v].state == WaveCancelled
  {
    EndedTasksStay(config, mid, st, v);
    var a, b := mid.waves[v], st.waves[v];
    EndedStateAfter(mid.tasks, st.tasks, v, a.started, b.started, a.flagged, b.flagged);
    if a.flagged { EndedStateAfter(mid.tasks, mid.tasks, v, a.started, a.started, true, true); }
  }

  /** A wave whose one task succeeded. */
  lemma SucceededWave() returns (config: Config, st: State)
    ensures Inv(config, st, {}) && |st.waves| == 1 && st.waves[0].state == WaveSucceeded
  {
    var spec := TaskSpec(0, Some(0), Parent(None, None), None, None, RetryPolicy(1, false, false, false, false, 0, 0));
    var t := Task(spec, Succeeded, 1, 1, 0, 0, None, false, None, None);
    var w := Wave(None, Parent(None, None), WaveSucceeded, false, true, 0);
    config := Config(1, None);
    st := State([Agent(1, AgentIdle, 0)], [w], [t], 0, 2, Telemetry(1, 0, 1, 0, 1, 0, 0, 0, 0));
    assert [t][..0] == [];
    assert TaskOk(0, 1, 2, t, 0);
  }

  // ------------------------------------------------------ what is submitted later

  predicate HasRoom(v: Wave) { v.maxConcurrent.Some? ==> v.active < v.maxConcurrent.value }

  /** Neither acceptance nor admission looks at the flag of any wave but the task's own. */
  lemma OtherFlagsIgnored(config: Config, st: State, spec: TaskSpec, a: nat, flag: bool, i: nat, now: int)
    requires a < |st.waves| && i < |st.tasks|
    ensures var st' := st.(waves := st.waves[a := st.waves[a].(flagged := flag)]);
            && (spec.wave != Some(a) ==> (Acceptable(config, st', spec) <==> Acceptable(config, st, spec)))
            && (st.tasks[i].spec.wave != Some(a) ==> (Eligible(st', i, now) <==> Eligible(st, i, now)))
  {
  }

  /** So a task submitted below a cancelled wave `a` is accepted as if `a` were not cancelled, belongs to its tree and
      may start if and only if its own wave has room. */
  lemma LateTask(config: Config, st: State, spec: TaskSpec, a: nat, now: int)
    requires Inv(config, st, {}) && Acceptable(config, st, spec)
    requires a < |st.waves| && st.waves[a].flagged && spec.parent.wave == Some(a)
    ensures var st', i := Submitted(st, spec), |st.tasks|;
            && Inv(config, st', {}) && Descending(LinksOf(st')) && Under(LinksOf(st'), i, a) && !Halted(st'.tasks[i])
            && (Eligible(st', i, now) <==> (spec.wave.Some? ==> HasRoom(st.waves[spec.wave.value])))
  {
    SubmitKeeps(config, st, spec);
    var st', i := Submitted(st, spec), |st.tasks|;
    InvDescends(config, st', {});
    assert LinksOf(st').specs[i] == spec;
    assert UnderParents(LinksOf(st'), i, a);
  }

  /** A task of a cancelled wave itself is refused, whatever else its spec says. */
  lemma OwnWaveRefuses(config: Config, st: State, spec: TaskSpec, a: nat)
    requires a < |st.waves| && st.waves[a].flagged && spec.wave == Some(a)
    ensures !Acceptable(config, st, spec)
  {
  }

  /** A cancelled wave with room below it for such a task. */
  lemma CancelledWave() returns (config: Config, st: State, spec: TaskSpec)
    ensures Inv(config, st, {}) && |st.waves| == 1 && st.waves[0].flagged && Acceptable(config, st, spec) && spec.parent.wave == Some(0)
  {
    config := Config(1, None);
    st := State([], [Wave(None, Parent(None, None), WaveCancelled, true, false, 0)], [], 0, 1, Telemetry(0, 0, 0, 0, 0, 0, 0, 0, 0));
    spec := TaskSpec(0, None, Parent(None, Some(0)), None, None, RetryPolicy(1, false, false, false, false, 0, 0));
  }
}
