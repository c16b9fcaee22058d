/**
 The scheduler of src/axiom_qwen38_swarm_scheduler.cpp: every operation keeps the invariant,
 terminal tasks stay as they ended, and a task flagged for cancellation never starts again.
 */
module SwarmScheduler {
  import opened Common
  import opened SwarmModel
  import opened SwarmInvariant
  import opened SwarmTransitions
  import opened SwarmAncestry

  // ------------------------------------------------------------ what runs preserve

  /** How one record may change over any number of operations. */
  predicate TaskFollows(t: Task, t': Task) {
    && t'.spec == t.spec && t.attempts <= t'.attempts
    && (Terminal(t.state) ==> t' == t)
    && (t.flagged ==> t'.flagged && t'.attempts == t.attempts && (t'.state == Running || t'.state == Cancelled))
  }

  ghost predicate Follows(st: State, st': State) {
    |st.tasks| <= |st'.tasks| && forall i :: 0 <= i < |st.tasks| ==> TaskFollows(st.tasks[i], st'.tasks[i])
  }

  lemma FollowsSelf(config: Config, st: State, stale: set<nat>)
    requires Inv(config, st, stale)
    ensures Follows(st, st)
  {
    forall i | 0 <= i < |st.tasks| ensures TaskFollows(st.tasks[i], st.tasks[i]) {
      assert TaskOk(|st.agents|, |st.waves|, st.nextQueue, st.tasks[i], i);
    }
  }

  /** Over whole runs: what holds between neighbouring states holds between any two. */
  lemma FollowsChain(st: State, mid: State, st': State)
    requires Follows(st, mid) && Follows(mid, st')
    ensures Follows(st, st')
  {
    forall i | 0 <= i < |st.tasks| ensures TaskFollows(st.tasks[i], st'.tasks[i]) {
      assert TaskFollows(st.tasks[i], mid.tasks[i]) && TaskFollows(mid.tasks[i], st'.tasks[i]);
    }
  }

  lemma FollowsReplace(config: Config, st: State, st': State, i: nat, stale: set<nat>)
    requires Inv(config, st, stale) && i < |st.tasks| == |st'.tasks| && st'.tasks == st.tasks[i := st'.tasks[i]]
    requires TaskFollows(st.tasks[i], st'.tasks[i])
    ensures Follows(st, st')
  {
    FollowsSelf(config, st, stale);
  }

  // ------------------------------------------------------------- composed changes

  /** finish_attempt, with the recomputation of the task's wave. */
  function AfterFinish(st: State, i: nat, outcome: Outcome, now: int): State
    requires i < |st.tasks|
  {
    var f, w := Finished(st, i, outcome, now), st.tasks[i].spec.wave;
    if w.Some? && w.value < |st.waves| then Recomputed(f, w.value) else f
  }

  lemma FinishHalts(st: State, i: nat, outcome: Outcome, now: int, w: nat)
    requires WaveStatesOk(st, {}) && i < |st.tasks| && st.tasks[i].state == Running
    requires st.tasks[i].flagged ==> outcome == OCancelled
    requires w < |st.waves| && st.waves[w].flagged && st.tasks[i].spec.wave == Some(w)
    ensures var f := Finished(st, i, outcome, now);
            forall j :: 0 <= j < |f.tasks| && f.tasks[j].spec.wave == Some(w) ==> Halted(f.tasks[j])
  {
    assert Halted(st.tasks[i]);
    var f := Finished(st, i, outcome, now);
    forall j | 0 <= j < |f.tasks| && f.tasks[j].spec.wave == Some(w) ensures Halted(f.tasks[j]) {
      if j != i { assert f.tasks[j] == st.tasks[j]; }
    }
  }

  lemma RecomputeOwn(config: Config, st: State, w: nat)
    requires Inv(config, st, {w}) && w < |st.waves|
    requires st.waves[w].flagged ==> forall i :: 0 <= i < |st.tasks| && st.tasks[i].spec.wave == Some(w) ==> Halted(st.tasks[i])
    ensures Inv(config, Recomputed(st, w), {})
  {
    RecomputeKeeps(config, st, w, {w});
    assert {w} - {w} == {};
  }

  lemma AfterFinishInv(config: Config, st: State, i: nat, outcome: Outcome, now: int)
    requires Inv(config, st, {}) && i < |st.tasks| && st.tasks[i].state == Running
    requires st.tasks[i].flagged ==> outcome == OCancelled
    ensures Inv(config, AfterFinish(st, i, outcome, now), {})
  {
    FinishKeeps(config, st, i, outcome, now, {});
    if st.tasks[i].spec.wave.Some? {
      var w := st.tasks[i].spec.wave.value;
      assert TaskOk(|st.agents|, |st.waves|, st.nextQueue, st.tasks[i], i);
      if st.waves[w].flagged { FinishHalts(st, i, outcome, now, w); }
      assert {} + OwnWave(st.tasks[i]) == {w};
      RecomputeOwn(config, Finished(st, i, outcome, now), w);
    } else {
      assert {} + OwnWave(st.tasks[i]) == {};
    }
  }

  lemma EndedFollows(t: Task, outcome: Outcome, now: int, seqNo: nat)
    requires t.state == Running && (t.flagged ==> outcome == OCancelled)
    ensures TaskFollows(t, Ended(t, outcome, now, seqNo))
  {
  }

  /** Ending an attempt keeps the invariant, wave states included. */
  lemma AfterFinishKeeps(config: Config, st: State, i: nat, outcome: Outcome, now: int)
    requires Inv(config, st, {}) && i < |st.tasks| && st.tasks[i].state == Running
    requires st.tasks[i].flagged ==> outcome == OCancelled
    ensures Inv(config, AfterFinish(st, i, outcome, now), {}) && Follows(st, AfterFinish(st, i, outcome, now))
  {
    AfterFinishInv(config, st, i, outcome, now);
    EndedFollows(st.tasks[i], outcome, now, st.nextQueue);
    FollowsReplace(config, st, AfterFinish(st, i, outcome, now), i, {});
  }

  /** cancel_task_locked. */
  function AfterCancel(st: State, i: nat): State
    requires i < |st.tasks|
  {
    var t, w := st.tasks[i], st.tasks[i].spec.wave;
    if Terminal(t.state) then st
    else if Waiting(t.state) then
      var c := CancelledWaiting(st, i);
      if w.Some? && w.value < |st.waves| then Recomputed(c, w.value) else c
    else Touched(st, i, t.(flagged := true))
  }

  lemma CancelWaitingInv(config: Config, st: State, i: nat, stale: set<nat>)
    requires Inv(config, st, stale) && i < |st.tasks| && Waiting(st.tasks[i].state)
    ensures Inv(config, AfterCancel(st, i), stale)
  {
    var c := CancelledWaiting(st, i);
    CancelWaitingKeeps(config, st, i, stale);
    assert TaskOk(|st.agents|, |st.waves|, st.nextQueue, st.tasks[i], i);
    if st.tasks[i].spec.wave.Some? {
      var w := st.tasks[i].spec.wave.value;
      if w in stale {
        assert stale + {w} == stale;
        RecomputeEarly(config, c, w, stale);
      } else {
        RecomputeKeeps(config, c, w, stale + {w});
        assert stale + {w} - {w} == stale;
      }
    } else {
      assert stale + {} == stale;
    }
  }

  /** Cancelling a task keeps the invariant and leaves the task halted. */
  lemma AfterCancelKeeps(config: Config, st: State, i: nat, stale: set<nat>)
    requires Inv(config, st, stale) && i < |st.tasks|
    ensures Inv(config, AfterCancel(st, i), stale) && Follows(st, AfterCancel(st, i))
    ensures |AfterCancel(st, i).tasks| == |st.tasks| && Halted(AfterCancel(st, i).tasks[i])
    ensures AfterCancel(st, i).tasks == st.tasks[i := AfterCancel(st, i).tasks[i]]
  {
    var t := st.tasks[i];
    if Waiting(t.state) {
      CancelWaitingInv(config, st, i, stale);
    } else if t.state == Running {
      TouchKeeps(config, st, i, t.(flagged := true), stale);
    }
    assert TaskOk(|st.agents|, |st.waves|, st.nextQueue, t, i);
    FollowsReplace(config, st, AfterCancel(st, i), i, stale);
  }

  /** recompute_wave leaves the state alone in two cases; it is then already right. */
  predicate Recomputable(st: State, w: nat)
    requires w < |st.waves|
  {
    var v := st.waves[w];
    && (Count(Of(w), st.tasks) > 0 || v.flagged)
    && (!v.flagged && !v.started && Count(LiveIn(w), st.tasks) > 0 ==> v.state == WavePending)
  }

  /** After a change to a live task, its wave can be recomputed. */
  lemma StaysRecomputable(st: State, st': State, i: nat, w: nat, stale: set<nat>)
    requires WaveStatesOk(st, stale) && w < |st.waves| == |st'.waves| && (w !in stale || st.waves[w].flagged)
    requires i < |st.tasks| && st.tasks[i].spec.wave == Some(w) && !Terminal(st.tasks[i].state)
    requires |st'.tasks| == |st.tasks| && st'.tasks[i].spec == st.tasks[i].spec
    requires st'.waves[w].state == st.waves[w].state
    requires st'.waves[w].started == st.waves[w].started && st'.waves[w].flagged == st.waves[w].flagged
    ensures Recomputable(st', w)
  {
    CountWitness(Of(w), st'.tasks, i);
    CountWitness(Of(w), st.tasks, i);
    CountWitness(LiveIn(w), st.tasks, i);
  }

  /** The outcome a running task's deadline brings. */
  function DeadlineOutcome(t: Task): Outcome {
    if t.flagged then OCancelled else OTimedOut
  }

  predicate Overdue(t: Task, now: int) {
    t.state == Running && t.deadline.Some? && t.deadline.value <= now
  }

  /** The first `n` of the overdue tasks have ended; everything else is as it was. */
  ghost predicate Expired(st: State, st': State, now: int, ids: seq<nat>, n: nat) {
    && n <= |ids| && |st'.tasks| == |st.tasks| && LinksOf(st') == LinksOf(st)
    && (forall c :: 0 <= c < n ==>
          && ids[c] < |st.tasks|
          && st'.tasks[ids[c]] == Ended(st.tasks[ids[c]], DeadlineOutcome(st.tasks[ids[c]]), now, st'.tasks[ids[c]].queueSeq))
    && (forall i :: 0 <= i < |st.tasks| && i !in ids[..n] ==> st'.tasks[i] == st.tasks[i])
  }

  lemma SameLinks(st: State, st': State)
    requires |st'.waves| == |st.waves| && forall w :: 0 <= w < |st.waves| ==> st'.waves[w].parent == st.waves[w].parent
    requires |st'.tasks| == |st.tasks| && forall i :: 0 <= i < |st.tasks| ==> st'.tasks[i].spec == st.tasks[i].spec
    ensures LinksOf(st') == LinksOf(st)
  {
    assert LinksOf(st').waves == LinksOf(st).waves;
    assert LinksOf(st').specs == LinksOf(st).specs;
  }

  lemma ExpiredStep(st: State, mid: State, now: int, ids: seq<nat>, n: nat)
    requires Expired(st, mid, now, ids, n) && n < |ids| && ids[n] < |st.tasks| && ids[n] !in ids[..n]
    ensures mid.tasks[ids[n]] == st.tasks[ids[n]]
    ensures Expired(st, AfterFinish(mid, ids[n], DeadlineOutcome(st.tasks[ids[n]]), now), now, ids, n + 1)
  {
    var st' := AfterFinish(mid, ids[n], DeadlineOutcome(st.tasks[ids[n]]), now);
    SameLinks(mid, st');
    assert ids[..n + 1] == ids[..n] + [ids[n]];
    forall c | 0 <= c < n ensures ids[c] != ids[n] { assert ids[c] == ids[..n][c]; }
  }

  /** Every overdue task has ended by its deadline; no other record changed. */
  ghost predicate Swept(st: State, st': State, now: int) {
    && |st'.tasks| == |st.tasks| && LinksOf(st') == LinksOf(st)
    && forall i :: 0 <= i < |st.tasks| ==>
         st'.tasks[i] == if Overdue(st.tasks[i], now) then Ended(st.tasks[i], DeadlineOutcome(st.tasks[i]), now, st'.tasks[i].queueSeq)
                         else st.tasks[i]
  }

  lemma ExpiredSwept(st: State, st': State, now: int, ids: seq<nat>)
    requires Expired(st, st', now, ids, |ids|)
    requires forall i :: i in ids <==> 0 <= i < |st.tasks| && Overdue(st.tasks[i], now)
    ensures Swept(st, st', now)
  {
    assert ids[..|ids|] == ids;
    forall i | 0 <= i < |st.tasks| && Overdue(st.tasks[i], now)
      ensures st'.tasks[i] == Ended(st.tasks[i], DeadlineOutcome(st.tasks[i]), now, st'.tasks[i].queueSeq)
    {
      assert i in ids;
      var c :| 0 <= c < |ids| && ids[c] == i;
    }
  }

  datatype Lease = Lease(task: nat, agent: nat, attempt: nat, deadline: Option<int>)

  /** Admission order: higher priority first, then the older place in the queue. */
  predicate Before(a: Task, b: Task) {
    a.spec.priority > b.spec.priority || (a.spec.priority == b.spec.priority && a.queueSeq < b.queueSeq)
  }

  /** The task is the first in admission order among the eligible ones below `n`. */
  ghost predicate FirstEligible(st: State, now: int, n: nat, i: nat) {
    && i < n <= |st.tasks| && Eligible(st, i, now)
    && forall j :: 0 <= j < n && j != i && Eligible(st, j, now) ==> Before(st.tasks[i], st.tasks[j])
  }

  lemma StartFollows(config: Config, st: State, i: nat, a: nat, now: int)
    requires Inv(config, st, {}) && i < |st.tasks| && a < |st.agents| && Eligible(st, i, now)
    ensures Follows(st, Started(st, i, a, now))
  {
    FollowsReplace(config, st, Started(st, i, a, now), i, {});
  }

  lemma SubmitFollows(config: Config, st: State, spec: TaskSpec)
    requires Inv(config, st, {})
    ensures Follows(st, Submitted(st, spec))
  {
    FollowsSelf(config, st, {});
  }

  // ------------------------------------------------------------- cancelling a wave

  ghost function SetOf(ids: seq<nat>): set<nat> {
    set v | v in ids
  }

  lemma SetOfPrefix(ids: seq<nat>, n: nat)
    requires n < |ids|
    ensures SetOf(ids[..n + 1]) == SetOf(ids[..n]) + {ids[n]}
  {
    assert ids[..n + 1] == ids[..n] + [ids[n]];
  }

  /** The waves cancel_wave flags. */
  ghost predicate SelectedWave(links: Links, v: nat, wave: nat, descendants: bool)
    requires Descending(links) && v < |links.waves|
  {
    v == wave || (descendants && Below(links, v, wave))
  }

  ghost predicate Selection(links: Links, ids: seq<nat>, wave: nat, descendants: bool)
    requires Descending(links)
  {
    forall v :: v in ids <==> 0 <= v < |links.waves| && SelectedWave(links, v, wave, descendants)
  }

  /** The tasks it cancels. */
  ghost predicate SelectedTask(links: Links, i: nat, wave: nat, descendants: bool)
    requires Descending(links) && i < |links.specs|
  {
    links.specs[i].wave == Some(wave) || (descendants && Under(links, i, wave))
  }

  lemma OwnWaveSelected(links: Links, i: nat, wave: nat, descendants: bool)
    requires Descending(links) && i < |links.specs| && links.specs[i].wave.Some?
    requires SelectedWave(links, links.specs[i].wave.value, wave, descendants)
    ensures SelectedTask(links, i, wave, descendants)
  {
  }

  /** The marks say which of the first tasks are chosen and were not yet at their end. */
  ghost predicate Marked(chosen: seq<bool>, tasks: seq<Task>, marks: seq<bool>) {
    && |marks| <= |chosen| == |tasks|
    && forall i :: 0 <= i < |marks| ==> marks[i] == (chosen[i] && !Terminal(tasks[i].state))
  }

  /** Waves keep their flags. */
  ghost predicate SameFlags(st: State, st': State) {
    |st'.waves| == |st.waves| && forall v :: 0 <= v < |st.waves| ==> st'.waves[v].flagged == st.waves[v].flagged
  }

  /** The first `n` tasks have been dealt with: chosen ones are halted, the rest is untouched. */
  ghost predicate CancelledUpTo(chosen: seq<bool>, tasks: seq<Task>, tasks': seq<Task>, n: nat) {
    && n <= |chosen| == |tasks| == |tasks'|
    && (forall i :: 0 <= i < n && chosen[i] ==> Halted(tasks'[i]))
    && (forall i :: 0 <= i < |tasks| && (i >= n || !chosen[i]) ==> tasks'[i] == tasks[i])
  }

  lemma CancelledStep(chosen: seq<bool>, tasks: seq<Task>, tasks': seq<Task>, n: nat, t: Task)
    requires CancelledUpTo(chosen, tasks, tasks', n) && n < |tasks|
    requires if chosen[n] then Halted(t) else t == tasks'[n]
    ensures CancelledUpTo(chosen, tasks, tasks'[n := t], n + 1)
  {
  }

  lemma AfterCancelLinks(st: State, i: nat)
    requires i < |st.tasks|
    ensures LinksOf(AfterCancel(st, i)) == LinksOf(st) && SameFlags(st, AfterCancel(st, i))
  {
    SameLinks(st, AfterCancel(st, i));
  }

  /** What holds of the state once the marked tasks were looked at. */
  ghost predicate Cancelling(config: Config, st: State, s: State, chosen: seq<bool>, marks: seq<bool>, stale: set<nat>) {
    && Inv(config, s, stale) && Follows(st, s) && LinksOf(s) == LinksOf(st) && SameFlags(st, s)
    && CancelledUpTo(chosen, st.tasks, s.tasks, |marks|) && Marked(chosen, st.tasks, marks)
  }

  lemma CancellingStart(config: Config, st: State, chosen: seq<bool>, stale: set<nat>)
    requires |chosen| == |st.tasks| && Inv(config, st, stale)
    ensures Cancelling(config, st, st, chosen, [], stale)
  {
    FollowsSelf(config, st, stale);
  }

  lemma CancellingStep(config: Config, st: State, s: State, chosen: seq<bool>, marks: seq<bool>, stale: set<nat>)
    requires Cancelling(config, st, s, chosen, marks, stale) && |marks| < |chosen| && chosen[|marks|]
    ensures Cancelling(config, st, AfterCancel(s, |marks|), chosen, marks + [!Terminal(s.tasks[|marks|].state)], stale)
  {
    var n := |marks|;
    AfterCancelKeeps(config, s, n, stale);
    FollowsChain(st, s, AfterCancel(s, n));
    AfterCancelLinks(s, n);
    CancelledStep(chosen, st.tasks, s.tasks, n, AfterCancel(s, n).tasks[n]);
  }

  lemma CancellingSkip(config: Config, st: State, s: State, chosen: seq<bool>, marks: seq<bool>, stale: set<nat>)
    requires Cancelling(config, st, s, chosen, marks, stale) && |marks| < |chosen| && !chosen[|marks|]
    ensures Cancelling(config, st, s, chosen, marks + [false], stale)
  {
    CancelledStep(chosen, st.tasks, s.tasks, |marks|, s.tasks[|marks|]);
    assert s.tasks[|marks| := s.tasks[|marks|]] == s.tasks;
  }

  /** The choice of tasks; it looks at links only, which cancelling does not change. */
  ghost predicate Chosen(links: Links, chosen: seq<bool>, wave: nat, descendants: bool)
    requires Descending(links)
  {
    |chosen| == |links.specs| && forall i :: 0 <= i < |chosen| ==> chosen[i] == SelectedTask(links, i, wave, descendants)
  }

  /** Every task of a selected wave is halted once all tasks were looked at. */
  lemma SelectedHalted(st: State, s: State, links: Links, wave: nat, descendants: bool, ids: seq<nat>, chosen: seq<bool>)
    requires links == LinksOf(st) == LinksOf(s) && Descending(links)
    requires Selection(links, ids, wave, descendants) && Chosen(links, chosen, wave, descendants)
    requires CancelledUpTo(chosen, st.tasks, s.tasks, |st.tasks|)
    ensures forall i :: 0 <= i < |s.tasks| && s.tasks[i].spec.wave.Some? && s.tasks[i].spec.wave.value in ids ==> Halted(s.tasks[i])
  {
    forall i | 0 <= i < |s.tasks| && s.tasks[i].spec.wave.Some? && s.tasks[i].spec.wave.value in ids ensures Halted(s.tasks[i]) {
      assert links.specs[i] == s.tasks[i].spec;
      OwnWaveSelected(links, i, wave, descendants);
    }
  }

  /** What cancel_wave did to the swept state `mid`. */
  ghost predicate WaveCancelledIn(mid: State, st: State, wave: nat, descendants: bool, marks: seq<bool>) {
    var links := LinksOf(mid);
    && Descending(links) && |st.tasks| == |mid.tasks| && |st.waves| == |mid.waves|
    && (forall i :: 0 <= i < |mid.tasks| ==>
          if SelectedTask(links, i, wave, descendants) then Halted(st.tasks[i]) else st.tasks[i] == mid.tasks[i])
    && (forall v :: 0 <= v < |mid.waves| ==>
          st.waves[v].flagged == (mid.waves[v].flagged || SelectedWave(links, v, wave, descendants)))
    && |marks| == |mid.tasks|
    && forall i :: 0 <= i < |marks| ==> marks[i] == (SelectedTask(links, i, wave, descendants) && !Terminal(mid.tasks[i].state))
  }

  class Scheduler {
    const config: Config
    var st: State

    ghost predicate Valid()
      reads this
    {
      Inv(config, st, {})
    }

    constructor (config: Config)
      requires config.maxConcurrent > 0
      ensures Valid() && this.config == config && st.tasks == [] && st.waves == [] && st.agents == []
    {
      this.config := config;
      st := State([], [], [], 0, 1, Telemetry(0, 0, 0, 0, 0, 0, 0, 0, 0));
    }

    // ----------------------------------------------------------------- helpers

    /** recompute_wave: one pass over all tasks. */
    method RecomputeWave(w: nat)
      requires w < |st.waves| && Recomputable(st, w)
      modifies this
      ensures st == Recomputed(old(st), w)
    {
      var hasTasks, live, failed, timedOut, budget, cancelled := false, false, false, false, false, false;
      for i := 0 to |st.tasks|
        invariant st == old(st)
        invariant hasTasks == (Count(Of(w), st.tasks[..i]) > 0)
        invariant live == (Count(LiveIn(w), st.tasks[..i]) > 0)
        invariant failed == (Count(EndedIn(w, Failed), st.tasks[..i]) > 0)
        invariant timedOut == (Count(EndedIn(w, TimedOut), st.tasks[..i]) > 0)
        invariant budget == (Count(EndedIn(w, BudgetExhausted), st.tasks[..i]) > 0)
        invariant cancelled == (Count(EndedIn(w, Cancelled), st.tasks[..i]) > 0)
      {
        var t := st.tasks[i];
        CountPrefix(Of(w), st.tasks, i);
        CountPrefix(LiveIn(w), st.tasks, i);
        CountPrefix(EndedIn(w, Failed), st.tasks, i);
        CountPrefix(EndedIn(w, TimedOut), st.tasks, i);
        CountPrefix(EndedIn(w, BudgetExhausted), st.tasks, i);
        CountPrefix(EndedIn(w, Cancelled), st.tasks, i);
        if t.spec.wave == Some(w) {
          hasTasks := true;
          if !Terminal(t.state) { live := true; }
          failed := failed || t.state == Failed;
          timedOut := timedOut || t.state == TimedOut;
          budget := budget || t.state == BudgetExhausted;
          cancelled := cancelled || t.state == Cancelled;
        }
      }
      assert st.tasks[..|st.tasks|] == st.tasks;
      var v := st.waves[w];
      var s := v.state;
      if !hasTasks {
        if v.flagged { s := WaveCancelled; }
      } else if v.flagged {
        s := if live then WaveCancelling else WaveCancelled;
      } else if live {
        if v.started { s := WaveRunning; }
      } else if failed {
        s := WaveFailed;
      } else if timedOut {
        s := WaveTimedOut;
      } else if budget {
        s := WaveBudgetExhausted;
      } else if cancelled {
        s := WaveCancelled;
      } else {
        s := WaveSucceeded;
      }
      st := st.(waves := st.waves[w := v.(state := s)]);
    }

    /** release_resources. */
    method ReleaseResources(i: nat)
      requires i < |st.tasks|
      modifies this
      ensures st == Released(old(st), i)
    {
      var t := st.tasks[i];
      if t.agent.Some? {
        var a := t.agent.value;
        if a < |st.agents| && st.agents[a].active > 0 {
          st := st.(agents := st.agents[a := st.agents[a].(active := st.agents[a].active - 1)]);
        }
        t := t.(agent := None);
      }
      if st.active > 0 { st := st.(active := st.active - 1); }
      if t.spec.wave.Some? {
        var w := t.spec.wave.value;
        if w < |st.waves| && st.waves[w].active > 0 {
          st := st.(waves := st.waves[w := st.waves[w].(active := st.waves[w].active - 1)]);
        }
      }
      st := st.(tasks := st.tasks[i := t.(deadline := None)]);
    }

    /** finish_attempt up to the wave: release, then retry or end. */
    method EndAttempt(i: nat, outcome: Outcome, now: int) returns (retry: bool)
      requires i < |st.tasks|
      modifies this
      ensures st == Finished(old(st), i, outcome, now) && retry == ShouldRetry(old(st).tasks[i], outcome)
    {
      var attemptTokens := st.tasks[i].tokens;
      ReleaseResources(i);
      var t := st.tasks[i].(tokensTotal := st.tasks[i].tokensTotal + attemptTokens);
      retry := ShouldRetry(t, outcome);
      if retry {
        t := t.(state := RetryWait, notBefore := Some(now + RetryDelay(t.spec.retry, t.attempts)),
                queueSeq := st.nextQueue, tokens := 0, flagged := false);
        st := st.(tasks := st.tasks[i := t], nextQueue := st.nextQueue + 1, tel := st.tel.(retries := st.tel.retries + 1));
      } else {
        t := t.(state := StateFor(outcome), notBefore := None);
        st := st.(tasks := st.tasks[i := t], tel := Tallied(st.tel, t.state));
      }
    }

    /** The same, with the recomputation of the task's wave. */
    method EndAndRecompute(i: nat, outcome: Outcome, now: int) returns (retry: bool)
      requires WaveStatesOk(st, {}) && i < |st.tasks| && st.tasks[i].state == Running
      requires st.tasks[i].spec.wave.Some? ==> st.tasks[i].spec.wave.value < |st.waves|
      modifies this
      ensures st == AfterFinish(old(st), i, outcome, now) && retry == ShouldRetry(old(st).tasks[i], outcome)
    {
      retry := EndAttempt(i, outcome, now);
      var w := st.tasks[i].spec.wave;
      if w.Some? {
        StaysRecomputable(old(st), st, i, w.value, {});
        RecomputeWave(w.value);
      }
    }

    /** finish_attempt. */
    method FinishAttempt(i: nat, outcome: Outcome, now: int) returns (retry: bool)
      requires Valid() && i < |st.tasks| && st.tasks[i].state == Running
      requires st.tasks[i].flagged ==> outcome == OCancelled
      modifies this
      ensures Valid() && st == AfterFinish(old(st), i, outcome, now) && Follows(old(st), st)
      ensures retry == ShouldRetry(old(st).tasks[i], outcome)
    {
      assert TaskOk(|st.agents|, |st.waves|, st.nextQueue, st.tasks[i], i);
      AfterFinishKeeps(config, st, i, outcome, now);
      retry := EndAndRecompute(i, outcome, now);
    }

    /** Running tasks whose deadline has passed. */
    method OverdueTasks(now: int) returns (ids: seq<nat>)
      ensures forall i :: i in ids <==> 0 <= i < |st.tasks| && Overdue(st.tasks[i], now)
      ensures forall a, b :: 0 <= a < b < |ids| ==> ids[a] < ids[b]
    {
      ids := [];
      for i := 0 to |st.tasks|
        invariant forall j :: j in ids <==> 0 <= j < i && Overdue(st.tasks[j], now)
        invariant forall a :: 0 <= a < |ids| ==> ids[a] < i
        invariant forall a, b :: 0 <= a < b < |ids| ==> ids[a] < ids[b]
      {
        if Overdue(st.tasks[i], now) { ids := ids + [i]; }
      }
    }

    /** expire_running: what tick does, and every other timed operation first. */
    method ExpireRunning(now: int) returns (ids: seq<nat>)
      requires Valid()
      modifies this
      ensures Valid() && Follows(old(st), st) && Swept(old(st), st, now)
      ensures forall i :: i in ids <==> 0 <= i < |old(st).tasks| && Overdue(old(st).tasks[i], now)
    {
      ids := OverdueTasks(now);
      FollowsSelf(config, st, {});
      for n := 0 to |ids|
        invariant Valid() && Follows(old(st), st) && Expired(old(st), st, now, ids, n)
      {
        assert ids[n] in ids && ids[n] !in ids[..n];
        ghost var mid := st;
        ExpiredStep(old(st), mid, now, ids, n);
        var outcome := DeadlineOutcome(st.tasks[ids[n]]);
        var _ := FinishAttempt(ids[n], outcome, now);
        FollowsChain(old(st), mid, st);
      }
      ExpiredSwept(old(st), st, now, ids);
    }

    // -------------------------------------------------------- public operations

    method RegisterAgent(maxConcurrent: nat) returns (id: Option<nat>)
      requires Valid()
      modifies this
      ensures Valid() && Follows(old(st), st)
      ensures id.None? <==> maxConcurrent == 0
      ensures id.None? ==> st == old(st)
      ensures id.Some? ==> id.value == |old(st).agents| && st == old(st).(agents := old(st).agents + [NewAgent(maxConcurrent)])
    {
      FollowsSelf(config, st, {});
      if maxConcurrent == 0 { return None; }
      RegisterKeeps(config, st, maxConcurrent);
      id := Some(|st.agents|);
      st := st.(agents := st.agents + [NewAgent(maxConcurrent)]);
    }

    method CreateWave(maxConcurrent: Option<nat>, parent: Parent) returns (id: Option<nat>)
      requires Valid()
      modifies this
      ensures Valid() && Follows(old(st), st)
      ensures id.Some? <==> && maxConcurrent != Some(0)
                            && (parent.wave.Some? ==> parent.wave.value < |old(st).waves|)
                            && (parent.task.Some? ==> parent.task.value < |old(st).tasks|)
      ensures id.None? ==> st == old(st)
      ensures id.Some? ==> id.value == |old(st).waves| && st == old(st).(waves := old(st).waves + [NewWave(maxConcurrent, parent)])
    {
      FollowsSelf(config, st, {});
      if maxConcurrent == Some(0) { return None; }
      if parent.wave.Some? && parent.wave.value >= |st.waves| { return None; }
      if parent.task.Some? && parent.task.value >= |st.tasks| { return None; }
      CreateWaveKeeps(config, st, maxConcurrent, parent);
      id := Some(|st.waves|);
      st := st.(waves := st.waves + [NewWave(maxConcurrent, parent)]);
    }

    /** queued_task_count. */
    method QueuedTasks() returns (n: nat)
      ensures n == Count(IsWaiting(), st.tasks)
    {
      n := 0;
      for i := 0 to |st.tasks|
        invariant n == Count(IsWaiting(), st.tasks[..i])
      {
        CountPrefix(IsWaiting(), st.tasks, i);
        if Waiting(st.tasks[i].state) { n := n + 1; }
      }
      assert st.tasks[..|st.tasks|] == st.tasks;
    }

    /** The checks of submit, in order. */
    method Check(spec: TaskSpec) returns (ok: bool)
      ensures ok <==> Acceptable(config, st, spec)
    {
      if spec.retry.maxAttempts == 0 { return false; }
      if spec.retry.backoff < 0 || spec.retry.maxBackoff < 0 { return false; }
      if spec.maxDuration.Some? && spec.maxDuration.value < 0 { return false; }
      if spec.wave.Some? {
        if spec.wave.value >= |st.waves| { return false; }
        var v := st.waves[spec.wave.value];
        if TerminalWave(v.state) || v.flagged { return false; }
      }
      if spec.parent.wave.Some? && spec.parent.wave.value >= |st.waves| { return false; }
      if spec.parent.task.Some? && spec.parent.task.value >= |st.tasks| { return false; }
      if config.maxQueued.Some? {
        var queued := QueuedTasks();
        if queued >= config.maxQueued.value { return false; }
      }
      return true;
    }

    method Submit(spec: TaskSpec) returns (id: Option<nat>)
      requires Valid()
      modifies this
      ensures Valid() && Follows(old(st), st)
      ensures id.Some? <==> Acceptable(config, old(st), spec)
      ensures id.None? ==> st == old(st).(tel := old(st).tel.(rejected := old(st).tel.rejected + 1))
      ensures id.Some? ==> id.value == |old(st).tasks| && st == Submitted(old(st), spec)
    {
      FollowsSelf(config, st, {});
      SubmitFollows(config, st, spec);
      var ok := Check(spec);
      if !ok {
        st := st.(tel := st.tel.(rejected := st.tel.rejected + 1));
        return None;
      }
      SubmitKeeps(config, st, spec);
      id := Some(|st.tasks|);
      st := Submitted(st, spec);
    }

    /** The first agent with room. */
    method SelectAgent() returns (r: Option<nat>)
      ensures r.None? ==> forall a :: 0 <= a < |st.agents| ==> !Available(st, a)
      ensures r.Some? ==> r.value < |st.agents| && Available(st, r.value) && forall a :: 0 <= a < r.value ==> !Available(st, a)
    {
      for a := 0 to |st.agents|
        invariant forall b :: 0 <= b < a ==> !Available(st, b)
      {
        if Available(st, a) { return Some(a); }
      }
      return None;
    }

    /** The eligible task that comes first in admission order. */
    method SelectTask(now: int) returns (r: Option<nat>)
      requires TasksOk(st)
      ensures r.None? ==> forall i :: 0 <= i < |st.tasks| ==> !Eligible(st, i, now)
      ensures r.Some? ==> FirstEligible(st, now, |st.tasks|, r.value)
    {
      r := None;
      for i := 0 to |st.tasks|
        invariant r.None? ==> forall j :: 0 <= j < i ==> !Eligible(st, j, now)
        invariant r.Some? ==> FirstEligible(st, now, i, r.value)
      {
        if Eligible(st, i, now) {
          assert r.Some? ==> SeqNo(st.tasks, r.value) != SeqNo(st.tasks, i);
          if r.None? || Before(st.tasks[i], st.tasks[r.value]) { r := Some(i); }
        }
      }
    }

    /** admit_next: after the sweep, the first eligible task on the first agent with room. */
    method AdmitNext(now: int) returns (lease: Option<Lease>, ghost mid: State)
      requires Valid()
      modifies this
      ensures Valid() && Follows(old(st), st) && Swept(old(st), mid, now)
      ensures lease.None? ==> st == mid
      ensures lease.None? ==> || mid.active >= config.maxConcurrent
                              || (forall a :: 0 <= a < |mid.agents| ==> !Available(mid, a))
                              || (forall i :: 0 <= i < |mid.tasks| ==> !Eligible(mid, i, now))
      ensures lease.Some? ==> var l := lease.value;
                              && mid.active < config.maxConcurrent && FirstEligible(mid, now, |mid.tasks|, l.task)
                              && l.agent < |mid.agents| && Available(mid, l.agent) && (forall a :: 0 <= a < l.agent ==> !Available(mid, a))
                              && st == Started(mid, l.task, l.agent, now)
                              && l.attempt == mid.tasks[l.task].attempts + 1 && l.deadline == st.tasks[l.task].deadline
    {
      var _ := ExpireRunning(now);
      mid := st;
      if st.active >= config.maxConcurrent { return None, mid; }
      var agent := SelectAgent();
      if agent.None? { return None, mid; }
      var task := SelectTask(now);
      if task.None? { return None, mid; }
      var i, a := task.value, agent.value;
      Start(i, a, now);
      FollowsChain(old(st), mid, st);
      lease := Some(Lease(i, a, st.tasks[i].attempts, st.tasks[i].deadline));
    }

    method Start(i: nat, a: nat, now: int)
      requires Valid() && i < |st.tasks| && a < |st.agents|
      requires Eligible(st, i, now) && Available(st, a) && st.active < config.maxConcurrent
      modifies this
      ensures Valid() && st == Started(old(st), i, a, now) && Follows(old(st), st)
    {
      StartKeeps(config, st, i, a, now);
      StartFollows(config, st, i, a, now);
      MarkStarted(i, a, now);
    }

    method MarkStarted(i: nat, a: nat, now: int)
      requires i < |st.tasks| && a < |st.agents|
      modifies this
      ensures st == Started(old(st), i, a, now)
    {
      var t := st.tasks[i];
      st := st.(agents := st.agents[a := st.agents[a].(active := st.agents[a].active + 1)], active := st.active + 1);
      var deadline := if t.spec.maxDuration.Some? then Some(now + t.spec.maxDuration.value) else None;
      st := st.(tasks := st.tasks[i := t.(state := Running, attempts := t.attempts + 1, tokens := 0,
                                          agent := Some(a), notBefore := None, deadline := deadline)]);
      if t.spec.wave.Some? && t.spec.wave.value < |st.waves| {
        var v := st.waves[t.spec.wave.value];
        st := st.(waves := st.waves[t.spec.wave.value := v.(active := v.active + 1, started := true, state := WaveRunning)]);
      }
      st := st.(tel := st.tel.(attempts := st.tel.attempts + 1));
    }

    /** A running task's token count moves on. */
    method SetTokens(i: nat, tokens: nat)
      requires Valid() && i < |st.tasks| && st.tasks[i].state == Running
      modifies this
      ensures Valid() && Follows(old(st), st) && st == Touched(old(st), i, old(st).tasks[i].(tokens := tokens))
    {
      var t := st.tasks[i].(tokens := tokens);
      TouchKeeps(config, st, i, t, {});
      assert TaskOk(|st.agents|, |st.waves|, st.nextQueue, st.tasks[i], i);
      FollowsReplace(config, st, Touched(st, i, t), i, {});
      st := st.(tasks := st.tasks[i := t]);
    }

    /** report_progress: token counts never move back; reaching the budget ends an unflagged attempt. */
    method ReportProgress(i: nat, tokens: nat, now: int) returns (accepted: bool, exhausted: bool, ghost mid: State)
      requires Valid()
      modifies this
      ensures Valid() && Follows(old(st), st) && Swept(old(st), mid, now)
      ensures accepted <==> i < |mid.tasks| && mid.tasks[i].state == Running && tokens >= mid.tasks[i].tokens
      ensures !accepted ==> st == mid && !exhausted
      ensures accepted ==> (exhausted <==> && !mid.tasks[i].flagged && mid.tasks[i].spec.maxTokens.Some?
                                           && tokens >= mid.tasks[i].spec.maxTokens.value)
      ensures accepted ==> var told := Touched(mid, i, mid.tasks[i].(tokens := tokens));
                           st == if exhausted then AfterFinish(told, i, OBudgetExhausted, now) else told
    {
      accepted, exhausted := false, false;
      var _ := ExpireRunning(now);
      mid := st;
      if i >= |st.tasks| || st.tasks[i].state != Running || tokens < st.tasks[i].tokens { return; }
      accepted := true;
      SetTokens(i, tokens);
      FollowsChain(old(st), mid, st);
      var t := st.tasks[i];
      if t.flagged { return; }
      if t.spec.maxTokens.Some? && tokens >= t.spec.maxTokens.value {
        ghost var told := st;
        var _ := FinishAttempt(i, OBudgetExhausted, now);
        FollowsChain(old(st), told, st);
        exhausted := true;
      }
    }

    /** The outcome that counts: a flag turns any completion into a cancellation, an overdrawn budget into its end. */
    function EffectiveOutcome(t: Task, outcome: Outcome, tokens: nat): Outcome {
      if t.flagged then OCancelled
      else if t.spec.maxTokens.Some? && tokens > t.spec.maxTokens.value then OBudgetExhausted
      else outcome
    }

    method CompleteRunning(i: nat, effective: Outcome, tokens: nat, now: int) returns (retry: bool)
      requires Valid() && i < |st.tasks| && st.tasks[i].state == Running
      requires st.tasks[i].flagged ==> effective == OCancelled
      modifies this
      ensures Valid() && Follows(old(st), st)
      ensures st == AfterFinish(Touched(old(st), i, old(st).tasks[i].(tokens := tokens)), i, effective, now)
      ensures retry == ShouldRetry(old(st).tasks[i], effective)
    {
      SetTokens(i, tokens);
      ghost var told := st;
      retry := FinishAttempt(i, effective, now);
      FollowsChain(old(st), told, st);
    }

    method Complete(i: nat, outcome: Outcome, tokens: nat, now: int) returns (accepted: bool, retry: bool, ghost mid: State)
      requires Valid()
      modifies this
      ensures Valid() && Follows(old(st), st) && Swept(old(st), mid, now)
      ensures accepted <==> i < |mid.tasks| && mid.tasks[i].state == Running && tokens >= mid.tasks[i].tokens
      ensures !accepted ==> st == mid && !retry
      ensures accepted ==> var effective := EffectiveOutcome(mid.tasks[i], outcome, tokens);
                           && st == AfterFinish(Touched(mid, i, mid.tasks[i].(tokens := tokens)), i, effective, now)
                           && retry == ShouldRetry(mid.tasks[i], effective)
    {
      accepted, retry := false, false;
      var _ := ExpireRunning(now);
      mid := st;
      if i >= |st.tasks| || st.tasks[i].state != Running || tokens < st.tasks[i].tokens { return; }
      accepted := true;
      retry := CompleteRunning(i, EffectiveOutcome(st.tasks[i], outcome, tokens), tokens, now);
      FollowsChain(old(st), mid, st);
    }

    /** cancel_task_locked. */
    method CancelLocked(i: nat, ghost stale: set<nat>) returns (changed: bool)
      requires WaveStatesOk(st, stale) && i < |st.tasks|
      requires st.tasks[i].spec.wave.Some? ==> st.tasks[i].spec.wave.value < |st.waves|
      requires forall w :: w in stale && w < |st.waves| ==> st.waves[w].flagged
      modifies this
      ensures st == AfterCancel(old(st), i) && (changed <==> !Terminal(old(st).tasks[i].state))
    {
      var t := st.tasks[i];
      if Terminal(t.state) { return false; }
      changed := true;
      if Waiting(t.state) {
        CancelBeforeRun(i, stale);
      } else {
        st := st.(tasks := st.tasks[i := t.(flagged := true)]);
      }
    }

    method CancelBeforeRun(i: nat, ghost stale: set<nat>)
      requires WaveStatesOk(st, stale) && i < |st.tasks| && Waiting(st.tasks[i].state)
      requires st.tasks[i].spec.wave.Some? ==> st.tasks[i].spec.wave.value < |st.waves|
      requires forall w :: w in stale && w < |st.waves| ==> st.waves[w].flagged
      modifies this
      ensures st == AfterCancel(old(st), i)
    {
      var t := st.tasks[i];
      st := st.(tasks := st.tasks[i := t.(flagged := true, state := Cancelled, notBefore := None)], tel := Tallied(st.tel, Cancelled));
      if t.spec.wave.Some? {
        StaysRecomputable(old(st), st, i, t.spec.wave.value, stale);
        RecomputeWave(t.spec.wave.value);
      }
    }

    method CancelTask(i: nat, now: int) returns (changed: bool, ghost mid: State)
      requires Valid()
      modifies this
      ensures Valid() && Follows(old(st), st) && Swept(old(st), mid, now)
      ensures i >= |mid.tasks| ==> !changed && st == mid
      ensures i < |mid.tasks| ==> st == AfterCancel(mid, i) && Halted(st.tasks[i]) && (changed <==> !Terminal(mid.tasks[i].state))
    {
      var _ := ExpireRunning(now);
      mid := st;
      if i >= |st.tasks| { return false, mid; }
      AfterCancelKeeps(config, st, i, {});
      changed := CancelLocked(i, {});
      FollowsChain(old(st), mid, st);
    }

    method Tick(now: int) returns (expired: seq<nat>)
      requires Valid()
      modifies this
      ensures Valid() && Follows(old(st), st) && Swept(old(st), st, now)
      ensures forall i :: i in expired <==> 0 <= i < |old(st).tasks| && Overdue(old(st).tasks[i], now)
    {
      expired := ExpireRunning(now);
    }

    method SetAgentState(a: nat, admin: AgentState) returns (ok: bool)
      requires Valid()
      modifies this
      ensures Valid() && Follows(old(st), st)
      ensures ok <==> a < |old(st).agents| && admin != AgentBusy
      ensures !ok ==> st == old(st)
      ensures ok ==> st == old(st).(agents := old(st).agents[a := old(st).agents[a].(admin := admin)])
    {
      FollowsSelf(config, st, {});
      if a >= |st.agents| || admin == AgentBusy { return false; }
      AgentStateKeeps(config, st, a, admin, {});
      st := st.(agents := st.agents[a := st.agents[a].(admin := admin)]);
      ok := true;
    }

    /** The waves to flag: the wave itself and, on request, those below it. */
    method SelectWaves(links: Links, wave: nat, descendants: bool) returns (ids: seq<nat>)
      requires Descending(links) && wave < |links.waves|
      ensures Selection(links, ids, wave, descendants)
    {
      ids := [];
      for v := 0 to |links.waves|
        invariant forall u :: u in ids <==> 0 <= u < v && SelectedWave(links, u, wave, descendants)
      {
        var below := false;
        if descendants { below := WaveIsDescendant(links, v, wave, false); }
        if v == wave || below { ids := ids + [v]; }
      }
    }

    /** The flags of the selected waves. */
    method FlagWaves(ids: seq<nat>)
      requires Valid() && forall v :: v in ids ==> v < |st.waves|
      modifies this
      ensures Inv(config, st, SetOf(ids)) && st.tasks == old(st).tasks && LinksOf(st) == LinksOf(old(st))
      ensures |st.waves| == |old(st).waves|
      ensures forall v :: 0 <= v < |st.waves| ==> st.waves[v].flagged == (old(st).waves[v].flagged || v in ids)
    {
      for n := 0 to |ids|
        invariant |st.waves| == |old(st).waves|
        invariant Inv(config, st, SetOf(ids[..n])) && st.tasks == old(st).tasks && LinksOf(st) == LinksOf(old(st))
        invariant forall v :: 0 <= v < |st.waves| ==> st.waves[v].flagged == (old(st).waves[v].flagged || v in ids[..n])
      {
        assert ids[n] in ids;
        ghost var before := st;
        FlagKeeps(config, st, ids[n], SetOf(ids[..n]));
        st := st.(waves := st.waves[ids[n] := FlaggedWave(st.waves[ids[n]])]);
        SameLinks(before, st);
        SetOfPrefix(ids, n);
      }
      assert ids[..|ids|] == ids;
    }

    /** Whether cancel_wave selects task `i`. */
    method IsSelected(links: Links, i: nat, wave: nat, descendants: bool, ids: seq<nat>) returns (selected: bool)
      requires Descending(links) && i < |links.specs|
      requires Selection(links, ids, wave, descendants)
      ensures selected <==> SelectedTask(links, i, wave, descendants)
    {
      var own := links.specs[i].wave;
      selected := own.Some? && own.value in ids;
      if !selected && descendants { selected := TaskBelongs(links, i, wave); }
    }

    method SelectTasks(links: Links, wave: nat, descendants: bool, ids: seq<nat>) returns (chosen: seq<bool>)
      requires Descending(links) && Selection(links, ids, wave, descendants)
      ensures Chosen(links, chosen, wave, descendants)
    {
      chosen := [];
      for i := 0 to |links.specs|
        invariant |chosen| == i && forall j :: 0 <= j < i ==> chosen[j] == SelectedTask(links, j, wave, descendants)
      {
        var selected := IsSelected(links, i, wave, descendants, ids);
        chosen := chosen + [selected];
      }
    }

    /** The next task, cancelled if it is chosen. */
    method CancelOne(chosen: seq<bool>, i: nat, ghost start: State, ghost marks: seq<bool>, ghost stale: set<nat>) returns (changed: bool)
      requires Cancelling(config, start, st, chosen, marks, stale) && i == |marks| < |chosen|
      requires forall v :: v in stale && v < |start.waves| ==> start.waves[v].flagged
      modifies this
      ensures Cancelling(config, start, st, chosen, marks + [changed], stale)
    {
      assert TaskOk(|st.agents|, |st.waves|, st.nextQueue, st.tasks[i], i);
      changed := false;
      if chosen[i] {
        CancellingStep(config, start, st, chosen, marks, stale);
        changed := CancelLocked(i, stale);
      } else {
        CancellingSkip(config, start, st, chosen, marks, stale);
      }
    }

    /** Every chosen task is cancelled, or flagged where it runs. */
    method CancelChosen(chosen: seq<bool>, ghost stale: set<nat>) returns (changed: nat, ghost marks: seq<bool>)
      requires Inv(config, st, stale) && |chosen| == |st.tasks|
      requires forall v :: v in stale && v < |st.waves| ==> st.waves[v].flagged
      modifies this
      ensures Cancelling(config, old(st), st, chosen, marks, stale) && |marks| == |chosen| && changed == multiset(marks)[true]
    {
      changed, marks := 0, [];
      CancellingStart(config, st, chosen, stale);
      for i := 0 to |chosen|
        invariant |marks| == i && changed == multiset(marks)[true]
        invariant Cancelling(config, old(st), st, chosen, marks, stale)
      {
        var c := CancelOne(chosen, i, old(st), marks, stale);
        marks := marks + [c];
        if c { changed := changed + 1; }
      }
    }

    /** The states of the selected waves, computed afresh. */
    method RecomputeSelected(ids: seq<nat>)
      requires Inv(config, st, SetOf(ids)) && forall v :: v in ids ==> v < |st.waves| && st.waves[v].flagged
      requires forall i :: 0 <= i < |st.tasks| && st.tasks[i].spec.wave.Some? && st.tasks[i].spec.wave.value in ids ==> Halted(st.tasks[i])
      modifies this
      ensures Valid() && st.tasks == old(st).tasks && SameFlags(old(st), st)
    {
      ghost var all := SetOf(ids);
      assert all - SetOf(ids[..0]) == all;
      for n := 0 to |ids|
        invariant Inv(config, st, all - SetOf(ids[..n])) && st.tasks == old(st).tasks && SameFlags(old(st), st)
      {
        assert ids[n] in ids;
        RecomputeKeeps(config, st, ids[n], all - SetOf(ids[..n]));
        RecomputeWave(ids[n]);
        SetOfPrefix(ids, n);
        assert all - SetOf(ids[..n]) - {ids[n]} == all - SetOf(ids[..n + 1]);
      }
      assert ids[..|ids|] == ids;
      assert all - all == {};
    }

    /** Flags, cancellations and recomputation, on a swept state. */
    method CancelTree(wave: nat, descendants: bool) returns (changed: nat, ghost marks: seq<bool>)
      requires Valid() && wave < |st.waves|
      modifies this
      ensures Valid() && Follows(old(st), st) && WaveCancelledIn(old(st), st, wave, descendants, marks)
      ensures changed == multiset(marks)[true]
    {
      var links := LinksOf(st);
      InvDescends(config, st, {});
      var ids := SelectWaves(links, wave, descendants);
      var chosen := SelectTasks(links, wave, descendants, ids);
      FlagWaves(ids);
      ghost var flagged := st;
      changed, marks := CancelChosen(chosen, SetOf(ids));
      SelectedHalted(flagged, st, links, wave, descendants, ids, chosen);
      RecomputeSelected(ids);
    }

    /** cancel_wave: every task below the wave is at its end, or running and flagged. */
    method CancelWave(wave: nat, descendants: bool, now: int) returns (changed: nat, ghost mid: State, ghost marks: seq<bool>)
      requires Valid()
      modifies this
      ensures Valid() && Follows(old(st), st) && Swept(old(st), mid, now)
      ensures Inv(config, mid, {}) && Follows(mid, st)
      ensures wave >= |mid.waves| ==> changed == 0 && st == mid
      ensures wave < |mid.waves| ==> WaveCancelledIn(mid, st, wave, descendants, marks) && changed == multiset(marks)[true]
    {
      var _ := ExpireRunning(now);
      mid := st;
      changed, marks := 0, [];
      FollowsSelf(config, mid, {});
      if wave >= |st.waves| { return; }
      changed, marks := CancelTree(wave, descendants);
      FollowsChain(old(st), mid, st);
    }
  }
}