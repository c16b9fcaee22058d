/**
 What every reachable scheduler state satisfies, and why each elementary change keeps it.
 */
module SwarmInvariant {
  import opened Common
  import opened SwarmModel

  // ------------------------------------------------------------------ invariant

  /** A record's own fields fit together, and its references exist. */
  predicate TaskOk(agents: nat, waves: nat, nextQueue: nat, t: Task, id: nat) {
    && 1 <= t.spec.retry.maxAttempts && t.attempts <= t.spec.retry.maxAttempts
    && (Waiting(t.state) ==> t.attempts < t.spec.retry.maxAttempts)
    && (t.state == Running <==> t.agent.Some?)
    && (t.agent.Some? ==> t.agent.value < agents)
    && (t.flagged ==> t.state == Running || t.state == Cancelled)
    && (t.spec.wave.Some? ==> t.spec.wave.value < waves)
    && (t.spec.parent.wave.Some? ==> t.spec.parent.wave.value < waves)
    && (t.spec.parent.task.Some? ==> t.spec.parent.task.value < id)
    && t.queueSeq < nextQueue
  }

  /** Parent links of a wave lead to smaller wave ids. */
  predicate WaveLinks(tasks: seq<Task>, v: Wave, id: nat) {
    && (v.parent.wave.Some? ==> v.parent.wave.value < id)
    && (v.parent.task.Some? ==>
          && v.parent.task.value < |tasks|
          && (var own := tasks[v.parent.task.value].spec.wave; own.Some? ==> own.value < id))
  }

  /** A cancelled wave holds no task that could still start. */
  predicate Halted(t: Task) {
    Terminal(t.state) || (t.state == Running && t.flagged)
  }

  function SeqNo(tasks: seq<Task>, i: nat): nat
    requires i < |tasks|
  {
    tasks[i].queueSeq
  }

  ghost predicate TasksOk(st: State) {
    && (forall i :: 0 <= i < |st.tasks| ==> TaskOk(|st.agents|, |st.waves|, st.nextQueue, st.tasks[i], i))
    && (forall i, j :: 0 <= i < j < |st.tasks| ==> SeqNo(st.tasks, i) != SeqNo(st.tasks, j))
  }

  ghost predicate AgentsOk(st: State) {
    forall a :: 0 <= a < |st.agents| ==>
      st.agents[a].active == Count(RunsOn(a), st.tasks) <= st.agents[a].maxConcurrent
  }

  predicate WaveCounts(tasks: seq<Task>, v: Wave, w: nat) {
    && v.active == Count(RunsIn(w), tasks) && (v.maxConcurrent.Some? ==> v.active <= v.maxConcurrent.value)
    && (v.started ==> Count(Of(w), tasks) > 0)
  }

  ghost predicate WavesOk(st: State) {
    forall w :: 0 <= w < |st.waves| ==> WaveLinks(st.tasks, st.waves[w], w) && WaveCounts(st.tasks, st.waves[w], w)
  }

  /** The incrementally kept wave states are the from-scratch ones, except where they are `stale`. */
  ghost predicate WaveStatesOk(st: State, stale: set<nat>) {
    && (forall w :: 0 <= w < |st.waves| && w !in stale ==>
          st.waves[w].state == WaveStateOf(st.tasks, w, st.waves[w].started, st.waves[w].flagged))
    && (forall i :: 0 <= i < |st.tasks| && st.tasks[i].spec.wave.Some? ==>
          var w := st.tasks[i].spec.wave.value;
          w < |st.waves| && w !in stale && st.waves[w].flagged ==> Halted(st.tasks[i]))
  }

  ghost predicate TotalsOk(config: Config, st: State) {
    && st.active == Count(IsRunning(), st.tasks) <= config.maxConcurrent
    && st.tel.submitted == |st.tasks|
    && st.tel.attempts == SumAttempts(st.tasks)
    && (config.maxQueued.Some? ==>
          Count(IsWaiting(), st.tasks) + st.active <= config.maxQueued.value + config.maxConcurrent)
  }

  ghost predicate FinalsOk(st: State) {
    && st.tel.succeeded == Count(IsIn(Succeeded), st.tasks) && st.tel.failed == Count(IsIn(Failed), st.tasks)
    && st.tel.cancelled == Count(IsIn(Cancelled), st.tasks) && st.tel.timedOut == Count(IsIn(TimedOut), st.tasks)
    && st.tel.budgetExhausted == Count(IsIn(BudgetExhausted), st.tasks)
  }

  ghost predicate Inv(config: Config, st: State, stale: set<nat>) {
    TasksOk(st) && AgentsOk(st) && WavesOk(st) && WaveStatesOk(st, stale) && TotalsOk(config, st) && FinalsOk(st)
  }

  // ------------------------------------------------------- conservation laws

  function NotSucceeded(): Task -> bool { (t: Task) => t.state != Succeeded }
  function NotSF(): Task -> bool { (t: Task) => t.state != Succeeded && t.state != Failed }
  function NotSFC(): Task -> bool { (t: Task) => NotSF()(t) && t.state != Cancelled }
  function NotSFCT(): Task -> bool { (t: Task) => NotSFC()(t) && t.state != TimedOut }
  function NotFinal(): Task -> bool { (t: Task) => !Terminal(t.state) }
  function Any(): Task -> bool { (t: Task) => true }

  lemma {:induction false} CountAny(tasks: seq<Task>)
    ensures Count(Any(), tasks) == |tasks|
  {
    if tasks != [] { CountAny(tasks[..|tasks| - 1]); }
  }

  /** Every submitted task is in exactly one of the five final counters, waiting, or active. */
  lemma Conservation(config: Config, st: State)
    requires TotalsOk(config, st) && FinalsOk(st)
    ensures st.tel.submitted ==
            st.tel.succeeded + st.tel.failed + st.tel.cancelled + st.tel.timedOut + st.tel.budgetExhausted
            + Count(IsWaiting(), st.tasks) + st.active
  {
    CountAny(st.tasks);
    CountSplit(IsIn(Succeeded), NotSucceeded(), Any(), st.tasks);
    CountSplit(IsIn(Failed), NotSF(), NotSucceeded(), st.tasks);
    CountSplit(IsIn(Cancelled), NotSFC(), NotSF(), st.tasks);
    CountSplit(IsIn(TimedOut), NotSFCT(), NotSFC(), st.tasks);
    CountSplit(IsIn(BudgetExhausted), NotFinal(), NotSFCT(), st.tasks);
    CountSplit(IsWaiting(), IsRunning(), NotFinal(), st.tasks);
  }

  /** Attempts never exceed what the retry policies allow. */
  lemma AttemptsBounded(config: Config, st: State)
    requires TasksOk(st) && TotalsOk(config, st)
    ensures st.tel.attempts <= SumMaxAttempts(st.tasks)
  {
    SumBounded(st.tasks);
  }

  // ------------------------------------------------- replacing one task record

  /** The states differ in task `i`, whose spec is kept, in counters and in wave states. */
  ghost predicate Replaces(st: State, st': State, i: nat) {
    && i < |st.tasks| == |st'.tasks| && |st'.agents| == |st.agents| && |st'.waves| == |st.waves|
    && st'.tasks == st.tasks[i := st'.tasks[i]] && st'.tasks[i].spec == st.tasks[i].spec
    && (forall w :: 0 <= w < |st.waves| ==>
          st'.waves[w].parent == st.waves[w].parent && st'.waves[w].maxConcurrent == st.waves[w].maxConcurrent)
    && (forall a :: 0 <= a < |st.agents| ==> st'.agents[a].maxConcurrent == st.agents[a].maxConcurrent)
  }

  lemma ReplaceTasks(st: State, st': State, i: nat)
    requires TasksOk(st) && Replaces(st, st', i) && st.nextQueue <= st'.nextQueue
    requires TaskOk(|st.agents|, |st.waves|, st'.nextQueue, st'.tasks[i], i)
    requires st'.tasks[i].queueSeq == st.tasks[i].queueSeq || st'.tasks[i].queueSeq >= st.nextQueue
    ensures TasksOk(st')
  {
    forall j, k | 0 <= j < k < |st'.tasks| ensures SeqNo(st'.tasks, j) != SeqNo(st'.tasks, k) {
      assert SeqNo(st.tasks, j) != SeqNo(st.tasks, k);
    }
  }

  lemma ReplaceAgents(st: State, st': State, i: nat)
    requires AgentsOk(st) && Replaces(st, st', i)
    requires forall a :: 0 <= a < |st.agents| ==>
               && st'.agents[a].active + One(RunsOn(a)(st.tasks[i])) == st.agents[a].active + One(RunsOn(a)(st'.tasks[i]))
               && st'.agents[a].active <= st.agents[a].maxConcurrent
    ensures AgentsOk(st')
  {
    forall a | 0 <= a < |st.agents| ensures st'.agents[a].active == Count(RunsOn(a), st'.tasks) {
      CountUpdate(RunsOn(a), st.tasks, i, st'.tasks[i]);
    }
  }

  lemma ReplaceWaves(st: State, st': State, i: nat)
    requires WavesOk(st) && Replaces(st, st', i)
    requires forall w :: 0 <= w < |st.waves| ==>
               && st'.waves[w].active + One(RunsIn(w)(st.tasks[i])) == st.waves[w].active + One(RunsIn(w)(st'.tasks[i]))
               && (st.waves[w].maxConcurrent.Some? ==> st'.waves[w].active <= st.waves[w].maxConcurrent.value)
               && (st'.waves[w].started ==> st.waves[w].started || st.tasks[i].spec.wave == Some(w))
    ensures WavesOk(st')
  {
    forall w | 0 <= w < |st.waves| ensures WaveLinks(st'.tasks, st'.waves[w], w) && WaveCounts(st'.tasks, st'.waves[w], w) {
      assert WaveLinks(st.tasks, st.waves[w], w) && WaveCounts(st.tasks, st.waves[w], w);
      CountUpdate(RunsIn(w), st.tasks, i, st'.tasks[i]);
      CountUpdate(Of(w), st.tasks, i, st'.tasks[i]);
      if st.tasks[i].spec.wave == Some(w) { CountWitness(Of(w), st'.tasks, i); }
    }
  }

  /** The task's own wave may become stale; no other does. */
  lemma ReplaceWaveStates(st: State, st': State, i: nat, stale: set<nat>)
    requires WaveStatesOk(st, stale) && Replaces(st, st', i)
    requires forall w :: 0 <= w < |st.waves| && Some(w) != st.tasks[i].spec.wave ==>
               && st'.waves[w].state == st.waves[w].state
               && st'.waves[w].started == st.waves[w].started && st'.waves[w].flagged == st.waves[w].flagged
    ensures WaveStatesOk(st', stale + if st.tasks[i].spec.wave.Some? then {st.tasks[i].spec.wave.value} else {})
  {
    var t := st'.tasks[i];
    forall w | 0 <= w < |st.waves| && w !in stale && Some(w) != t.spec.wave
      ensures st'.waves[w].state == WaveStateOf(st'.tasks, w, st'.waves[w].started, st'.waves[w].flagged)
    {
      WaveStateUpdate(st.tasks, i, t, w, st.waves[w].started, st.waves[w].flagged);
    }
  }

  lemma ReplaceTotals(config: Config, st: State, st': State, i: nat)
    requires TotalsOk(config, st) && Replaces(st, st', i)
    requires st'.active + One(IsRunning()(st.tasks[i])) == st.active + One(IsRunning()(st'.tasks[i]))
    requires st'.active <= config.maxConcurrent && st'.tel.submitted == st.tel.submitted
    requires st'.tel.attempts + st.tasks[i].attempts == st.tel.attempts + st'.tasks[i].attempts
    requires Terminal(st.tasks[i].state) ==> Terminal(st'.tasks[i].state)
    ensures TotalsOk(config, st')
  {
    CountUpdate(IsRunning(), st.tasks, i, st'.tasks[i]);
    CountUpdate(IsWaiting(), st.tasks, i, st'.tasks[i]);
    SumUpdate(st.tasks, i, st'.tasks[i]);
  }

  lemma ReplaceFinals(st: State, st': State, i: nat)
    requires FinalsOk(st) && Replaces(st, st', i)
    requires var t, t' := st.tasks[i], st'.tasks[i];
             && st'.tel.succeeded + One(t.state == Succeeded) == st.tel.succeeded + One(t'.state == Succeeded)
             && st'.tel.failed + One(t.state == Failed) == st.tel.failed + One(t'.state == Failed)
             && st'.tel.cancelled + One(t.state == Cancelled) == st.tel.cancelled + One(t'.state == Cancelled)
             && st'.tel.timedOut + One(t.state == TimedOut) == st.tel.timedOut + One(t'.state == TimedOut)
             && st'.tel.budgetExhausted + One(t.state == BudgetExhausted) == st.tel.budgetExhausted + One(t'.state == BudgetExhausted)
    ensures FinalsOk(st')
  {
    CountUpdate(IsIn(Succeeded), st.tasks, i, st'.tasks[i]);
    CountUpdate(IsIn(Failed), st.tasks, i, st'.tasks[i]);
    CountUpdate(IsIn(Cancelled), st.tasks, i, st'.tasks[i]);
    CountUpdate(IsIn(TimedOut), st.tasks, i, st'.tasks[i]);
    CountUpdate(IsIn(BudgetExhausted), st.tasks, i, st'.tasks[i]);
  }

  // ---------------------------------------------------------- retry policy

  const INT64_MAX: int := 0x7FFF_FFFF_FFFF_FFFF

  function Pow2(n: nat): (r: int)
    ensures r >= 1
  {
    if n == 0 then 1 else 2 * Pow2(n - 1)
  }

  /** retry_delay: exponential backoff that saturates instead of overflowing, then the cap. */
  function RetryDelay(policy: RetryPolicy, attempt: nat): int {
    if policy.backoff <= 0 then 0
    else
      var value :=
        if policy.exponential && attempt > 1 then
          var shift := attempt - 1;
          if shift >= 63 || policy.backoff > INT64_MAX / Pow2(shift) then INT64_MAX else policy.backoff * Pow2(shift)
        else policy.backoff;
      if policy.maxBackoff > 0 && value > policy.maxBackoff then policy.maxBackoff else value
  }

  function Min(a: int, b: int): int { if a <= b then a else b }

  lemma {:induction false} Pow2Grows(m: nat, n: nat)
    requires m <= n
    ensures Pow2(m) <= Pow2(n)
  {
    if m < n { Pow2Grows(m, n - 1); }
  }

  lemma QuotientTest(base: int, p: int, max: int)
    requires base > 0 && p > 0 && max >= 0
    ensures base > max / p <==> base * p > max
  {
    assert max == p * (max / p) + max % p;
    if base > max / p {
      assert p * base >= p * (max / p + 1);
    } else {
      assert p * base <= p * (max / p);
    }
  }

  lemma Pow2At(m: nat, n: nat, a: int, b: int)
    requires Pow2(m) == a && Pow2(n) == b
    ensures Pow2(m + n) == a * b
  {
    Pow2Adds(m, n);
  }

  lemma Pow2Is63()
    ensures Pow2(63) == INT64_MAX + 1
  {
    assert Pow2(3) == 2 * Pow2(2) == 8;
    Pow2At(3, 1, 8, 2);
    Pow2At(3, 4, 8, 16);
    Pow2At(4, 4, 16, 16);
    Pow2At(8, 8, 0x100, 0x100);
    Pow2At(16, 16, 0x1_0000, 0x1_0000);
    Pow2At(8, 7, 0x100, 0x80);
    Pow2At(16, 15, 0x1_0000, 0x8000);
    Pow2At(32, 31, 0x1_0000_0000, 0x8000_0000);
  }

  lemma ProductAtLeast(base: int, p: int)
    requires base >= 1 && p >= 0
    ensures base * p >= p
  {
    assert (base - 1) * p >= 0;
  }

  /** Saturation is exact: the shift overflows just when the product does. */
  lemma SaturationExact(base: int, shift: nat, p: int)
    requires 0 < base && p == Pow2(shift)
    ensures (shift >= 63 || base > INT64_MAX / p) <==> base * p > INT64_MAX
  {
    QuotientTest(base, p, INT64_MAX);
    ProductAtLeast(base, p);
    if shift >= 63 {
      Pow2Grows(63, shift);
      Pow2Is63();
    }
  }

  /** The delay is the exact doubling, cut at the 64-bit maximum and at the cap. */
  lemma RetryDelayExact(policy: RetryPolicy, attempt: nat, doubled: int)
    requires 0 < policy.backoff <= INT64_MAX && attempt >= 1
    requires doubled == if policy.exponential then policy.backoff * Pow2(attempt - 1) else policy.backoff
    ensures var value := Min(doubled, INT64_MAX);
            RetryDelay(policy, attempt) == if policy.maxBackoff > 0 then Min(value, policy.maxBackoff) else value
  {
    SaturationExact(policy.backoff, attempt - 1, Pow2(attempt - 1));
    if attempt == 1 { assert Pow2(0) == 1 && policy.backoff * Pow2(0) == policy.backoff; }
  }

  lemma {:induction false} Pow2Adds(m: nat, n: nat)
    ensures Pow2(m + n) == Pow2(m) * Pow2(n)
  {
    if n > 0 {
      Pow2Adds(m, n - 1);
    } else {
      assert Pow2(n) == 1;
    }
  }

  predicate ShouldRetry(t: Task, outcome: Outcome) {
    t.attempts < t.spec.retry.maxAttempts &&
    match outcome
    case OSucceeded => false
    case OCancelled => false
    case OFailed => t.spec.retry.onFailure
    case OTimedOut => t.spec.retry.onTimeout
    case OBudgetExhausted => t.spec.retry.onBudget
  }
}
