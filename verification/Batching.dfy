/**
 The continuous-batching engine of tools/axiom_engine.cpp: sequences share a refcounted paged
 pool, yet each decodes as if it ran alone on a private cache.
 */
module Batching {
  import opened Common
  import opened Decoding
  import opened BlockPool

  datatype Sequence = Sequence(
    sid: nat, req: Request, out: seq<Token>, rng: nat, logits: seq<real>,
    table: seq<Block>, cap: nat, pos: nat, done: bool, next: Token)

  ghost function TablesOf(running: seq<Sequence>): (t: seq<seq<Block>>)
    ensures |t| == |running| && forall i :: 0 <= i < |running| ==> t[i] == running[i].table
  {
    seq(|running|, i requires 0 <= i < |running| => running[i].table)
  }

  /** Capacity of a block table: enough blocks for prompt, output and four spare positions. */
  function BlocksCap(bt: nat, req: Request): nat
    requires bt > 0
  {
    BlockOf(bt, |req.prompt| + req.maxNew + 4 + bt - 1)
  }

  /** No reachable position falls outside the table. */
  lemma CapCovers(bt: nat, req: Request, p: nat)
    requires bt > 0 && p < |req.prompt| + req.maxNew + 4
    ensures BlockOf(bt, p) < BlocksCap(bt, req)
  {
    BlockMonotone(bt, p + bt, |req.prompt| + req.maxNew + 4 + bt - 1);
  }

  /** What holds of a running sequence's bookkeeping at all times, even after failed steps. */
  ghost predicate Structured(bt: nat, nphys: nat, cached: map<Block, seq<Token>>, st: Sequence) {
    && bt > 0
    && |st.req.prompt| <= st.pos <= |st.req.prompt| + |st.out|
    && |st.out| <= st.req.maxNew + 1
    && (st.done || (|st.logits| > 0 && (st.out == [] || |st.out| < st.req.maxNew)))
    && st.cap == BlocksCap(bt, st.req) && |st.table| <= st.cap
    && NoRepeats(st.table) && InRange(st.table, nphys) && Covers(bt, st.table, st.pos)
    && forall j :: BlockOf(bt, |st.req.prompt|) <= j < |st.table| ==> st.table[j] !in cached
  }

  /** Where a sequence is within a lockstep decode step. */
  datatype Stage = Settled | Chosen | Forwarded

  /** The sequence stands where its solo run stands after `age` steps (one more once it chose). */
  ghost predicate Faithful(m: Model, bt: nat, nphys: nat, data: seq<seq<Kv>>, st: Sequence, age: nat)
    requires HasLogits(m) && Sized(bt, nphys, data) && InRange(st.table, nphys) && Covers(bt, st.table, st.pos)
  {
    var cache := View(bt, nphys, data, st.table, st.pos);
    && Progress(st.out, st.rng, cache, st.done) == SoloRun(m, st.req, age)
    && (!st.done ==> st.logits == m.logits(cache))
  }

  ghost predicate AtStage(m: Model, bt: nat, nphys: nat, data: seq<seq<Kv>>, st: Sequence, age: nat, stage: Stage)
    requires HasLogits(m) && Sized(bt, nphys, data) && InRange(st.table, nphys) && Covers(bt, st.table, st.pos)
  {
    if stage == Settled then Faithful(m, bt, nphys, data, st, age)
    else if st.done then Faithful(m, bt, nphys, data, st, age + 1)
    else
      var p, p' := SoloRun(m, st.req, age), SoloRun(m, st.req, age + 1);
      && st.out == p'.out && st.rng == p'.rng && !p'.done
      && View(bt, nphys, data, st.table, st.pos) == p.cache
      && p'.cache == p.cache + [m.kv(p.cache, st.next)]
      && (stage == Forwarded ==>
            && Covers(bt, st.table, st.pos + 1)
            && View(bt, nphys, data, st.table, st.pos + 1) == p'.cache
            && st.logits == m.logits(p'.cache))
  }

  /** Every running sequence is structured and, unless a failed step disturbed it, faithful. */
  ghost predicate AllOk(m: Model, bt: nat, nphys: nat, cached: map<Block, seq<Token>>, data: seq<seq<Kv>>,
                        running: seq<Sequence>, age: seq<Option<nat>>, stages: seq<Stage>)
    requires HasLogits(m) && Sized(bt, nphys, data)
  {
    && |age| == |running| == |stages|
    && forall i :: 0 <= i < |running| ==>
         && Structured(bt, nphys, cached, running[i])
         && (age[i].Some? ==> AtStage(m, bt, nphys, data, running[i], age[i].value, stages[i]))
  }

  /** A cached block holds exactly the entries of the last block of its key. */
  ghost predicate CacheSound(m: Model, bt: nat, nphys: nat, cached: map<Block, seq<Token>>, data: seq<seq<Kv>>)
    requires Sized(bt, nphys, data)
  {
    forall b :: b in cached && 0 <= b < nphys ==> BlockHolds(m, bt, data[b], cached[b])
  }

  ghost predicate BlockHolds(m: Model, bt: nat, row: seq<Kv>, key: seq<Token>) {
    |row| == bt <= |key| && row == Kvs(m, key)[|key| - bt..]
  }

  // ------------------------------------------------------------- frame lemmas

  lemma StageUntouched(m: Model, bt: nat, nphys: nat, data: seq<seq<Kv>>, st: Sequence, age: nat, stage: Stage,
                       b: Block, row: seq<Kv>)
    requires HasLogits(m) && Sized(bt, nphys, data) && InRange(st.table, nphys) && Covers(bt, st.table, st.pos)
    requires 0 <= b < nphys && |row| == bt && b !in st.table
    requires AtStage(m, bt, nphys, data, st, age, stage)
    ensures Sized(bt, nphys, data[b := row])
    ensures AtStage(m, bt, nphys, data[b := row], st, age, stage)
  {
    ViewUntouched(bt, nphys, data, st.table, st.pos, b, row);
    if Covers(bt, st.table, st.pos + 1) { ViewUntouched(bt, nphys, data, st.table, st.pos + 1, b, row); }
  }

  /** A write to a block only sequence `i` may hold leaves all the others as they were. */
  lemma OthersUntouched(m: Model, bt: nat, nphys: nat, cached: map<Block, seq<Token>>, data: seq<seq<Kv>>,
                        running: seq<Sequence>, age: seq<Option<nat>>, stages: seq<Stage>, b: Block, row: seq<Kv>, i: int)
    requires HasLogits(m) && Sized(bt, nphys, data) && AllOk(m, bt, nphys, cached, data, running, age, stages)
    requires 0 <= b < nphys && |row| == bt
    requires forall j :: 0 <= j < |running| && j != i ==> b !in running[j].table
    ensures Sized(bt, nphys, data[b := row])
    ensures forall j :: 0 <= j < |running| && j != i && age[j].Some? ==>
              AtStage(m, bt, nphys, data[b := row], running[j], age[j].value, stages[j])
  {
    forall j | 0 <= j < |running| && j != i && age[j].Some?
      ensures AtStage(m, bt, nphys, data[b := row], running[j], age[j].value, stages[j])
    {
      StageUntouched(m, bt, nphys, data, running[j], age[j].value, stages[j], b, row);
    }
  }

  lemma CacheUntouched(m: Model, bt: nat, nphys: nat, cached: map<Block, seq<Token>>, data: seq<seq<Kv>>, b: Block, row: seq<Kv>)
    requires Sized(bt, nphys, data) && CacheSound(m, bt, nphys, cached, data)
    requires 0 <= b < nphys && |row| == bt && b !in cached
    ensures Sized(bt, nphys, data[b := row]) && CacheSound(m, bt, nphys, cached, data[b := row])
  {
  }

  /** An uncached block of one table is in no other table. */
  lemma PrivateBlock(nphys: nat, free: seq<Block>, refs: seq<int>, cached: map<Block, seq<Token>>,
                     running: seq<Sequence>, i: nat, b: Block)
    requires Conserved(nphys, free, refs, cached, Uses(TablesOf(running)), {})
    requires i < |running| && b in running[i].table && b !in cached
    ensures 0 <= b < nphys && refs[b] == 1
    ensures forall j :: 0 <= j < |running| && j != i ==> b !in running[j].table
  {
    var tables := TablesOf(running);
    UsesSplit(tables, i);
    UsesHolds(tables, i, b);
    var rest := tables[..i] + tables[i + 1..];
    assert BlockState(refs[b], Uses(tables)[b], b in free, b in cached, false);
    assert b in multiset(tables[i]) && b !in Uses(rest);
    forall j | 0 <= j < |running| && j != i ensures b !in running[j].table {
      if b in running[j].table {
        var j' := if j < i then j else j - 1;
        assert rest[j'] == tables[j];
        UsesHolds(rest, j', b);
      }
    }
  }

  lemma UsesOfAppend(running: seq<Sequence>, st: Sequence)
    ensures Uses(TablesOf(running + [st])) == Uses(TablesOf(running)) + multiset(st.table)
  {
    assert TablesOf(running + [st]) == TablesOf(running) + [st.table];
    UsesAppend(TablesOf(running), st.table);
  }

  /** References of sequence `i` and of the others, before and after it is replaced. */
  lemma UsesOfUpdate(running: seq<Sequence>, i: nat, st: Sequence)
    requires i < |running|
    ensures var others := Uses(TablesOf(running[..i] + running[i + 1..]));
            && Uses(TablesOf(running)) == others + multiset(running[i].table)
            && Uses(TablesOf(running[i := st])) == others + multiset(st.table)
  {
    var tables := TablesOf(running);
    assert TablesOf(running[..i] + running[i + 1..]) == tables[..i] + tables[i + 1..];
    assert TablesOf(running[i := st]) == tables[i := st.table];
    UsesSplit(tables, i);
    UsesUpdate(tables, i, st.table);
  }

  // ---------------------------------------------------------- prefix reuse

  lemma KvsOfPrefix(m: Model, prompt: seq<Token>, n: nat, p: nat)
    requires p < n <= |prompt|
    ensures Kvs(m, prompt[..n])[p] == Kvs(m, prompt)[p]
  {
    KvsPrefix(m, prompt, n);
  }

  /** The table holds blocks cached under the prompt's own prefixes, in order. */
  ghost predicate Reused(bt: nat, cached: map<Block, seq<Token>>, table: seq<Block>, prompt: seq<Token>) {
    forall j :: 0 <= j < |table| ==> ReusedBlock(bt, cached, table[j], prompt, j)
  }

  ghost predicate ReusedBlock(bt: nat, cached: map<Block, seq<Token>>, b: Block, prompt: seq<Token>, j: nat) {
    StartOf(bt, j + 1) <= |prompt| && b in cached && cached[b] == prompt[..StartOf(bt, j + 1)]
  }

  lemma HeldEntry(m: Model, bt: nat, row: seq<Kv>, key: seq<Token>, s: nat)
    requires BlockHolds(m, bt, row, key) && s < bt
    ensures row[s] == Kvs(m, key)[|key| - bt + s]
  {
  }

  /** Such blocks show the prompt's own entries. */
  lemma ReusedSlot(m: Model, bt: nat, row: seq<Kv>, prompt: seq<Token>, j: nat, s: nat)
    requires StartOf(bt, j + 1) <= |prompt| && BlockHolds(m, bt, row, prompt[..StartOf(bt, j + 1)]) && s < bt
    ensures row[s] == Kvs(m, prompt)[StartOf(bt, j) + s]
  {
    HeldEntry(m, bt, row, prompt[..StartOf(bt, j + 1)], s);
    KvsOfPrefix(m, prompt, StartOf(bt, j + 1), StartOf(bt, j) + s);
  }

  /** The prompt consists of full blocks, and its last one is cached. */
  ghost predicate WholeCached(bt: nat, cached: map<Block, seq<Token>>, prompt: seq<Token>) {
    bt > 0 && SlotOf(bt, |prompt|) == 0 && exists b :: b in cached && cached[b] == prompt
  }

  /** Reuse that leaves no token to compute. */
  lemma ReusedWhole(bt: nat, cached: map<Block, seq<Token>>, table: seq<Block>, prompt: seq<Token>)
    requires bt > 0 && prompt != [] && Reused(bt, cached, table, prompt) && StartOf(bt, |table|) >= |prompt|
    ensures WholeCached(bt, cached, prompt)
  {
    assert ReusedBlock(bt, cached, table[|table| - 1], prompt, |table| - 1);
    assert prompt[..|prompt|] == prompt;
    PlaceOf(bt, |table|, 0);
  }

  /** Block `j` of the table holds the entries of block `j` of the prompt. */
  ghost predicate RowHolds(m: Model, bt: nat, nphys: nat, data: seq<seq<Kv>>, table: seq<Block>, prompt: seq<Token>, j: nat)
    requires Sized(bt, nphys, data) && InRange(table, nphys) && j < |table|
  {
    StartOf(bt, j + 1) <= |prompt| && BlockHolds(m, bt, data[table[j]], prompt[..StartOf(bt, j + 1)])
  }

  lemma ReusedRows(m: Model, bt: nat, nphys: nat, cached: map<Block, seq<Token>>, data: seq<seq<Kv>>,
                   table: seq<Block>, prompt: seq<Token>, j: nat)
    requires Sized(bt, nphys, data) && CacheSound(m, bt, nphys, cached, data) && InRange(table, nphys)
    requires Reused(bt, cached, table, prompt) && j < |table|
    ensures RowHolds(m, bt, nphys, data, table, prompt, j)
  {
    assert ReusedBlock(bt, cached, table[j], prompt, j);
    assert BlockHolds(m, bt, data[table[j]], cached[table[j]]);
  }

  lemma HeldPosition(m: Model, bt: nat, nphys: nat, data: seq<seq<Kv>>, table: seq<Block>, prompt: seq<Token>, p: nat)
    requires Sized(bt, nphys, data) && InRange(table, nphys) && BlockOf(bt, p) < |table|
    requires RowHolds(m, bt, nphys, data, table, prompt, BlockOf(bt, p))
    ensures p < |prompt| && At(bt, nphys, data, table, p) == Kvs(m, prompt)[p]
  {
    PlaceBack(bt, p);
    ReusedSlot(m, bt, data[table[BlockOf(bt, p)]], prompt, BlockOf(bt, p), SlotOf(bt, p));
  }

  lemma ReusedCovers(bt: nat, table: seq<Block>)
    requires bt > 0
    ensures Covers(bt, table, StartOf(bt, |table|))
  {
    if |table| > 0 { PlaceOf(bt, |table| - 1, bt - 1); }
  }

  lemma HeldView(m: Model, bt: nat, nphys: nat, data: seq<seq<Kv>>, table: seq<Block>, prompt: seq<Token>, n: nat)
    requires Sized(bt, nphys, data) && InRange(table, nphys) && Covers(bt, table, n) && n <= |prompt|
    requires forall j :: 0 <= j < |table| ==> RowHolds(m, bt, nphys, data, table, prompt, j)
    ensures View(bt, nphys, data, table, n) == Kvs(m, prompt[..n])
  {
    KvsPrefix(m, prompt, n);
    forall p | 0 <= p < n ensures View(bt, nphys, data, table, n)[p] == Kvs(m, prompt)[p] {
      ViewAt(bt, nphys, data, table, n, p);
      HeldPosition(m, bt, nphys, data, table, prompt, p);
    }
  }

  lemma ReusedView(m: Model, bt: nat, nphys: nat, cached: map<Block, seq<Token>>, data: seq<seq<Kv>>,
                   table: seq<Block>, prompt: seq<Token>, n: nat)
    requires Sized(bt, nphys, data) && CacheSound(m, bt, nphys, cached, data) && InRange(table, nphys)
    requires Reused(bt, cached, table, prompt) && Covers(bt, table, n) && n <= |prompt|
    ensures View(bt, nphys, data, table, n) == Kvs(m, prompt[..n])
  {
    forall j | 0 <= j < |table| ensures RowHolds(m, bt, nphys, data, table, prompt, j) {
      ReusedRows(m, bt, nphys, cached, data, table, prompt, j);
    }
    HeldView(m, bt, nphys, data, table, prompt, n);
  }

  lemma KeysDiffer(bt: nat, cached: map<Block, seq<Token>>, table: seq<Block>, prompt: seq<Token>, b: Block)
    requires bt > 0 && Reused(bt, cached, table, prompt) && ReusedBlock(bt, cached, b, prompt, |table|)
    ensures b !in table
  {
    forall j | 0 <= j < |table| ensures table[j] != b {
      assert ReusedBlock(bt, cached, table[j], prompt, j);
      StartMonotone(bt, j + 1, |table|);
    }
  }

  lemma FullBlockEntry(m: Model, bt: nat, nphys: nat, data: seq<seq<Kv>>, table: seq<Block>, prompt: seq<Token>,
                       j: nat, s: nat)
    requires Sized(bt, nphys, data) && InRange(table, nphys) && Covers(bt, table, |prompt|)
    requires View(bt, nphys, data, table, |prompt|) == Kvs(m, prompt)
    requires StartOf(bt, j + 1) <= |prompt| && s < bt
    ensures j < |table| && data[table[j]][s] == Kvs(m, prompt[..StartOf(bt, j + 1)])[StartOf(bt, j) + s]
  {
    PlaceOf(bt, j, s);
    ViewAt(bt, nphys, data, table, |prompt|, StartOf(bt, j) + s);
    KvsOfPrefix(m, prompt, StartOf(bt, j + 1), StartOf(bt, j) + s);
  }

  /** A full block of a prefilled prompt holds exactly the last block of that prefix. */
  lemma FullBlockHolds(m: Model, bt: nat, nphys: nat, data: seq<seq<Kv>>, table: seq<Block>, prompt: seq<Token>, j: nat)
    requires Sized(bt, nphys, data) && InRange(table, nphys) && Covers(bt, table, |prompt|)
    requires View(bt, nphys, data, table, |prompt|) == Kvs(m, prompt)
    requires StartOf(bt, j + 1) <= |prompt|
    ensures j < |table| && BlockHolds(m, bt, data[table[j]], prompt[..StartOf(bt, j + 1)])
  {
    FullBlockEntry(m, bt, nphys, data, table, prompt, j, 0);
    var key := prompt[..StartOf(bt, j + 1)];
    forall s | 0 <= s < bt ensures data[table[j]][s] == Kvs(m, key)[StartOf(bt, j) + s] {
      FullBlockEntry(m, bt, nphys, data, table, prompt, j, s);
    }
    assert data[table[j]] == Kvs(m, key)[StartOf(bt, j)..];
  }

  /** Storing what the family computes from the view of a prompt's start extends that view. */
  lemma PrefillView(m: Model, bt: nat, nphys: nat, data: seq<seq<Kv>>, table: seq<Block>, prompt: seq<Token>, i: nat)
    requires Sized(bt, nphys, data) && InRange(table, nphys) && NoRepeats(table)
    requires i < |prompt| && BlockOf(bt, i) < |table| && Covers(bt, table, i)
    requires View(bt, nphys, data, table, i) == Kvs(m, prompt[..i])
    ensures var b := table[BlockOf(bt, i)];
            var x := m.kv(View(bt, nphys, data, table, i), prompt[i]);
            var data' := data[b := data[b][SlotOf(bt, i) := x]];
            && Sized(bt, nphys, data') && Covers(bt, table, i + 1)
            && View(bt, nphys, data', table, i + 1) == Kvs(m, prompt[..i + 1])
  {
    ViewStores(bt, nphys, data, table, i, m.kv(View(bt, nphys, data, table, i), prompt[i]));
    assert prompt[..i + 1] == prompt[..i] + [prompt[i]];
    KvsAppend(m, prompt[..i], prompt[i]);
  }

  // ------------------------------------------------------- changing the cache

  /** Blocks in use keep their contents, and none of them becomes cached. */
  ghost predicate Undisturbed(uses: multiset<Block>, cached: map<Block, seq<Token>>, data: seq<seq<Kv>>,
                              cached': map<Block, seq<Token>>, data': seq<seq<Kv>>) {
    && |data'| == |data|
    && (forall b :: b in uses && 0 <= b < |data| ==> data'[b] == data[b])
    && (forall b :: b in uses && b in cached' ==> b in cached)
  }

  lemma StageFramed(m: Model, bt: nat, nphys: nat, data: seq<seq<Kv>>, data': seq<seq<Kv>>, st: Sequence, age: nat, stage: Stage)
    requires HasLogits(m) && Sized(bt, nphys, data) && Sized(bt, nphys, data')
    requires InRange(st.table, nphys) && Covers(bt, st.table, st.pos)
    requires forall j :: 0 <= j < |st.table| ==> data'[st.table[j]] == data[st.table[j]]
    requires AtStage(m, bt, nphys, data, st, age, stage)
    ensures AtStage(m, bt, nphys, data', st, age, stage)
  {
    SameView(bt, nphys, data, st.table, data', st.table, st.pos);
    if Covers(bt, st.table, st.pos + 1) { SameView(bt, nphys, data, st.table, data', st.table, st.pos + 1); }
  }

  /** What does not disturb the blocks in use disturbs no running sequence. */
  lemma AllOkFramed(m: Model, bt: nat, nphys: nat, cached: map<Block, seq<Token>>, data: seq<seq<Kv>>,
                    cached': map<Block, seq<Token>>, data': seq<seq<Kv>>,
                    running: seq<Sequence>, age: seq<Option<nat>>, stages: seq<Stage>)
    requires HasLogits(m) && Sized(bt, nphys, data) && Sized(bt, nphys, data')
    requires AllOk(m, bt, nphys, cached, data, running, age, stages)
    requires Undisturbed(Uses(TablesOf(running)), cached, data, cached', data')
    ensures AllOk(m, bt, nphys, cached', data', running, age, stages)
  {
    forall i | 0 <= i < |running|
      ensures Structured(bt, nphys, cached', running[i])
      ensures age[i].Some? ==> AtStage(m, bt, nphys, data', running[i], age[i].value, stages[i])
    {
      var table := running[i].table;
      forall j | 0 <= j < |table| ensures table[j] in Uses(TablesOf(running)) {
        UsesHolds(TablesOf(running), i, table[j]);
      }
      if age[i].Some? { StageFramed(m, bt, nphys, data, data', running[i], age[i].value, stages[i]); }
    }
  }

  // ------------------------------------------------------- one decode step

  /** Selection: the next token from the current logits, and whether the sequence stops. */
  function Choice(m: Model, st: Sequence): Sequence
    requires st.done || |st.logits| > 0
  {
    if st.done then st
    else if |st.out| >= st.req.outCap then st.(done := true)
    else
      var (t, rng) := Pick(m, st.req.sampling, st.logits, st.rng);
      var out := st.out + [t];
      if (st.req.useEos && t in m.eos) || |out| >= st.req.maxNew then st.(out := out, rng := rng, done := true)
      else st.(out := out, rng := rng, next := t)
  }

  lemma ChoiceStage(m: Model, bt: nat, nphys: nat, data: seq<seq<Kv>>, st: Sequence, age: nat)
    requires HasLogits(m) && Sized(bt, nphys, data) && InRange(st.table, nphys) && Covers(bt, st.table, st.pos)
    requires (st.done || |st.logits| > 0) && AtStage(m, bt, nphys, data, st, age, Settled)
    ensures AtStage(m, bt, nphys, data, Choice(m, st), age, Chosen)
  {
    var p := SoloRun(m, st.req, age);
    assert SoloRun(m, st.req, age + 1) == SoloStep(m, st.req, p);
  }

  lemma AllChosen(m: Model, bt: nat, nphys: nat, cached: map<Block, seq<Token>>, data: seq<seq<Kv>>,
                  running: seq<Sequence>, running': seq<Sequence>, age: seq<Option<nat>>)
    requires HasLogits(m) && Sized(bt, nphys, data)
    requires AllOk(m, bt, nphys, cached, data, running, age, Repeat(|running|, Settled))
    requires |running'| == |running| && forall i :: 0 <= i < |running| ==> running'[i] == Choice(m, running[i])
    ensures AllOk(m, bt, nphys, cached, data, running', age, Repeat(|running|, Chosen))
    ensures TablesOf(running') == TablesOf(running)
  {
    forall i | 0 <= i < |running|
      ensures Structured(bt, nphys, cached, running'[i])
      ensures age[i].Some? ==> AtStage(m, bt, nphys, data, running'[i], age[i].value, Chosen)
    {
      if age[i].Some? { ChoiceStage(m, bt, nphys, data, running[i], age[i].value); }
    }
  }

  lemma StageGrows(m: Model, bt: nat, nphys: nat, data: seq<seq<Kv>>, st: Sequence, age: nat, longer: seq<Block>)
    requires HasLogits(m) && Sized(bt, nphys, data) && InRange(st.table, nphys) && Covers(bt, st.table, st.pos)
    requires st.table <= longer && InRange(longer, nphys)
    requires AtStage(m, bt, nphys, data, st, age, Chosen)
    ensures Covers(bt, longer, st.pos) && AtStage(m, bt, nphys, data, st.(table := longer), age, Chosen)
  {
    ViewGrows(bt, nphys, data, st.table, longer, st.pos);
  }

  /** What EnsureBlock needs to know of a sequence. */
  ghost predicate Fits(bt: nat, nphys: nat, st: Sequence) {
    && bt > 0 && st.cap == BlocksCap(bt, st.req) && |st.table| <= st.cap
    && st.pos < |st.req.prompt| + st.req.maxNew + 4
    && NoRepeats(st.table) && InRange(st.table, nphys)
  }

  /** The sequence took uncached blocks at the end of its table, and nothing else changed. */
  ghost predicate Grown(bt: nat, nphys: nat, cached: map<Block, seq<Token>>, st: Sequence, st': Sequence) {
    && st' == st.(table := st'.table) && st.table <= st'.table && Fits(bt, nphys, st')
    && forall j :: |st.table| <= j < |st'.table| ==> st'.table[j] !in cached
  }

  lemma StructuredFits(bt: nat, nphys: nat, cached: map<Block, seq<Token>>, st: Sequence)
    requires Structured(bt, nphys, cached, st)
    ensures Fits(bt, nphys, st) && Grown(bt, nphys, cached, st, st)
  {
  }

  ghost predicate AllGrown(bt: nat, nphys: nat, cached: map<Block, seq<Token>>, running: seq<Sequence>, running': seq<Sequence>) {
    |running'| == |running| && forall i :: 0 <= i < |running| ==> Grown(bt, nphys, cached, running[i], running'[i])
  }

  /** The first `a` active sequences cover their write positions. */
  ghost predicate Covering(bt: nat, running: seq<Sequence>, active: seq<nat>, a: nat) {
    bt > 0 && a <= |active| &&
    forall c :: 0 <= c < a ==> active[c] < |running| && BlockOf(bt, running[active[c]].pos) < |running[active[c]].table|
  }

  lemma GrownStep(bt: nat, nphys: nat, cached: map<Block, seq<Token>>, cached': map<Block, seq<Token>>,
                  running: seq<Sequence>, now: seq<Sequence>, i: nat, st: Sequence)
    requires AllGrown(bt, nphys, cached, running, now) && i < |now| && cached'.Keys <= cached.Keys
    requires Grown(bt, nphys, cached', now[i], st)
    ensures AllGrown(bt, nphys, cached', running, now[i := st])
  {
  }

  lemma CoveringStep(bt: nat, running: seq<Sequence>, active: seq<nat>, a: nat, st: Sequence)
    requires Covering(bt, running, active, a) && a < |active| && active[a] < |running|
    requires st == running[active[a]].(table := st.table) && running[active[a]].table <= st.table
    requires BlockOf(bt, st.pos) < |st.table|
    ensures Covering(bt, running[active[a] := st], active, a + 1)
  {
  }

  lemma GrownOk(m: Model, bt: nat, nphys: nat, cached: map<Block, seq<Token>>, cached': map<Block, seq<Token>>,
                data: seq<seq<Kv>>, running: seq<Sequence>, running': seq<Sequence>, age: seq<Option<nat>>)
    requires HasLogits(m) && Sized(bt, nphys, data) && cached'.Keys <= cached.Keys
    requires AllOk(m, bt, nphys, cached, data, running, age, Repeat(|running|, Chosen))
    requires AllGrown(bt, nphys, cached', running, running')
    ensures AllOk(m, bt, nphys, cached', data, running', age, Repeat(|running|, Chosen))
  {
    forall i | 0 <= i < |running|
      ensures Structured(bt, nphys, cached', running'[i])
      ensures age[i].Some? ==> AtStage(m, bt, nphys, data, running'[i], age[i].value, Chosen)
    {
      ViewGrows(bt, nphys, data, running[i].table, running'[i].table, running[i].pos);
      if age[i].Some? { StageGrows(m, bt, nphys, data, running[i], age[i].value, running'[i].table); }
    }
  }

  /** The family's forward pass for one sequence. */
  lemma StageForwards(m: Model, bt: nat, nphys: nat, data: seq<seq<Kv>>, st: Sequence, age: nat)
    requires HasLogits(m) && Sized(bt, nphys, data) && InRange(st.table, nphys) && NoRepeats(st.table)
    requires Covers(bt, st.table, st.pos) && BlockOf(bt, st.pos) < |st.table| && !st.done
    requires AtStage(m, bt, nphys, data, st, age, Chosen)
    ensures var b := st.table[BlockOf(bt, st.pos)];
            var x := m.kv(View(bt, nphys, data, st.table, st.pos), st.next);
            var data' := data[b := data[b][SlotOf(bt, st.pos) := x]];
            && Sized(bt, nphys, data') && Covers(bt, st.table, st.pos + 1)
            && AtStage(m, bt, nphys, data', st.(logits := m.logits(View(bt, nphys, data', st.table, st.pos + 1))), age, Forwarded)
  {
    var x := m.kv(View(bt, nphys, data, st.table, st.pos), st.next);
    ViewStores(bt, nphys, data, st.table, st.pos, x);
    var b := st.table[BlockOf(bt, st.pos)];
    var data' := data[b := data[b][SlotOf(bt, st.pos) := x]];
    var v, v' := View(bt, nphys, data', st.table, st.pos), View(bt, nphys, data', st.table, st.pos + 1);
    assert v' == v + [At(bt, nphys, data', st.table, st.pos)];
    assert v == v'[..st.pos];
  }

  /** Replacing one sequence and one block it alone holds. */
  lemma AllOkStore(m: Model, bt: nat, nphys: nat, cached: map<Block, seq<Token>>, data: seq<seq<Kv>>,
                   running: seq<Sequence>, age: seq<Option<nat>>, stages: seq<Stage>,
                   i: nat, b: Block, row: seq<Kv>, st: Sequence, stage: Stage, a: Option<nat>)
    requires HasLogits(m) && Sized(bt, nphys, data) && AllOk(m, bt, nphys, cached, data, running, age, stages)
    requires i < |running| && 0 <= b < nphys && |row| == bt
    requires forall j :: 0 <= j < |running| && j != i ==> b !in running[j].table
    requires Sized(bt, nphys, data[b := row]) && Structured(bt, nphys, cached, st)
    requires a.Some? ==> AtStage(m, bt, nphys, data[b := row], st, a.value, stage)
    ensures AllOk(m, bt, nphys, cached, data[b := row], running[i := st], age[i := a], stages[i := stage])
  {
    OthersUntouched(m, bt, nphys, cached, data, running, age, stages, b, row, i);
  }

  /** Where a sequence stands once the step is over: torn sequences lose track, finished ones do not. */
  function Aged(age: Option<nat>, torn: bool): Option<nat> {
    if age.None? || torn then None else Some(age.value + 1)
  }

  lemma AllOkJoin(m: Model, bt: nat, nphys: nat, cached: map<Block, seq<Token>>, data: seq<seq<Kv>>,
                  running: seq<Sequence>, age: seq<Option<nat>>, st: Sequence, start: Option<nat>)
    requires HasLogits(m) && Sized(bt, nphys, data)
    requires AllOk(m, bt, nphys, cached, data, running, age, Repeat(|running|, Settled))
    requires Structured(bt, nphys, cached, st) && (start.Some? ==> Faithful(m, bt, nphys, data, st, start.value))
    ensures AllOk(m, bt, nphys, cached, data, running + [st], age + [start], Repeat(|running + [st]|, Settled))
  {
    var running', age', stages := running + [st], age + [start], Repeat(|running| + 1, Settled);
    forall i | 0 <= i < |running'|
      ensures Structured(bt, nphys, cached, running'[i])
      ensures age'[i].Some? ==> AtStage(m, bt, nphys, data, running'[i], age'[i].value, stages[i])
    {
      if i < |running| { assert running'[i] == running[i] && age'[i] == age[i]; }
    }
  }

  function Repeat<T>(n: nat, x: T): (r: seq<T>)
    ensures |r| == n && forall i :: 0 <= i < n ==> r[i] == x
  {
    seq(n, i => x)
  }

  // ------------------------------------------------------------- collected text

  /** Where the first sequence named `sid` runs. */
  ghost predicate FirstWith(running: seq<Sequence>, sid: nat, k: nat) {
    k < |running| && running[k].sid == sid && forall j :: 0 <= j < k ==> running[j].sid != sid
  }

  lemma FirstIsUnique(running: seq<Sequence>, sid: nat, k: nat)
    requires FirstWith(running, sid, k)
    ensures forall j: nat :: FirstWith(running, sid, j) <==> j == k
  {
    forall j: nat | FirstWith(running, sid, j) ensures j == k {
      assert running[j].sid == sid;
    }
  }

  /** The text of an output: pieces of its visible tokens since the last reset marker (None). */
  function Assembled(m: Model, vocab: nat, detok: Token -> Option<string>, out: seq<Token>): string {
    if out == [] then ""
    else
      var text, t := Assembled(m, vocab, detok, out[..|out| - 1]), out[|out| - 1];
      if t >= vocab || t in m.eos then text
      else match detok(t)
        case None => ""
        case Some(piece) => text + piece
  }

  function Take(text: string, n: nat): string {
    if |text| <= n then text else text[..n]
  }

  /** Cutting off as the pieces arrive gives the cut-off text. */
  lemma TakeAppend(text: string, piece: string, n: nat)
    ensures Take(Take(text, n) + piece, n) == Take(text + piece, n)
  {
  }

  /** Dropping sequence `k` leaves the others as they were. */
  lemma AllOkWithout(m: Model, bt: nat, nphys: nat, ar: Arena, running: seq<Sequence>, age: seq<Option<nat>>, k: nat)
    requires Sequences(m, bt, nphys, ar, running, age, Repeat(|running|, Settled)) && k < |running|
    ensures var running', age' := running[..k] + running[k + 1..], age[..k] + age[k + 1..];
            Sequences(m, bt, nphys, ar, running', age', Repeat(|running'|, Settled))
  {
    var running', age' := running[..k] + running[k + 1..], age[..k] + age[k + 1..];
    forall i | 0 <= i < |running'|
      ensures Structured(bt, nphys, ar.cached, running'[i])
      ensures age'[i].Some? ==> AtStage(m, bt, nphys, ar.data, running'[i], age'[i].value, Settled)
    {
      var j := if i < k then i else i + 1;
      assert running'[i] == running[j] && age'[i] == age[j];
    }
  }

  // ------------------------------------------------------------------- the arena

  /** The mutable part of the KV arena; `cached` is the family's prefix cache. */
  datatype Arena = Arena(free: seq<Block>, refs: seq<int>, cached: map<Block, seq<Token>>, data: seq<seq<Kv>>)

  /** The arena serves exactly the references `uses`, and its cache entries are right. */
  ghost predicate Pool(m: Model, bt: nat, nphys: nat, ar: Arena, uses: multiset<Block>) {
    && HasLogits(m) && Sized(bt, nphys, ar.data)
    && Conserved(nphys, ar.free, ar.refs, ar.cached, uses, {})
    && CacheSound(m, bt, nphys, ar.cached, ar.data)
  }

  ghost predicate Sequences(m: Model, bt: nat, nphys: nat, ar: Arena, running: seq<Sequence>, age: seq<Option<nat>>, stages: seq<Stage>) {
    && HasLogits(m) && Sized(bt, nphys, ar.data)
    && AllOk(m, bt, nphys, ar.cached, ar.data, running, age, stages)
  }

  /** The blocks after the reused ones belong to the new sequence alone. */
  ghost predicate OwnTail(cached: map<Block, seq<Token>>, table: seq<Block>, reuse: nat, others: multiset<Block>) {
    forall j :: reuse <= j < |table| ==> table[j] !in cached && table[j] !in others
  }

  /** A new sequence whose first `i` prompt tokens are in its cache. */
  ghost predicate Prefilling(m: Model, bt: nat, nphys: nat, ar: Arena, prompt: seq<Token>, table: seq<Block>, cap: nat,
                             i: nat, reuse: nat, others: multiset<Block>) {
    && Pool(m, bt, nphys, ar, others + multiset(table))
    && NoRepeats(table) && InRange(table, nphys) && reuse <= |table| <= cap
    && StartOf(bt, reuse) <= i <= |prompt| && Covers(bt, table, i)
    && View(bt, nphys, ar.data, table, i) == Kvs(m, prompt[..i])
    && OwnTail(ar.cached, table, reuse, others)
  }

  /** An active sequence writes after its prompt's full blocks, so into a block it alone holds. */
  lemma WriteTargetIsPrivate(bt: nat, nphys: nat, ar: Arena, running: seq<Sequence>, i: nat)
    requires Conserved(nphys, ar.free, ar.refs, ar.cached, Uses(TablesOf(running)), {})
    requires i < |running| && Structured(bt, nphys, ar.cached, running[i])
    requires BlockOf(bt, running[i].pos) < |running[i].table|
    ensures var b := running[i].table[BlockOf(bt, running[i].pos)];
            && 0 <= b < nphys && b !in ar.cached && ar.refs[b] == 1
            && b !in Uses(TablesOf(running[..i] + running[i + 1..]))
            && forall j :: 0 <= j < |running| && j != i ==> b !in running[j].table
  {
    var st := running[i];
    BlockMonotone(bt, |st.req.prompt|, st.pos);
    var b := st.table[BlockOf(bt, st.pos)];
    PrivateBlock(nphys, ar.free, ar.refs, ar.cached, running, i, b);
    UsesOfUpdate(running, i, st);
    assert b in multiset(st.table);
  }

  /** The arena after a sequence stored `x` at its write position. */
  function Stored(bt: nat, ar: Arena, st: Sequence, x: Kv): Arena
    requires bt > 0 && BlockOf(bt, st.pos) < |st.table| && 0 <= st.table[BlockOf(bt, st.pos)] < |ar.data|
    requires |ar.data[st.table[BlockOf(bt, st.pos)]]| == bt
  {
    var b := st.table[BlockOf(bt, st.pos)];
    ar.(data := ar.data[b := ar.data[b][SlotOf(bt, st.pos) := x]])
  }

  lemma SameTables(running: seq<Sequence>, i: nat, st: Sequence)
    requires i < |running| && st.table == running[i].table
    ensures TablesOf(running[i := st]) == TablesOf(running)
  {
  }

  /** The forward pass moves one sequence on and leaves the others where they are. */
  lemma ForwardKeepsSequences(m: Model, bt: nat, nphys: nat, ar: Arena, running: seq<Sequence>, age: seq<Option<nat>>,
                              stages: seq<Stage>, i: nat, st: Sequence)
    requires Pool(m, bt, nphys, ar, Uses(TablesOf(running))) && Sequences(m, bt, nphys, ar, running, age, stages)
    requires i < |running| && stages[i] == Chosen && !running[i].done && BlockOf(bt, running[i].pos) < |running[i].table|
    requires var x := m.kv(View(bt, nphys, ar.data, running[i].table, running[i].pos), running[i].next);
             var ar' := Stored(bt, ar, running[i], x);
             && Sized(bt, nphys, ar'.data) && Covers(bt, running[i].table, running[i].pos + 1)
             && st == running[i].(logits := m.logits(View(bt, nphys, ar'.data, running[i].table, running[i].pos + 1)))
    ensures var x := m.kv(View(bt, nphys, ar.data, running[i].table, running[i].pos), running[i].next);
            Sequences(m, bt, nphys, Stored(bt, ar, running[i], x), running[i := st], age, stages[i := Forwarded])
  {
    WriteTargetIsPrivate(bt, nphys, ar, running, i);
    var x := m.kv(View(bt, nphys, ar.data, running[i].table, running[i].pos), running[i].next);
    var ar' := Stored(bt, ar, running[i], x);
    var b := running[i].table[BlockOf(bt, running[i].pos)];
    if age[i].Some? { StageForwards(m, bt, nphys, ar.data, running[i], age[i].value); }
    AllOkStore(m, bt, nphys, ar.cached, ar.data, running, age, stages, i, b, ar'.data[b], st, Forwarded, age[i]);
    assert age[i := age[i]] == age;
  }

  /** A failed forward pass may leave anything at a write position; its sequence loses track, no other does. */
  lemma TearKeepsSequences(m: Model, bt: nat, nphys: nat, ar: Arena, running: seq<Sequence>, age: seq<Option<nat>>,
                           stages: seq<Stage>, i: nat, x: Kv)
    requires Pool(m, bt, nphys, ar, Uses(TablesOf(running))) && Sequences(m, bt, nphys, ar, running, age, stages)
    requires i < |running| && BlockOf(bt, running[i].pos) < |running[i].table|
    ensures Sequences(m, bt, nphys, Stored(bt, ar, running[i], x), running, age[i := None], stages)
  {
    WriteTargetIsPrivate(bt, nphys, ar, running, i);
    ViewStores(bt, nphys, ar.data, running[i].table, running[i].pos, x);
    var ar' := Stored(bt, ar, running[i], x);
    var b := running[i].table[BlockOf(bt, running[i].pos)];
    AllOkStore(m, bt, nphys, ar.cached, ar.data, running, age, stages, i, b, ar'.data[b], running[i], stages[i], None);
    assert running[i := running[i]] == running && stages[i := stages[i]] == stages;
  }

  /** Which sequences have gone through the forward pass. */
  ghost predicate StagesAfter(stages: seq<Stage>, active: seq<nat>, a: nat) {
    && a <= |active| && (forall c :: 0 <= c < |active| ==> active[c] < |stages|)
    && (forall c :: 0 <= c < a ==> stages[active[c]] == Forwarded)
    && (forall c :: a <= c < |active| ==> stages[active[c]] == Chosen)
  }

  ghost predicate Increasing(active: seq<nat>) {
    forall a, b :: 0 <= a < b < |active| ==> active[a] < active[b]
  }

  ghost predicate Unsettled(stages: seq<Stage>) {
    forall i :: 0 <= i < |stages| ==> stages[i] != Settled
  }

  lemma StagesStep(stages: seq<Stage>, active: seq<nat>, a: nat)
    requires StagesAfter(stages, active, a) && a < |active| && Increasing(active)
    ensures StagesAfter(stages[active[a] := Forwarded], active, a + 1)
    ensures Unsettled(stages) ==> Unsettled(stages[active[a] := Forwarded])
  {
  }

  /** The sequences differ in their logits at most. */
  ghost predicate OnlyLogits(before: seq<Sequence>, after: seq<Sequence>) {
    |after| == |before| && forall i :: 0 <= i < |after| ==> after[i] == before[i].(logits := after[i].logits)
  }

  lemma OnlyLogitsStep(first: seq<Sequence>, before: seq<Sequence>, after: seq<Sequence>, i: nat)
    requires OnlyLogits(first, before) && i < |before| == |after|
    requires after == before[i := before[i].(logits := after[i].logits)]
    ensures OnlyLogits(first, after)
  {
  }

  ghost function AgedAll(age: seq<Option<nat>>, running: seq<Sequence>, failed: bool): (r: seq<Option<nat>>)
    requires |age| == |running|
    ensures |r| == |age| && forall i :: 0 <= i < |age| ==> r[i] == Aged(age[i], failed && !running[i].done)
  {
    seq(|age|, i requires 0 <= i < |age| => Aged(age[i], failed && !running[i].done))
  }

  lemma AllFit(m: Model, bt: nat, nphys: nat, ar: Arena, running: seq<Sequence>, age: seq<Option<nat>>, stages: seq<Stage>)
    requires Sequences(m, bt, nphys, ar, running, age, stages)
    ensures AllGrown(bt, nphys, ar.cached, running, running)
  {
    forall i | 0 <= i < |running| ensures Grown(bt, nphys, ar.cached, running[i], running[i]) {
      StructuredFits(bt, nphys, ar.cached, running[i]);
    }
  }

  /** A sequence that goes on has a token to feed. */
  predicate Picked(st: Sequence) {
    st.done || st.pos < |st.req.prompt| + |st.out|
  }

  /** The position advances where the forward pass ran. */
  function Advanced(st: Sequence): Sequence {
    if st.done then st else st.(pos := st.pos + 1)
  }

  lemma SettleOne(m: Model, bt: nat, nphys: nat, ar: Arena, st: Sequence, age: nat, stage: Stage)
    requires HasLogits(m) && Sized(bt, nphys, ar.data) && Structured(bt, nphys, ar.cached, st)
    requires AtStage(m, bt, nphys, ar.data, st, age, stage) && stage != Settled && Picked(st)
    requires st.done || (stage == Forwarded && BlockOf(bt, st.pos) < |st.table|)
    ensures Structured(bt, nphys, ar.cached, Advanced(st))
    ensures AtStage(m, bt, nphys, ar.data, Advanced(st), age + 1, Settled)
  {
  }

  /** After the step every tracked sequence stands one solo step further. */
  lemma StepSettles(m: Model, bt: nat, nphys: nat, ar: Arena, running: seq<Sequence>, running': seq<Sequence>,
                    age: seq<Option<nat>>, age': seq<Option<nat>>, stages: seq<Stage>)
    requires Sequences(m, bt, nphys, ar, running, age, stages)
    requires |running'| == |running| == |age'|
    requires forall i :: 0 <= i < |running| ==>
               && running'[i] == Advanced(running[i]) && age'[i] == Aged(age[i], false)
               && (running[i].done || (stages[i] == Forwarded && BlockOf(bt, running[i].pos) < |running[i].table|))
               && stages[i] != Settled && Picked(running[i])
    ensures Sequences(m, bt, nphys, ar, running', age', Repeat(|running|, Settled))
    ensures TablesOf(running') == TablesOf(running)
  {
    forall i | 0 <= i < |running|
      ensures Structured(bt, nphys, ar.cached, running'[i])
      ensures age'[i].Some? ==> AtStage(m, bt, nphys, ar.data, running'[i], age'[i].value, Settled)
    {
      assert running'[i] == Advanced(running[i]);
      if age[i].Some? { SettleOne(m, bt, nphys, ar, running[i], age[i].value, stages[i]); }
    }
  }

  /** After a failed step the sequences that stopped are settled, the others lost track. */
  lemma FailureSettles(m: Model, bt: nat, nphys: nat, ar: Arena, running: seq<Sequence>,
                       age: seq<Option<nat>>, age': seq<Option<nat>>, stages: seq<Stage>)
    requires Sequences(m, bt, nphys, ar, running, age, stages) && |age'| == |running|
    requires forall i :: 0 <= i < |running| ==>
               stages[i] != Settled && age'[i] == Aged(age[i], true && !running[i].done)
    ensures Sequences(m, bt, nphys, ar, running, age', Repeat(|running|, Settled))
  {
  }

  /** The block position `i` falls in belongs to the new sequence alone. */
  lemma PrefillBlockIsOwn(m: Model, bt: nat, nphys: nat, ar: Arena, prompt: seq<Token>, table: seq<Block>, cap: nat,
                          i: nat, reuse: nat, others: multiset<Block>)
    requires Prefilling(m, bt, nphys, ar, prompt, table, cap, i, reuse, others) && BlockOf(bt, i) < |table|
    ensures var b := table[BlockOf(bt, i)]; 0 <= b < nphys && b !in ar.cached && b !in others
  {
    BlockMonotone(bt, StartOf(bt, reuse), i);
    PlaceOf(bt, reuse, 0);
  }

  /** A sequence whose prompt is in the cache. */
  function Started(bt: nat, sid: nat, req: Request, table: seq<Block>, logits: seq<real>): Sequence
    requires bt > 0
  {
    Sequence(sid, req, [], InitialRng(req.seed), logits, table, BlocksCap(bt, req), |req.prompt|, req.prompt == [], 0)
  }

  /** It stands at the start of its solo run exactly when its logits are those of its prompt. */
  lemma JoinsFaithfully(m: Model, bt: nat, nphys: nat, ar: Arena, sid: nat, req: Request, table: seq<Block>,
                        logits: seq<real>, others: multiset<Block>)
    requires bt > 0 && HasLogits(m) && req.prompt != [] && |logits| > 0
    requires Prefilling(m, bt, nphys, ar, req.prompt, table, BlocksCap(bt, req), |req.prompt|, BlockOf(bt, |req.prompt|), others)
    ensures var st := Started(bt, sid, req, table, logits);
            && Structured(bt, nphys, ar.cached, st)
            && (Faithful(m, bt, nphys, ar.data, st, 0) <==> logits == m.logits(Kvs(m, req.prompt)))
  {
    assert req.prompt[..|req.prompt|] == req.prompt;
  }

  /** A prompt of one full block that is cached: a lookup may reuse it all, and then no token is left
      whose prefill would write the logits. */
  lemma WholePromptReused(m: Model, prompt: seq<Token>)
    requires HasLogits(m) && prompt != []
    ensures var bt := |prompt|;
            var ar := Arena([], [0], map[0 := prompt], [Kvs(m, prompt)]);
            && Pool(m, bt, 1, ar, multiset{}) && WholeCached(bt, ar.cached, prompt)
            && Reused(bt, ar.cached, [0], prompt) && !(StartOf(bt, |[0]|) < |prompt|)
  {
    var bt := |prompt|;
    PlaceOf(bt, 1, 0);
    assert prompt[..StartOf(bt, 1)] == prompt;
    KvsPrefix(m, prompt, |prompt|);
  }

  // ------------------------------------------------------------------- the engine

  class Engine {
    const bt: nat
    const nphys: nat
    const model: Model
    var arena: Arena
    var running: seq<Sequence>
    /** How many blocks the latest admission reused. */
    var lastReuse: nat
    /** Steps each sequence has taken; None once a failed step caught it halfway, or if it joined without logits. */
    ghost var age: seq<Option<nat>>
    /** Some family hook or allocation has failed. */
    ghost var faulted: bool

    ghost predicate Valid()
      reads this
    {
      Pool(model, bt, nphys, arena, Uses(TablesOf(running))) && Sequences(model, bt, nphys, arena, running, age, Repeat(|running|, Settled))
    }

    /** An arena with every block on the free list, block 0 on top. */
    constructor (bt: nat, nphys: nat, model: Model)
      requires bt > 0 && HasLogits(model)
      ensures Valid() && running == [] && !faulted
      ensures this.bt == bt && this.nphys == nphys && this.model == model
    {
      this.bt, this.nphys, this.model := bt, nphys, model;
      arena := Arena(seq(nphys, i => nphys - 1 - i), seq(nphys, i => 0), map[], seq(nphys, b => seq(bt, s => [])));
      running, age, faulted := [], [], false;
      new;
      forall b | 0 <= b < nphys ensures b in arena.free { assert arena.free[nphys - 1 - b] == b; }
      assert TablesOf(running) == [];
    }

    // ------------------------------------------------ the family's prefix cache

    /** prefix_evict_idle: some idle cached block loses its entry. */
    method PrefixEvictIdle(ghost uses: multiset<Block>) returns (pb: Block)
      requires Pool(model, bt, nphys, arena, uses)
      modifies this`arena
      ensures arena == old(arena).(cached := arena.cached)
      ensures pb < 0 ==> arena.cached == old(arena).cached && forall b :: b in arena.cached && 0 <= b < |arena.refs| ==> arena.refs[b] != 0
      ensures pb >= 0 ==> pb in old(arena).cached && arena.cached == old(arena).cached - {pb}
      ensures pb >= 0 ==> Conserved(nphys, arena.free, arena.refs, arena.cached, uses, {pb})
      ensures CacheSound(model, bt, nphys, arena.cached, arena.data)
    {
      if b :| b in arena.cached && arena.refs[b] == 0 {
        EvictConserves(nphys, arena.free, arena.refs, arena.cached, uses, b);
        arena := arena.(cached := arena.cached - {b});
        return b;
      }
      return -1;
    }

    /** prefix_block_idle: a block nobody holds any more stays cached, or loses its entry. */
    method PrefixBlockIdle(pb: Block) returns (keep: bool)
      modifies this`arena
      ensures arena == old(arena).(cached := arena.cached)
      ensures keep ==> pb in arena.cached && arena.cached == old(arena).cached
      ensures !keep ==> arena.cached == old(arena).cached - {pb}
    {
      keep := *;
      if pb !in arena.cached { keep := false; }
      if !keep { arena := arena.(cached := arena.cached - {pb}); }
    }

    /** One more shared block joins a table. */
    method Share(prompt: seq<Token>, table: seq<Block>, b: Block, ghost others: multiset<Block>) returns (longer: seq<Block>)
      requires Pool(model, bt, nphys, arena, others + multiset(table)) && NoRepeats(table) && InRange(table, nphys)
      requires Reused(bt, arena.cached, table, prompt) && ReusedBlock(bt, arena.cached, b, prompt, |table|)
      modifies this`arena
      ensures arena == old(arena).(refs := arena.refs)
      ensures longer == table + [b] && Pool(model, bt, nphys, arena, others + multiset(longer))
      ensures NoRepeats(longer) && InRange(longer, nphys) && Reused(bt, arena.cached, longer, prompt)
    {
      KeysDiffer(bt, arena.cached, table, prompt, b);
      ShareConserves(nphys, arena.free, arena.refs, arena.cached, others, table, b);
      arena := arena.(refs := arena.refs[b := arena.refs[b] + 1]);
      longer := table + [b];
    }

    /** prefix_lookup: any number of leading full blocks of the prompt that are cached, even all of them. */
    method PrefixLookup(prompt: seq<Token>, ghost others: multiset<Block>) returns (table: seq<Block>)
      requires Pool(model, bt, nphys, arena, others)
      modifies this`arena
      ensures arena == old(arena).(refs := arena.refs)
      ensures Pool(model, bt, nphys, arena, others + multiset(table))
      ensures NoRepeats(table) && InRange(table, nphys) && Reused(bt, arena.cached, table, prompt)
      ensures StartOf(bt, |table|) <= |prompt|
    {
      table := [];
      assert others + multiset(table) == others;
      var stop: bool := *;
      while StartOf(bt, |table| + 1) <= |prompt| && !stop
        invariant arena == old(arena).(refs := arena.refs)
        invariant Pool(model, bt, nphys, arena, others + multiset(table))
        invariant NoRepeats(table) && InRange(table, nphys) && Reused(bt, arena.cached, table, prompt)
        invariant StartOf(bt, |table|) <= |prompt|
        decreases |prompt| - StartOf(bt, |table|), !stop
      {
        var key := prompt[..StartOf(bt, |table| + 1)];
        if b :| b in arena.cached && arena.cached[b] == key {
          table := Share(prompt, table, b, others);
          stop := *;
        } else {
          stop := true;
        }
      }
    }

    // ------------------------------------------------------------- the pool

    /** engine_block_alloc: a block nobody holds, or -1 when every block is referenced. */
    method BlockAlloc(ghost uses: multiset<Block>) returns (pb: Block)
      requires Pool(model, bt, nphys, arena, uses)
      modifies this`arena
      ensures arena == old(arena).(free := arena.free, cached := arena.cached)
      ensures pb < 0 ==> arena.free == old(arena).free && arena.cached == old(arena).cached && Exhausted(arena.free, arena.refs, arena.cached)
      ensures pb >= 0 ==> Conserved(nphys, arena.free, arena.refs, arena.cached, uses, {pb})
      ensures arena.cached == old(arena).cached - {pb} && CacheSound(model, bt, nphys, arena.cached, arena.data)
    {
      if |arena.free| > 0 {
        PopConserves(nphys, arena.free, arena.refs, arena.cached, uses);
        pb := arena.free[|arena.free| - 1];
        assert pb in arena.free && arena.refs[pb] == 0;
        arena := arena.(free := arena.free[..|arena.free| - 1]);
      } else {
        pb := PrefixEvictIdle(uses);
      }
    }

    /** A fresh block joins a table, unless the pool is exhausted. */
    method Extend(table: seq<Block>, ghost others: multiset<Block>) returns (ok: bool, longer: seq<Block>)
      requires Pool(model, bt, nphys, arena, others + multiset(table)) && NoRepeats(table) && InRange(table, nphys)
      modifies this`arena
      ensures arena.data == old(arena).data
      ensures Pool(model, bt, nphys, arena, others + multiset(longer)) && NoRepeats(longer) && InRange(longer, nphys)
      ensures arena.cached.Keys <= old(arena).cached.Keys
      ensures ok ==> |longer| == |table| + 1 && longer == table + [longer[|table|]]
      ensures ok ==> longer[|table|] !in arena.cached && longer[|table|] !in others
      ensures !ok ==> longer == table && Exhausted(arena.free, arena.refs, arena.cached)
    {
      var pb := BlockAlloc(others + multiset(table));
      if pb < 0 { return false, table; }
      AssignConserves(nphys, arena.free, arena.refs, arena.cached, others, table, pb);
      arena := arena.(refs := arena.refs[pb := arena.refs[pb] + 1]);
      return true, table + [pb];
    }

    /** engine_seq_ensure_block: fresh blocks until the table covers logical block `lb`. */
    method EnsureBlock(table: seq<Block>, cap: nat, lb: nat, ghost others: multiset<Block>) returns (ok: bool, longer: seq<Block>)
      requires Pool(model, bt, nphys, arena, others + multiset(table)) && NoRepeats(table) && InRange(table, nphys)
      requires lb < cap && |table| <= cap
      modifies this`arena
      ensures arena.data == old(arena).data
      ensures Pool(model, bt, nphys, arena, others + multiset(longer)) && NoRepeats(longer) && InRange(longer, nphys)
      ensures table <= longer && |longer| <= cap && arena.cached.Keys <= old(arena).cached.Keys
      ensures forall j :: |table| <= j < |longer| ==> longer[j] !in arena.cached && longer[j] !in others
      ensures ok ==> lb < |longer|
      ensures !ok ==> |longer| <= lb && Exhausted(arena.free, arena.refs, arena.cached)
    {
      ok, longer := true, table;
      while |longer| <= lb && ok
        invariant arena.data == old(arena).data
        invariant Pool(model, bt, nphys, arena, others + multiset(longer)) && NoRepeats(longer) && InRange(longer, nphys)
        invariant table <= longer && |longer| <= cap && arena.cached.Keys <= old(arena).cached.Keys
        invariant forall j :: |table| <= j < |longer| ==> longer[j] !in arena.cached && longer[j] !in others
        invariant !ok ==> |longer| <= lb && Exhausted(arena.free, arena.refs, arena.cached)
        decreases lb - |longer|, ok
      {
        if |longer| >= cap { return false, longer; }
        ok, longer := Extend(longer, others);
      }
    }

    /** engine_seq_release: every reference of the table is dropped exactly once. */
    method SeqRelease(table: seq<Block>, ghost others: multiset<Block>)
      requires Pool(model, bt, nphys, arena, others + multiset(table))
      modifies this`arena
      ensures arena.data == old(arena).data
      ensures Pool(model, bt, nphys, arena, others) && arena.cached.Keys <= old(arena).cached.Keys
    {
      assert table[0..] == table;
      for b := 0 to |table|
        invariant arena.data == old(arena).data
        invariant Pool(model, bt, nphys, arena, others + multiset(table[b..])) && arena.cached.Keys <= old(arena).cached.Keys
      {
        Drop(table[b..], others);
        assert table[b..][1..] == table[b + 1..];
      }
      assert others + multiset(table[|table|..]) == others;
    }

    /** The first reference of `table` is dropped. */
    method Drop(table: seq<Block>, ghost others: multiset<Block>)
      requires Pool(model, bt, nphys, arena, others + multiset(table)) && table != []
      modifies this`arena
      ensures arena.data == old(arena).data
      ensures Pool(model, bt, nphys, arena, others + multiset(table[1..])) && arena.cached.Keys <= old(arena).cached.Keys
    {
      var pb := table[0];
      DropConserves(nphys, arena.free, arena.refs, arena.cached, others, table);
      arena := arena.(refs := arena.refs[pb := arena.refs[pb] - 1]);
      if arena.refs[pb] == 0 {
        var keep := PrefixBlockIdle(pb);
        if !keep { arena := arena.(free := arena.free + [pb]); }
      }
    }

    /** One entry is stored; the block is cached nowhere and no other table holds it. */
    method StoreKv(b: Block, slot: nat, x: Kv, ghost uses: multiset<Block>, ghost others: multiset<Block>)
      requires Pool(model, bt, nphys, arena, uses) && 0 <= b < nphys && slot < bt && b !in arena.cached && b !in others
      modifies this`arena
      ensures arena == old(arena).(data := old(arena).data[b := old(arena).data[b][slot := x]])
      ensures Pool(model, bt, nphys, arena, uses)
    {
      CacheUntouched(model, bt, nphys, arena.cached, arena.data, b, arena.data[b][slot := x]);
      arena := arena.(data := arena.data[b := arena.data[b][slot := x]]);
    }

    // ------------------------------------------------------------- admission

    /** Room for one more prompt position. */
    method PrefillBlock(prompt: seq<Token>, table: seq<Block>, cap: nat, i: nat, reuse: nat, ghost others: multiset<Block>)
      returns (ok: bool, longer: seq<Block>)
      requires Prefilling(model, bt, nphys, arena, prompt, table, cap, i, reuse, others) && BlockOf(bt, i) < cap
      modifies this`arena
      ensures Pool(model, bt, nphys, arena, others + multiset(longer))
      ensures Undisturbed(others, old(arena).cached, old(arena).data, arena.cached, arena.data)
      ensures ok ==> Prefilling(model, bt, nphys, arena, prompt, longer, cap, i, reuse, others) && BlockOf(bt, i) < |longer|
      ensures !ok ==> nphys <= |LiveSet(others)| + BlockOf(bt, i)
    {
      ok, longer := EnsureBlock(table, cap, BlockOf(bt, i), others);
      if !ok { ExhaustedNeeds(nphys, arena.free, arena.refs, arena.cached, others, longer); }
      ViewGrows(bt, nphys, arena.data, table, longer, i);
    }

    /** prefill_token for position `i`. */
    method PrefillToken(prompt: seq<Token>, table: seq<Block>, cap: nat, i: nat, reuse: nat, ghost others: multiset<Block>)
      returns (logits: seq<real>)
      requires Prefilling(model, bt, nphys, arena, prompt, table, cap, i, reuse, others) && i < |prompt| && BlockOf(bt, i) < |table|
      modifies this`arena
      ensures Prefilling(model, bt, nphys, arena, prompt, table, cap, i + 1, reuse, others)
      ensures Undisturbed(others, old(arena).cached, old(arena).data, arena.cached, arena.data)
      ensures logits == model.logits(Kvs(model, prompt[..i + 1]))
    {
      PrefillBlockIsOwn(model, bt, nphys, arena, prompt, table, cap, i, reuse, others);
      PrefillView(model, bt, nphys, arena.data, table, prompt, i);
      var x := model.kv(View(bt, nphys, arena.data, table, i), prompt[i]);
      StoreKv(table[BlockOf(bt, i)], SlotOf(bt, i), x, others + multiset(table), others);
      logits := model.logits(View(bt, nphys, arena.data, table, i + 1));
    }

    /** A prefill fault may leave a torn entry behind, in the new sequence's own block. */
    method PrefillFault(prompt: seq<Token>, table: seq<Block>, cap: nat, i: nat, reuse: nat, ghost others: multiset<Block>)
      requires Prefilling(model, bt, nphys, arena, prompt, table, cap, i, reuse, others) && i < |prompt| && BlockOf(bt, i) < |table|
      modifies this`arena
      ensures Pool(model, bt, nphys, arena, others + multiset(table))
      ensures Undisturbed(others, old(arena).cached, old(arena).data, arena.cached, arena.data)
    {
      PrefillBlockIsOwn(model, bt, nphys, arena, prompt, table, cap, i, reuse, others);
      var torn: Kv := *;
      StoreKv(table[BlockOf(bt, i)], SlotOf(bt, i), torn, others + multiset(table), others);
    }

    /** Position `i` is prefilled, unless the pool is exhausted or the family faults; only the last one writes logits. */
    method PrefillOne(req: Request, table: seq<Block>, i: nat, reuse: nat, before: seq<real>, ghost others: multiset<Block>)
      returns (ok: bool, longer: seq<Block>, logits: seq<real>)
      requires bt > 0 && i < |req.prompt|
      requires Prefilling(model, bt, nphys, arena, req.prompt, table, BlocksCap(bt, req), i, reuse, others)
      modifies this`arena, this`faulted
      ensures Pool(model, bt, nphys, arena, others + multiset(longer))
      ensures Undisturbed(others, old(arena).cached, old(arena).data, arena.cached, arena.data)
      ensures old(faulted) ==> faulted
      ensures !ok ==> faulted || nphys <= |LiveSet(others)| + BlockOf(bt, |req.prompt| - 1)
      ensures ok ==> Prefilling(model, bt, nphys, arena, req.prompt, longer, BlocksCap(bt, req), i + 1, reuse, others)
      ensures ok ==> logits == if i == |req.prompt| - 1 then model.logits(Kvs(model, req.prompt)) else before
    {
      var cap := BlocksCap(bt, req);
      CapCovers(bt, req, i);
      BlockMonotone(bt, i, |req.prompt| - 1);
      logits := before;
      ok, longer := PrefillBlock(req.prompt, table, cap, i, reuse, others);
      if !ok { return; }
      ok := *;
      faulted := faulted || !ok;
      if ok {
        var computed := PrefillToken(req.prompt, longer, cap, i, reuse, others);
        if i == |req.prompt| - 1 {
          assert req.prompt[..i + 1] == req.prompt;
          logits := computed;
        }
      } else {
        PrefillFault(req.prompt, longer, cap, i, reuse, others);
      }
    }

    /** Suffix-only prefill after the reused blocks; the last token writes the logits, which start out as `stale`.
        They become the prompt's exactly when the lookup left a token to compute. */
    method Prefill(req: Request, table: seq<Block>, stale: seq<real>, ghost others: multiset<Block>)
      returns (ok: bool, longer: seq<Block>, logits: seq<real>)
      requires bt > 0 && req.prompt != []
      requires Prefilling(model, bt, nphys, arena, req.prompt, table, BlocksCap(bt, req), StartOf(bt, |table|), |table|, others)
      modifies this`arena, this`faulted
      ensures Pool(model, bt, nphys, arena, others + multiset(longer))
      ensures Undisturbed(others, old(arena).cached, old(arena).data, arena.cached, arena.data)
      ensures old(faulted) ==> faulted
      ensures !ok ==> faulted || nphys <= |LiveSet(others)| + BlockOf(bt, |req.prompt| - 1)
      ensures ok ==> Prefilling(model, bt, nphys, arena, req.prompt, longer, BlocksCap(bt, req), |req.prompt|, |table|, others)
      ensures ok ==> logits == if StartOf(bt, |table|) < |req.prompt| then model.logits(Kvs(model, req.prompt)) else stale
    {
      longer, logits := table, stale;
      for i := StartOf(bt, |table|) to |req.prompt|
        invariant Prefilling(model, bt, nphys, arena, req.prompt, longer, BlocksCap(bt, req), i, |table|, others)
        invariant Undisturbed(others, old(arena).cached, old(arena).data, arena.cached, arena.data)
        invariant old(faulted) ==> faulted
        invariant logits == if StartOf(bt, |table|) < |req.prompt| == i then model.logits(Kvs(model, req.prompt)) else stale
      {
        ok, longer, logits := PrefillOne(req, longer, i, |table|, logits, others);
        if !ok { return; }
      }
      ok := true;
    }

    /** One full block becomes a cache entry. */
    method RegisterBlock(prompt: seq<Token>, table: seq<Block>, cap: nat, j: nat, ghost others: multiset<Block>)
      requires Prefilling(model, bt, nphys, arena, prompt, table, cap, |prompt|, j, others) && j < |table|
      requires StartOf(bt, j + 1) <= |prompt| && BlockHolds(model, bt, arena.data[table[j]], prompt[..StartOf(bt, j + 1)])
      modifies this`arena
      ensures Prefilling(model, bt, nphys, arena, prompt, table, cap, |prompt|, j + 1, others)
      ensures Undisturbed(others, old(arena).cached, old(arena).data, arena.cached, arena.data)
    {
      var b, key := table[j], prompt[..StartOf(bt, j + 1)];
      assert b in multiset(table);
      RegisterConserves(nphys, arena.free, arena.refs, arena.cached, others + multiset(table), b, key);
      arena := arena.(cached := arena.cached[b := key]);
    }

    /** First writer wins: a key that is cached already is left alone, and so is any other the family passes over. */
    method RegisterOrSkip(prompt: seq<Token>, table: seq<Block>, cap: nat, j: nat, ghost others: multiset<Block>)
      requires Prefilling(model, bt, nphys, arena, prompt, table, cap, |prompt|, j, others) && StartOf(bt, j + 1) <= |prompt|
      modifies this`arena
      ensures Prefilling(model, bt, nphys, arena, prompt, table, cap, |prompt|, j + 1, others)
      ensures Undisturbed(others, old(arena).cached, old(arena).data, arena.cached, arena.data)
    {
      assert prompt[..|prompt|] == prompt;
      FullBlockHolds(model, bt, nphys, arena.data, table, prompt, j);
      var wanted: bool := *;
      if wanted && !(exists b | b in arena.cached :: arena.cached[b] == prompt[..StartOf(bt, j + 1)]) {
        RegisterBlock(prompt, table, cap, j, others);
      }
    }

    /** prefix_register: any of the newly written full blocks, never the partial last one. */
    method PrefixRegister(prompt: seq<Token>, table: seq<Block>, cap: nat, reuse: nat, ghost others: multiset<Block>)
      requires bt > 0 && Prefilling(model, bt, nphys, arena, prompt, table, cap, |prompt|, reuse, others)
      modifies this`arena
      ensures Prefilling(model, bt, nphys, arena, prompt, table, cap, |prompt|, BlockOf(bt, |prompt|), others)
      ensures Undisturbed(others, old(arena).cached, old(arena).data, arena.cached, arena.data)
    {
      var j := reuse;
      while StartOf(bt, j + 1) <= |prompt|
        invariant Prefilling(model, bt, nphys, arena, prompt, table, cap, |prompt|, j, others)
        invariant Undisturbed(others, old(arena).cached, old(arena).data, arena.cached, arena.data)
        decreases |prompt| - StartOf(bt, j)
      {
        RegisterOrSkip(prompt, table, cap, j, others);
        j := j + 1;
      }
      PlaceOf(bt, j, |prompt| - StartOf(bt, j));
    }

    /** A prefilled sequence joins the running set. */
    method Join(st: Sequence, ghost tracked: bool)
      requires Pool(model, bt, nphys, arena, Uses(TablesOf(running)) + multiset(st.table))
      requires Sequences(model, bt, nphys, arena, running, age, Repeat(|running|, Settled))
      requires Structured(bt, nphys, arena.cached, st) && (tracked ==> Faithful(model, bt, nphys, arena.data, st, 0))
      modifies this`running, this`age
      ensures Valid() && running == old(running) + [st] && age == old(age) + [if tracked then Some(0) else None]
    {
      ghost var start := if tracked then Some(0) else None;
      UsesOfAppend(running, st);
      AllOkJoin(model, bt, nphys, arena.cached, arena.data, running, age, st, start);
      running, age := running + [st], age + [start];
    }

    /** A sequence that is not joined gives all its blocks back. */
    method Abandon(table: seq<Block>)
      requires Pool(model, bt, nphys, arena, Uses(TablesOf(running)) + multiset(table))
      requires Sequences(model, bt, nphys, arena, running, age, Repeat(|running|, Settled))
      modifies this`arena
      ensures Valid()
    {
      SeqRelease(table, Uses(TablesOf(running)));
      AllOkFramed(model, bt, nphys, old(arena).cached, arena.data, arena.cached, arena.data, running, age, Repeat(|running|, Settled));
    }

    /** Reuse what the prefix cache offers. */
    method Lookup(req: Request, ghost others: multiset<Block>) returns (table: seq<Block>)
      requires Pool(model, bt, nphys, arena, others) && bt > 0 && req.prompt != []
      modifies this`arena
      ensures arena == old(arena).(refs := arena.refs) && Reused(bt, arena.cached, table, req.prompt)
      ensures Prefilling(model, bt, nphys, arena, req.prompt, table, BlocksCap(bt, req), StartOf(bt, |table|), |table|, others)
    {
      table := PrefixLookup(req.prompt, others);
      ReusedCovers(bt, table);
      ReusedView(model, bt, nphys, arena.cached, arena.data, table, req.prompt, StartOf(bt, |table|));
      PlaceOf(bt, |table|, 0);
      CapCovers(bt, req, StartOf(bt, |table|));
    }

    /** The whole prompt in the cache, partly reused, partly computed. */
    method FillPrompt(req: Request, stale: seq<real>, ghost others: multiset<Block>)
      returns (ok: bool, reuse: nat, table: seq<Block>, logits: seq<real>)
      requires Pool(model, bt, nphys, arena, others) && bt > 0 && req.prompt != []
      modifies this`arena, this`faulted
      ensures Pool(model, bt, nphys, arena, others + multiset(table))
      ensures Undisturbed(others, old(arena).cached, old(arena).data, arena.cached, arena.data)
      ensures old(faulted) ==> faulted
      ensures !ok ==> faulted || nphys <= |LiveSet(others)| + BlockOf(bt, |req.prompt| - 1)
      ensures ok ==> Prefilling(model, bt, nphys, arena, req.prompt, table, BlocksCap(bt, req), |req.prompt|, BlockOf(bt, |req.prompt|), others)
      ensures ok ==> logits == if StartOf(bt, reuse) < |req.prompt| then model.logits(Kvs(model, req.prompt)) else stale
      ensures StartOf(bt, reuse) < |req.prompt| || WholeCached(bt, old(arena).cached, req.prompt)
    {
      var reused := Lookup(req, others);
      reuse := |reused|;
      if StartOf(bt, reuse) >= |req.prompt| { ReusedWhole(bt, arena.cached, reused, req.prompt); }
      ok, table, logits := Prefill(req, reused, stale, others);
      if ok { PrefixRegister(req.prompt, table, BlocksCap(bt, req), |reused|, others); }
    }

    /** The new sequence with its prompt prefilled, or nothing changes. */
    method StartSequence(sid: nat, req: Request, stale: seq<real>) returns (ok: bool, st: Sequence)
      requires Valid() && bt > 0 && |stale| > 0
      modifies this`arena, this`faulted, this`lastReuse
      ensures Sequences(model, bt, nphys, arena, running, age, Repeat(|running|, Settled))
      ensures Pool(model, bt, nphys, arena, if ok then Uses(TablesOf(running)) + multiset(st.table) else Uses(TablesOf(running)))
      ensures old(faulted) ==> faulted
      ensures !ok ==> faulted || (req.prompt != [] && nphys <= |LiveSet(Uses(TablesOf(running)))| + BlockOf(bt, |req.prompt| - 1))
      ensures ok ==> st.sid == sid && st.req == req && Structured(bt, nphys, arena.cached, st)
      ensures ok && (req.prompt == [] || StartOf(bt, lastReuse) < |req.prompt|) ==> Faithful(model, bt, nphys, arena.data, st, 0)
      ensures ok && req.prompt != [] ==>
                st.logits == if StartOf(bt, lastReuse) < |req.prompt| then model.logits(Kvs(model, req.prompt)) else stale
      ensures ok && !WholeCached(bt, old(arena).cached, req.prompt) ==> req.prompt == [] || StartOf(bt, lastReuse) < |req.prompt|
    {
      if req.prompt == [] {
        st := Started(bt, sid, req, [], []);
        assert Uses(TablesOf(running)) + multiset(st.table) == Uses(TablesOf(running));
        lastReuse := 0;
        return true, st;
      }
      var reuse, table, logits;
      ok, reuse, table, logits := FillPrompt(req, stale, Uses(TablesOf(running)));
      AllOkFramed(model, bt, nphys, old(arena).cached, old(arena).data, arena.cached, arena.data, running, age, Repeat(|running|, Settled));
      st := Started(bt, sid, req, table, logits);
      if !ok {
        Abandon(table);
        return;
      }
      lastReuse := reuse;
      JoinsFaithfully(model, bt, nphys, arena, sid, req, table, logits, Uses(TablesOf(running)));
    }

    /** axiom_engine_admit: a sequence joins, or nothing changes.  It joins at the start of its solo run when the
        lookup left a token to compute; otherwise it starts from what its new logits buffer held, `stale`. */
    method Admit(sid: nat, prompt: seq<Token>, sampling: Sampling, seed: nat, maxNew: int, outCap: int, useEos: bool, stale: seq<real>)
      returns (ok: bool)
      requires Valid() && bt > 0 && |stale| > 0
      modifies this
      ensures Valid()
      ensures !ok ==> running == old(running) && age == old(age)
      ensures !ok ==> faulted || (prompt != [] && nphys <= |LiveSet(Uses(TablesOf(running)))| + BlockOf(bt, |prompt| - 1))
      ensures ok ==> |running| == |old(running)| + 1 && running[..|old(running)|] == old(running)
      ensures ok ==> age == old(age) + [if prompt == [] || StartOf(bt, lastReuse) < |prompt| then Some(0) else None]
      ensures ok && prompt != [] ==>
                running[|old(running)|].logits == if StartOf(bt, lastReuse) < |prompt| then model.logits(Kvs(model, prompt)) else stale
      ensures ok && !WholeCached(bt, old(arena).cached, prompt) ==> prompt == [] || StartOf(bt, lastReuse) < |prompt|
      ensures ok ==> var st := running[|old(running)|];
                     st.sid == sid && st.req == Request(prompt, sampling, seed, if maxNew < 0 then 0 else maxNew, outCap, useEos)
    {
      var req := Request(prompt, sampling, seed, if maxNew < 0 then 0 else maxNew, outCap, useEos);
      var st;
      ok, st := StartSequence(sid, req, stale);
      if !ok { return; }
      ok := *;
      faulted := faulted || !ok;
      if ok { Join(st, prompt == [] || StartOf(bt, lastReuse) < |prompt|); } else { Abandon(st.table); }
    }

    // ------------------------------------------------------------------- step

    /** One sequence picks its next token. */
    method Select(st: Sequence) returns (r: Sequence)
      requires st.done || |st.logits| > 0
      ensures r == Choice(model, st)
    {
      r := st;
      if st.done { return; }
      if |st.out| >= st.req.outCap { return st.(done := true); }
      var best, rng := 0, st.rng;
      if st.req.sampling.temperature > 0.0 {
        var (t, next) := model.sample(st.logits, st.req.sampling, st.rng);
        best, rng := t, next;
      } else {
        best := FindArgMax(st.logits);
      }
      r := st.(out := st.out + [best], rng := rng);
      var isEos := false;
      if st.req.useEos {
        for k := 0 to |model.eos|
          invariant isEos == (best in model.eos[..k])
        {
          if best == model.eos[k] { isEos := true; }
        }
        assert model.eos[..|model.eos|] == model.eos;
      }
      if isEos || |r.out| >= st.req.maxNew { return r.(done := true); }
      r := r.(next := best);
    }

    /** Every sequence picks; those that go on are the active ones, in admission order. */
    method ChooseAll() returns (active: seq<nat>)
      requires forall i :: 0 <= i < |running| ==> running[i].done || |running[i].logits| > 0
      modifies this`running
      ensures |running| == |old(running)| && forall i :: 0 <= i < |running| ==> running[i] == Choice(model, old(running)[i])
      ensures forall i :: i in active <==> 0 <= i < |running| && !running[i].done
      ensures forall a, b :: 0 <= a < b < |active| ==> active[a] < active[b]
    {
      active := [];
      ghost var before := running;
      for i := 0 to |running|
        invariant |running| == |before|
        invariant forall j :: 0 <= j < i ==> running[j] == Choice(model, before[j])
        invariant forall j :: i <= j < |running| ==> running[j] == before[j]
        invariant forall j :: j in active <==> 0 <= j < i && !running[j].done
        invariant forall a :: 0 <= a < |active| ==> active[a] < i
        invariant forall a, b :: 0 <= a < b < |active| ==> active[a] < active[b]
      {
        var r := Select(running[i]);
        running := running[i := r];
        if !r.done { active := active + [i]; }
      }
    }

    method SelectAll() returns (active: seq<nat>)
      requires Valid()
      modifies this`running
      ensures |running| == |old(running)| && forall i :: 0 <= i < |running| ==> running[i] == Choice(model, old(running)[i])
      ensures Pool(model, bt, nphys, arena, Uses(TablesOf(running))) && Sequences(model, bt, nphys, arena, running, age, Repeat(|running|, Chosen))
      ensures forall i :: i in active <==> 0 <= i < |running| && !running[i].done
      ensures forall a, b :: 0 <= a < b < |active| ==> active[a] < active[b]
    {
      active := ChooseAll();
      AllChosen(model, bt, nphys, arena.cached, arena.data, old(running), running, age);
    }

    /** The blocks of one active sequence reach its write position. */
    method GrowOne(i: nat) returns (ok: bool)
      requires Pool(model, bt, nphys, arena, Uses(TablesOf(running))) && i < |running| && Fits(bt, nphys, running[i])
      modifies this`arena, this`running
      ensures arena.data == old(arena).data
      ensures Pool(model, bt, nphys, arena, Uses(TablesOf(running))) && arena.cached.Keys <= old(arena).cached.Keys
      ensures |running| == |old(running)| && running == old(running)[i := running[i]]
      ensures Grown(bt, nphys, arena.cached, old(running)[i], running[i])
      ensures ok ==> BlockOf(bt, running[i].pos) < |running[i].table|
      ensures !ok ==> Exhausted(arena.free, arena.refs, arena.cached)
    {
      var st := running[i];
      UsesOfUpdate(running, i, st);
      CapCovers(bt, st.req, st.pos);
      var longer;
      ok, longer := EnsureBlock(st.table, st.cap, BlockOf(bt, st.pos), Uses(TablesOf(running[..i] + running[i + 1..])));
      UsesOfUpdate(running, i, st.(table := longer));
      running := running[i := st.(table := longer)];
    }

    /** Every active sequence's table covers its write position, or the pool is exhausted. */
    method GrowAll(active: seq<nat>) returns (ok: bool)
      requires Pool(model, bt, nphys, arena, Uses(TablesOf(running))) && AllGrown(bt, nphys, arena.cached, running, running)
      requires forall i :: i in active ==> i < |running|
      modifies this`arena, this`running
      ensures arena.data == old(arena).data
      ensures Pool(model, bt, nphys, arena, Uses(TablesOf(running))) && arena.cached.Keys <= old(arena).cached.Keys
      ensures AllGrown(bt, nphys, arena.cached, old(running), running)
      ensures ok ==> Covering(bt, running, active, |active|)
      ensures !ok ==> Exhausted(arena.free, arena.refs, arena.cached)
    {
      for a := 0 to |active|
        invariant Pool(model, bt, nphys, arena, Uses(TablesOf(running))) && arena.cached.Keys <= old(arena).cached.Keys
        invariant AllGrown(bt, nphys, arena.cached, old(running), running) && arena.data == old(arena).data
        invariant Covering(bt, running, active, a)
      {
        assert active[a] in active;
        ghost var before, was := running, arena.cached;
        assert Grown(bt, nphys, arena.cached, old(running)[active[a]], running[active[a]]);
        ok := GrowOne(active[a]);
        GrownStep(bt, nphys, was, arena.cached, old(running), before, active[a], running[active[a]]);
        if !ok { return; }
        CoveringStep(bt, before, active, a, running[active[a]]);
      }
      ok := true;
    }

    /** Something is stored at the write position of sequence `i`. */
    method StoreNext(i: nat, x: Kv)
      requires Pool(model, bt, nphys, arena, Uses(TablesOf(running))) && i < |running|
      requires Structured(bt, nphys, arena.cached, running[i]) && BlockOf(bt, running[i].pos) < |running[i].table|
      modifies this`arena
      ensures Pool(model, bt, nphys, old(arena), Uses(TablesOf(running))) && Sized(bt, nphys, old(arena).data)
      ensures InRange(running[i].table, nphys) && arena == Stored(bt, old(arena), running[i], x)
      ensures Pool(model, bt, nphys, arena, Uses(TablesOf(running)))
    {
      var st := running[i];
      WriteTargetIsPrivate(bt, nphys, arena, running, i);
      StoreKv(st.table[BlockOf(bt, st.pos)], SlotOf(bt, st.pos), x,
              Uses(TablesOf(running)), Uses(TablesOf(running[..i] + running[i + 1..])));
    }

    /** forward_step for one active sequence: its next entry, in a block it alone holds, and its next logits. */
    method ForwardOne(i: nat, ghost stages: seq<Stage>)
      requires Pool(model, bt, nphys, arena, Uses(TablesOf(running)))
      requires Sequences(model, bt, nphys, arena, running, age, stages)
      requires i < |running| && stages[i] == Chosen && !running[i].done && BlockOf(bt, running[i].pos) < |running[i].table|
      modifies this`arena, this`running
      ensures Pool(model, bt, nphys, arena, Uses(TablesOf(running)))
      ensures Sequences(model, bt, nphys, arena, running, age, stages[i := Forwarded])
      ensures |running| == |old(running)| && running == old(running)[i := old(running)[i].(logits := running[i].logits)]
    {
      var st := running[i];
      var x := model.kv(View(bt, nphys, arena.data, st.table, st.pos), st.next);
      StoreNext(i, x);
      st := st.(logits := model.logits(View(bt, nphys, arena.data, st.table, st.pos + 1)));
      SameTables(running, i, st);
      ForwardKeepsSequences(model, bt, nphys, old(arena), running, age, stages, i, st);
      running := running[i := st];
    }

    /** forward_step: one batched forward over the active sequences. */
    method ForwardAll(active: seq<nat>) returns (ghost stages: seq<Stage>)
      requires Pool(model, bt, nphys, arena, Uses(TablesOf(running)))
      requires Sequences(model, bt, nphys, arena, running, age, Repeat(|running|, Chosen))
      requires Increasing(active) && Covering(bt, running, active, |active|)
      requires forall c :: 0 <= c < |active| ==> active[c] < |running| && !running[active[c]].done
      modifies this`arena, this`running
      ensures Pool(model, bt, nphys, arena, Uses(TablesOf(running)))
      ensures Sequences(model, bt, nphys, arena, running, age, stages) && StagesAfter(stages, active, |active|) && Unsettled(stages)
      ensures OnlyLogits(old(running), running)
    {
      stages := Repeat(|running|, Chosen);
      for a := 0 to |active|
        invariant Pool(model, bt, nphys, arena, Uses(TablesOf(running)))
        invariant Sequences(model, bt, nphys, arena, running, age, stages) && StagesAfter(stages, active, a) && Unsettled(stages)
        invariant OnlyLogits(old(running), running)
      {
        ghost var before := running;
        StagesStep(stages, active, a);
        ForwardOne(active[a], stages);
        OnlyLogitsStep(old(running), before, running, active[a]);
        stages := stages[active[a] := Forwarded];
      }
    }

    /** A failed forward pass: write positions of active sequences hold anything. */
    method TearAll(active: seq<nat>)
      requires Pool(model, bt, nphys, arena, Uses(TablesOf(running)))
      requires Sequences(model, bt, nphys, arena, running, age, Repeat(|running|, Chosen))
      requires Covering(bt, running, active, |active|)
      requires forall c :: 0 <= c < |active| ==> active[c] < |running| && !running[active[c]].done
      modifies this`arena, this`age
      ensures Pool(model, bt, nphys, arena, Uses(TablesOf(running)))
      ensures Sequences(model, bt, nphys, arena, running, age, Repeat(|running|, Chosen))
      ensures |age| == |old(age)| && forall i :: 0 <= i < |age| ==> age[i] == old(age)[i] || (age[i].None? && !running[i].done)
    {
      for a := 0 to |active|
        invariant Pool(model, bt, nphys, arena, Uses(TablesOf(running)))
        invariant Sequences(model, bt, nphys, arena, running, age, Repeat(|running|, Chosen))
        invariant |age| == |old(age)| && forall i :: 0 <= i < |age| ==> age[i] == old(age)[i] || (age[i].None? && !running[i].done)
      {
        TearOne(active[a]);
      }
    }

    method TearOne(i: nat)
      requires Pool(model, bt, nphys, arena, Uses(TablesOf(running)))
      requires Sequences(model, bt, nphys, arena, running, age, Repeat(|running|, Chosen))
      requires i < |running| && BlockOf(bt, running[i].pos) < |running[i].table|
      modifies this`arena, this`age
      ensures Pool(model, bt, nphys, arena, Uses(TablesOf(running)))
      ensures Sequences(model, bt, nphys, arena, running, age, Repeat(|running|, Chosen))
      ensures age == old(age)[i := None]
    {
      var torn: Kv := *;
      StoreNext(i, torn);
      TearKeepsSequences(model, bt, nphys, old(arena), running, age, Repeat(|running|, Chosen), i, torn);
      age := age[i := None];
    }

    /** The position of every active sequence advances. */
    method AdvanceAll(active: seq<nat>)
      requires Increasing(active) && forall i :: i in active <==> 0 <= i < |running| && !running[i].done
      modifies this`running
      ensures |running| == |old(running)| && forall i :: 0 <= i < |running| ==> running[i] == Advanced(old(running)[i])
    {
      for a := 0 to |active|
        invariant |running| == |old(running)|
        invariant forall i :: 0 <= i < |running| ==>
                    running[i] == if i in active[..a] then Advanced(old(running)[i]) else old(running)[i]
      {
        var i := active[a];
        assert i in active && i !in active[..a];
        running := running[i := running[i].(pos := running[i].pos + 1)];
      }
      assert active[..|active|] == active;
    }

    /** The step is given up: sequences that stopped are settled, the others lose track. */
    ghost method GiveUp(ages: seq<Option<nat>>)
      requires Pool(model, bt, nphys, arena, Uses(TablesOf(running)))
      requires Sequences(model, bt, nphys, arena, running, age, Repeat(|running|, Chosen))
      requires |ages| == |age| && forall i :: 0 <= i < |age| ==> age[i] == ages[i] || (age[i].None? && !running[i].done)
      modifies this`age
      ensures Valid() && |age| == |ages|
      ensures forall i :: 0 <= i < |age| ==> age[i] == Aged(ages[i], !running[i].done)
    {
      FailureSettles(model, bt, nphys, arena, running, age, AgedAll(age, running, true), Repeat(|running|, Chosen));
      age := AgedAll(age, running, true);
    }

    /** Forward and advance: every tracked sequence takes one solo step. */
    method Decode(active: seq<nat>)
      requires Pool(model, bt, nphys, arena, Uses(TablesOf(running)))
      requires Sequences(model, bt, nphys, arena, running, age, Repeat(|running|, Chosen))
      requires Increasing(active) && Covering(bt, running, active, |active|)
      requires forall i :: i in active <==> 0 <= i < |running| && !running[i].done
      requires forall i :: 0 <= i < |running| ==> Picked(running[i])
      modifies this`arena, this`running, this`age
      ensures Valid() && |running| == |old(running)| && |age| == |old(age)|
      ensures forall i :: 0 <= i < |running| ==> running[i].sid == old(running)[i].sid && running[i].req == old(running)[i].req
      ensures forall i :: 0 <= i < |age| ==> age[i] == Aged(old(age)[i], false)
    {
      forall c | 0 <= c < |active| ensures active[c] < |running| && !running[active[c]].done { assert active[c] in active; }
      ghost var stages := ForwardAll(active);
      ghost var forwarded := running;
      forall i | 0 <= i < |running| && !running[i].done
        ensures stages[i] == Forwarded && BlockOf(bt, running[i].pos) < |running[i].table|
      {
        assert !old(running)[i].done && i in active;
        var c :| 0 <= c < |active| && active[c] == i;
      }
      AdvanceAll(active);
      StepSettles(model, bt, nphys, arena, forwarded, running, age, AgedAll(age, running, false), stages);
      age := AgedAll(age, running, false);
    }

    /** A block under every write position. */
    method Cover(active: seq<nat>) returns (ok: bool)
      requires Pool(model, bt, nphys, arena, Uses(TablesOf(running)))
      requires Sequences(model, bt, nphys, arena, running, age, Repeat(|running|, Chosen))
      requires forall i :: i in active ==> i < |running|
      modifies this`arena, this`running
      ensures Pool(model, bt, nphys, arena, Uses(TablesOf(running)))
      ensures Sequences(model, bt, nphys, arena, running, age, Repeat(|running|, Chosen))
      ensures |running| == |old(running)|
      ensures forall i :: 0 <= i < |running| ==> running[i] == old(running)[i].(table := running[i].table)
      ensures ok ==> Covering(bt, running, active, |active|)
      ensures !ok ==> Exhausted(arena.free, arena.refs, arena.cached)
    {
      AllFit(model, bt, nphys, arena, running, age, Repeat(|running|, Chosen));
      ok := GrowAll(active);
      GrownOk(model, bt, nphys, old(arena).cached, arena.cached, arena.data, old(running), running, age);
      forall i | 0 <= i < |running| ensures running[i] == old(running)[i].(table := running[i].table) {
        assert Grown(bt, nphys, arena.cached, old(running)[i], running[i]);
      }
    }

    /** Selection, and a block under every write position. */
    method Prepare() returns (ok: bool, active: seq<nat>)
      requires Valid()
      modifies this`arena, this`running
      ensures Pool(model, bt, nphys, arena, Uses(TablesOf(running)))
      ensures Sequences(model, bt, nphys, arena, running, age, Repeat(|running|, Chosen))
      ensures |running| == |old(running)|
      ensures forall i :: 0 <= i < |running| ==> running[i] == Choice(model, old(running)[i]).(table := running[i].table)
      ensures Increasing(active) && forall i :: i in active <==> 0 <= i < |running| && !running[i].done
      ensures ok ==> Covering(bt, running, active, |active|)
      ensures !ok ==> Exhausted(arena.free, arena.refs, arena.cached)
    {
      active := SelectAll();
      ok := Cover(active);
    }

    lemma ChosenPicked(before: seq<Sequence>)
      requires |running| == |before|
      requires forall i :: 0 <= i < |before| ==>
                 (before[i].done || |before[i].logits| > 0) && before[i].pos <= |before[i].req.prompt| + |before[i].out|
      requires forall i :: 0 <= i < |running| ==> running[i] == Choice(model, before[i]).(table := running[i].table)
      ensures forall i :: 0 <= i < |running| ==>
                Picked(running[i]) && running[i].sid == before[i].sid && running[i].req == before[i].req
    {
    }

    /** A failed forward pass: sequences that stopped are settled, the others lose track. */
    method Fail(active: seq<nat>)
      requires Pool(model, bt, nphys, arena, Uses(TablesOf(running)))
      requires Sequences(model, bt, nphys, arena, running, age, Repeat(|running|, Chosen))
      requires Covering(bt, running, active, |active|)
      requires forall i :: i in active <==> 0 <= i < |running| && !running[i].done
      modifies this`arena, this`age
      ensures Valid() && |age| == |old(age)|
      ensures forall i :: 0 <= i < |age| ==> age[i] == Aged(old(age)[i], !running[i].done)
    {
      forall c | 0 <= c < |active| ensures active[c] < |running| && !running[active[c]].done { assert active[c] in active; }
      TearAll(active);
      GiveUp(old(age));
    }

    /**
     axiom_engine_step: with no fault every sequence takes exactly one step of its solo run; a
     fault or an exhausted pool disturbs only sequences that were to go on.
     */
    method Step() returns (ok: bool)
      requires Valid()
      modifies this
      ensures Valid() && |running| == |old(running)| && |age| == |old(age)|
      ensures forall i :: 0 <= i < |running| ==> running[i].sid == old(running)[i].sid && running[i].req == old(running)[i].req
      ensures ok ==> forall i :: 0 <= i < |age| ==> age[i] == Aged(old(age)[i], false)
      ensures !ok ==> forall i :: 0 <= i < |age| ==> age[i] == Aged(old(age)[i], !running[i].done)
      ensures !ok ==> faulted || Exhausted(arena.free, arena.refs, arena.cached)
    {
      var active;
      ok, active := Prepare();
      ChosenPicked(old(running));
      if !ok {
        GiveUp(age);
        return;
      }
      ok := *;
      faulted := faulted || !ok;
      if ok || active == [] {
        Decode(active);
        ok := true;
      } else {
        Fail(active);
      }
    }

    // ------------------------------------------------------- retire and collect

    /** The first sequence named `sid`, or -1. */
    method Locate(sid: nat) returns (k: int)
      ensures k < 0 ==> forall j :: 0 <= j < |running| ==> running[j].sid != sid
      ensures k >= 0 ==> FirstWith(running, sid, k) && forall j: nat :: FirstWith(running, sid, j) <==> j == k
    {
      for i := 0 to |running|
        invariant forall j :: 0 <= j < i ==> running[j].sid != sid
      {
        if running[i].sid == sid {
          FirstIsUnique(running, sid, i);
          return i;
        }
      }
      return -1;
    }

    /** axiom_engine_retire: the sequence gives back its references; all others are untouched. */
    method Retire(sid: nat)
      requires Valid()
      modifies this
      ensures Valid()
      ensures (forall j :: 0 <= j < |old(running)| ==> old(running)[j].sid != sid) ==> running == old(running) && age == old(age)
      ensures forall k: nat :: FirstWith(old(running), sid, k) ==>
                running == old(running)[..k] + old(running)[k + 1..] && age == old(age)[..k] + old(age)[k + 1..]
    {
      var k := Locate(sid);
      if k >= 0 { Remove(k); }
    }

    method Remove(k: nat)
      requires Valid() && k < |running|
      modifies this
      ensures Valid() && running == old(running)[..k] + old(running)[k + 1..] && age == old(age)[..k] + old(age)[k + 1..]
    {
      var st := running[k];
      UsesOfUpdate(running, k, st);
      AllOkWithout(model, bt, nphys, arena, running, age, k);
      running, age := running[..k] + running[k + 1..], age[..k] + age[k + 1..];
      Abandon(st.table);
    }

    /** axiom_engine_next_finished: the first sequence that is done. */
    method NextFinished() returns (r: Option<nat>)
      ensures r.None? <==> forall i :: 0 <= i < |running| ==> !running[i].done
      ensures r.Some? ==> exists i :: 0 <= i < |running| && running[i].done && running[i].sid == r.value
                                      && forall j :: 0 <= j < i ==> !running[j].done
    {
      for i := 0 to |running|
        invariant forall j :: 0 <= j < i ==> !running[j].done
      {
        if running[i].done { return Some(running[i].sid); }
      }
      return None;
    }

    /** axiom_engine_collect: the generated ids, and their text cut to fit. */
    method Collect(sid: nat, vocab: nat, detok: Token -> Option<string>, textCap: nat) returns (r: Option<(seq<Token>, string)>)
      requires Valid() && textCap > 0
      ensures r.None? <==> forall j :: 0 <= j < |running| ==> running[j].sid != sid
      ensures forall k: nat :: FirstWith(running, sid, k) ==>
                && r == Some((running[k].out, Take(Assembled(model, vocab, detok, running[k].out), textCap - 1)))
                && (age[k].Some? ==> r.value.0 == SoloRun(model, running[k].req, age[k].value).out)
    {
      var k := Locate(sid);
      if k < 0 { return None; }
      assert age[k].Some? ==> AtStage(model, bt, nphys, arena.data, running[k], age[k].value, Repeat(|running|, Settled)[k]);
      var text := Text(running[k].out, vocab, detok, textCap);
      return Some((running[k].out, text));
    }

    method Text(out: seq<Token>, vocab: nat, detok: Token -> Option<string>, textCap: nat) returns (text: string)
      requires textCap > 0
      ensures text == Take(Assembled(model, vocab, detok, out), textCap - 1)
    {
      text := "";
      for i := 0 to |out|
        invariant text == Take(Assembled(model, vocab, detok, out[..i]), textCap - 1)
      {
        assert out[..i + 1][..i] == out[..i];
        if out[i] < vocab && out[i] !in model.eos {
          match detok(out[i])
          case None => text := "";
          case Some(piece) =>
            TakeAppend(Assembled(model, vocab, detok, out[..i]), piece, textCap - 1);
            text := Take(text + piece, textCap - 1);
        }
      }
      assert out[..|out|] == out;
    }

    // --------------------------------------------------- what every reachable state satisfies

    /** Batching is transparent: a tracked sequence has the output, and sees the cache, of its solo run. */
    lemma Transparent(i: nat)
      requires Valid() && i < |running| && age[i].Some?
      ensures var st, p := running[i], SoloRun(model, running[i].req, age[i].value);
              && st.out == p.out && st.done == p.done && st.rng == p.rng
              && Sized(bt, nphys, arena.data) && InRange(st.table, nphys) && Covers(bt, st.table, st.pos)
              && st.pos <= |st.req.prompt| + |st.out|
              && View(bt, nphys, arena.data, st.table, st.pos) == p.cache == Kvs(model, (st.req.prompt + st.out)[..st.pos])
    {
      assert AtStage(model, bt, nphys, arena.data, running[i], age[i].value, Repeat(|running|, Settled)[i]);
      SoloCacheIsHistory(model, running[i].req, age[i].value);
    }

    /** Nothing leaks: free, idle and referenced blocks are the whole pool. */
    lemma NothingLeaks()
      requires Valid()
      ensures |arena.free| + |IdleSet(arena.cached, arena.refs)| + |LiveSet(Uses(TablesOf(running)))| == nphys
    {
      PoolAccounts(nphys, arena.free, arena.refs, arena.cached, Uses(TablesOf(running)));
    }
  }
}