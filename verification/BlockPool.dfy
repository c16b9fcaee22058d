/**
 The refcounted paged-KV pool of tools/axiom_engine.cpp on values: who holds each block, and
 what a sequence sees through its block table.
 */
module BlockPool {
  import opened Common
  import opened Decoding

  type Block = int

  // ----------------------------------------------------------------- conservation

  /** All block references of a list of tables, with multiplicity. */
  ghost function Uses(tables: seq<seq<Block>>): multiset<Block> {
    if tables == [] then multiset{} else Uses(tables[..|tables| - 1]) + multiset(tables[|tables| - 1])
  }

  /**
   Every block below `nphys` is free (listed once, no references), cached and idle, or referenced
   as often as `uses` says; `hole` holds blocks just taken and not yet assigned.  Only cached
   blocks are ever shared.
   */
  ghost predicate Conserved(nphys: nat, free: seq<Block>, refs: seq<int>, cached: map<Block, seq<Token>>,
                            uses: multiset<Block>, hole: set<Block>) {
    && |refs| == nphys && NoRepeats(free)
    && (forall b :: b in free || b in cached || b in uses || b in hole ==> 0 <= b < nphys)
    && (forall b {:trigger refs[b]} :: 0 <= b < nphys ==> BlockState(refs[b], uses[b], b in free, b in cached, b in hole))
  }

  predicate BlockState(count: int, uses: nat, isFree: bool, isCached: bool, isTaken: bool) {
    && count == uses
    && (isFree ==> count == 0 && !isCached && !isTaken)
    && (isTaken ==> count == 0 && !isCached)
    && (count == 0 ==> isFree || isCached || isTaken)
    && (count > 1 ==> isCached)
  }

  /** Nothing can be taken: every block is referenced. */
  ghost predicate Exhausted(free: seq<Block>, refs: seq<int>, cached: map<Block, seq<Token>>) {
    free == [] && forall b :: b in cached && 0 <= b < |refs| ==> refs[b] != 0
  }

  lemma ExhaustedMeansAllReferenced(nphys: nat, free: seq<Block>, refs: seq<int>,
                                    cached: map<Block, seq<Token>>, uses: multiset<Block>)
    requires Conserved(nphys, free, refs, cached, uses, {})
    ensures Exhausted(free, refs, cached) <==> forall b :: 0 <= b < nphys ==> uses[b] > 0
  {
    if free != [] {
      assert free[0] in free;
      assert refs[free[0]] == 0 && uses[free[0]] == 0;
    }
    if !forall b :: 0 <= b < nphys ==> uses[b] > 0 {
      var b :| 0 <= b < nphys && uses[b] == 0;
      assert refs[b] == 0;
    }
  }

  /** When nothing can be taken, the blocks others hold and this table's own are the whole pool. */
  lemma ExhaustedNeeds(nphys: nat, free: seq<Block>, refs: seq<int>, cached: map<Block, seq<Token>>,
                       others: multiset<Block>, table: seq<Block>)
    requires Conserved(nphys, free, refs, cached, others + multiset(table), {}) && Exhausted(free, refs, cached)
    ensures nphys <= |LiveSet(others)| + |table|
  {
    ExhaustedMeansAllReferenced(nphys, free, refs, cached, others + multiset(table));
    var all := LiveSet(others) + FreeSet(table);
    forall b | b in Range(nphys) ensures b in all {
      assert (others + multiset(table))[b] > 0;
      assert b in others || b in multiset(table);
    }
    SubsetSize(Range(nphys), all);
    MembersSize(table);
  }

  lemma {:induction false} MembersSize(s: seq<Block>)
    ensures |FreeSet(s)| <= |s|
  {
    if s != [] {
      MembersSize(s[1..]);
      assert FreeSet(s) == FreeSet(s[1..]) + {s[0]};
    }
  }

  function Range(n: nat): (r: set<Block>)
    ensures |r| == n && forall b :: b in r <==> 0 <= b < n
  {
    if n == 0 then {} else Range(n - 1) + {n - 1}
  }

  lemma {:induction false} DistinctSize(s: seq<Block>)
    requires NoRepeats(s)
    ensures |FreeSet(s)| == |s|
  {
    if s != [] {
      var init, last := s[..|s| - 1], s[|s| - 1];
      DistinctSize(init);
      assert FreeSet(s) == FreeSet(init) + {last};
    }
  }

  lemma ThreeParts(a: set<Block>, b: set<Block>, c: set<Block>, all: set<Block>)
    requires all == a + b + c && a !! b && a !! c && b !! c
    ensures |a| + |b| + |c| == |all|
  {
    assert |a + b + c| == |a + b| + |c|;
  }

  /** Each block is exactly one of free, idle in the cache, and referenced. */
  lemma ExactlyOne(nphys: nat, free: seq<Block>, refs: seq<int>, cached: map<Block, seq<Token>>, uses: multiset<Block>, b: Block)
    requires Conserved(nphys, free, refs, cached, uses, {}) && 0 <= b < nphys
    ensures b in free || (b in cached && refs[b] == 0) || b in uses
    ensures !(b in free && b in cached) && !(b in free && b in uses) && !(refs[b] == 0 && b in uses)
  {
    assert BlockState(refs[b], uses[b], b in free, b in cached, false);
  }

  ghost function FreeSet(free: seq<Block>): set<Block> {
    set b | b in free
  }

  ghost function IdleSet(cached: map<Block, seq<Token>>, refs: seq<int>): set<Block> {
    set b | b in cached && 0 <= b < |refs| && refs[b] == 0
  }

  ghost function LiveSet(uses: multiset<Block>): set<Block> {
    set b | b in uses
  }

  lemma PartsDisjoint(nphys: nat, free: seq<Block>, refs: seq<int>, cached: map<Block, seq<Token>>, uses: multiset<Block>)
    requires Conserved(nphys, free, refs, cached, uses, {})
    ensures FreeSet(free) !! IdleSet(cached, refs) && FreeSet(free) !! LiveSet(uses) && IdleSet(cached, refs) !! LiveSet(uses)
  {
    forall b | 0 <= b < nphys
      ensures !(b in free && b in cached) && !(b in free && b in uses) && !(refs[b] == 0 && b in uses)
    {
      ExactlyOne(nphys, free, refs, cached, uses, b);
    }
  }

  lemma PartsCover(nphys: nat, free: seq<Block>, refs: seq<int>, cached: map<Block, seq<Token>>, uses: multiset<Block>)
    requires Conserved(nphys, free, refs, cached, uses, {})
    ensures FreeSet(free) + IdleSet(cached, refs) + LiveSet(uses) == Range(nphys)
  {
    forall b | b in Range(nphys) ensures b in FreeSet(free) + IdleSet(cached, refs) + LiveSet(uses) {
      ExactlyOne(nphys, free, refs, cached, uses, b);
    }
  }

  /** Free, idle and referenced blocks add up to the pool: nothing leaks and the free list fits. */
  lemma PoolAccounts(nphys: nat, free: seq<Block>, refs: seq<int>, cached: map<Block, seq<Token>>, uses: multiset<Block>)
    requires Conserved(nphys, free, refs, cached, uses, {})
    ensures |free| + |IdleSet(cached, refs)| + |LiveSet(uses)| == nphys
  {
    DistinctSize(free);
    PartsDisjoint(nphys, free, refs, cached, uses);
    PartsCover(nphys, free, refs, cached, uses);
    ThreeParts(FreeSet(free), IdleSet(cached, refs), LiveSet(uses), Range(nphys));
  }

  // ---------------------------------------------------------- steps of the pool

  /** The top of the free list is taken. */
  lemma PopConserves(nphys: nat, free: seq<Block>, refs: seq<int>, cached: map<Block, seq<Token>>, uses: multiset<Block>)
    requires Conserved(nphys, free, refs, cached, uses, {}) && free != []
    ensures Conserved(nphys, free[..|free| - 1], refs, cached, uses, {free[|free| - 1]})
  {
    var b := free[|free| - 1];
    assert b in free;
    assert forall x :: x in free ==> x == b || x in free[..|free| - 1];
    assert b !in free[..|free| - 1];
  }

  /** An idle cached block loses its entry and is taken. */
  lemma EvictConserves(nphys: nat, free: seq<Block>, refs: seq<int>, cached: map<Block, seq<Token>>,
                       uses: multiset<Block>, b: Block)
    requires Conserved(nphys, free, refs, cached, uses, {}) && b in cached && refs[b] == 0
    ensures Conserved(nphys, free, refs, cached - {b}, uses, {b})
  {
  }

  /** A taken block enters a table. */
  lemma AssignConserves(nphys: nat, free: seq<Block>, refs: seq<int>, cached: map<Block, seq<Token>>,
                        others: multiset<Block>, table: seq<Block>, b: Block)
    requires Conserved(nphys, free, refs, cached, others + multiset(table), {b})
    ensures refs[b] == 0 && b !in others && b !in table && b !in cached
    ensures Conserved(nphys, free, refs[b := refs[b] + 1], cached, others + multiset(table + [b]), {})
  {
    assert others + multiset(table + [b]) == others + multiset(table) + multiset{b};
    assert refs[b] == 0 && (others + multiset(table))[b] == 0;
  }

  /** A cached block enters a table. */
  lemma ShareConserves(nphys: nat, free: seq<Block>, refs: seq<int>, cached: map<Block, seq<Token>>,
                       others: multiset<Block>, table: seq<Block>, b: Block)
    requires Conserved(nphys, free, refs, cached, others + multiset(table), {}) && b in cached
    ensures Conserved(nphys, free, refs[b := refs[b] + 1], cached, others + multiset(table + [b]), {})
  {
    assert others + multiset(table + [b]) == others + multiset(table) + multiset{b};
  }

  /** One reference is dropped; a block nobody holds stays cached or goes to the free list. */
  lemma DropConserves(nphys: nat, free: seq<Block>, refs: seq<int>, cached: map<Block, seq<Token>>,
                      others: multiset<Block>, table: seq<Block>)
    requires Conserved(nphys, free, refs, cached, others + multiset(table), {}) && table != []
    ensures var b := table[0];
            var rest := others + multiset(table[1..]);
            && 0 <= b < nphys && refs[b] > 0
            && (refs[b] > 1 ==> Conserved(nphys, free, refs[b := refs[b] - 1], cached, rest, {}))
            && (refs[b] == 1 && b in cached ==> Conserved(nphys, free, refs[b := 0], cached, rest, {}))
            && (refs[b] == 1 ==> Conserved(nphys, free + [b], refs[b := 0], cached - {b}, rest, {}))
  {
    var b := table[0];
    var uses, rest := others + multiset(table), others + multiset(table[1..]);
    assert table == [b] + table[1..];
    assert uses == rest + multiset{b};
    assert forall x :: rest[x] == if x == b then uses[x] - 1 else uses[x];
    assert b in uses;
    forall x | x in free + [b] ensures x in free || x == b {
    }
  }

  lemma RegisterConserves(nphys: nat, free: seq<Block>, refs: seq<int>, cached: map<Block, seq<Token>>,
                          uses: multiset<Block>, b: Block, key: seq<Token>)
    requires Conserved(nphys, free, refs, cached, uses, {}) && b in uses
    ensures Conserved(nphys, free, refs, cached[b := key], uses, {})
  {
  }

  // --------------------------------------------------------------- sums of uses

  lemma UsesAppend(tables: seq<seq<Block>>, t: seq<Block>)
    ensures Uses(tables + [t]) == Uses(tables) + multiset(t)
  {
    assert (tables + [t])[..|tables|] == tables;
  }

  /** The references of one table and those of all the others. */
  lemma {:induction false} UsesSplit(tables: seq<seq<Block>>, i: nat)
    requires i < |tables|
    ensures Uses(tables) == Uses(tables[..i] + tables[i + 1..]) + multiset(tables[i])
  {
    var init, last := tables[..|tables| - 1], tables[|tables| - 1];
    if i == |tables| - 1 {
      assert tables[..i] + tables[i + 1..] == init;
    } else {
      UsesSplit(init, i);
      assert tables[..i] + tables[i + 1..] == (init[..i] + init[i + 1..]) + [last];
      UsesAppend(init[..i] + init[i + 1..], last);
    }
  }

  lemma {:induction false} UsesHolds(tables: seq<seq<Block>>, i: nat, b: Block)
    requires i < |tables| && b in tables[i]
    ensures b in Uses(tables)
  {
    UsesSplit(tables, i);
    assert b in multiset(tables[i]);
  }

  lemma UsesUpdate(tables: seq<seq<Block>>, i: nat, t: seq<Block>)
    requires i < |tables|
    ensures Uses(tables[i := t]) == Uses(tables[..i] + tables[i + 1..]) + multiset(t)
  {
    UsesSplit(tables[i := t], i);
    assert tables[i := t][..i] + tables[i := t][i + 1..] == tables[..i] + tables[i + 1..];
  }

  // -------------------------------------------------------------------- the view

  ghost predicate Sized(bt: nat, nphys: nat, data: seq<seq<Kv>>) {
    bt > 0 && |data| == nphys && forall b :: 0 <= b < nphys ==> |data[b]| == bt
  }

  /** The logical block of a position: `p / bt`, by repeated subtraction. */
  function BlockOf(bt: nat, p: nat): nat
    requires bt > 0
  {
    if p < bt then 0 else 1 + BlockOf(bt, p - bt)
  }

  /** Its slot in the block: `p % bt`. */
  function SlotOf(bt: nat, p: nat): (s: nat)
    requires bt > 0
    ensures s < bt
  {
    if p < bt then p else SlotOf(bt, p - bt)
  }

  lemma Times(a: int, b: int, c: int)
    requires c >= 0
    ensures a <= b ==> c * a <= c * b
  {
  }

  lemma Quotient(bt: int, p: int, j: int, s: int)
    requires bt > 0 && p == bt * j + s && 0 <= s < bt
    ensures p / bt == j && p % bt == s
  {
    var d := p / bt - j;
    assert p == bt * (p / bt) + p % bt;
    assert bt * d == s - p % bt;
    Times(1, d, bt);
    Times(d, -1, bt);
  }

  lemma {:induction false} PlaceIsDivMod(bt: nat, p: nat)
    requires bt > 0
    ensures BlockOf(bt, p) == p / bt && SlotOf(bt, p) == p % bt
  {
    if p < bt {
      Quotient(bt, p, 0, p);
    } else {
      PlaceIsDivMod(bt, p - bt);
      assert p - bt == bt * ((p - bt) / bt) + (p - bt) % bt;
      Quotient(bt, p, (p - bt) / bt + 1, (p - bt) % bt);
    }
  }

  lemma {:induction false} BlockMonotone(bt: nat, p: nat, q: nat)
    requires bt > 0 && p <= q
    ensures BlockOf(bt, p) <= BlockOf(bt, q)
  {
    if p >= bt { BlockMonotone(bt, p - bt, q - bt); }
  }

  lemma {:induction false} SamePlace(bt: nat, p: nat, q: nat)
    requires bt > 0 && BlockOf(bt, p) == BlockOf(bt, q) && SlotOf(bt, p) == SlotOf(bt, q)
    ensures p == q
  {
    if p >= bt && q >= bt { SamePlace(bt, p - bt, q - bt); }
  }

  /** The first position of block `j`: `j * bt`, by repeated addition. */
  function StartOf(bt: nat, j: nat): nat {
    if j == 0 then 0 else StartOf(bt, j - 1) + bt
  }

  lemma {:induction false} StartIsProduct(bt: nat, j: nat)
    ensures StartOf(bt, j) == j * bt
  {
    if j > 0 {
      StartIsProduct(bt, j - 1);
      assert j * bt == (j - 1) * bt + bt;
    }
  }

  lemma {:induction false} StartMonotone(bt: nat, i: nat, j: nat)
    requires i <= j
    ensures StartOf(bt, i) <= StartOf(bt, j)
  {
    if i < j { StartMonotone(bt, i, j - 1); }
  }

  lemma {:induction false} PlaceOf(bt: nat, j: nat, s: nat)
    requires bt > 0 && s < bt
    ensures BlockOf(bt, StartOf(bt, j) + s) == j && SlotOf(bt, StartOf(bt, j) + s) == s
  {
    if j > 0 { PlaceOf(bt, j - 1, s); }
  }

  lemma {:induction false} PlaceBack(bt: nat, p: nat)
    requires bt > 0
    ensures p == StartOf(bt, BlockOf(bt, p)) + SlotOf(bt, p)
  {
    if p >= bt { PlaceBack(bt, p - bt); }
  }

  /** The table covers positions below `n`. */
  predicate Covers(bt: nat, table: seq<Block>, n: nat)
    requires bt > 0
  {
    n == 0 || BlockOf(bt, n - 1) < |table|
  }

  ghost predicate InRange(table: seq<Block>, nphys: nat) {
    forall j :: 0 <= j < |table| ==> 0 <= table[j] < nphys
  }

  ghost predicate NoRepeats(table: seq<Block>) {
    forall i, j :: 0 <= i < j < |table| ==> table[i] != table[j]
  }

  function At(bt: nat, nphys: nat, data: seq<seq<Kv>>, table: seq<Block>, p: nat): Kv
    requires Sized(bt, nphys, data) && InRange(table, nphys) && BlockOf(bt, p) < |table|
  {
    data[table[BlockOf(bt, p)]][SlotOf(bt, p)]
  }

  /** The first `n` positions as the kernels read them through the table. */
  function View(bt: nat, nphys: nat, data: seq<seq<Kv>>, table: seq<Block>, n: nat): (v: seq<Kv>)
    requires Sized(bt, nphys, data) && InRange(table, nphys) && Covers(bt, table, n)
    ensures |v| == n
  {
    if n == 0 then []
    else
      BlockMonotone(bt, if n > 1 then n - 2 else 0, n - 1);
      View(bt, nphys, data, table, n - 1) + [At(bt, nphys, data, table, n - 1)]
  }

  lemma {:induction false} ViewAt(bt: nat, nphys: nat, data: seq<seq<Kv>>, table: seq<Block>, n: nat, p: nat)
    requires Sized(bt, nphys, data) && InRange(table, nphys) && Covers(bt, table, n) && p < n
    ensures BlockOf(bt, p) < |table| && View(bt, nphys, data, table, n)[p] == At(bt, nphys, data, table, p)
  {
    BlockMonotone(bt, p, n - 1);
    if p < n - 1 {
      BlockMonotone(bt, n - 2, n - 1);
      ViewAt(bt, nphys, data, table, n - 1, p);
    }
  }

  /** Two views agree when they agree position by position. */
  lemma SameView(bt: nat, nphys: nat, data: seq<seq<Kv>>, table: seq<Block>,
                 data': seq<seq<Kv>>, table': seq<Block>, n: nat)
    requires Sized(bt, nphys, data) && InRange(table, nphys) && Covers(bt, table, n)
    requires Sized(bt, nphys, data') && InRange(table', nphys) && Covers(bt, table', n)
    requires forall p :: 0 <= p < n && BlockOf(bt, p) < |table| && BlockOf(bt, p) < |table'| ==>
               At(bt, nphys, data, table, p) == At(bt, nphys, data', table', p)
    ensures View(bt, nphys, data, table, n) == View(bt, nphys, data', table', n)
  {
    var v, v' := View(bt, nphys, data, table, n), View(bt, nphys, data', table', n);
    forall p | 0 <= p < n ensures v[p] == v'[p] {
      ViewAt(bt, nphys, data, table, n, p);
      ViewAt(bt, nphys, data', table', n, p);
    }
  }

  /** A longer table shows the same first positions. */
  lemma ViewGrows(bt: nat, nphys: nat, data: seq<seq<Kv>>, table: seq<Block>, table': seq<Block>, n: nat)
    requires Sized(bt, nphys, data) && InRange(table, nphys) && Covers(bt, table, n)
    requires table <= table' && InRange(table', nphys)
    ensures Covers(bt, table', n) && View(bt, nphys, data, table', n) == View(bt, nphys, data, table, n)
  {
    SameView(bt, nphys, data, table, data, table', n);
  }

  /** Writing a block the table does not hold changes nothing seen through it. */
  lemma ViewUntouched(bt: nat, nphys: nat, data: seq<seq<Kv>>, table: seq<Block>, n: nat, b: Block, row: seq<Kv>)
    requires Sized(bt, nphys, data) && InRange(table, nphys) && Covers(bt, table, n)
    requires 0 <= b < nphys && b !in table && |row| == bt
    ensures Sized(bt, nphys, data[b := row])
    ensures View(bt, nphys, data[b := row], table, n) == View(bt, nphys, data, table, n)
  {
    SameView(bt, nphys, data, table, data[b := row], table, n);
  }

  lemma OtherPlace(bt: nat, nphys: nat, data: seq<seq<Kv>>, table: seq<Block>, i: nat, k: nat, j: nat, s: nat, x: Kv)
    requires Sized(bt, nphys, data) && InRange(table, nphys) && i < |table| && j < |table| && k < bt && s < bt
    requires NoRepeats(table)
    requires i != j || k != s
    ensures data[table[j] := data[table[j]][s := x]][table[i]][k] == data[table[i]][k]
  {
  }

  lemma StoreElsewhere(bt: nat, nphys: nat, data: seq<seq<Kv>>, table: seq<Block>, n: nat, x: Kv, p: nat)
    requires Sized(bt, nphys, data) && InRange(table, nphys) && BlockOf(bt, n) < |table| && BlockOf(bt, p) < |table| && p != n
    requires NoRepeats(table)
    ensures var b := table[BlockOf(bt, n)];
            var data' := data[b := data[b][SlotOf(bt, n) := x]];
            Sized(bt, nphys, data') && At(bt, nphys, data', table, p) == At(bt, nphys, data, table, p)
  {
    assert BlockOf(bt, p) != BlockOf(bt, n) || SlotOf(bt, p) != SlotOf(bt, n) by {
      if BlockOf(bt, p) == BlockOf(bt, n) && SlotOf(bt, p) == SlotOf(bt, n) { SamePlace(bt, p, n); }
    }
    OtherPlace(bt, nphys, data, table, BlockOf(bt, p), SlotOf(bt, p), BlockOf(bt, n), SlotOf(bt, n), x);
  }

  /** Storing position `n` extends the view by exactly the stored entry. */
  lemma ViewStores(bt: nat, nphys: nat, data: seq<seq<Kv>>, table: seq<Block>, n: nat, x: Kv)
    requires Sized(bt, nphys, data) && InRange(table, nphys) && BlockOf(bt, n) < |table|
    requires NoRepeats(table)
    ensures Covers(bt, table, n) && Covers(bt, table, n + 1)
    ensures var b := table[BlockOf(bt, n)];
            var data' := data[b := data[b][SlotOf(bt, n) := x]];
            && Sized(bt, nphys, data')
            && View(bt, nphys, data', table, n + 1) == View(bt, nphys, data, table, n) + [x]
  {
    if n > 0 { BlockMonotone(bt, n - 1, n); }
    var b := table[BlockOf(bt, n)];
    var data' := data[b := data[b][SlotOf(bt, n) := x]];
    forall p | 0 <= p < n && BlockOf(bt, p) < |table|
      ensures At(bt, nphys, data, table, p) == At(bt, nphys, data', table, p)
    {
      StoreElsewhere(bt, nphys, data, table, n, x, p);
    }
    SameView(bt, nphys, data, table, data', table, n);
  }
}
