/**
 Splitting a model's layers over parts by bytes, and validating such a plan,
 tools/axiom_model_split_plan.cpp.
 */
module SplitPlan {
  import opened Common

  const U64: nat := 0x1_0000_0000_0000_0000

  /** The worker a plan names for a span. */
  datatype Worker = Worker(name: string, endpoint: string, owner: string)

  /** Layers `start` to `end`, both included, the bytes they are said to need, and who holds them: a worker, or the
      coordinator itself. */
  datatype Span = Span(start: nat, end: nat, bytes: nat, worker: Option<Worker>)

  function Sum(bytes: seq<nat>): nat {
    if bytes == [] then 0 else Sum(bytes[..|bytes| - 1]) + bytes[|bytes| - 1]
  }

  lemma {:induction false} SumSplit(bytes: seq<nat>, i: nat)
    requires i <= |bytes|
    ensures Sum(bytes) == Sum(bytes[..i]) + Sum(bytes[i..])
  {
    if i < |bytes| {
      var n := |bytes| - 1;
      SumSplit(bytes[..n], i);
      assert bytes[..n][..i] == bytes[..i] && bytes[..n][i..] == bytes[i..][..|bytes[i..]| - 1];
    } else {
      assert bytes[..i] == bytes && bytes[i..] == [];
    }
  }

  lemma SumPrefix(bytes: seq<nat>, i: nat)
    requires i < |bytes|
    ensures Sum(bytes[..i + 1]) == Sum(bytes[..i]) + bytes[i] <= Sum(bytes)
  {
    assert bytes[..i + 1][..i] == bytes[..i];
    SumSplit(bytes, i + 1);
  }

  /** The 64-bit sum. */
  function Wrapped(bytes: seq<nat>): nat { Sum(bytes) % U64 }

  lemma WrapAdd(a: nat, b: nat)
    ensures (a % U64 + b) % U64 == (a + b) % U64
  {
    assert a == U64 * (a / U64) + a % U64;
    var q, r := (a % U64 + b) / U64, (a % U64 + b) % U64;
    assert a + b == U64 * (a / U64 + q) + r;
  }

  lemma {:induction false} SumBounds(bytes: seq<nat>, i: nat, j: nat)
    requires i <= j <= |bytes|
    ensures Sum(bytes[i..j]) <= Sum(bytes)
  {
    SumSplit(bytes, j);
    SumSplit(bytes[..j], i);
    assert bytes[..j][i..] == bytes[i..j];
  }

  /** Where all layers together fit 64 bits, every sum over some of them is the true one. */
  lemma NoWrap(layers: seq<nat>, i: nat, j: nat)
    requires i <= j <= |layers| && Sum(layers) < U64
    ensures Wrapped(layers[i..j]) == Sum(layers[i..j])
  {
    SumBounds(layers, i, j);
  }

  /** span_bytes: 0 for a range that is not one. */
  function SpanSum(layers: seq<nat>, start: nat, end: nat): nat {
    if start <= end < |layers| then Wrapped(layers[start..end + 1]) else 0
  }

  method SpanBytes(layers: seq<nat>, start: nat, end: nat) returns (total: nat)
    ensures total == SpanSum(layers, start, end)
  {
    if start > end || end >= |layers| { return 0; }
    total := 0;
    for i := start to end + 1
      invariant total == Wrapped(layers[start..i])
    {
      assert layers[start..i + 1][..i - start] == layers[start..i];
      WrapAdd(Sum(layers[start..i]), layers[i]);
      total := (total + layers[i]) % U64;
    }
  }

  // ------------------------------------------------------------------- planning

  function Distance(a: nat, b: nat): nat { if a > b then a - b else b - a }

  /** The ideal number of bytes after part `p`. */
  function Ideal(total: nat, p: nat, parts: nat): nat
    requires parts > 0
  {
    total * (p + 1) / parts
  }

  /** How far a cut after layer `cand` is from the ideal. */
  function Off(layers: seq<nat>, cand: nat, target: nat): nat
    requires cand < |layers|
  {
    Distance(Wrapped(layers[..cand + 1]), target)
  }

  /** The first of the closest cuts in `lo..hi`. */
  ghost predicate BestCut(layers: seq<nat>, target: nat, lo: nat, hi: nat, cut: nat) {
    && lo <= cut <= hi < |layers|
    && (forall c :: lo <= c <= hi ==> Off(layers, cut, target) <= Off(layers, c, target))
    && (forall c :: lo <= c < cut ==> Off(layers, cut, target) < Off(layers, c, target))
  }

  /** Where all layers together fit 64 bits, that is the distance in true bytes. */
  lemma OffIsTrue(layers: seq<nat>, cand: nat, target: nat)
    requires cand < |layers| && Sum(layers) < U64
    ensures Off(layers, cand, target) == Distance(Sum(layers[..cand + 1]), target)
  {
    NoWrap(layers, 0, cand + 1);
  }

  method FindCut(layers: seq<nat>, prefix: seq<nat>, target: nat, lo: nat, hi: nat) returns (end: nat)
    requires lo <= hi < |layers| && target < U64
    requires |prefix| == |layers| + 1 && forall i :: 0 <= i < |prefix| ==> prefix[i] == Wrapped(layers[..i])
    ensures BestCut(layers, target, lo, hi, end)
  {
    end := lo;
    var best := U64 - 1;
    for cand := lo to hi + 1
      invariant cand > lo ==> lo <= end < cand && best == Off(layers, end, target)
      invariant cand == lo ==> end == lo && best == U64 - 1
      invariant forall c :: lo <= c < cand ==> best <= Off(layers, c, target)
      invariant forall c :: lo <= c < end ==> best < Off(layers, c, target)
    {
      var after := prefix[cand + 1];
      var delta := if after > target then after - target else target - after;
      if delta < best { best, end := delta, cand; }
    }
  }

  lemma Grows(c: nat, a: nat, b: nat)
    requires a <= b
    ensures c * a <= c * b
  {
    assert c * (b - a) >= 0;
  }

  lemma IdealBelow(total: nat, p: nat, parts: nat)
    requires total > 0 && p + 1 < parts
    ensures Ideal(total, p, parts) < total
  {
    var x := total * (p + 1);
    Grows(total, p + 2, parts);
    assert total * (p + 2) == x + total;
    assert x == parts * (x / parts) + x % parts;
    if x / parts >= total {
      Grows(parts, total, x / parts);
      assert false;
    }
  }

  /** What a plan of `parts` spans promises. */
  ghost predicate Balanced(layers: seq<nat>, spans: seq<Span>, parts: nat, n: nat) {
    && parts <= |layers| && n == |spans| <= parts
    && (forall p :: 0 <= p < n ==> PlannedSpan(layers, spans, parts, p))
  }

  /** Span `p` follows its predecessor, is not empty, states its bytes, and ends at the best feasible cut. */
  ghost predicate PlannedSpan(layers: seq<nat>, spans: seq<Span>, parts: nat, p: nat)
    requires p < |spans| && parts <= |layers|
  {
    var s := spans[p];
    && s.start == (if p == 0 then 0 else spans[p - 1].end + 1)
    && s.start <= s.end < |layers| && s.bytes == SpanSum(layers, s.start, s.end)
    && p < parts && s.worker.None?
    && (if p + 1 == parts then s.end == |layers| - 1
        else BestCut(layers, Ideal(Wrapped(layers), p, parts), s.start, |layers| - (parts - p), s.end))
  }

  method Prefixes(layers: seq<nat>) returns (prefix: seq<nat>)
    ensures |prefix| == |layers| + 1 && forall i :: 0 <= i < |prefix| ==> prefix[i] == Wrapped(layers[..i])
  {
    prefix := [0];
    for i := 0 to |layers|
      invariant |prefix| == i + 1 && forall j :: 0 <= j <= i ==> prefix[j] == Wrapped(layers[..j])
    {
      SumPrefix(layers, i);
      WrapAdd(Sum(layers[..i]), layers[i]);
      prefix := prefix + [(prefix[i] + layers[i]) % U64];
    }
  }

  /** byte_balanced_spans: non-empty contiguous spans that cover all layers, each cut as close as it can be, all in
      64-bit sums. */
  method ByteBalancedSpans(layers: seq<nat>, parts: nat) returns (r: Option<seq<Span>>)
    ensures r.None? <==> parts == 0 || |layers| < parts || Wrapped(layers) == 0
    ensures r.Some? ==> Balanced(layers, r.value, parts, parts)
  {
    if parts == 0 || |layers| < parts { return None; }
    var prefix := Prefixes(layers);
    assert layers[..|layers|] == layers;
    var total := prefix[|layers|];
    if total == 0 { return None; }
    var spans: seq<Span> := [];
    var start := 0;
    for p := 0 to parts
      invariant Balanced(layers, spans, parts, p)
      invariant start == if p == 0 then 0 else spans[p - 1].end + 1
      invariant start + (parts - p) <= |layers|
    {
      var end := |layers| - 1;
      if parts - p > 1 {
        IdealBelow(total, p, parts);
        end := FindCut(layers, prefix, Ideal(total, p, parts), start, |layers| - (parts - p));
      }
      var bytes := SpanBytes(layers, start, end);
      ghost var before := spans;
      spans := spans + [Span(start, end, bytes, None)];
      BalancedStep(layers, before, spans, parts, p);
      start := end + 1;
    }
    return Some(spans);
  }

  /** Layers without bytes are not the only ones refused: two of 2^63 bytes wrap to a total of 0. */
  lemma WrappedTotalRefused()
    ensures Sum([0x8000_0000_0000_0000, 0x8000_0000_0000_0000]) == U64
    ensures Wrapped([0x8000_0000_0000_0000, 0x8000_0000_0000_0000]) == 0
  {
    var layers := [0x8000_0000_0000_0000, 0x8000_0000_0000_0000];
    assert layers[..1] == [0x8000_0000_0000_0000] && layers[..1][..0] == [];
  }

  lemma BalancedStep(layers: seq<nat>, before: seq<Span>, spans: seq<Span>, parts: nat, p: nat)
    requires Balanced(layers, before, parts, p) && |spans| == p + 1 <= parts && spans[..p] == before
    requires PlannedSpan(layers, spans, parts, p)
    ensures Balanced(layers, spans, parts, p + 1)
  {
    forall q | 0 <= q < p + 1 ensures PlannedSpan(layers, spans, parts, q) {
      if q < p {
        assert PlannedSpan(layers, before, parts, q) && spans[q] == before[q];
        if q > 0 { assert spans[q - 1] == before[q - 1]; }
      }
    }
  }

  // ----------------------------------------------------------------- validation

  function One(b: bool): nat { if b then 1 else 0 }

  predicate Covers(s: Span, layer: nat) { s.start <= layer <= s.end }

  /** How many spans contain a layer. */
  function Cover(spans: seq<Span>, layer: nat): nat {
    if spans == [] then 0 else One(Covers(spans[0], layer)) + Cover(spans[1..], layer)
  }

  predicate SpanRight(layers: seq<nat>, s: Span) {
    s.start <= s.end < |layers| && s.bytes == SpanSum(layers, s.start, s.end)
  }

  /** Every span is a range with the bytes it states, and every layer is in exactly one of them. */
  ghost predicate ExactPartition(layers: seq<nat>, spans: seq<Span>) {
    && (forall s :: s in spans ==> SpanRight(layers, s))
    && (forall l :: 0 <= l < |layers| ==> Cover(spans, l) == 1)
  }

  predicate Before(a: Span, b: Span) {
    a.start < b.start || (a.start == b.start && a.end <= b.end)
  }

  ghost predicate Sorted(spans: seq<Span>) {
    forall i, j :: 0 <= i < j < |spans| ==> Before(spans[i], spans[j])
  }

  /** The scan's view of sorted spans: each starts where the last one ended. */
  predicate Chain(layers: seq<nat>, spans: seq<Span>, from: nat) {
    if spans == [] then from == |layers|
    else spans[0].start == from && SpanRight(layers, spans[0]) && Chain(layers, spans[1..], spans[0].end + 1)
  }

  lemma {:induction false} CoverConcat(a: seq<Span>, b: seq<Span>, layer: nat)
    ensures Cover(a + b, layer) == Cover(a, layer) + Cover(b, layer)
  {
    if a == [] {
      assert a + b == b;
    } else {
      assert (a + b)[1..] == a[1..] + b;
      CoverConcat(a[1..], b, layer);
    }
  }

  function Without(s: seq<Span>, j: nat): seq<Span>
    requires j < |s|
  {
    s[..j] + s[j + 1..]
  }

  lemma WithoutOne(s: seq<Span>, j: nat)
    requires j < |s|
    ensures multiset(Without(s, j)) == multiset(s) - multiset{s[j]}
  {
    assert s == s[..j] + [s[j]] + s[j + 1..];
  }

  lemma CoverWithout(s: seq<Span>, j: nat, layer: nat)
    requires j < |s|
    ensures Cover(s, layer) == Cover(Without(s, j), layer) + One(Covers(s[j], layer))
  {
    var tail := [s[j]] + s[j + 1..];
    assert s == s[..j] + tail;
    CoverConcat(s[..j], tail, layer);
    CoverConcat(s[..j], s[j + 1..], layer);
    assert tail[1..] == s[j + 1..];
  }

  /** The order of the spans does not matter. */
  lemma {:induction false} CoverReordered(a: seq<Span>, b: seq<Span>, layer: nat)
    requires multiset(a) == multiset(b)
    ensures Cover(a, layer) == Cover(b, layer)
    decreases |a|
  {
    if a == [] {
      assert |b| == |multiset(b)| == 0;
    } else {
      assert a[0] in multiset(b);
      var j :| 0 <= j < |b| && b[j] == a[0];
      WithoutOne(a, 0);
      WithoutOne(b, j);
      CoverReordered(Without(a, 0), Without(b, j), layer);
      CoverWithout(a, 0, layer);
      CoverWithout(b, j, layer);
    }
  }

  lemma {:induction false} CoverSome(spans: seq<Span>, layer: nat) returns (i: nat)
    requires Cover(spans, layer) > 0
    ensures i < |spans| && Covers(spans[i], layer)
  {
    if Covers(spans[0], layer) {
      i := 0;
    } else {
      i := CoverSome(spans[1..], layer);
      i := i + 1;
    }
  }

  /** A chain covers each layer from its start on once, and none before. */
  lemma {:induction false} ChainCovers(layers: seq<nat>, spans: seq<Span>, from: nat, layer: nat)
    requires Chain(layers, spans, from) && from <= |layers|
    ensures Cover(spans, layer) == One(from <= layer < |layers|)
    ensures forall s :: s in spans ==> SpanRight(layers, s)
    decreases |spans|
  {
    if spans != [] { ChainCovers(layers, spans[1..], spans[0].end + 1, layer); }
  }

  lemma FirstStartsAt(layers: seq<nat>, spans: seq<Span>, from: nat)
    requires spans != [] && Sorted(spans) && (forall s :: s in spans ==> SpanRight(layers, s))
    requires forall l :: 0 <= l < |layers| ==> Cover(spans, l) == One(from <= l)
    ensures spans[0].start == from
  {
    assert spans[0] in spans;
    assert forall i :: 0 < i < |spans| ==> Before(spans[0], spans[i]);
    var first := spans[0].start;
    assert Covers(spans[0], first) && Cover(spans, first) >= 1;
    if first > from {
      var i := CoverSome(spans, from);
      assert false;
    }
  }

  lemma TailCovers(layers: seq<nat>, spans: seq<Span>, from: nat, layer: nat)
    requires spans != [] && spans[0].start == from <= spans[0].end && layer < |layers|
    requires Cover(spans, layer) == One(from <= layer)
    ensures Cover(spans[1..], layer) == One(spans[0].end + 1 <= layer)
  {
  }

  /** Sorted spans that cover each layer once form a chain. */
  lemma {:induction false} CoverChains(layers: seq<nat>, spans: seq<Span>, from: nat)
    requires Sorted(spans) && from <= |layers| && (forall s :: s in spans ==> SpanRight(layers, s))
    requires forall l :: 0 <= l < |layers| ==> Cover(spans, l) == One(from <= l)
    ensures Chain(layers, spans, from)
    decreases |spans|
  {
    if spans == [] {
      assert from < |layers| ==> Cover(spans, from) == 1;
    } else {
      FirstStartsAt(layers, spans, from);
      assert spans[0] in spans;
      forall l | 0 <= l < |layers| ensures Cover(spans[1..], l) == One(spans[0].end + 1 <= l) {
        TailCovers(layers, spans, from, l);
      }
      CoverChains(layers, spans[1..], spans[0].end + 1);
    }
  }

  /** std::sort by (start, end). */
  method SortSpans(spans: seq<Span>) returns (sorted: seq<Span>)
    ensures Sorted(sorted) && multiset(sorted) == multiset(spans)
  {
    sorted := [];
    for i := 0 to |spans|
      invariant Sorted(sorted) && multiset(sorted) == multiset(spans[..i])
    {
      sorted := Insert(sorted, spans[i]);
      assert spans[..i + 1] == spans[..i] + [spans[i]];
    }
    assert spans[..|spans|] == spans;
  }

  lemma InsertSorted(sorted: seq<Span>, s: Span, k: nat)
    requires Sorted(sorted) && k <= |sorted| && (forall i :: 0 <= i < k ==> Before(sorted[i], s))
    requires k < |sorted| ==> !Before(sorted[k], s)
    ensures Sorted(sorted[..k] + [s] + sorted[k..])
  {
    var r := sorted[..k] + [s] + sorted[k..];
    forall i, j | 0 <= i < j < |r| ensures Before(r[i], r[j]) {
      if i < k && j > k {
        assert Before(sorted[i], sorted[j - 1]);
      } else if i == k {
        assert k < j - 1 ==> Before(sorted[k], sorted[j - 1]);
      } else if i > k {
        assert Before(sorted[i - 1], sorted[j - 1]);
      }
    }
  }

  method Insert(sorted: seq<Span>, s: Span) returns (r: seq<Span>)
    requires Sorted(sorted)
    ensures Sorted(r) && multiset(r) == multiset(sorted) + multiset{s}
  {
    var k := 0;
    while k < |sorted| && Before(sorted[k], s)
      invariant k <= |sorted| && forall i :: 0 <= i < k ==> Before(sorted[i], s)
    {
      k := k + 1;
    }
    InsertSorted(sorted, s, k);
    InsertMembers(sorted, s, k);
    r := sorted[..k] + [s] + sorted[k..];
  }

  // ------------------------------------------------------------------- workers

  /** A row of the inventory. */
  datatype Node = Node(name: string, endpoint: string, memory: nat)

  /** The last row of that name. */
  ghost predicate LastRow(nodes: seq<Node>, n: nat, row: Node) {
    n <= |nodes| && exists i :: 0 <= i < n && nodes[i] == row && forall j :: i < j < n ==> nodes[j].name != row.name
  }

  ghost predicate Indexed(nodes: seq<Node>, n: nat, byName: map<string, Node>)
    requires n <= |nodes|
  {
    && (forall i :: 0 <= i < n ==> nodes[i].name in byName)
    && (forall name :: name in byName ==> byName[name].name == name && LastRow(nodes, n, byName[name]))
  }

  lemma IndexedNext(nodes: seq<Node>, n: nat, byName: map<string, Node>)
    requires n < |nodes| && Indexed(nodes, n, byName)
    ensures Indexed(nodes, n + 1, byName[nodes[n].name := nodes[n]])
  {
    var byName' := byName[nodes[n].name := nodes[n]];
    forall name | name in byName' ensures byName'[name].name == name && LastRow(nodes, n + 1, byName'[name]) {
      if name != nodes[n].name {
        var i :| 0 <= i < n && nodes[i] == byName[name] && forall j :: i < j < n ==> nodes[j].name != byName[name].name;
      }
    }
  }

  /** The inventory by name; a later row replaces an earlier one. */
  method IndexNodes(nodes: seq<Node>) returns (byName: map<string, Node>)
    ensures Indexed(nodes, |nodes|, byName)
  {
    byName := map[];
    for n := 0 to |nodes|
      invariant Indexed(nodes, n, byName)
    {
      IndexedNext(nodes, n, byName);
      byName := byName[nodes[n].name := nodes[n]];
    }
  }

  /** A worker owns its cache, is in the inventory under that endpoint, and has the memory for its span. */
  predicate WorkerFits(byName: map<string, Node>, s: Span) {
    s.worker.Some? ==>
      var w := s.worker.value;
      && w.owner == "worker" && w.name in byName
      && byName[w.name].endpoint == w.endpoint && s.bytes <= byName[w.name].memory
  }

  /** The scan of validate_plan over sorted spans. */
  method Scan(layers: seq<nat>, byName: map<string, Node>, sorted: seq<Span>) returns (ok: bool)
    requires Sorted(sorted)
    ensures ok <==> Chain(layers, sorted, 0) && forall s :: s in sorted ==> WorkerFits(byName, s)
  {
    var expected: nat := 0;
    assert sorted[0..] == sorted;
    for i := 0 to |sorted|
      invariant Chain(layers, sorted, 0) == Chain(layers, sorted[i..], expected)
      invariant forall j :: 0 <= j < i ==> WorkerFits(byName, sorted[j])
    {
      var s := sorted[i];
      assert sorted[i..][0] == s && sorted[i..][1..] == sorted[i + 1..];
      if s.start > s.end || s.end >= |layers| { return false; }
      if s.start < expected { return false; }
      if s.start > expected { return false; }
      var computed := SpanBytes(layers, s.start, s.end);
      if computed != s.bytes { return false; }
      expected := s.end + 1;
      assert s in sorted;
      match s.worker {
        case None =>
        case Some(w) =>
          if w.owner != "worker" { return false; }
          if w.name !in byName { return false; }
          if byName[w.name].endpoint != w.endpoint { return false; }
          if s.bytes > byName[w.name].memory { return false; }
      }
    }
    ok := expected == |layers|;
  }

  /** The validator accepts exactly the plans with spans that partition the layers with matching bytes, and whose
      workers fit the inventory. */
  method Validate(layers: seq<nat>, nodes: seq<Node>, spans: seq<Span>) returns (ok: bool, ghost byName: map<string, Node>)
    ensures Indexed(nodes, |nodes|, byName)
    ensures ok <==> spans != [] && ExactPartition(layers, spans) && forall s :: s in spans ==> WorkerFits(byName, s)
  {
    var index := IndexNodes(nodes);
    byName := index;
    if |spans| == 0 { return false, byName; }
    var sorted := SortSpans(spans);
    SameMembers(sorted, spans);
    ok := Scan(layers, index, sorted);
    ChainIffPartition(layers, spans, sorted);
  }

  lemma ChainIffPartition(layers: seq<nat>, spans: seq<Span>, sorted: seq<Span>)
    requires Sorted(sorted) && multiset(sorted) == multiset(spans)
    ensures Chain(layers, sorted, 0) <==> ExactPartition(layers, spans)
  {
    forall l ensures Cover(sorted, l) == Cover(spans, l) { CoverReordered(sorted, spans, l); }
    SameMembers(sorted, spans);
    if Chain(layers, sorted, 0) {
      forall l | 0 <= l < |layers| ensures Cover(sorted, l) == 1 { ChainCovers(layers, sorted, 0, l); }
      ChainCovers(layers, sorted, 0, 0);
    } else if ExactPartition(layers, spans) {
      CoverChains(layers, sorted, 0);
    }
  }

  lemma SameMembers(a: seq<Span>, b: seq<Span>)
    requires multiset(a) == multiset(b)
    ensures forall s :: s in a <==> s in b
  {
    assert forall s :: s in a <==> s in multiset(a);
    assert forall s :: s in b <==> s in multiset(b);
  }

  /** A balanced plan passes the validator. */
  lemma {:induction false} PlanChains(layers: seq<nat>, spans: seq<Span>, parts: nat, p: nat)
    requires Balanced(layers, spans, parts, parts) && p <= parts && parts > 0
    ensures Chain(layers, spans[p..], if p == 0 then 0 else spans[p - 1].end + 1)
    decreases parts - p
  {
    if p < parts {
      PlanChains(layers, spans, parts, p + 1);
      assert PlannedSpan(layers, spans, parts, p);
      assert spans[p..][0] == spans[p] && spans[p..][1..] == spans[p + 1..];
    } else {
      assert PlannedSpan(layers, spans, parts, p - 1);
    }
  }

  lemma PlanIsExact(layers: seq<nat>, spans: seq<Span>, parts: nat)
    requires Balanced(layers, spans, parts, parts) && parts > 0
    ensures ExactPartition(layers, spans)
  {
    PlanChains(layers, spans, parts, 0);
    assert spans[0..] == spans;
    forall l | 0 <= l < |layers| ensures Cover(spans, l) == 1 { ChainCovers(layers, spans, 0, l); }
    ChainCovers(layers, spans, 0, 0);
  }

  function StatedBytes(spans: seq<Span>): nat {
    if spans == [] then 0 else spans[0].bytes + StatedBytes(spans[1..])
  }

  /** Nothing is lost or counted twice: the bytes the spans of a chain state add up to those of their layers. */
  lemma {:induction false} ChainBytes(layers: seq<nat>, spans: seq<Span>, from: nat)
    requires Chain(layers, spans, from) && from <= |layers| && Sum(layers) < U64
    ensures StatedBytes(spans) == Sum(layers[from..])
    decreases |spans|
  {
    if spans == [] {
      assert layers[from..] == [];
    } else {
      var next := spans[0].end + 1;
      ChainBytes(layers, spans[1..], next);
      NoWrap(layers, from, next);
      SumSplit(layers[from..], next - from);
      assert layers[from..][..next - from] == layers[from..next] && layers[from..][next - from..] == layers[next..];
    }
  }

  // ------------------------------------------------------------------- emission

  /** The plan's workers: span `i + 1` goes to row `i`. */
  function Assign(spans: seq<Span>, nodes: seq<Node>, i: nat): Span
    requires |spans| == |nodes| + 1 && i < |spans|
  {
    if i == 0 then spans[0]
    else spans[i].(worker := Some(Worker(nodes[i - 1].name, nodes[i - 1].endpoint, "worker")))
  }

  ghost predicate Assigned(plan: seq<Span>, spans: seq<Span>, nodes: seq<Node>) {
    |plan| == |spans| == |nodes| + 1 && forall i :: 0 <= i < |plan| ==> plan[i] == Assign(spans, nodes, i)
  }

  /** emit_plan: a balanced plan whose spans fit the rows they are given to; refused when one does not fit. */
  method EmitPlan(layers: seq<nat>, nodes: seq<Node>) returns (plan: Option<seq<Span>>, ghost spans: seq<Span>)
    ensures plan.Some? ==> Balanced(layers, spans, |nodes| + 1, |nodes| + 1) && Assigned(plan.value, spans, nodes)
    ensures plan.Some? ==> |layers| >= |nodes| + 1 && Wrapped(layers) != 0
    ensures plan.Some? ==> forall i :: 0 <= i < |nodes| ==> plan.value[i + 1].bytes <= nodes[i].memory
    ensures plan.None? ==>
              || |layers| < |nodes| + 1 || Wrapped(layers) == 0
              || (Balanced(layers, spans, |nodes| + 1, |nodes| + 1) && exists i :: 0 <= i < |nodes| && spans[i + 1].bytes > nodes[i].memory)
  {
    var balanced := ByteBalancedSpans(layers, |nodes| + 1);
    if balanced.None? { return None, []; }
    spans := balanced.value;
    for i := 0 to |nodes|
      invariant forall j :: 0 <= j < i ==> spans[j + 1].bytes <= nodes[j].memory
    {
      if balanced.value[i + 1].bytes > nodes[i].memory { return None, spans; }
    }
    var out := seq(|nodes| + 1, i requires 0 <= i < |nodes| + 1 => Assign(balanced.value, nodes, i));
    return Some(out), spans;
  }

  lemma {:induction false} AssignedChains(layers: seq<nat>, plan: seq<Span>, spans: seq<Span>, nodes: seq<Node>, p: nat, from: nat)
    requires Assigned(plan, spans, nodes) && p <= |plan| && Chain(layers, spans[p..], from)
    ensures Chain(layers, plan[p..], from)
    decreases |plan| - p
  {
    if p < |plan| {
      assert plan[p] == Assign(spans, nodes, p);
      assert plan[p..][0] == plan[p] && plan[p..][1..] == plan[p + 1..];
      assert spans[p..][0] == spans[p] && spans[p..][1..] == spans[p + 1..];
      AssignedChains(layers, plan, spans, nodes, p + 1, spans[p].end + 1);
    }
  }

  lemma EmittedIsExact(layers: seq<nat>, nodes: seq<Node>, plan: seq<Span>, spans: seq<Span>)
    requires Assigned(plan, spans, nodes) && Balanced(layers, spans, |nodes| + 1, |nodes| + 1)
    ensures ExactPartition(layers, plan)
  {
    PlanChains(layers, spans, |nodes| + 1, 0);
    assert spans[0..] == spans && plan[0..] == plan;
    AssignedChains(layers, plan, spans, nodes, 0, 0);
    forall l | 0 <= l < |layers| ensures Cover(plan, l) == 1 { ChainCovers(layers, plan, 0, l); }
    ChainCovers(layers, plan, 0, 0);
  }

  /** The row the validator finds under the name of `node` serves a span given to `node`. */
  predicate Serves(byName: map<string, Node>, node: Node, bytes: nat) {
    node.name in byName && byName[node.name].endpoint == node.endpoint && bytes <= byName[node.name].memory
  }

  lemma AssignedFits(byName: map<string, Node>, nodes: seq<Node>, plan: seq<Span>, spans: seq<Span>, k: nat)
    requires Assigned(plan, spans, nodes) && k < |plan| && spans[0].worker.None?
    ensures WorkerFits(byName, plan[k]) <==> (k > 0 ==> Serves(byName, nodes[k - 1], plan[k].bytes))
  {
    assert plan[k] == Assign(spans, nodes, k);
  }

  /** What is emitted passes the validator, if and only if no later row of the same name has another endpoint or too
      little memory. */
  lemma EmittedValidates(layers: seq<nat>, nodes: seq<Node>, byName: map<string, Node>, plan: seq<Span>, spans: seq<Span>)
    requires Indexed(nodes, |nodes|, byName) && Assigned(plan, spans, nodes)
    requires Balanced(layers, spans, |nodes| + 1, |nodes| + 1)
    ensures plan != [] && ExactPartition(layers, plan)
    ensures (forall s :: s in plan ==> WorkerFits(byName, s)) <==>
            forall k :: 0 < k < |plan| ==> Serves(byName, nodes[k - 1], plan[k].bytes)
  {
    EmittedIsExact(layers, nodes, plan, spans);
    assert PlannedSpan(layers, spans, |nodes| + 1, 0);
    forall k | 0 <= k < |plan|
      ensures plan[k] in plan && (WorkerFits(byName, plan[k]) <==> (k > 0 ==> Serves(byName, nodes[k - 1], plan[k].bytes)))
    {
      AssignedFits(byName, nodes, plan, spans, k);
    }
  }

  /** Names that are all different leave every row the last of its name. */
  lemma DistinctRows(nodes: seq<Node>, byName: map<string, Node>, i: nat)
    requires Indexed(nodes, |nodes|, byName) && i < |nodes|
    requires forall j, k :: 0 <= j < k < |nodes| ==> nodes[j].name != nodes[k].name
    ensures nodes[i].name in byName && byName[nodes[i].name] == nodes[i]
  {
    var k :| 0 <= k < |nodes| && nodes[k] == byName[nodes[i].name];
  }
}
