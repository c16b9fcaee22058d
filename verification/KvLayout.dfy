/**
 The arithmetic of the KV tier file: the plan for a context length and the byte offset of a
 page record, with the source's 32- and 64-bit overflow behaviour written out
 (src/axiom_qwen38_kv_tier.cpp, constants from include/axiom/qwen38_kv_tier.h).
 */
module KvLayout {
  import opened Common

  const TWO_32: nat := 0x1_0000_0000
  const TWO_64: nat := 0x1_0000_0000_0000_0000
  const PAGE_TOKENS: nat := 256
  const TARGET_LAYERS: nat := 16
  const DSPARK_LAYERS: nat := 5
  const PAGE_BYTES: nat := 524288
  const COMBINED_PAGE_BYTES: nat := 11010048
  const HEADER_BYTES: nat := 4096
  const TARGET: nat := 1
  const DSPARK: nat := 2

  type Uint32 = x: int | 0 <= x < 0x1_0000_0000
  type Uint64 = x: int | 0 <= x < 0x1_0000_0000_0000_0000

  datatype Plan = Plan(maxContext: Uint32, logicalPages: Uint32, hotPages: Uint32, hotTokens: Uint32,
                       targetPayload: Uint64, dsparkPayload: Uint64, payload: Uint64, fileBytes: Uint64,
                       hotDeviceBytes: Uint64)

  datatype PlanResult = Planned(plan: Plan) | PlanInvalid | PlanBudget

  function CheckedAdd(a: Uint64, b: Uint64): Option<Uint64> {
    if b > TWO_64 - 1 - a then None else Some(a + b)
  }

  function CheckedMul(a: Uint64, b: Uint64): (r: Option<Uint64>)
    ensures r == if a * b < TWO_64 then Some(a * b) else None
  {
    if a == 0 then Some(0)
    else
      MulLimit(a, b);
      if b > (TWO_64 - 1) / a then None else Some(a * b)
  }

  /** The division test of checked_mul is exact. */
  lemma MulLimit(a: nat, b: nat)
    requires 0 < a < TWO_64
    ensures b > (TWO_64 - 1) / a <==> a * b >= TWO_64
  {
    var q := (TWO_64 - 1) / a;
    assert a * q <= TWO_64 - 1 < a * (q + 1);
    if b > q {
      assert a * b >= a * (q + 1);
    } else {
      assert a * b <= a * q;
    }
  }

  function LogicalPages(maxContext: Uint32): Uint32 {
    (maxContext + PAGE_TOKENS - 1) / PAGE_TOKENS
  }

  /** kv_tier_plan_get; `hotTokens` is a 32-bit product. */
  function PlanGet(maxContext: Uint32, hotPages: Uint32): PlanResult {
    if maxContext == 0 then PlanInvalid
    else
      var pages := LogicalPages(maxContext);
      if hotPages > pages then PlanInvalid
      else
        match (CheckedMul(pages, PAGE_BYTES), CheckedMul(hotPages, COMBINED_PAGE_BYTES))
        case (Some(layer), Some(hot)) =>
          (match (CheckedMul(layer, TARGET_LAYERS), CheckedMul(layer, DSPARK_LAYERS))
           case (Some(target), Some(dspark)) =>
             (match CheckedAdd(target, dspark)
              case Some(payload) =>
                (match CheckedAdd(HEADER_BYTES, payload)
                 case Some(file) =>
                   Planned(Plan(maxContext, pages, hotPages, (hotPages * PAGE_TOKENS) % TWO_32,
                                target, dspark, payload, file, hot))
                 case None => PlanBudget)
              case None => PlanBudget)
           case _ => PlanBudget)
        case _ => PlanBudget
  }

  function LayersOf(family: nat): nat {
    if family == TARGET then TARGET_LAYERS else if family == DSPARK then DSPARK_LAYERS else 0
  }

  /** page_offset_for_plan, which axiom_qwen38_kv_tier_page_offset repeats line for line. */
  function PageOffset(plan: Plan, family: Uint32, layer: Uint32, page: Uint32): Option<Uint64> {
    if page >= plan.logicalPages || layer >= LayersOf(family) then None
    else
      match (if family == DSPARK then CheckedAdd(HEADER_BYTES, plan.targetPayload) else Some(HEADER_BYTES))
      case None => None
      case Some(start) =>
        match CheckedMul(plan.logicalPages, PAGE_BYTES)
        case None => None
        case Some(span) =>
          match CheckedMul(layer, span)
          case None => None
          case Some(within) =>
            match (CheckedAdd(start, within), CheckedMul(page, PAGE_BYTES))
            case (Some(offset), Some(inner)) => CheckedAdd(offset, inner)
            case _ => None
  }

  /** Position of a record in file order: layer-major, then page-major, target family first. */
  function Rank(pages: nat, family: nat, layer: nat, page: nat): nat {
    (if family == DSPARK then TARGET_LAYERS + layer else layer) * pages + page
  }

  ghost predicate InRange(plan: Plan, family: nat, layer: nat, page: nat) {
    page < plan.logicalPages && layer < LayersOf(family)
  }

  /** The shape of every plan that PlanGet accepts. */
  ghost predicate Accepted(plan: Plan) {
    && 0 < plan.logicalPages <= 0x100_0000
    && plan.targetPayload == TARGET_LAYERS * (plan.logicalPages * PAGE_BYTES)
    && plan.fileBytes == HEADER_BYTES + (TARGET_LAYERS + DSPARK_LAYERS) * (plan.logicalPages * PAGE_BYTES)
  }

  /** Planning never runs out of 64 bits: it rejects exactly the two malformed requests, and the
      file is the header followed by one record per layer and page. */
  lemma PlanGetExact(maxContext: Uint32, hotPages: Uint32)
    ensures PlanGet(maxContext, hotPages).Planned? <==> maxContext != 0 && hotPages <= LogicalPages(maxContext)
    ensures !PlanGet(maxContext, hotPages).PlanBudget?
    ensures PlanGet(maxContext, hotPages).Planned? ==>
              var plan := PlanGet(maxContext, hotPages).plan;
              && Accepted(plan)
              && (plan.logicalPages - 1) * PAGE_TOKENS < maxContext <= plan.logicalPages * PAGE_TOKENS
  {
    assert LogicalPages(maxContext) <= 0x100_0000;
  }

  /** The one 32-bit product that can wrap: all 2^24 pages kept hot report zero hot tokens. */
  lemma HotTokensWrap(maxContext: Uint32, hotPages: Uint32)
    requires PlanGet(maxContext, hotPages).Planned?
    ensures PlanGet(maxContext, hotPages).plan.hotTokens == hotPages * PAGE_TOKENS <==> hotPages < 0x100_0000
  {
    PlanGetExact(maxContext, hotPages);
  }

  function Row(family: nat, layer: nat): nat {
    if family == DSPARK then TARGET_LAYERS + layer else layer
  }

  lemma RowMajorOrder(pages: nat, row: nat, page: nat, row': nat, page': nat)
    requires page < pages && page' < pages && row < row'
    ensures row * pages + page < row' * pages + page'
  {
    assert (row + 1) * pages <= row' * pages;
  }

  lemma RowBelow(pages: nat, row: nat, page: nat, rows: nat)
    requires row * pages + page < rows * pages
    ensures row < rows
  {
    if rows <= row {
      MulMonotone(rows, row, pages);
      assert false;
    }
  }

  lemma MulMonotone(a: nat, b: nat, k: nat)
    requires a <= b
    ensures a * k <= b * k
  {
  }

  lemma RankBound(pages: nat, family: nat, layer: nat, page: nat)
    requires page < pages && layer < LayersOf(family)
    ensures Rank(pages, family, layer, page) < (TARGET_LAYERS + DSPARK_LAYERS) * pages
  {
    RowMajorOrder(pages, Row(family, layer), page, TARGET_LAYERS + DSPARK_LAYERS, 0);
  }

  lemma RankInjective(pages: nat, f: nat, l: nat, p: nat, f': nat, l': nat, p': nat)
    requires p < pages && l < LayersOf(f) && p' < pages && l' < LayersOf(f')
    requires (f, l, p) != (f', l', p')
    ensures Rank(pages, f, l, p) != Rank(pages, f', l', p')
  {
    if Row(f, l) < Row(f', l') {
      RowMajorOrder(pages, Row(f, l), p, Row(f', l'), p');
    } else if Row(f', l') < Row(f, l) {
      RowMajorOrder(pages, Row(f', l'), p', Row(f, l), p);
    }
  }

  lemma LayerSpan(pages: nat, layer: nat)
    requires pages <= 0x100_0000 && layer < TARGET_LAYERS
    ensures layer * (pages * PAGE_BYTES) == (layer * pages) * PAGE_BYTES
    ensures layer * pages <= TARGET_LAYERS * pages
    ensures (TARGET_LAYERS + layer) * pages == TARGET_LAYERS * pages + layer * pages
  {
  }

  /** A lookup succeeds exactly for a record of the plan, and then no overflow test ever fires:
      the record starts `Rank` records after the header. */
  lemma PageOffsetExact(plan: Plan, family: Uint32, layer: Uint32, page: Uint32)
    requires Accepted(plan)
    ensures PageOffset(plan, family, layer, page) ==
            if InRange(plan, family, layer, page)
            then Some(HEADER_BYTES + Rank(plan.logicalPages, family, layer, page) * PAGE_BYTES)
            else None
  {
    if InRange(plan, family, layer, page) {
      LayerSpan(plan.logicalPages, layer);
      var start := if family == DSPARK then HEADER_BYTES + plan.targetPayload else HEADER_BYTES;
      var offset := start + (layer * plan.logicalPages) * PAGE_BYTES;
      assert offset + page * PAGE_BYTES < TWO_64;
      assert PageOffset(plan, family, layer, page) == Some(offset + page * PAGE_BYTES);
    }
  }

  /** Record ranges of different records never overlap. */
  lemma RecordsDisjoint(plan: Plan, f: Uint32, l: Uint32, p: Uint32, f': Uint32, l': Uint32, p': Uint32)
    requires Accepted(plan) && InRange(plan, f, l, p) && InRange(plan, f', l', p')
    requires (f, l, p) != (f', l', p')
    ensures var a, b := PageOffset(plan, f, l, p), PageOffset(plan, f', l', p');
            a.Some? && b.Some? && (a.value + PAGE_BYTES <= b.value || b.value + PAGE_BYTES <= a.value)
  {
    PageOffsetExact(plan, f, l, p);
    PageOffsetExact(plan, f', l', p');
    RankInjective(plan.logicalPages, f, l, p, f', l', p');
  }

  lemma BlockAligned(n: nat)
    ensures (n * HEADER_BYTES) % HEADER_BYTES == 0
  {
  }

  /** Every record is block-aligned and lies between the header and the end of the file. */
  lemma RecordInFile(plan: Plan, f: Uint32, l: Uint32, p: Uint32)
    requires Accepted(plan) && InRange(plan, f, l, p)
    ensures var a := PageOffset(plan, f, l, p);
            && a.Some? && a.value % HEADER_BYTES == 0
            && HEADER_BYTES <= a.value && a.value + PAGE_BYTES <= plan.fileBytes
  {
    PageOffsetExact(plan, f, l, p);
    RankBound(plan.logicalPages, f, l, p);
    var rank := Rank(plan.logicalPages, f, l, p);
    assert HEADER_BYTES + rank * PAGE_BYTES == (1 + 128 * rank) * HEADER_BYTES;
    BlockAligned(1 + 128 * rank);
  }

  lemma Unrank(pages: nat, rank: nat) returns (family: Uint32, layer: nat, page: nat)
    requires 0 < pages && rank < (TARGET_LAYERS + DSPARK_LAYERS) * pages
    ensures page < pages && layer < LayersOf(family) && Rank(pages, family, layer, page) == rank
  {
    var row := rank / pages;
    page := rank % pages;
    assert rank == row * pages + page;
    RowBelow(pages, row, page, TARGET_LAYERS + DSPARK_LAYERS);
    family := if row < TARGET_LAYERS then TARGET else DSPARK;
    layer := if row < TARGET_LAYERS then row else row - TARGET_LAYERS;
  }

  /** Every byte after the header lies in the record this lemma returns: the records tile the file. */
  lemma RecordsTile(plan: Plan, byte: nat) returns (family: Uint32, layer: Uint32, page: Uint32)
    requires Accepted(plan) && HEADER_BYTES <= byte < plan.fileBytes
    ensures InRange(plan, family, layer, page)
    ensures var a := PageOffset(plan, family, layer, page);
            a.Some? && a.value <= byte < a.value + PAGE_BYTES
  {
    var rank := (byte - HEADER_BYTES) / PAGE_BYTES;
    var l, p;
    family, l, p := Unrank(plan.logicalPages, rank);
    layer, page := l, p;
    PageOffsetExact(plan, family, layer, page);
  }
}
