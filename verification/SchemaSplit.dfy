/**
 What lower_schema_alternatives of tools/axiom_codex_schema.h distributes a schema into, and which schemas it can
 distribute, as functions of the schema and `check`.
 */
module SchemaSplit {
  import opened Common
  import opened Json
  import opened Schema
  import opened SchemaForm
  import opened SchemaLowering

  // ------------------------------------------------------- what is distributed

  /** A union without sibling assertions. */
  predicate OnlyUnion(source: Json) {
    source.Obj? && forall i | 0 <= i < |source.members| :: source.members[i].0 == "anyOf" || IsAnnotation(source.members[i].0)
  }

  /** The schema is compiled as it stands. */
  predicate Whole(s: Json, check: Json -> bool, depth: nat) { Everywhere(s, depth, Accepted(check)) }

  /** The check that distribution uses for the node without its properties. */
  function AllPass(): Json -> bool { (s: Json) => true }

  /** What distribution knows about compiling: `check`, which schemas compile under it, and which compile when
      everything passes. */
  datatype Compiler = Compiler(check: Json -> bool, compiles: (Json, nat) -> bool, compilesBare: (Json, nat) -> bool)

  function Compiled(check: Json -> bool): (Json, nat) -> bool { (s: Json, depth: nat) => Whole(s, check, depth) }

  function CompilerOf(check: Json -> bool): Compiler { Compiler(check, Compiled(check), Compiled(AllPass())) }

  ghost predicate Tells(compiles: (Json, nat) -> bool, check: Json -> bool) {
    forall s, d :: Wf(s) ==> (compiles(s, d) <==> FailureAt(s, check, d).None?)
  }

  ghost predicate Describes(c: Compiler) { Tells(c.compiles, c.check) && Tells(c.compilesBare, AllPass()) }

  lemma CompiledTells(check: Json -> bool)
    ensures Tells(Compiled(check), check)
  {
    forall s, d | Wf(s) ensures Compiled(check)(s, d) <==> FailureAt(s, check, d).None? { SucceedsIff(s, check, d); }
  }

  lemma CompilerDescribes(check: Json -> bool)
    ensures Describes(CompilerOf(check))
  {
    CompiledTells(check);
    CompiledTells(AllPass());
  }

  /** The annotations among the first `n` members of a union, copied onto one alternative. */
  function Labelled(branch: Json, source: Json, n: nat): (r: Json)
    requires source.Obj? && n <= |source.members|
    ensures branch.Obj? ==> r.Obj?
  {
    if n == 0 then branch
    else if source.members[n - 1].0 == "anyOf" then Labelled(branch, source, n - 1)
    else Set(Labelled(branch, source, n - 1), source.members[n - 1].0, source.members[n - 1].1)
  }

  function LabelledAll(alternatives: seq<Json>, source: Json): (r: seq<Json>)
    requires source.Obj?
    ensures |r| == |alternatives|
  {
    if alternatives == [] then []
    else LabelledAll(alternatives[..|alternatives| - 1], source) + [Labelled(alternatives[|alternatives| - 1], source, |source.members|)]
  }

  function PropsOf(o: Json): Json {
    Get(o, "properties").GetOr(Null)
  }

  /** One parent with one more property. */
  function WithChild(parent: Json, key: string, child: Json): Json {
    Set(parent, "properties", Set(PropsOf(parent), key, child))
  }

  function WithEach(parent: Json, key: string, choices: seq<Json>): (r: seq<Json>)
    ensures |r| == |choices|
  {
    if choices == [] then []
    else WithEach(parent, key, choices[..|choices| - 1]) + [WithChild(parent, key, choices[|choices| - 1])]
  }

  /** Every parent with every choice for one more property. */
  function Product(parents: seq<Json>, key: string, choices: seq<Json>): (r: seq<Json>)
    ensures |r| == |parents| * |choices|
  {
    if parents == [] then []
    else
      assert |parents| * |choices| == (|parents| - 1) * |choices| + |choices|;
      Product(parents[..|parents| - 1], key, choices) + WithEach(parents[|parents| - 1], key, choices)
  }

  /** The node without its properties. */
  function Bare(s: Json): Json {
    if KeywordsOf(s).properties.Some? then Set(s, "properties", Obj([])) else s
  }

  predicate HasProperties(s: Json) {
    var k := KeywordsOf(s);
    k.properties.Some? && k.properties.value.Obj?
  }

  /** The alternatives: the compiled schema alone, those of all branches of a union, or one for each way to choose an
      alternative for every property. */
  function Split(s: Json, c: Compiler, depth: nat): seq<Json>
    decreases s, 0
  {
    if c.compiles(s, depth) then [Form(s)]
    else if HasUnion(s) then
      var bs := KeywordsOf(s).anyOf.value;
      SplitBranches(s, bs, c, depth + 1, |bs.items|)
    else if HasProperties(s) then
      var ps := KeywordsOf(s).properties.value;
      SplitMembers(Form(Bare(s)), ps, c, depth + 1, |ps.members|)
    else []
  }

  function SplitPart(x: Json, c: Compiler, depth: nat): seq<Json>
    decreases x, 1
  {
    Split(x, c, depth)
  }

  function SplitBranches(s: Json, bs: Json, c: Compiler, depth: nat, n: nat): seq<Json>
    requires s.Obj? && bs.Arr? && n <= |bs.items|
    decreases bs, 2, n
  {
    if n == 0 then []
    else SplitBranches(s, bs, c, depth, n - 1) + LabelledAll(SplitPart(bs.items[n - 1], c, depth), s)
  }

  function SplitMembers(base: Json, ps: Json, c: Compiler, depth: nat, n: nat): seq<Json>
    requires ps.Obj? && n <= |ps.members|
    decreases ps, 2, n
  {
    if n == 0 then [base]
    else Product(SplitMembers(base, ps, c, depth, n - 1), ps.members[n - 1].0, SplitPart(ps.members[n - 1].1, c, depth))
  }

  // ------------------------------------------------------- what can be distributed

  /** The schema is compiled as it stands, or distributed. */
  predicate Divisible(s: Json, c: Compiler, depth: nat)
    decreases s, 2
  {
    c.compiles(s, depth) || Divides(s, c, depth)
  }

  predicate DivisiblePart(x: Json, c: Compiler, depth: nat)
    decreases x, 3
  {
    Divisible(x, c, depth)
  }

  predicate Divides(s: Json, c: Compiler, depth: nat)
    decreases s, 1
  {
    && depth <= MAX_DEPTH && s.Obj? && SyntaxOk(s)
    && if KeywordsOf(s).anyOf.Some? then DividesUnion(s, c, depth) else DividesProperties(s, c, depth)
  }

  /** The branch is compiled and names its values. */
  predicate Listed(b: Json, c: Compiler, depth: nat) { c.compiles(b, depth) && NamesValues(b) }

  /** A union with nothing beside it, every branch of which can be distributed, and not all of them listed. */
  predicate DividesUnion(s: Json, c: Compiler, depth: nat)
    requires s.Obj?
    decreases s, 0
  {
    && NonEmptyUnion(s) && OnlyUnion(s) && c.check(Siblings(s))
    && var bs := KeywordsOf(s).anyOf.value;
       && (forall j | 0 <= j < |bs.items| :: DivisiblePart(bs.items[j], c, depth + 1))
       && exists j | 0 <= j < |bs.items| :: !Listed(bs.items[j], c, depth + 1)
  }

  /** A node that compiles without its properties, every one of which can be distributed, not all of them compiled, and
      `check` passes all alternatives. */
  predicate DividesProperties(s: Json, c: Compiler, depth: nat)
    decreases s, 0
  {
    && HasProperties(s) && c.compilesBare(Bare(s), depth)
    && var ps := KeywordsOf(s).properties.value;
       && (forall i | 0 <= i < |ps.members| :: DivisiblePart(ps.members[i].1, c, depth + 1))
       && (exists i | 0 <= i < |ps.members| :: !c.compiles(ps.members[i].1, depth + 1))
       && forall a | a in Split(s, c, depth) :: c.check(a)
  }

  /** How many: the sum over the branches of a union, the product over the properties of a node. */
  function Width(s: Json, c: Compiler, depth: nat): nat
    decreases s, 0
  {
    if c.compiles(s, depth) then 1
    else if HasUnion(s) then
      var bs := KeywordsOf(s).anyOf.value;
      WidthSum(bs, c, depth + 1, |bs.items|)
    else if HasProperties(s) then
      var ps := KeywordsOf(s).properties.value;
      WidthProduct(ps, c, depth + 1, |ps.members|)
    else 0
  }

  function WidthPart(x: Json, c: Compiler, depth: nat): nat
    decreases x, 1
  {
    Width(x, c, depth)
  }

  function WidthSum(bs: Json, c: Compiler, depth: nat, n: nat): nat
    requires bs.Arr? && n <= |bs.items|
    decreases bs, 2, n
  {
    if n == 0 then 0 else WidthSum(bs, c, depth, n - 1) + WidthPart(bs.items[n - 1], c, depth)
  }

  function WidthProduct(ps: Json, c: Compiler, depth: nat, n: nat): nat
    requires ps.Obj? && n <= |ps.members|
    decreases ps, 2, n
  {
    if n == 0 then 1 else WidthProduct(ps, c, depth, n - 1) * WidthPart(ps.members[n - 1].1, c, depth)
  }

  lemma {:induction false} SplitWidth(s: Json, c: Compiler, depth: nat)
    ensures |Split(s, c, depth)| == Width(s, c, depth)
    decreases s, 0
  {
    if !c.compiles(s, depth) {
      if HasUnion(s) {
        var bs := KeywordsOf(s).anyOf.value;
        BranchesWidth(s, bs, c, depth + 1, |bs.items|);
      } else if HasProperties(s) {
        var ps := KeywordsOf(s).properties.value;
        MembersWidth(Form(Bare(s)), ps, c, depth + 1, |ps.members|);
      }
    }
  }

  lemma {:induction false} PartWidth(x: Json, c: Compiler, depth: nat)
    ensures |SplitPart(x, c, depth)| == WidthPart(x, c, depth)
    decreases x, 1
  {
    SplitWidth(x, c, depth);
  }

  lemma {:induction false} BranchesWidth(s: Json, bs: Json, c: Compiler, depth: nat, n: nat)
    requires s.Obj? && bs.Arr? && n <= |bs.items|
    ensures |SplitBranches(s, bs, c, depth, n)| == WidthSum(bs, c, depth, n)
    decreases bs, 2, n
  {
    if n > 0 {
      BranchesWidth(s, bs, c, depth, n - 1);
      PartWidth(bs.items[n - 1], c, depth);
    }
  }

  lemma {:induction false} MembersWidth(base: Json, ps: Json, c: Compiler, depth: nat, n: nat)
    requires ps.Obj? && n <= |ps.members|
    ensures |SplitMembers(base, ps, c, depth, n)| == WidthProduct(ps, c, depth, n)
    decreases ps, 2, n
  {
    if n > 0 {
      MembersWidth(base, ps, c, depth, n - 1);
      PartWidth(ps.members[n - 1].1, c, depth);
    }
  }

  // --------------------------------------------- distribution and the first failure

  /** Whatever satisfies `p` satisfies `q` also `k` levels further up, or down if `k` is negative. */
  ghost predicate Implies(p: (Json, nat) -> bool, q: (Json, nat) -> bool, k: int) {
    forall t, d: nat {:trigger q(t, d)} :: d + k >= 0 && p(t, d + k) ==> q(t, d)
  }

  lemma {:induction false} EverywhereImplies(s: Json, depth: nat, p: (Json, nat) -> bool, q: (Json, nat) -> bool, k: int)
    requires Implies(p, q, k) && depth + k >= 0 && Everywhere(s, depth + k, p)
    ensures Everywhere(s, depth, q)
    decreases s, 2
  {
    if s.Obj? {
      NodeImplies(s, depth + 1, p, q, k);
      UnionImplies(s, depth + 1, p, q, k);
    }
  }

  lemma {:induction false} NodeImplies(s: Json, depth: nat, p: (Json, nat) -> bool, q: (Json, nat) -> bool, k: int)
    requires Implies(p, q, k) && depth + k >= 0 && BelowNode(s, depth + k, p)
    ensures BelowNode(s, depth, q)
    decreases s, 1
  {
    var w := KeywordsOf(s);
    if HasProperties(s) { MembersImply(w.properties.value, depth, p, q, k, |w.properties.value.members|); }
    if w.items.Some? { EverywhereImplies(w.items.value, depth, p, q, k); }
    if w.additional.Some? && !w.additional.value.Bool? { EverywhereImplies(w.additional.value, depth, p, q, k); }
  }

  lemma {:induction false} UnionImplies(s: Json, depth: nat, p: (Json, nat) -> bool, q: (Json, nat) -> bool, k: int)
    requires Implies(p, q, k) && depth + k >= 0 && BelowUnion(s, depth + k, p)
    ensures BelowUnion(s, depth, q)
    decreases s, 1
  {
    if HasUnion(s) {
      var bs := KeywordsOf(s).anyOf.value;
      BranchesImply(bs, depth, p, q, k, |bs.items|);
    }
  }

  lemma {:induction false} MembersImply(ps: Json, depth: nat, p: (Json, nat) -> bool, q: (Json, nat) -> bool, k: int, n: nat)
    requires ps.Obj? && n <= |ps.members| && Implies(p, q, k) && depth + k >= 0 && InMembers(ps, depth + k, p, n)
    ensures InMembers(ps, depth, q, n)
    decreases ps, 3, n
  {
    if n > 0 {
      MembersImply(ps, depth, p, q, k, n - 1);
      EverywhereImplies(ps.members[n - 1].1, depth, p, q, k);
    }
  }

  lemma {:induction false} BranchesImply(bs: Json, depth: nat, p: (Json, nat) -> bool, q: (Json, nat) -> bool, k: int, n: nat)
    requires bs.Arr? && n <= |bs.items| && Implies(p, q, k) && depth + k >= 0 && InBranches(bs, depth + k, p, n)
    ensures InBranches(bs, depth, q, n)
    decreases bs, 3, n
  {
    if n > 0 {
      BranchesImply(bs, depth, p, q, k, n - 1);
      EverywhereImplies(bs.items[n - 1], depth, p, q, k);
    }
  }

  lemma AcceptedIsFinite(check: Json -> bool, k: int)
    ensures Implies(Accepted(check), Finite(), k)
  {
  }

  lemma AcceptedFits(check: Json -> bool, k: nat)
    ensures Implies(Accepted(check), Fitting(), k)
  {
  }

  lemma AcceptedPasses(check: Json -> bool, check': Json -> bool, k: nat)
    requires forall s :: check'(s)
    ensures Implies(Accepted(check), Accepted(check'), k)
  {
  }

  /** What compiles under one check never fails for want of finitely many values under another. */
  lemma WholeIsFinite(s: Json, check: Json -> bool, check': Json -> bool, depth: nat)
    requires Wf(s) && FirstFailure(s, check', depth).None?
    ensures FirstFailure(s, check, depth) != Some(NonFinite)
  {
    SucceedsIff(s, check', depth);
    AcceptedIsFinite(check', 0);
    EverywhereImplies(s, depth, Accepted(check'), Finite(), 0);
    FiniteIsRefused(s, check, depth);
  }

  /** The failure of a part that can be distributed. */
  function PartFailure(x: Json, c: Compiler, depth: nat): Option<Failure> { Unless(c.compiles(x, depth), NonFinite) }

  lemma {:induction false} DivisibleFailure(x: Json, c: Compiler, depth: nat)
    requires Describes(c) && Wf(x) && Divisible(x, c, depth)
    ensures FirstFailure(x, c.check, depth) == PartFailure(x, c, depth)
    decreases x, 3
  {
    if !c.compiles(x, depth) { DividesFailure(x, c, depth); }
  }

  lemma {:induction false} DividesFailure(s: Json, c: Compiler, depth: nat)
    requires Describes(c) && Wf(s) && Divides(s, c, depth)
    ensures FirstFailure(s, c.check, depth) == Some(NonFinite)
    decreases s, 2
  {
    if KeywordsOf(s).anyOf.Some? { DividedUnion(s, c, depth); } else { DividedProperties(s, c, depth); }
  }

  lemma OnlyUnionLacks(source: Json, key: string)
    requires OnlyUnion(source) && key != "anyOf" && !IsAnnotation(key)
    ensures Get(source, key).None?
  {
  }

  lemma OnlyUnionChildless(s: Json)
    requires OnlyUnion(s)
    ensures !HasChildren(s) && Node(s) == s
  {
    assert !IsAnnotation("properties") && !IsAnnotation("items") && !IsAnnotation("additionalProperties");
    OnlyUnionLacks(s, "properties");
    OnlyUnionLacks(s, "items");
    OnlyUnionLacks(s, "additionalProperties");
    BareNode(s);
  }

  lemma UnionIsNonFinite(s: Json, bs: Json, check: Json -> bool, depth: nat)
    requires depth <= MAX_DEPTH && s.Obj? && SyntaxOk(s) && NonEmptyUnion(s) && KeywordsOf(s).anyOf == Some(bs)
    requires Node(s) == s && check(Siblings(s)) && ChildFailure(s, check, depth + 1).None?
    requires BranchesFailure(bs, check, depth + 1, |bs.items|) == Some(NonFinite)
    ensures FirstFailure(s, check, depth) == Some(NonFinite)
  {
  }

  lemma {:induction false} SomeNotListed(bs: Json, c: Compiler, depth: nat, j: nat)
    requires Describes(c) && bs.Arr? && Wf(bs) && j < |bs.items|
    ensures (forall j :: 0 <= j < |bs.items| ==> DivisiblePart(bs.items[j], c, depth)) && !Listed(bs.items[j], c, depth) ==>
              BranchesFailure(bs, c.check, depth, |bs.items|) == Some(NonFinite)
    decreases bs, 4
  {
    DividedBranches(bs, c, depth, |bs.items|);
    DividedBranch(bs.items[j], c, depth);
    match BranchesFailure(bs, c.check, depth, |bs.items|)
    case None => NoBranchFails(bs, c.check, depth, |bs.items|, j);
    case Some(NonFinite) =>
    case Some(Refused) =>
  }

  lemma {:induction false} DividedUnion(s: Json, c: Compiler, depth: nat)
    requires Describes(c) && Wf(s) && Divides(s, c, depth) && KeywordsOf(s).anyOf.Some?
    ensures FirstFailure(s, c.check, depth) == Some(NonFinite)
    decreases s, 1
  {
    var bs := KeywordsOf(s).anyOf.value;
    OnlyUnionChildless(s);
    Childless(s, c.check, depth + 1);
    GetWf(s, "anyOf");
    var j :| 0 <= j < |bs.items| && !Listed(bs.items[j], c, depth + 1);
    SomeNotListed(bs, c, depth + 1, j);
    UnionIsNonFinite(s, bs, c.check, depth);
  }

  lemma {:induction false} DividedBranch(b: Json, c: Compiler, depth: nat)
    requires Describes(c) && Wf(b)
    ensures DivisiblePart(b, c, depth) ==> BranchFailure(b, c.check, depth) == Unless(Listed(b, c, depth), NonFinite)
    decreases b, 4
  {
    if Divisible(b, c, depth) { DivisibleFailure(b, c, depth); }
  }

  lemma {:induction false} DividedBranches(bs: Json, c: Compiler, depth: nat, n: nat)
    requires Describes(c) && bs.Arr? && Wf(bs) && n <= |bs.items|
    ensures (forall j :: 0 <= j < n ==> DivisiblePart(bs.items[j], c, depth)) ==> BranchesFailure(bs, c.check, depth, n) != Some(Refused)
    decreases bs, 3, n
  {
    if n > 0 {
      DividedBranches(bs, c, depth, n - 1);
      DividedBranch(bs.items[n - 1], c, depth);
    }
  }

  lemma {:induction false} DividedMember(x: Json, c: Compiler, depth: nat)
    requires Describes(c) && Wf(x)
    ensures DivisiblePart(x, c, depth) ==> FailureAt(x, c.check, depth) == PartFailure(x, c, depth)
    decreases x, 4
  {
    if Divisible(x, c, depth) { DivisibleFailure(x, c, depth); }
  }

  lemma {:induction false} DividedMembers(ps: Json, c: Compiler, depth: nat, n: nat)
    requires Describes(c) && ps.Obj? && Wf(ps) && n <= |ps.members|
    ensures (forall i :: 0 <= i < n ==> DivisiblePart(ps.members[i].1, c, depth)) ==> MembersFailure(ps, c.check, depth, n) != Some(Refused)
    decreases ps, 3, n
  {
    if n > 0 {
      DividedMembers(ps, c, depth, n - 1);
      DividedMember(ps.members[n - 1].1, c, depth);
    }
  }

  lemma {:induction false} NoMemberFails(ps: Json, check: Json -> bool, depth: nat, n: nat, i: nat)
    requires ps.Obj? && i < n <= |ps.members| && MembersFailure(ps, check, depth, n).None?
    ensures FailureAt(ps.members[i].1, check, depth).None?
    decreases n
  {
    if i < n - 1 { NoMemberFails(ps, check, depth, n - 1, i); }
  }

  lemma {:induction false} SomeNotWhole(ps: Json, c: Compiler, depth: nat, i: nat)
    requires Describes(c) && ps.Obj? && Wf(ps) && i < |ps.members|
    ensures (forall j :: 0 <= j < |ps.members| ==> DivisiblePart(ps.members[j].1, c, depth)) && !c.compiles(ps.members[i].1, depth) ==>
              MembersFailure(ps, c.check, depth, |ps.members|) == Some(NonFinite)
    decreases ps, 4
  {
    DividedMembers(ps, c, depth, |ps.members|);
    DividedMember(ps.members[i].1, c, depth);
    match MembersFailure(ps, c.check, depth, |ps.members|)
    case None => NoMemberFails(ps, c.check, depth, |ps.members|, i);
    case Some(NonFinite) =>
    case Some(Refused) =>
  }

  lemma PropertiesAreNonFinite(s: Json, ps: Json, check: Json -> bool, depth: nat)
    requires depth <= MAX_DEPTH && s.Obj? && SyntaxOk(s) && KeywordsOf(s).properties == Some(ps) && ps.Obj?
    requires MembersFailure(ps, check, depth + 1, |ps.members|) == Some(NonFinite)
    ensures FirstFailure(s, check, depth) == Some(NonFinite)
  {
    assert PropertiesFailure(s, check, depth + 1) == Some(NonFinite);
    assert ChildFailure(s, check, depth + 1) == Some(NonFinite);
  }

  lemma {:induction false} DividedProperties(s: Json, c: Compiler, depth: nat)
    requires Describes(c) && Wf(s) && Divides(s, c, depth) && KeywordsOf(s).anyOf.None?
    ensures FirstFailure(s, c.check, depth) == Some(NonFinite)
    decreases s, 1
  {
    var ps := KeywordsOf(s).properties.value;
    GetWf(s, "properties");
    var i :| 0 <= i < |ps.members| && !c.compiles(ps.members[i].1, depth + 1);
    SomeNotWhole(ps, c, depth + 1, i);
    PropertiesAreNonFinite(s, ps, c.check, depth);
  }

  // --------------------------------------------- where compiling failed so

  lemma UnionFailed(s: Json, bs: Json, check: Json -> bool, depth: nat)
    requires s.Obj? && KeywordsOf(s).anyOf == Some(bs) && Node(s) == s && ChildFailure(s, check, depth + 1).None?
    requires FirstFailure(s, check, depth) == Some(NonFinite)
    ensures depth <= MAX_DEPTH && SyntaxOk(s) && NonEmptyUnion(s) && check(Siblings(s))
    ensures BranchesFailure(bs, check, depth + 1, |bs.items|).Some?
  {
  }

  lemma BranchNotListed(bs: Json, c: Compiler, depth: nat) returns (j: nat)
    requires Describes(c) && bs.Arr? && Wf(bs) && BranchesFailure(bs, c.check, depth, |bs.items|).Some?
    ensures j < |bs.items| && !Listed(bs.items[j], c, depth)
  {
    j := SomeBranchFails(bs, c.check, depth, |bs.items|);
  }

  /** A bare union that fails for want of finitely many values is distributed if its branches are. */
  lemma UnionDivides(s: Json, c: Compiler, depth: nat)
    requires Describes(c) && Wf(s) && OnlyUnion(s) && KeywordsOf(s).anyOf.Some? && FirstFailure(s, c.check, depth) == Some(NonFinite)
    ensures NonEmptyUnion(s)
    ensures var bs := KeywordsOf(s).anyOf.value;
            Divides(s, c, depth) <==> forall j :: 0 <= j < |bs.items| ==> DivisiblePart(bs.items[j], c, depth + 1)
  {
    var bs := KeywordsOf(s).anyOf.value;
    OnlyUnionChildless(s);
    Childless(s, c.check, depth + 1);
    UnionFailed(s, bs, c.check, depth);
    GetWf(s, "anyOf");
    var j := BranchNotListed(bs, c, depth + 1);
  }

  lemma {:induction false} SomeMemberFails(ps: Json, check: Json -> bool, depth: nat, n: nat) returns (i: nat)
    requires ps.Obj? && n <= |ps.members| && MembersFailure(ps, check, depth, n).Some?
    ensures i < n && FailureAt(ps.members[i].1, check, depth).Some?
    decreases n
  {
    if MembersFailure(ps, check, depth, n - 1).Some? {
      i := SomeMemberFails(ps, check, depth, n - 1);
    } else {
      i := n - 1;
    }
  }

  lemma MemberNotWhole(ps: Json, c: Compiler, depth: nat) returns (i: nat)
    requires Describes(c) && ps.Obj? && Wf(ps) && MembersFailure(ps, c.check, depth, |ps.members|).Some?
    ensures i < |ps.members| && !c.compiles(ps.members[i].1, depth)
  {
    i := SomeMemberFails(ps, c.check, depth, |ps.members|);
  }

  lemma BareKeywords(s: Json)
    requires s.Obj?
    ensures Bare(s).Obj? && KeywordsOf(Bare(s)) == KeywordsOf(s).(properties := KeywordsOf(Bare(s)).properties)
    ensures KeywordsOf(s).properties.Some? ==> KeywordsOf(Bare(s)).properties == Some(Obj([]))
    ensures KeywordsOf(s).properties.None? ==> Bare(s) == s
    ensures Wf(s) ==> Wf(Bare(s))
  {
    SetProperties(s, Obj([]));
    if Wf(s) { SetWf(s, "properties", Obj([])); }
  }

  lemma RestCompiles(s: Json, check: Json -> bool, depth: nat)
    requires s.Obj? && FirstFailure(s, check, depth).None?
    ensures ItemsFailure(s, check, depth + 1).None? && AdditionalFailure(s, check, depth + 1).None?
  {
  }

  /** Where the node compiles without its properties, items and additional properties are not what failed. */
  lemma RestIsFinite(s: Json, check: Json -> bool, check': Json -> bool, depth: nat)
    requires s.Obj? && Wf(s) && FirstFailure(Bare(s), check', depth).None?
    ensures ItemsFailure(s, check, depth + 1) != Some(NonFinite) && AdditionalFailure(s, check, depth + 1) != Some(NonFinite)
  {
    var k := KeywordsOf(s);
    BareKeywords(s);
    RestCompiles(Bare(s), check', depth);
    if k.items.Some? {
      GetWf(s, "items");
      WholeIsFinite(k.items.value, check, check', depth + 1);
    }
    if k.additional.Some? && !k.additional.value.Bool? {
      GetWf(s, "additionalProperties");
      WholeIsFinite(k.additional.value, check, check', depth + 1);
    }
  }

  lemma ChildNonFinite(s: Json, check: Json -> bool, depth: nat)
    requires s.Obj? && KeywordsOf(s).anyOf.None? && FirstFailure(s, check, depth) == Some(NonFinite)
    ensures depth <= MAX_DEPTH && SyntaxOk(s) && ChildFailure(s, check, depth + 1) == Some(NonFinite)
  {
  }

  lemma PropertiesFailed(s: Json, check: Json -> bool, depth: nat)
    requires ChildFailure(s, check, depth) == Some(NonFinite)
    requires ItemsFailure(s, check, depth) != Some(NonFinite) && AdditionalFailure(s, check, depth) != Some(NonFinite)
    ensures HasProperties(s) && var ps := KeywordsOf(s).properties.value; MembersFailure(ps, check, depth, |ps.members|).Some?
  {
    assert PropertiesFailure(s, check, depth) == Some(NonFinite);
  }

  /** Then a property is. */
  lemma SomePropertyFailed(s: Json, c: Compiler, depth: nat)
    requires Describes(c) && Wf(s) && s.Obj? && KeywordsOf(s).anyOf.None? && FirstFailure(s, c.check, depth) == Some(NonFinite)
    ensures c.compilesBare(Bare(s), depth) ==>
              HasProperties(s) && var ps := KeywordsOf(s).properties.value; exists i :: 0 <= i < |ps.members| && !c.compiles(ps.members[i].1, depth + 1)
  {
    if c.compilesBare(Bare(s), depth) {
      ChildNonFinite(s, c.check, depth);
      BareKeywords(s);
      RestIsFinite(s, c.check, AllPass(), depth);
      PropertiesFailed(s, c.check, depth + 1);
      GetWf(s, "properties");
      var i := MemberNotWhole(KeywordsOf(s).properties.value, c, depth + 1);
    }
  }

  /** A node without a union that fails for want of finitely many values is distributed if it compiles without its
      properties, each of them can be distributed and `check` passes the alternatives. */
  lemma PropertiesDivide(s: Json, c: Compiler, depth: nat)
    requires Describes(c) && Wf(s) && s.Obj? && KeywordsOf(s).anyOf.None? && FirstFailure(s, c.check, depth) == Some(NonFinite)
    ensures c.compilesBare(Bare(s), depth) ==> HasProperties(s)
    ensures Divides(s, c, depth) <==> c.compilesBare(Bare(s), depth) && PartsDivide(s, c, depth)
  {
    ChildNonFinite(s, c.check, depth);
    SomePropertyFailed(s, c, depth);
  }

  predicate PartsDivide(s: Json, c: Compiler, depth: nat) {
    && HasProperties(s)
    && var ps := KeywordsOf(s).properties.value;
       && (forall i | 0 <= i < |ps.members| :: DivisiblePart(ps.members[i].1, c, depth + 1))
       && forall a | a in Split(s, c, depth) :: c.check(a)
  }

  // ------------------------------------------------------------------- sizes

  /** Whatever can be distributed has an alternative. */
  lemma {:induction false} WidthPositive(s: Json, c: Compiler, depth: nat)
    requires Divisible(s, c, depth)
    ensures Width(s, c, depth) >= 1
    decreases s, 3
  {
    if !c.compiles(s, depth) {
      assert Divides(s, c, depth);
      if KeywordsOf(s).anyOf.Some? { SumPositive(s, c, depth); } else { ProductPositive(s, c, depth); }
    }
  }

  lemma {:induction false} SumPositive(s: Json, c: Compiler, depth: nat)
    requires s.Obj? && DividesUnion(s, c, depth)
    ensures HasUnion(s) && var bs := KeywordsOf(s).anyOf.value; WidthSum(bs, c, depth + 1, |bs.items|) >= 1
    decreases s, 2
  {
    var bs := KeywordsOf(s).anyOf.value;
    PartPositive(bs.items[0], c, depth + 1);
    assert WidthSum(bs, c, depth + 1, 1) >= 1;
    SumGrows(bs, c, depth + 1, 1, |bs.items|);
  }

  lemma {:induction false} ProductPositive(s: Json, c: Compiler, depth: nat)
    requires DividesProperties(s, c, depth)
    ensures HasProperties(s) && var ps := KeywordsOf(s).properties.value; WidthProduct(ps, c, depth + 1, |ps.members|) >= 1
    decreases s, 2
  {
    var ps := KeywordsOf(s).properties.value;
    ProductGrows(ps, c, depth + 1, 0, |ps.members|);
  }

  lemma {:induction false} PartPositive(x: Json, c: Compiler, depth: nat)
    ensures DivisiblePart(x, c, depth) ==> WidthPart(x, c, depth) >= 1
    decreases x, 4
  {
    if Divisible(x, c, depth) { WidthPositive(x, c, depth); }
  }

  lemma {:induction false} SumGrows(bs: Json, c: Compiler, depth: nat, i: nat, n: nat)
    requires bs.Arr? && i <= n <= |bs.items|
    ensures WidthSum(bs, c, depth, i) <= WidthSum(bs, c, depth, n)
    decreases n
  {
    if i < n { SumGrows(bs, c, depth, i, n - 1); }
  }

  lemma TimesPositive(a: nat, b: nat)
    requires a >= 1 && b >= 1
    ensures a <= a * b
  {
  }

  lemma {:induction false} ProductGrows(ps: Json, c: Compiler, depth: nat, i: nat, n: nat)
    requires ps.Obj? && i <= n <= |ps.members|
    ensures (forall j :: 0 <= j < n ==> DivisiblePart(ps.members[j].1, c, depth)) ==>
              1 <= WidthProduct(ps, c, depth, i) <= WidthProduct(ps, c, depth, n)
    decreases ps, 5, n
  {
    if n > 0 && (forall j :: 0 <= j < n ==> DivisiblePart(ps.members[j].1, c, depth)) {
      ProductGrows(ps, c, depth, if i < n then i else n - 1, n - 1);
      PartPositive(ps.members[n - 1].1, c, depth);
      TimesPositive(WidthProduct(ps, c, depth, n - 1), WidthPart(ps.members[n - 1].1, c, depth));
    }
  }

  // --------------------------------------------------------- one part after another

  /** Whatever holds at first and with every part that can be distributed goes on holding. */
  ghost predicate Stepwise(good: (seq<Json>, nat) -> bool, ps: Json, c: Compiler, depth: nat)
    requires ps.Obj?
  {
    forall out: seq<Json>, i: nat :: i < |ps.members| && good(out, i) && DivisiblePart(ps.members[i].1, c, depth) ==>
      good(Product(out, ps.members[i].0, SplitPart(ps.members[i].1, c, depth)), i + 1)
  }

  ghost predicate StepwiseBranches(good: (seq<Json>, nat) -> bool, s: Json, bs: Json, c: Compiler, depth: nat)
    requires s.Obj? && bs.Arr?
  {
    forall out: seq<Json>, i: nat :: i < |bs.items| && good(out, i) && DivisiblePart(bs.items[i], c, depth) ==>
      good(out + LabelledAll(SplitPart(bs.items[i], c, depth), s), i + 1)
  }

  lemma {:induction false} BranchesHold(s: Json, bs: Json, c: Compiler, depth: nat, good: (seq<Json>, nat) -> bool, n: nat)
    requires s.Obj? && bs.Arr? && n <= |bs.items| && StepwiseBranches(good, s, bs, c, depth)
    ensures good([], 0) && (forall j :: 0 <= j < n ==> DivisiblePart(bs.items[j], c, depth)) ==>
              good(SplitBranches(s, bs, c, depth, n), n)
  {
    if n > 0 { BranchesHold(s, bs, c, depth, good, n - 1); }
  }

  lemma {:induction false} MembersHold(base: Json, ps: Json, c: Compiler, depth: nat, good: (seq<Json>, nat) -> bool, n: nat)
    requires ps.Obj? && n <= |ps.members| && Stepwise(good, ps, c, depth)
    ensures good([base], 0) && (forall j :: 0 <= j < n ==> DivisiblePart(ps.members[j].1, c, depth)) ==>
              good(SplitMembers(base, ps, c, depth, n), n)
  {
    if n > 0 { MembersHold(base, ps, c, depth, good, n - 1); }
  }
}
