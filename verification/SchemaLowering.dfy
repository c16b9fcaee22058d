/**
 The exact tool-schema compiler of tools/axiom_codex_schema.h.  `check` is the native
 syntax validator, left arbitrary; the argument validator is the satisfaction relation.
 */
module SchemaLowering {
  import opened Common
  import opened Json
  import opened Schema
  import opened SchemaForm

  const MAX_DEPTH: nat := 64

  /** A thrown schema_failure is NonFinite when distribution can still recover from it. */
  datatype Failure = NonFinite | Refused

  datatype Lowering = Lowered(schema: Json) | Failed(failure: Failure)

  // --------------------------------------------------------- the first failure

  function First(a: Option<Failure>, b: Option<Failure>): Option<Failure> {
    if a.Some? then a else b
  }

  function Unless(ok: bool, f: Failure): Option<Failure> {
    if ok then None else Some(f)
  }

  /** The failure the compiler meets first, in its own order. */
  function FirstFailure(s: Json, check: Json -> bool, depth: nat): Option<Failure>
    decreases s, 2
  {
    if depth > MAX_DEPTH || !s.Obj? || !SyntaxOk(s) then Some(Refused)
    else First(ChildFailure(s, check, depth + 1),
               if KeywordsOf(s).anyOf.Some? then UnionFailure(s, check, depth + 1) else Unless(check(Node(s)), Refused))
  }

  function ChildFailure(s: Json, check: Json -> bool, depth: nat): Option<Failure>
    decreases s, 1
  {
    First(PropertiesFailure(s, check, depth), First(ItemsFailure(s, check, depth), AdditionalFailure(s, check, depth)))
  }

  function PropertiesFailure(s: Json, check: Json -> bool, depth: nat): Option<Failure>
    decreases s, 0
  {
    var k := KeywordsOf(s);
    if k.properties.None? then None
    else if !k.properties.value.Obj? then Some(Refused)
    else MembersFailure(k.properties.value, check, depth, |k.properties.value.members|)
  }

  function ItemsFailure(s: Json, check: Json -> bool, depth: nat): Option<Failure>
    decreases s, 0
  {
    var k := KeywordsOf(s);
    if k.items.None? then None else FirstFailure(k.items.value, check, depth)
  }

  function AdditionalFailure(s: Json, check: Json -> bool, depth: nat): Option<Failure>
    decreases s, 0
  {
    var k := KeywordsOf(s);
    if k.additional.None? || k.additional.value.Bool? then None else FirstFailure(k.additional.value, check, depth)
  }

  function MembersFailure(ps: Json, check: Json -> bool, depth: nat, n: nat): Option<Failure>
    requires ps.Obj? && n <= |ps.members|
    decreases ps, 3, n
  {
    if n == 0 then None
    else First(MembersFailure(ps, check, depth, n - 1), FailureAt(ps.members[n - 1].1, check, depth))
  }

  function FailureAt(x: Json, check: Json -> bool, depth: nat): Option<Failure>
    decreases x, 3
  {
    FirstFailure(x, check, depth)
  }

  /** A union is malformed, its siblings are refused, a branch fails, nothing is admitted or the enumeration is refused. */
  function UnionFailure(s: Json, check: Json -> bool, depth: nat): Option<Failure>
    decreases s, 1
  {
    if !s.Obj? || !NonEmptyUnion(s) || !check(Siblings(Node(s))) then Some(Refused)
    else
      var bs := KeywordsOf(s).anyOf.value;
      First(BranchesFailure(bs, check, depth, |bs.items|), Unless(Admitted(s) != [] && check(Form(s)), Refused))
  }

  function BranchFailure(b: Json, check: Json -> bool, depth: nat): Option<Failure>
    decreases b, 3
  {
    First(FirstFailure(b, check, depth), Unless(NamesValues(b), NonFinite))
  }

  function BranchesFailure(bs: Json, check: Json -> bool, depth: nat, n: nat): Option<Failure>
    requires bs.Arr? && n <= |bs.items|
    decreases bs, 4, n
  {
    if n == 0 then None
    else First(BranchesFailure(bs, check, depth, n - 1), BranchFailure(bs.items[n - 1], check, depth))
  }

  /** What compiling ends with. */
  function Outcome(s: Json, check: Json -> bool, depth: nat): Lowering {
    match FirstFailure(s, check, depth)
    case None => Lowered(Form(s))
    case Some(f) => Failed(f)
  }

  lemma {:induction false} MembersFailureStays(ps: Json, check: Json -> bool, depth: nat, i: nat, n: nat)
    requires ps.Obj? && i <= n <= |ps.members| && MembersFailure(ps, check, depth, i).Some?
    ensures MembersFailure(ps, check, depth, n) == MembersFailure(ps, check, depth, i)
    decreases n
  {
    if i < n { MembersFailureStays(ps, check, depth, i, n - 1); }
  }

  lemma {:induction false} BranchesFailureStays(bs: Json, check: Json -> bool, depth: nat, i: nat, n: nat)
    requires bs.Arr? && i <= n <= |bs.items| && BranchesFailure(bs, check, depth, i).Some?
    ensures BranchesFailure(bs, check, depth, n) == BranchesFailure(bs, check, depth, i)
    decreases n
  {
    if i < n { BranchesFailureStays(bs, check, depth, i, n - 1); }
  }

  // ------------------------------------------------------------ success, order apart

  /** What `check` is asked about a node: its siblings and its enumeration if it is a union, which must admit
      something; otherwise the node with everything below it compiled. */
  predicate Passes(s: Json, check: Json -> bool) {
    s.Obj? &&
    if KeywordsOf(s).anyOf.Some? then HasUnion(s) && check(Siblings(Node(s))) && Admitted(s) != [] && check(Form(s))
    else check(Node(s))
  }

  predicate AcceptedAt(s: Json, depth: nat, check: Json -> bool) {
    depth <= MAX_DEPTH && NodeFits(s) && Passes(s, check)
  }

  function Accepted(check: Json -> bool): (Json, nat) -> bool {
    (s: Json, depth: nat) => AcceptedAt(s, depth, check)
  }

  lemma AcceptedDemands(check: Json -> bool)
    ensures Demands(Accepted(check))
  {
  }

  lemma {:induction false} MembersAccepted(ps: Json, check: Json -> bool, depth: nat, n: nat)
    requires ps.Obj? && n <= |ps.members| && Wf(ps)
    ensures MembersFailure(ps, check, depth, n).None? <==> InMembers(ps, depth, Accepted(check), n)
    decreases ps, 3, n
  {
    if n > 0 {
      MembersAccepted(ps, check, depth, n - 1);
      SucceedsIff(ps.members[n - 1].1, check, depth);
    }
  }

  lemma {:induction false} BranchAccepted(b: Json, check: Json -> bool, depth: nat)
    requires Wf(b)
    ensures BranchFailure(b, check, depth).None? <==> InBranch(b, depth, Accepted(check)) && NamesValues(b)
    decreases b, 3
  {
    SucceedsIff(b, check, depth);
  }

  lemma {:induction false} BranchesAccepted(bs: Json, check: Json -> bool, depth: nat, n: nat)
    requires bs.Arr? && n <= |bs.items| && Wf(bs)
    ensures BranchesFailure(bs, check, depth, n).None? <==> InBranches(bs, depth, Accepted(check), n) && AllNameValues(bs.items, n)
    decreases bs, 4
  {
    InBranchesIff(bs, depth, Accepted(check), n);
    if BranchesFailure(bs, check, depth, n).None? {
      forall j | 0 <= j < n ensures InBranch(bs.items[j], depth, Accepted(check)) && NamesValues(bs.items[j]) {
        NoBranchFails(bs, check, depth, n, j);
        BranchAccepted(bs.items[j], check, depth);
      }
    }
    if BranchesFailure(bs, check, depth, n).Some? {
      var j := SomeBranchFails(bs, check, depth, n);
      BranchAccepted(bs.items[j], check, depth);
    }
  }

  lemma {:induction false} NoBranchFails(bs: Json, check: Json -> bool, depth: nat, n: nat, j: nat)
    requires bs.Arr? && j < n <= |bs.items| && BranchesFailure(bs, check, depth, n).None?
    ensures BranchFailure(bs.items[j], check, depth).None?
    decreases n
  {
    if j < n - 1 { NoBranchFails(bs, check, depth, n - 1, j); }
  }

  lemma {:induction false} SomeBranchFails(bs: Json, check: Json -> bool, depth: nat, n: nat) returns (j: nat)
    requires bs.Arr? && n <= |bs.items| && BranchesFailure(bs, check, depth, n).Some?
    ensures j < n && BranchFailure(bs.items[j], check, depth).Some?
    decreases n
  {
    if BranchesFailure(bs, check, depth, n - 1).Some? {
      j := SomeBranchFails(bs, check, depth, n - 1);
    } else {
      j := n - 1;
    }
  }

  lemma {:induction false} PropertiesAccepted(s: Json, check: Json -> bool, depth: nat)
    requires Wf(s)
    ensures PropertiesFailure(s, check, depth).None? <==> PropertiesAreObject(s) && BelowProperties(s, depth, Accepted(check))
    decreases s, 0
  {
    var k := KeywordsOf(s);
    if k.properties.Some? && k.properties.value.Obj? {
      GetWf(s, "properties");
      MembersAccepted(k.properties.value, check, depth, |k.properties.value.members|);
    }
  }

  lemma {:induction false} ItemsAccepted(s: Json, check: Json -> bool, depth: nat)
    requires Wf(s)
    ensures ItemsFailure(s, check, depth).None? <==> BelowItems(s, depth, Accepted(check))
    decreases s, 0
  {
    var k := KeywordsOf(s);
    if k.items.Some? {
      GetWf(s, "items");
      SucceedsIff(k.items.value, check, depth);
    }
  }

  lemma {:induction false} AdditionalAccepted(s: Json, check: Json -> bool, depth: nat)
    requires Wf(s)
    ensures AdditionalFailure(s, check, depth).None? <==> BelowAdditional(s, depth, Accepted(check))
    decreases s, 0
  {
    var k := KeywordsOf(s);
    if k.additional.Some? && !k.additional.value.Bool? {
      GetWf(s, "additionalProperties");
      SucceedsIff(k.additional.value, check, depth);
    }
  }

  lemma {:induction false} ChildAccepted(s: Json, check: Json -> bool, depth: nat)
    requires Wf(s)
    ensures ChildFailure(s, check, depth).None? <==> PropertiesAreObject(s) && BelowNode(s, depth, Accepted(check))
    decreases s, 1
  {
    PropertiesAccepted(s, check, depth);
    ItemsAccepted(s, check, depth);
    AdditionalAccepted(s, check, depth);
  }

  lemma {:induction false} UnionAccepted(s: Json, check: Json -> bool, depth: nat)
    requires Wf(s) && s.Obj? && KeywordsOf(s).anyOf.Some?
    ensures UnionFailure(s, check, depth).None? <==> UnionFinite(s) && BelowUnion(s, depth, Accepted(check)) && Passes(s, check)
    decreases s, 1
  {
    if NonEmptyUnion(s) {
      var bs := KeywordsOf(s).anyOf.value;
      GetWf(s, "anyOf");
      BranchesAccepted(bs, check, depth, |bs.items|);
    }
  }

  /** Compiling succeeds if and only if at every position the depth is allowed, the node fits, and `check` passes
      exactly the schemas it is asked about there. */
  lemma {:induction false} SucceedsIff(s: Json, check: Json -> bool, depth: nat)
    requires Wf(s)
    ensures FirstFailure(s, check, depth).None? <==> Everywhere(s, depth, Accepted(check))
    decreases s, 2
  {
    if s.Obj? {
      ChildAccepted(s, check, depth + 1);
      if KeywordsOf(s).anyOf.Some? { UnionAccepted(s, check, depth + 1); }
    }
  }

  // ----------------------------------------------------- want of finitely many values

  function Finite(): (Json, nat) -> bool {
    (s: Json, depth: nat) => UnionFinite(s)
  }

  lemma {:induction false} FiniteMembers(ps: Json, check: Json -> bool, depth: nat, n: nat)
    requires ps.Obj? && n <= |ps.members| && InMembers(ps, depth, Finite(), n)
    ensures MembersFailure(ps, check, depth, n) != Some(NonFinite)
    decreases ps, 3, n
  {
    if n > 0 {
      FiniteMembers(ps, check, depth, n - 1);
      FiniteIsRefused(ps.members[n - 1].1, check, depth);
    }
  }

  lemma {:induction false} FiniteBranches(bs: Json, check: Json -> bool, depth: nat, n: nat)
    requires bs.Arr? && n <= |bs.items| && InBranches(bs, depth, Finite(), n) && AllNameValues(bs.items, n)
    ensures BranchesFailure(bs, check, depth, n) != Some(NonFinite)
    decreases bs, 3, n
  {
    if n > 0 {
      FiniteBranches(bs, check, depth, n - 1);
      FiniteIsRefused(bs.items[n - 1], check, depth);
    }
  }

  lemma {:induction false} FiniteChildren(s: Json, check: Json -> bool, depth: nat)
    requires BelowNode(s, depth, Finite())
    ensures ChildFailure(s, check, depth) != Some(NonFinite)
    decreases s, 1
  {
    FiniteProperties(s, check, depth);
    FiniteItems(s, check, depth);
    FiniteAdditional(s, check, depth);
  }

  lemma {:induction false} FiniteProperties(s: Json, check: Json -> bool, depth: nat)
    requires BelowProperties(s, depth, Finite())
    ensures PropertiesFailure(s, check, depth) != Some(NonFinite)
    decreases s, 0
  {
    var k := KeywordsOf(s);
    if k.properties.Some? && k.properties.value.Obj? {
      FiniteMembers(k.properties.value, check, depth, |k.properties.value.members|);
    }
  }

  lemma {:induction false} FiniteItems(s: Json, check: Json -> bool, depth: nat)
    requires BelowItems(s, depth, Finite())
    ensures ItemsFailure(s, check, depth) != Some(NonFinite)
    decreases s, 0
  {
    var k := KeywordsOf(s);
    if k.items.Some? { FiniteIsRefused(k.items.value, check, depth); }
  }

  lemma {:induction false} FiniteAdditional(s: Json, check: Json -> bool, depth: nat)
    requires BelowAdditional(s, depth, Finite())
    ensures AdditionalFailure(s, check, depth) != Some(NonFinite)
    decreases s, 0
  {
    var k := KeywordsOf(s);
    if k.additional.Some? && !k.additional.value.Bool? { FiniteIsRefused(k.additional.value, check, depth); }
  }

  /** Only a union with a branch that names no finite set of values fails for that reason. */
  lemma {:induction false} FiniteIsRefused(s: Json, check: Json -> bool, depth: nat)
    requires Everywhere(s, depth, Finite())
    ensures FirstFailure(s, check, depth) != Some(NonFinite)
    decreases s, 2
  {
    if s.Obj? {
      FiniteChildren(s, check, depth + 1);
      if NonEmptyUnion(s) {
        var bs := KeywordsOf(s).anyOf.value;
        FiniteBranches(bs, check, depth + 1, |bs.items|);
      }
    }
  }

  // ------------------------------------------------- schemas without unions

  predicate UnionFreeMembers(ps: Json)
    requires ps.Obj?
    decreases ps, 1
  {
    forall i | 0 <= i < |ps.members| :: UnionFree(ps.members[i].1)
  }

  predicate UnionFree(s: Json)
    decreases s, 0
  {
    s.Obj? ==>
      var k := KeywordsOf(s);
      && k.anyOf.None?
      && (k.properties.Some? && k.properties.value.Obj? ==> UnionFreeMembers(k.properties.value))
      && (k.items.Some? ==> UnionFree(k.items.value))
      && (k.additional.Some? ==> UnionFree(k.additional.value))
  }

  predicate LegibleMembers(ps: Json, check: Json -> bool, depth: nat, n: nat)
    requires ps.Obj? && n <= |ps.members|
    decreases ps, 1, n
  {
    n == 0 || (LegibleMembers(ps, check, depth, n - 1) && LegibleMember(ps.members[n - 1].1, check, depth))
  }

  predicate LegibleMember(x: Json, check: Json -> bool, depth: nat)
    decreases x, 1
  {
    Legible(x, check, depth)
  }

  /** What the compiler demands of a schema that has no union, at every position. */
  predicate Legible(s: Json, check: Json -> bool, depth: nat)
    decreases s, 0
  {
    && depth <= MAX_DEPTH && s.Obj? && SyntaxOk(s) && check(s)
    && var k := KeywordsOf(s);
       && (k.properties.Some? ==> k.properties.value.Obj? && LegibleMembers(k.properties.value, check, depth + 1, |k.properties.value.members|))
       && (k.items.Some? ==> Legible(k.items.value, check, depth + 1))
       && (k.additional.Some? && !k.additional.value.Bool? ==> Legible(k.additional.value, check, depth + 1))
  }

  lemma {:induction false} SetSame(members: Members, key: string, x: Json)
    requires Find(members, key) == Some(x)
    ensures SetMember(members, key, x) == members
  {
    assert members == [members[0]] + members[1..];
    if members[0].0 != key { SetSame(members[1..], key, x); }
  }

  lemma {:induction false} LegibleMemberForm(x: Json, check: Json -> bool, depth: nat)
    requires UnionFree(x)
    ensures FailureAt(x, check, depth) == Unless(LegibleMember(x, check, depth), Refused)
    ensures LegibleMember(x, check, depth) ==> Form(x) == x
    decreases x, 2
  {
    LegibleForm(x, check, depth);
  }

  lemma {:induction false} LegibleMembersForm(ps: Json, check: Json -> bool, depth: nat, n: nat)
    requires ps.Obj? && n <= |ps.members| && UnionFreeMembers(ps)
    ensures MembersFailure(ps, check, depth, n) == Unless(LegibleMembers(ps, check, depth, n), Refused)
    ensures LegibleMembers(ps, check, depth, n) ==> FormMembers(ps, n) == ps.members[..n]
    decreases ps, 3, n
  {
    if n > 0 {
      LegibleMembersForm(ps, check, depth, n - 1);
      LegibleMemberForm(ps.members[n - 1].1, check, depth);
      assert ps.members[..n] == ps.members[..n - 1] + [(ps.members[n - 1].0, ps.members[n - 1].1)];
    }
  }

  predicate PropertiesLegible(s: Json, check: Json -> bool, depth: nat) {
    var k := KeywordsOf(s);
    k.properties.Some? ==> k.properties.value.Obj? && LegibleMembers(k.properties.value, check, depth, |k.properties.value.members|)
  }

  lemma {:induction false} LegibleProperties(s: Json, check: Json -> bool, depth: nat)
    requires s.Obj? && UnionFree(s)
    ensures PropertiesFailure(s, check, depth) == Unless(PropertiesLegible(s, check, depth), Refused)
    ensures PropertiesLegible(s, check, depth) ==> WithProperties(s) == s
    decreases s, 0
  {
    var k := KeywordsOf(s);
    if k.properties.Some? && k.properties.value.Obj? {
      var ps := k.properties.value;
      LegibleMembersForm(ps, check, depth, |ps.members|);
      assert ps.members[..|ps.members|] == ps.members;
      if LegibleMembers(ps, check, depth, |ps.members|) { SetSame(s.members, "properties", ps); }
    }
  }

  predicate ItemsLegible(s: Json, check: Json -> bool, depth: nat) {
    var k := KeywordsOf(s);
    k.items.Some? ==> Legible(k.items.value, check, depth)
  }

  lemma {:induction false} LegibleItems(s: Json, check: Json -> bool, depth: nat)
    requires s.Obj? && UnionFree(s)
    ensures ItemsFailure(s, check, depth) == Unless(ItemsLegible(s, check, depth), Refused)
    ensures ItemsLegible(s, check, depth) ==> WithItems(s, s) == s
    decreases s, 0
  {
    var k := KeywordsOf(s);
    if k.items.Some? {
      LegibleForm(k.items.value, check, depth);
      if Legible(k.items.value, check, depth) { SetSame(s.members, "items", k.items.value); }
    }
  }

  predicate AdditionalLegible(s: Json, check: Json -> bool, depth: nat) {
    var k := KeywordsOf(s);
    k.additional.Some? && !k.additional.value.Bool? ==> Legible(k.additional.value, check, depth)
  }

  lemma {:induction false} LegibleAdditional(s: Json, check: Json -> bool, depth: nat)
    requires s.Obj? && UnionFree(s)
    ensures AdditionalFailure(s, check, depth) == Unless(AdditionalLegible(s, check, depth), Refused)
    ensures AdditionalLegible(s, check, depth) ==> WithAdditional(s, s) == s
    decreases s, 0
  {
    var k := KeywordsOf(s);
    if k.additional.Some? && !k.additional.value.Bool? {
      LegibleForm(k.additional.value, check, depth);
      if Legible(k.additional.value, check, depth) { SetSame(s.members, "additionalProperties", k.additional.value); }
    }
  }

  /** A schema without unions is compiled to itself exactly when it is legible, and refused otherwise. */
  lemma {:induction false} LegibleForm(s: Json, check: Json -> bool, depth: nat)
    requires UnionFree(s)
    ensures FirstFailure(s, check, depth) == Unless(Legible(s, check, depth), Refused)
    ensures Legible(s, check, depth) ==> Form(s) == s
    decreases s, 1
  {
    if s.Obj? {
      LegibleProperties(s, check, depth + 1);
      LegibleItems(s, check, depth + 1);
      LegibleAdditional(s, check, depth + 1);
    }
  }

  // ------------------------------------------------- unions of such schemas

  /** Branches that are lowered to themselves. */
  predicate LegibleBranches(branches: seq<Json>, check: Json -> bool, depth: nat) {
    LegibleUpTo(branches, check, depth, |branches|)
  }

  predicate LegibleUpTo(branches: seq<Json>, check: Json -> bool, depth: nat, n: nat)
    requires n <= |branches|
    decreases n
  {
    n == 0 || (LegibleUpTo(branches, check, depth, n - 1) && UnionFree(branches[n - 1]) && Legible(branches[n - 1], check, depth))
  }

  lemma {:induction false} UnionFreeAt(branches: seq<Json>, check: Json -> bool, depth: nat, n: nat, i: nat)
    requires i < n <= |branches| && LegibleUpTo(branches, check, depth, n)
    ensures UnionFree(branches[i])
    decreases n
  {
    if i < n - 1 { UnionFreeAt(branches, check, depth, n - 1, i); }
  }

  lemma {:induction false} LegibleAt(branches: seq<Json>, check: Json -> bool, depth: nat, n: nat, i: nat)
    requires i < n <= |branches| && LegibleUpTo(branches, check, depth, n)
    ensures Legible(branches[i], check, depth)
    decreases n
  {
    if i < n - 1 { LegibleAt(branches, check, depth, n - 1, i); }
  }

  /** Each of them names finitely many values. */
  predicate AllFinite(branches: seq<Json>) { FiniteUpTo(branches, |branches|) }

  predicate FiniteUpTo(branches: seq<Json>, n: nat)
    requires n <= |branches|
  {
    n == 0 || (FiniteUpTo(branches, n - 1) && Candidates(branches[n - 1]).Some?)
  }

  predicate HasChildren(source: Json) {
    var k := KeywordsOf(source);
    k.properties.Some? || k.items.Some? || k.additional.Some?
  }

  lemma {:induction false} LegibleBranchesFailure(bs: Json, check: Json -> bool, depth: nat, n: nat)
    requires bs.Arr? && n <= |bs.items| && LegibleUpTo(bs.items, check, depth, n)
    ensures BranchesFailure(bs, check, depth, n) == Unless(FiniteUpTo(bs.items, n), NonFinite)
    decreases n
  {
    if n > 0 {
      LegibleBranchesFailure(bs, check, depth, n - 1);
      LegibleBranchFailure(bs.items[n - 1], check, depth);
    }
  }

  lemma LegibleBranchFailure(b: Json, check: Json -> bool, depth: nat)
    requires UnionFree(b) && Legible(b, check, depth)
    ensures BranchFailure(b, check, depth) == Unless(Candidates(b).Some?, NonFinite)
  {
    LegibleForm(b, check, depth);
  }

  /** A union of such branches, with scalar siblings only. */
  predicate LegibleUnion(source: Json, check: Json -> bool, depth: nat) {
    && depth <= MAX_DEPTH && source.Obj? && SyntaxOk(source) && !HasChildren(source) && NonEmptyUnion(source)
    && check(Siblings(source))
    && LegibleBranches(KeywordsOf(source).anyOf.value.items, check, depth + 1)
  }

  /** The union admits nothing, or the syntax validator refuses its enumeration. */
  predicate Inexpressible(source: Json, check: Json -> bool) {
    HasUnion(source) && (Admitted(source) == [] || !check(Form(source)))
  }

  lemma BareNode(s: Json)
    requires s.Obj? && !HasChildren(s)
    ensures Node(s) == s
  {
    assert WithProperties(s) == s;
    assert WithItems(s, s) == s;
    assert WithAdditional(s, s) == s;
  }

  lemma LegibleUnionFailure(s: Json, check: Json -> bool, depth: nat)
    requires LegibleUnion(s, check, depth)
    ensures var finite := AllFinite(KeywordsOf(s).anyOf.value.items);
            FirstFailure(s, check, depth) == if !finite then Some(NonFinite) else Unless(!Inexpressible(s, check), Refused)
  {
    var bs := KeywordsOf(s).anyOf.value;
    BareNode(s);
    Childless(s, check, depth + 1);
    LegibleBranchesFailure(bs, check, depth + 1, |bs.items|);
  }

  /** A union that admits nothing is one no clean value satisfies. */
  lemma EmptyUnion(s: Json, check: Json -> bool, depth: nat, v: Json)
    requires Wf(s) && HasUnion(s) && UnionFinite(s) && BelowUnion(s, depth, Accepted(check)) && Admitted(s) == []
    ensures Ranges(false, v) ==> !Sat(v, s)
  {
    AcceptedDemands(check);
    AdmittedExact(s, depth, Accepted(check));
  }

  // ------------------------------------------------------------- lower_schema

  /** Keeps the candidates the branch really accepts, once each. */
  method MergeCandidates(branch: Json, candidates: seq<Json>, values: seq<Json>) returns (merged: seq<Json>)
    ensures merged == Merge(branch, candidates, values)
    ensures forall c :: c in merged <==> c in values || (c in candidates && Sat(c, branch))
  {
    merged := values;
    for i := 0 to |candidates|
      invariant merged == Merge(branch, candidates[..i], values)
    {
      var candidate := candidates[i];
      assert candidates[..i + 1][..i] == candidates[..i];
      if Sat(candidate, branch) && candidate !in merged {
        merged := merged + [candidate];
      }
    }
    assert candidates[..|candidates|] == candidates;
    forall c ensures c in merged <==> c in values || (c in candidates && Sat(c, branch)) {
      MergeMembers(branch, candidates, values, c);
    }
  }

  method AdmitCandidates(source: Json, values: seq<Json>) returns (admitted: seq<Json>)
    ensures admitted == Admit(source, values)
    ensures forall c :: c in admitted <==> c in values && Sat(c, source)
  {
    admitted := [];
    for i := 0 to |values|
      invariant admitted == Admit(source, values[..i])
    {
      assert values[..i + 1][..i] == values[..i];
      if Sat(values[i], source) {
        admitted := admitted + [values[i]];
      }
    }
    assert values[..|values|] == values;
    forall c ensures c in admitted <==> c in values && Sat(c, source) { AdmitMembers(source, values, c); }
  }

  method CopyAnnotations(source: Json) returns (r: Json)
    ensures r == Annotated(source, |ANNOTATIONS|)
  {
    r := Obj([]);
    for i := 0 to |ANNOTATIONS|
      invariant r == Annotated(source, i)
    {
      r := CopyKeyword(r, source, ANNOTATIONS[i]);
    }
  }

  /** The object that replaces a finite union asserts the enumeration and the source's bounds, nothing else. */
  method EnumReplacement(source: Json, admitted: seq<Json>) returns (r: Json)
    requires source.Obj? && Wf(source) && AllWf(admitted)
    ensures r == Replacement(source, admitted)
    ensures Wf(r) && KeywordsOf(r) == EnumKeywords(KeywordsOf(source), admitted)
  {
    ReplacementKeywords(source, admitted);
    r := CopyAnnotations(source);
    r := CopyBounds(r, source);
    r := Set(r, "enum", Arr(admitted));
  }

  /** Unknown assertions and malformed bounds are refused before anything is lowered. */
  method CheckSyntax(source: Json) returns (ok: bool)
    requires source.Obj?
    ensures ok == SyntaxOk(source)
  {
    for i := 0 to |source.members|
      invariant forall j :: 0 <= j < i ==> Known(source.members[j].0)
    {
      if !Known(source.members[i].0) { return false; }
    }
    for i := 0 to |BOUNDS|
      invariant forall j :: 0 <= j < i ==>
                  var n := Get(source, BOUNDS[j]);
                  n.Some? ==> BoundValid(BOUNDS[j], n.value)
    {
      match Get(source, BOUNDS[i])
      case Some(n) => if !BoundValid(BOUNDS[i], n) { return false; }
      case None =>
    }
    return true;
  }

  /** The schemas of `properties`, lowered one by one under their own names. */
  method LowerProperties(ps: Json, check: Json -> bool, depth: nat) returns (failed: Option<Failure>, children: Json)
    requires ps.Obj? && Wf(ps)
    ensures failed == MembersFailure(ps, check, depth + 1, |ps.members|)
    ensures failed.None? ==> children == Obj(FormMembers(ps, |ps.members|))
    ensures failed.None? ==> children.Obj? && FaithfulMembers(ps.members, children.members)
    decreases ps, 3
  {
    failed, children := None, Obj([]);
    for i := 0 to |ps.members|
      invariant failed.None? && MembersFailure(ps, check, depth + 1, i).None? && children == Obj(FormMembers(ps, i))
    {
      var lowered := Lower(ps.members[i].1, check, depth + 1);
      if lowered.Failed? {
        MembersFailureStays(ps, check, depth + 1, i + 1, |ps.members|);
        return Some(lowered.failure), children;
      }
      AppendForm(ps, i);
      children := Set(children, ps.members[i].0, lowered.schema);
    }
    MembersFaithful(ps, check, depth + 1);
  }

  lemma AppendForm(ps: Json, i: nat)
    requires ps.Obj? && Wf(ps) && i < |ps.members|
    ensures Set(Obj(FormMembers(ps, i)), ps.members[i].0, Form(ps.members[i].1)) == Obj(FormMembers(ps, i + 1))
  {
    var ms := FormMembers(ps, i);
    forall j | 0 <= j < i ensures ms[j].0 != ps.members[i].0 { FormMemberAt(ps, i, j); }
    SetMemberAppends(ms, ps.members[i].0, Form(ps.members[i].1));
  }

  lemma MembersFaithful(ps: Json, check: Json -> bool, depth: nat)
    requires ps.Obj? && Wf(ps) && MembersFailure(ps, check, depth, |ps.members|).None?
    ensures FaithfulMembers(ps.members, FormMembers(ps, |ps.members|))
  {
    MembersAccepted(ps, check, depth, |ps.members|);
    AcceptedDemands(check);
    MembersExact(ps, |ps.members|, depth, Accepted(check));
    assert ps.members[..|ps.members|] == ps.members;
  }

  method LowerPropertiesOf(source: Json, check: Json -> bool, depth: nat) returns (failed: Option<Failure>, out: Json)
    requires source.Obj? && Wf(source)
    ensures failed == PropertiesFailure(source, check, depth + 1) && (failed.None? ==> out == WithProperties(source))
    decreases source, 0
  {
    failed, out := None, source;
    var ps := KeywordsOf(source).properties;
    if ps.Some? {
      GetWf(source, "properties");
      if !ps.value.Obj? { return Some(Refused), out; }
      var children;
      failed, children := LowerProperties(ps.value, check, depth);
      if failed.Some? { return; }
      out := Set(source, "properties", children);
    }
  }

  method LowerItemsOf(source: Json, node: Json, check: Json -> bool, depth: nat) returns (failed: Option<Failure>, out: Json)
    requires source.Obj? && Wf(source) && node.Obj?
    ensures failed == ItemsFailure(source, check, depth + 1) && (failed.None? ==> out == WithItems(source, node))
    decreases source, 0
  {
    failed, out := None, node;
    var items := KeywordsOf(source).items;
    if items.Some? {
      GetWf(source, "items");
      var lowered := Lower(items.value, check, depth + 1);
      if lowered.Failed? { return Some(lowered.failure), out; }
      out := Set(node, "items", lowered.schema);
    }
  }

  method LowerAdditionalOf(source: Json, node: Json, check: Json -> bool, depth: nat) returns (failed: Option<Failure>, out: Json)
    requires source.Obj? && Wf(source) && node.Obj?
    ensures failed == AdditionalFailure(source, check, depth + 1) && (failed.None? ==> out == WithAdditional(source, node))
    decreases source, 0
  {
    failed, out := None, node;
    var additional := KeywordsOf(source).additional;
    if additional.Some? && !additional.value.Bool? {
      GetWf(source, "additionalProperties");
      var lowered := Lower(additional.value, check, depth + 1);
      if lowered.Failed? { return Some(lowered.failure), out; }
      out := Set(node, "additionalProperties", lowered.schema);
    }
  }

  /** Everything below a node except the branches of its anyOf. */
  method LowerChildren(source: Json, check: Json -> bool, depth: nat) returns (failed: Option<Failure>, out: Json)
    requires source.Obj? && Wf(source)
    ensures failed == ChildFailure(source, check, depth + 1) && (failed.None? ==> out == Node(source))
    ensures failed.None? ==> Wf(out) && Exact(source, out)
    decreases source, 1
  {
    failed, out := LowerPropertiesOf(source, check, depth);
    if failed.Some? { return; }
    failed, out := LowerItemsOf(source, out, check, depth);
    if failed.Some? { return; }
    failed, out := LowerAdditionalOf(source, out, check, depth);
    if failed.Some? { return; }
    NodeMeans(source, check, depth + 1);
  }

  lemma NodeMeans(s: Json, check: Json -> bool, depth: nat)
    requires s.Obj? && Wf(s) && ChildFailure(s, check, depth).None?
    ensures Wf(Node(s)) && Exact(s, Node(s))
  {
    ChildAccepted(s, check, depth);
    AcceptedDemands(check);
    NodeExact(s, depth, Accepted(check));
    CongruentExact(false, s, Node(s));
  }

  /** The values one branch names and accepts join the collected ones. */
  method CollectBranch(branch: Json, values: seq<Json>, check: Json -> bool, depth: nat)
    returns (failed: Option<Failure>, merged: seq<Json>)
    requires Wf(branch)
    ensures failed == BranchFailure(branch, check, depth)
    ensures failed.None? ==> merged == Merge(branch, BranchValues(branch), values)
    decreases branch, 4
  {
    merged := [];
    var lowered := Lower(branch, check, depth);
    if lowered.Failed? { return Some(lowered.failure), []; }
    NamedForm(branch, check, depth);
    match Candidates(lowered.schema) {
      case None => failed := Some(NonFinite);
      case Some(candidates) =>
        failed := None;
        merged := MergeCandidates(branch, candidates, values);
    }
  }

  lemma NamedForm(b: Json, check: Json -> bool, depth: nat)
    requires Wf(b) && FirstFailure(b, check, depth).None?
    ensures Candidates(Form(b)).Some? <==> NamesValues(b)
  {
    SucceedsIff(b, check, depth);
    AcceptedDemands(check);
    FormExact(b, depth, Accepted(check));
  }

  /** Every value any branch accepts is represented among the collected candidates. */
  method CollectCandidates(branches: Json, check: Json -> bool, depth: nat)
    returns (failed: Option<Failure>, values: seq<Json>)
    requires branches.Arr? && Wf(branches)
    ensures failed == BranchesFailure(branches, check, depth + 1, |branches.items|)
    ensures failed.None? ==> values == Values(branches, |branches.items|)
    ensures failed.None? ==> forall v :: Ranges(false, v) && AnyOfOk(v, branches) ==> Represented(v, values)
    decreases branches, 4
  {
    failed, values := None, [];
    for i := 0 to |branches.items|
      invariant failed.None? && BranchesFailure(branches, check, depth + 1, i).None? && values == Values(branches, i)
    {
      failed, values := CollectBranch(branches.items[i], values, check, depth + 1);
      if failed.Some? {
        BranchesFailureStays(branches, check, depth + 1, i + 1, |branches.items|);
        return;
      }
    }
    CollectedMeans(branches, check, depth + 1);
  }

  lemma CollectedMeans(bs: Json, check: Json -> bool, depth: nat)
    requires bs.Arr? && Wf(bs) && BranchesFailure(bs, check, depth, |bs.items|).None?
    ensures AllWf(Values(bs, |bs.items|))
    ensures forall v :: Ranges(false, v) && AnyOfOk(v, bs) ==> Represented(v, Values(bs, |bs.items|))
  {
    BranchesAccepted(bs, check, depth, |bs.items|);
    AcceptedDemands(check);
    ValuesWf(bs, |bs.items|, depth, Accepted(check));
    forall v | Ranges(false, v) && AnyOfOk(v, bs) ensures Represented(v, Values(bs, |bs.items|)) {
      UnionCovers(bs, depth, Accepted(check), v);
    }
  }

  /** The union of a node whose other children were lowered to `node`. */
  method LowerUnion(source: Json, node: Json, check: Json -> bool, depth: nat) returns (r: Lowering)
    requires source.Obj? && Wf(source) && KeywordsOf(source).anyOf.Some? && node == Node(source)
    ensures r == match UnionFailure(source, check, depth + 1) case None => Lowered(Form(source)) case Some(f) => Failed(f)
    decreases source, 0
  {
    GetWf(source, "anyOf");
    var branches := KeywordsOf(source).anyOf.value;
    if !branches.Arr? || branches.items == [] { return Failed(Refused); }
    if !check(Siblings(node)) { return Failed(Refused); }
    var failed, values := CollectCandidates(branches, check, depth);
    if failed.Some? { return Failed(failed.value); }
    r := EnumerateUnion(source, values, check, depth + 1);
  }

  /** The enumeration that replaces a union. */
  method EnumerateUnion(source: Json, values: seq<Json>, check: Json -> bool, ghost depth: nat) returns (r: Lowering)
    requires HasUnion(source) && Wf(source)
    requires var bs := KeywordsOf(source).anyOf.value;
             values == Values(bs, |bs.items|) && BranchesFailure(bs, check, depth, |bs.items|).None?
    ensures r == if Admitted(source) != [] && check(Form(source)) then Lowered(Form(source)) else Failed(Refused)
  {
    GetWf(source, "anyOf");
    CollectedMeans(KeywordsOf(source).anyOf.value, check, depth);
    var admitted := AdmitCandidates(source, values);
    if admitted == [] { return Failed(Refused); }
    AdmitWf(source, values);
    var out := EnumReplacement(source, admitted);
    if !check(out) { return Failed(Refused); }
    return Lowered(out);
  }

  method Lower(source: Json, check: Json -> bool, depth: nat) returns (r: Lowering)
    requires Wf(source)
    ensures r == Outcome(source, check, depth)
    decreases source, 2
  {
    if depth > MAX_DEPTH || !source.Obj? { return Failed(Refused); }
    var syntax := CheckSyntax(source);
    if !syntax { return Failed(Refused); }
    var failed, out := LowerChildren(source, check, depth);
    if failed.Some? { return Failed(failed.value); }
    if KeywordsOf(source).anyOf.Some? {
      r := LowerUnion(source, out, check, depth);
      return;
    }
    if !check(out) { return Failed(Refused); }
    return Lowered(out);
  }

  /** What success means. */
  lemma LoweredMeans(s: Json, check: Json -> bool, depth: nat)
    requires Wf(s) && FirstFailure(s, check, depth).None?
    ensures s.Obj? && depth <= MAX_DEPTH && SyntaxOk(s)
    ensures Wf(Form(s)) && Exact(s, Form(s)) && Shape(s, Form(s)) && check(Form(s))
  {
    SucceedsIff(s, check, depth);
    AcceptedDemands(check);
    FormExact(s, depth, Accepted(check));
    FormShape(s, depth, Accepted(check));
    assert AcceptedAt(s, depth, check);
  }

  /** What distribution may count on when it takes over. */
  lemma NonFiniteMeans(s: Json, check: Json -> bool, depth: nat)
    requires FirstFailure(s, check, depth) == Some(NonFinite)
    ensures s.Obj? && PropertiesAreObject(s) && (HasChildren(s) || NonEmptyUnion(s))
    ensures !Everywhere(s, depth, Finite())
  {
    if Everywhere(s, depth, Finite()) { FiniteIsRefused(s, check, depth); }
    NonObjectProperties(s, check, depth + 1);
    if !HasChildren(s) { Childless(s, check, depth + 1); }
  }

  lemma NonObjectProperties(s: Json, check: Json -> bool, depth: nat)
    ensures PropertiesAreObject(s) || ChildFailure(s, check, depth) == Some(Refused)
  {
    assert PropertiesAreObject(s) || PropertiesFailure(s, check, depth) == Some(Refused);
  }

  lemma Childless(s: Json, check: Json -> bool, depth: nat)
    requires !HasChildren(s)
    ensures ChildFailure(s, check, depth).None?
  {
    assert PropertiesFailure(s, check, depth).None? && ItemsFailure(s, check, depth).None? && AdditionalFailure(s, check, depth).None?;
  }

  /** lower_schema: succeeds if and only if every position is acceptable; what it returns is the compiled form,
      which accepts exactly what the source accepts. */
  method LowerSchema(source: Json, check: Json -> bool, depth: nat) returns (r: Lowering)
    requires Wf(source)
    ensures r == Outcome(source, check, depth)
    ensures r.Lowered? <==> Everywhere(source, depth, Accepted(check))
    ensures r.Lowered? ==> source.Obj? && r.schema.Obj? && Wf(r.schema) && Exact(source, r.schema)
    ensures r.Lowered? ==> Shape(source, r.schema) && check(r.schema)
    ensures r == Failed(NonFinite) ==> source.Obj? && PropertiesAreObject(source) && (HasChildren(source) || NonEmptyUnion(source))
    ensures Everywhere(source, depth, Finite()) ==> r != Failed(NonFinite)
    ensures UnionFree(source) ==> r == if Legible(source, check, depth) then Lowered(source) else Failed(Refused)
    ensures LegibleUnion(source, check, depth) ==>
              if !AllFinite(KeywordsOf(source).anyOf.value.items) then r == Failed(NonFinite)
              else r.Lowered? || (r == Failed(Refused) && Inexpressible(source, check))
  {
    r := Lower(source, check, depth);
    SucceedsIff(source, check, depth);
    if r.Lowered? { LoweredMeans(source, check, depth); }
    if r == Failed(NonFinite) { NonFiniteMeans(source, check, depth); }
    if UnionFree(source) { LegibleForm(source, check, depth); }
    if LegibleUnion(source, check, depth) { LegibleUnionFailure(source, check, depth); }
  }
}
