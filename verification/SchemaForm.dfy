/**
 What the exact tool-schema compiler of tools/axiom_codex_schema.h builds, as a function of the
 schema alone, and that this accepts what the schema accepts.
 */
module SchemaForm {
  import opened Common
  import opened Json
  import opened Schema

  // ---------------------------------------------------------------- finite unions

  /** Some candidate of the list is the same JSON value as `v`. */
  ghost predicate Represented(v: Json, values: seq<Json>) {
    exists j :: 0 <= j < |values| && JsonEqual(v, values[j])
  }

  ghost predicate AllWf(values: seq<Json>) {
    forall i :: 0 <= i < |values| ==> Wf(values[i])
  }

  /** The values a lowered branch can take, when it names finitely many. */
  function Candidates(lowered: Json): Option<seq<Json>> {
    match Get(lowered, "enum")
    case Some(e) => Some(if e.Arr? then e.items else [])
    case None =>
      match Get(lowered, "const")
      case Some(c) => Some([c])
      case None =>
        if Get(lowered, "type") == Some(Str("null")) then Some([Null])
        else if Get(lowered, "type") == Some(Str("boolean")) then Some([Bool(false), Bool(true)])
        else None
  }

  lemma CandidatesComplete(lowered: Json, v: Json)
    requires Sat(v, lowered) && Candidates(lowered).Some?
    ensures Represented(v, Candidates(lowered).value)
  {
    var cs := Candidates(lowered).value;
    var k := KeywordsOf(lowered);
    if k.members.Some? {
    } else if k.constant.Some? {
      assert JsonEqual(v, cs[0]);
    } else if k.kind == Some(Str("null")) {
      assert TypeMatches(v, "null") && JsonEqual(v, cs[0]);
    } else {
      assert TypeMatches(v, "boolean");
      assert JsonEqual(v, cs[if v.b then 1 else 0]);
    }
  }

  lemma CandidatesWf(lowered: Json)
    requires Wf(lowered) && Candidates(lowered).Some?
    ensures AllWf(Candidates(lowered).value)
  {
    if Get(lowered, "enum").Some? {
      GetWf(lowered, "enum");
    } else if Get(lowered, "const").Some? {
      GetWf(lowered, "const");
    }
  }

  /** The values collected so far and the candidates the branch really accepts, once each. */
  function Merge(branch: Json, candidates: seq<Json>, values: seq<Json>): seq<Json> {
    if candidates == [] then values
    else
      var c, r := candidates[|candidates| - 1], Merge(branch, candidates[..|candidates| - 1], values);
      if Sat(c, branch) && c !in r then r + [c] else r
  }

  lemma {:induction false} MergeMembers(branch: Json, candidates: seq<Json>, values: seq<Json>, c: Json)
    ensures c in Merge(branch, candidates, values) <==> c in values || (c in candidates && Sat(c, branch))
  {
    if candidates != [] {
      var init, last := candidates[..|candidates| - 1], candidates[|candidates| - 1];
      MergeMembers(branch, init, values, c);
      MergeMembers(branch, init, values, last);
      assert candidates == init + [last];
    }
  }

  /** Those of the values the whole source accepts. */
  function Admit(source: Json, values: seq<Json>): seq<Json> {
    if values == [] then []
    else
      var c, r := values[|values| - 1], Admit(source, values[..|values| - 1]);
      if Sat(c, source) then r + [c] else r
  }

  lemma {:induction false} AdmitMembers(source: Json, values: seq<Json>, c: Json)
    ensures c in Admit(source, values) <==> c in values && Sat(c, source)
  {
    if values != [] {
      AdmitMembers(source, values[..|values| - 1], c);
      assert values == values[..|values| - 1] + [values[|values| - 1]];
    }
  }

  function EnumKeywords(k: Keywords, admitted: seq<Json>): Keywords {
    Keywords(None, Some(Arr(admitted)), None, None, None,
             k.minLength, k.maxLength, k.minimum, k.maximum, None, None, None, None)
  }

  lemma EnumKeywordsSat(v: Json, replacement: Json, k: Keywords, admitted: seq<Json>)
    requires replacement.Obj? && KeywordsOf(replacement) == EnumKeywords(k, admitted)
    ensures Sat(v, replacement) <==>
            Represented(v, admitted) && LengthOk(v, k.minLength, k.maxLength) && RangeOk(v, k.minimum, k.maximum)
  {
    assert EnumOk(v, Some(Arr(admitted))) <==> Represented(v, admitted);
  }

  lemma SatBounds(v: Json, source: Json)
    requires Sat(v, source)
    ensures var k := KeywordsOf(source);
            LengthOk(v, k.minLength, k.maxLength) && RangeOk(v, k.minimum, k.maximum)
  {
  }

  /** Values equal to an admitted one satisfy the source. */
  lemma RepresentedSat(v: Json, source: Json, admitted: seq<Json>)
    requires Ranges(false, v) && Represented(v, admitted) && AllWf(admitted)
    requires forall c :: c in admitted ==> Sat(c, source)
    ensures Sat(v, source)
  {
    var j :| 0 <= j < |admitted| && JsonEqual(v, admitted[j]);
    assert admitted[j] in admitted;
    CleanEqual(v, admitted[j]);
    EqualNulFree(v, admitted[j]);
    EqualSymmetric(v, admitted[j]);
    SatRespectsEqual(admitted[j], v, source);
  }

  /** A finite union is exactly the enumeration of the candidates the whole source admits. */
  lemma EnumerationExact(source: Json, admitted: seq<Json>, replacement: Json)
    requires source.Obj? && replacement.Obj?
    requires KeywordsOf(replacement) == EnumKeywords(KeywordsOf(source), admitted)
    requires AllWf(admitted) && forall c :: c in admitted ==> Sat(c, source)
    requires forall v :: Ranges(false, v) && Sat(v, source) ==> Represented(v, admitted)
    ensures Exact(source, replacement)
  {
    forall v | Ranges(false, v) ensures Sat(v, source) <==> Sat(v, replacement) {
      EnumKeywordsSat(v, replacement, KeywordsOf(source), admitted);
      if Sat(v, source) { SatBounds(v, source); }
      if Represented(v, admitted) { RepresentedSat(v, source, admitted); }
    }
  }

  // ------------------------------------------------------------- building objects

  function CopyKeyword(to: Json, from: Json, key: string): (r: Json)
    requires to.Obj?
    ensures r.Obj?
  {
    if Get(from, key).Some? then Set(to, key, Get(from, key).value) else to
  }

  lemma CopyWf(to: Json, from: Json, key: string)
    requires to.Obj? && Wf(to) && Wf(from)
    ensures Wf(CopyKeyword(to, from, key))
  {
    if Get(from, key).Some? {
      GetWf(from, key);
      SetWf(to, key, Get(from, key).value);
    }
  }

  lemma EmptyKeywords()
    ensures KeywordsOf(Obj([])) == Keywords(None, None, None, None, None, None, None, None, None, None, None, None, None)
  {
  }

  lemma CopiedBounds(r: Json, source: Json)
    requires r.Obj? && Wf(r) && Wf(source)
    ensures var r' := CopyBounds(r, source);
            r'.Obj? && Wf(r') &&
            (var k := KeywordsOf(source);
             KeywordsOf(r) == KeywordsOf(Obj([])) ==>
             KeywordsOf(r') == KeywordsOf(r).(minLength := k.minLength, maxLength := k.maxLength,
                                              minimum := k.minimum, maximum := k.maximum))
  {
    EmptyKeywords();
    var k := KeywordsOf(source);
    var a := CopyKeyword(r, source, "minLength");
    var b := CopyKeyword(a, source, "maxLength");
    var c := CopyKeyword(b, source, "minimum");
    CopyWf(r, source, "minLength");
    CopyWf(a, source, "maxLength");
    CopyWf(b, source, "minimum");
    CopyWf(c, source, "maximum");
    if k.minLength.Some? { SetMinLength(r, k.minLength.value); }
    if k.maxLength.Some? { SetMaxLength(a, k.maxLength.value); }
    if k.minimum.Some? { SetMinimum(b, k.minimum.value); }
    if k.maximum.Some? { SetMaximum(c, k.maximum.value); }
  }

  function CopyBounds(r: Json, source: Json): Json
    requires r.Obj?
  {
    CopyKeyword(CopyKeyword(CopyKeyword(CopyKeyword(r, source, "minLength"), source, "maxLength"),
                            source, "minimum"), source, "maximum")
  }

  const ANNOTATIONS := ["description", "title", "default", "examples", "$comment", "deprecated", "readOnly", "writeOnly"]

  /** The first `n` kinds of annotations, copied onto an empty object. */
  function Annotated(source: Json, n: nat): (r: Json)
    requires n <= |ANNOTATIONS|
    ensures r.Obj?
  {
    if n == 0 then Obj([]) else CopyKeyword(Annotated(source, n - 1), source, ANNOTATIONS[n - 1])
  }

  lemma AnnotationAt(n: nat)
    requires n < |ANNOTATIONS|
    ensures IsAnnotation(ANNOTATIONS[n])
  {
  }

  lemma CopyAnnotation(r: Json, source: Json, key: string)
    requires r.Obj? && Wf(r) && Wf(source) && IsAnnotation(key)
    ensures Wf(CopyKeyword(r, source, key)) && KeywordsOf(CopyKeyword(r, source, key)) == KeywordsOf(r)
  {
    CopyWf(r, source, key);
    if Get(source, key).Some? { SetAnnotation(r, key, Get(source, key).value); }
  }

  lemma {:induction false} AnnotatedKeywords(source: Json, n: nat)
    requires Wf(source) && n <= |ANNOTATIONS|
    ensures Wf(Annotated(source, n)) && KeywordsOf(Annotated(source, n)) == KeywordsOf(Obj([]))
  {
    if n > 0 {
      AnnotatedKeywords(source, n - 1);
      AnnotationAt(n - 1);
      CopyAnnotation(Annotated(source, n - 1), source, ANNOTATIONS[n - 1]);
    }
  }

  /** The object that replaces a finite union: annotations, bounds and the admitted values. */
  function Replacement(source: Json, admitted: seq<Json>): (r: Json)
    ensures r.Obj?
  {
    Set(CopyBounds(Annotated(source, |ANNOTATIONS|), source), "enum", Arr(admitted))
  }

  lemma ReplacementKeywords(source: Json, admitted: seq<Json>)
    requires source.Obj? && Wf(source) && AllWf(admitted)
    ensures Wf(Replacement(source, admitted))
    ensures KeywordsOf(Replacement(source, admitted)) == EnumKeywords(KeywordsOf(source), admitted)
  {
    var a := Annotated(source, |ANNOTATIONS|);
    AnnotatedKeywords(source, |ANNOTATIONS|);
    CopiedBounds(a, source);
    SetEnum(CopyBounds(a, source), Arr(admitted));
    SetWf(CopyBounds(a, source), "enum", Arr(admitted));
    EmptyKeywords();
  }

  function WithoutKey(members: Members, key: string): Members {
    if members == [] then []
    else if members[0].0 == key then WithoutKey(members[1..], key)
    else [members[0]] + WithoutKey(members[1..], key)
  }

  /** The node without its union. */
  function Siblings(node: Json): Json
    requires node.Obj?
  {
    Obj(WithoutKey(node.members, "anyOf"))
  }

  lemma {:induction false} FindWithout(members: Members, key: string, other: string)
    ensures Find(WithoutKey(members, key), other) == if other == key then None else Find(members, other)
  {
    if members != [] {
      FindWithout(members[1..], key, other);
      if members[0].0 != key {
        assert WithoutKey(members, key)[1..] == WithoutKey(members[1..], key);
      }
    }
  }

  /** The siblings of a union assert what the node asserts besides it. */
  lemma SiblingKeywords(s: Json)
    requires s.Obj?
    ensures KeywordsOf(Siblings(s)) == KeywordsOf(s).(anyOf := None)
  {
    FindWithout(s.members, "anyOf", "type");
    FindWithout(s.members, "anyOf", "enum");
    FindWithout(s.members, "anyOf", "const");
    FindWithout(s.members, "anyOf", "required");
    FindWithout(s.members, "anyOf", "minItems");
    FindWithout(s.members, "anyOf", "minLength");
    FindWithout(s.members, "anyOf", "maxLength");
    FindWithout(s.members, "anyOf", "minimum");
    FindWithout(s.members, "anyOf", "maximum");
    FindWithout(s.members, "anyOf", "properties");
    FindWithout(s.members, "anyOf", "additionalProperties");
    FindWithout(s.members, "anyOf", "items");
    FindWithout(s.members, "anyOf", "anyOf");
  }

  // --------------------------------------------------------- what is built

  predicate HasUnion(s: Json) {
    var k := KeywordsOf(s);
    s.Obj? && k.anyOf.Some? && k.anyOf.value.Arr?
  }

  /** The schema a schema is compiled to: a union becomes the enumeration of what it admits, below any
      other node every sub-schema is replaced in place. */
  function Form(s: Json): (r: Json)
    ensures s.Obj? ==> r.Obj?
    decreases s, 2
  {
    if !s.Obj? then s
    else if HasUnion(s) then Replacement(s, Admitted(s))
    else Node(s)
  }

  function FormMembers(ps: Json, n: nat): (r: Members)
    requires ps.Obj? && n <= |ps.members|
    ensures |r| == n
    decreases ps, 3, n
  {
    if n == 0 then [] else FormMembers(ps, n - 1) + [(ps.members[n - 1].0, Form(ps.members[n - 1].1))]
  }

  lemma {:induction false} FormMemberAt(ps: Json, n: nat, i: nat)
    requires ps.Obj? && i < n <= |ps.members|
    ensures FormMembers(ps, n)[i] == (ps.members[i].0, Form(ps.members[i].1))
    decreases n
  {
    if i < n - 1 { FormMemberAt(ps, n - 1, i); }
  }

  /** `properties` with every schema compiled. */
  function WithProperties(s: Json): (r: Json)
    requires s.Obj?
    ensures r.Obj?
    decreases s, 0
  {
    var k := KeywordsOf(s);
    if k.properties.Some? && k.properties.value.Obj? then
      Set(s, "properties", Obj(FormMembers(k.properties.value, |k.properties.value.members|)))
    else s
  }

  function WithItems(s: Json, node: Json): (r: Json)
    requires node.Obj?
    ensures r.Obj?
    decreases s, 0
  {
    var k := KeywordsOf(s);
    if k.items.Some? then Set(node, "items", Form(k.items.value)) else node
  }

  function WithAdditional(s: Json, node: Json): (r: Json)
    requires node.Obj?
    ensures r.Obj?
    decreases s, 0
  {
    var k := KeywordsOf(s);
    if k.additional.Some? && !k.additional.value.Bool? then Set(node, "additionalProperties", Form(k.additional.value)) else node
  }

  /** The node with its own keywords and everything below it compiled, except the branches of its union. */
  function Node(s: Json): (r: Json)
    requires s.Obj?
    ensures r.Obj?
    decreases s, 1
  {
    WithAdditional(s, WithItems(s, WithProperties(s)))
  }

  /** The values a branch names. */
  function BranchValues(b: Json): seq<Json>
    decreases b, 3
  {
    Candidates(Form(b)).GetOr([])
  }

  /** The values the first `n` branches name and accept. */
  function Values(bs: Json, n: nat): seq<Json>
    requires bs.Arr? && n <= |bs.items|
    decreases bs, 4, n
  {
    if n == 0 then [] else Merge(bs.items[n - 1], BranchValues(bs.items[n - 1]), Values(bs, n - 1))
  }

  /** Those the whole source accepts. */
  function Admitted(s: Json): seq<Json>
    requires HasUnion(s)
    decreases s, 1
  {
    var bs := KeywordsOf(s).anyOf.value;
    Admit(s, Values(bs, |bs.items|))
  }

  // ------------------------------------------------------------ every position

  /** `p` holds of every schema in `s`, each with its depth. */
  predicate Everywhere(s: Json, depth: nat, p: (Json, nat) -> bool)
    decreases s, 2
  {
    p(s, depth) && (s.Obj? ==> BelowNode(s, depth + 1, p) && BelowUnion(s, depth + 1, p))
  }

  predicate BelowNode(s: Json, depth: nat, p: (Json, nat) -> bool)
    decreases s, 1
  {
    BelowProperties(s, depth, p) && BelowItems(s, depth, p) && BelowAdditional(s, depth, p)
  }

  predicate BelowProperties(s: Json, depth: nat, p: (Json, nat) -> bool)
    decreases s, 0
  {
    var k := KeywordsOf(s);
    k.properties.Some? && k.properties.value.Obj? ==> InMembers(k.properties.value, depth, p, |k.properties.value.members|)
  }

  predicate BelowItems(s: Json, depth: nat, p: (Json, nat) -> bool)
    decreases s, 0
  {
    var k := KeywordsOf(s);
    k.items.Some? ==> Everywhere(k.items.value, depth, p)
  }

  predicate BelowAdditional(s: Json, depth: nat, p: (Json, nat) -> bool)
    decreases s, 0
  {
    var k := KeywordsOf(s);
    k.additional.Some? && !k.additional.value.Bool? ==> Everywhere(k.additional.value, depth, p)
  }

  predicate BelowUnion(s: Json, depth: nat, p: (Json, nat) -> bool)
    decreases s, 1
  {
    HasUnion(s) ==> var bs := KeywordsOf(s).anyOf.value; InBranches(bs, depth, p, |bs.items|)
  }

  predicate InMembers(ps: Json, depth: nat, p: (Json, nat) -> bool, n: nat)
    requires ps.Obj? && n <= |ps.members|
    decreases ps, 4, n
  {
    n == 0 || (InMembers(ps, depth, p, n - 1) && InMember(ps.members[n - 1].1, depth, p))
  }

  predicate InMember(x: Json, depth: nat, p: (Json, nat) -> bool)
    decreases x, 3
  {
    Everywhere(x, depth, p)
  }

  predicate InBranches(bs: Json, depth: nat, p: (Json, nat) -> bool, n: nat)
    requires bs.Arr? && n <= |bs.items|
    decreases bs, 3, n
  {
    n == 0 || (InBranches(bs, depth, p, n - 1) && InBranch(bs.items[n - 1], depth, p))
  }

  predicate InBranch(b: Json, depth: nat, p: (Json, nat) -> bool)
    decreases b, 3
  {
    Everywhere(b, depth, p)
  }

  predicate BoundValid(key: string, n: Json) {
    IsNumber(n) && (key in ["minLength", "maxLength", "minItems"] ==> NumberOf(n) >= 0.0 && Integral(NumberOf(n)))
  }

  const BOUNDS := ["minLength", "maxLength", "minimum", "maximum", "minItems"]

  /** Every keyword is known and every bound is well formed. */
  predicate SyntaxOk(source: Json)
    requires source.Obj?
  {
    && (forall i | 0 <= i < |source.members| :: Known(source.members[i].0))
    && (forall i | 0 <= i < |BOUNDS| ::
          var n := Get(source, BOUNDS[i]);
          n.Some? ==> BoundValid(BOUNDS[i], n.value))
  }

  /** A branch names its values: it is a union again, or finite by its own keywords. */
  predicate NamesValues(branch: Json) {
    KeywordsOf(branch).anyOf.Some? || Candidates(branch).Some?
  }

  predicate AllNameValues(bs: seq<Json>, n: nat)
    requires n <= |bs|
  {
    forall j | 0 <= j < n :: NamesValues(bs[j])
  }

  lemma {:induction false} InBranchesIff(bs: Json, depth: nat, p: (Json, nat) -> bool, n: nat)
    requires bs.Arr? && n <= |bs.items|
    ensures InBranches(bs, depth, p, n) <==> forall j :: 0 <= j < n ==> InBranch(bs.items[j], depth, p)
    decreases n
  {
    if n > 0 { InBranchesIff(bs, depth, p, n - 1); }
  }

  predicate NonEmptyUnion(s: Json) {
    var k := KeywordsOf(s);
    k.anyOf.Some? && k.anyOf.value.Arr? && k.anyOf.value.items != []
  }

  predicate PropertiesAreObject(s: Json) {
    var k := KeywordsOf(s);
    k.properties.Some? ==> k.properties.value.Obj?
  }

  predicate UnionFinite(s: Json) {
    var k := KeywordsOf(s);
    k.anyOf.Some? ==> NonEmptyUnion(s) && AllNameValues(k.anyOf.value.items, |k.anyOf.value.items|)
  }

  /** What the compiler demands of a node, whatever `check` says. */
  predicate NodeFits(s: Json) {
    s.Obj? && SyntaxOk(s) && PropertiesAreObject(s) && UnionFinite(s)
  }

  function Fitting(): (Json, nat) -> bool {
    (s: Json, depth: nat) => NodeFits(s)
  }

  /** Schemas the compiler can express, however deep their nesting. */
  predicate Compilable(s: Json) {
    Everywhere(s, 0, Fitting())
  }

  // ------------------------------------------------------------------ exactness

  ghost predicate Demands(p: (Json, nat) -> bool) {
    forall t, d {:trigger p(t, d), NodeFits(t)} :: p(t, d) ==> NodeFits(t)
  }

  /** The compiled schema means the same. */
  ghost predicate Faithful(s: Json, t: Json) {
    Wf(t) && Exact(s, t)
  }

  /** So do the compiled properties, name by name. */
  ghost predicate FaithfulMembers(ps: Members, ms: Members) {
    && |ms| == |ps| && (forall i :: 0 <= i < |ms| ==> ms[i].0 == ps[i].0)
    && forall i :: 0 <= i < |ms| ==> Faithful(ps[i].1, ms[i].1)
  }

  lemma {:induction false} MembersExact(ps: Json, n: nat, depth: nat, p: (Json, nat) -> bool)
    requires ps.Obj? && n <= |ps.members| && Wf(ps) && InMembers(ps, depth, p, n) && Demands(p)
    ensures FaithfulMembers(ps.members[..n], FormMembers(ps, n))
    decreases ps, 3, n
  {
    if n > 0 {
      var (name, x) := ps.members[n - 1];
      MembersExact(ps, n - 1, depth, p);
      FormExact(x, depth, p);
      FaithfulNext(ps.members[..n - 1], FormMembers(ps, n - 1), name, x, Form(x));
      assert ps.members[..n] == ps.members[..n - 1] + [(name, x)];
    }
  }

  lemma FaithfulNext(ps: Members, ms: Members, name: string, x: Json, t: Json)
    requires FaithfulMembers(ps, ms) && Faithful(x, t)
    ensures FaithfulMembers(ps + [(name, x)], ms + [(name, t)])
  {
  }

  lemma FaithfulMembersMeans(ps: Members, ms: Members)
    requires FaithfulMembers(ps, ms) && Distinct(ps)
    ensures Wf(Obj(ms)) && ExactMembers(false, Some(Obj(ps)), Some(Obj(ms)))
  {
  }

  lemma {:induction false} PropertiesExact(s: Json, depth: nat, p: (Json, nat) -> bool)
    requires s.Obj? && Wf(s) && PropertiesAreObject(s) && BelowProperties(s, depth, p) && Demands(p)
    ensures var r := WithProperties(s); var k, k' := KeywordsOf(s), KeywordsOf(r);
            Wf(r) && k' == k.(properties := k'.properties) && ExactMembers(false, k.properties, k'.properties)
    decreases s, 0
  {
    var k := KeywordsOf(s);
    if k.properties.Some? {
      var ps := k.properties.value;
      GetWf(s, "properties");
      MembersExact(ps, |ps.members|, depth, p);
      assert ps.members[..|ps.members|] == ps.members;
      var ms := FormMembers(ps, |ps.members|);
      FaithfulMembersMeans(ps.members, ms);
      SetProperties(s, Obj(ms));
      SetWf(s, "properties", Obj(ms));
    }
  }

  lemma {:induction false} ItemsExact(s: Json, node: Json, depth: nat, p: (Json, nat) -> bool)
    requires s.Obj? && Wf(s) && node.Obj? && Wf(node) && BelowItems(s, depth, p) && Demands(p)
    requires KeywordsOf(node).items == KeywordsOf(s).items
    ensures var r := WithItems(s, node); var k, k' := KeywordsOf(node), KeywordsOf(r);
            Wf(r) && k' == k.(items := k'.items) && SameOrExact(false, k.items, k'.items)
    decreases s, 0
  {
    var k := KeywordsOf(s);
    if k.items.Some? {
      GetWf(s, "items");
      FormExact(k.items.value, depth, p);
      SetItems(node, Form(k.items.value));
      SetWf(node, "items", Form(k.items.value));
    }
  }

  lemma {:induction false} AdditionalExact(s: Json, node: Json, depth: nat, p: (Json, nat) -> bool)
    requires s.Obj? && Wf(s) && node.Obj? && Wf(node) && BelowAdditional(s, depth, p) && Demands(p)
    requires KeywordsOf(node).additional == KeywordsOf(s).additional
    ensures var r := WithAdditional(s, node); var k, k' := KeywordsOf(node), KeywordsOf(r);
            Wf(r) && k' == k.(additional := k'.additional) && SameOrExact(false, k.additional, k'.additional)
    decreases s, 0
  {
    var k := KeywordsOf(s);
    if k.additional.Some? && !k.additional.value.Bool? {
      GetWf(s, "additionalProperties");
      FormExact(k.additional.value, depth, p);
      SetAdditional(node, Form(k.additional.value));
      SetWf(node, "additionalProperties", Form(k.additional.value));
    }
  }

  /** A node keeps its keywords but for equivalent sub-schemas. */
  lemma {:induction false} NodeExact(s: Json, depth: nat, p: (Json, nat) -> bool)
    requires s.Obj? && Wf(s) && PropertiesAreObject(s) && BelowNode(s, depth, p) && Demands(p)
    ensures Wf(Node(s)) && Congruent(false, KeywordsOf(s), KeywordsOf(Node(s)))
    ensures KeywordsOf(Node(s)).anyOf == KeywordsOf(s).anyOf
    decreases s, 1
  {
    PropertiesExact(s, depth, p);
    ItemsExact(s, WithProperties(s), depth, p);
    AdditionalExact(s, WithItems(s, WithProperties(s)), depth, p);
  }

  /** A node keeps its keywords but for equivalent sub-schemas, and a union becomes an enumeration. */
  ghost predicate Shape(s: Json, t: Json) {
    && KeywordsOf(t).anyOf.None?
    && (KeywordsOf(s).anyOf.None? ==> Congruent(false, KeywordsOf(s), KeywordsOf(t)))
    && (KeywordsOf(s).anyOf.Some? ==> KeywordsOf(t).members.Some?)
  }

  lemma ShapeCandidates(b: Json, t: Json)
    requires Shape(b, t)
    ensures Candidates(t).Some? <==> NamesValues(b)
  {
  }

  lemma MergeWf(branch: Json, candidates: seq<Json>, values: seq<Json>)
    requires AllWf(candidates) && AllWf(values)
    ensures AllWf(Merge(branch, candidates, values))
  {
    var merged := Merge(branch, candidates, values);
    forall i | 0 <= i < |merged| ensures Wf(merged[i]) { MergeMembers(branch, candidates, values, merged[i]); }
  }

  lemma MergeKeeps(branch: Json, candidates: seq<Json>, values: seq<Json>, v: Json)
    requires Represented(v, values)
    ensures Represented(v, Merge(branch, candidates, values))
  {
    var i :| 0 <= i < |values| && JsonEqual(v, values[i]);
    MergeMembers(branch, candidates, values, values[i]);
  }

  lemma MergeCovers(branch: Json, candidates: seq<Json>, values: seq<Json>, v: Json)
    requires Ranges(false, v) && Sat(v, branch) && AllWf(candidates) && Represented(v, candidates)
    ensures Represented(v, Merge(branch, candidates, values))
  {
    var j :| 0 <= j < |candidates| && JsonEqual(v, candidates[j]);
    CleanEqual(v, candidates[j]);
    SatRespectsEqual(v, candidates[j], branch);
    MergeMembers(branch, candidates, values, candidates[j]);
  }

  lemma {:induction false} BranchWf(b: Json, depth: nat, p: (Json, nat) -> bool)
    requires Wf(b) && Everywhere(b, depth, p) && Demands(p)
    ensures AllWf(BranchValues(b))
    decreases b, 4
  {
    FormExact(b, depth, p);
    if Candidates(Form(b)).Some? { CandidatesWf(Form(b)); }
  }

  /** A branch that names its values names all it accepts. */
  lemma {:induction false} BranchCovers(b: Json, depth: nat, p: (Json, nat) -> bool, v: Json)
    requires Wf(b) && Everywhere(b, depth, p) && Demands(p) && NamesValues(b) && Ranges(false, v) && Sat(v, b)
    ensures Represented(v, BranchValues(b))
    decreases b, 4
  {
    FormExact(b, depth, p);
    CandidatesComplete(Form(b), v);
  }

  lemma {:induction false} ValuesWf(bs: Json, n: nat, depth: nat, p: (Json, nat) -> bool)
    requires bs.Arr? && n <= |bs.items| && Wf(bs) && InBranches(bs, depth, p, n) && Demands(p)
    ensures AllWf(Values(bs, n))
    decreases bs, 3, n
  {
    if n > 0 {
      ValuesWf(bs, n - 1, depth, p);
      BranchWf(bs.items[n - 1], depth, p);
      MergeWf(bs.items[n - 1], BranchValues(bs.items[n - 1]), Values(bs, n - 1));
    }
  }

  lemma {:induction false} ValuesKeep(bs: Json, j: nat, n: nat, v: Json)
    requires bs.Arr? && j <= n <= |bs.items| && Represented(v, Values(bs, j))
    ensures Represented(v, Values(bs, n))
    decreases n
  {
    if j < n {
      ValuesKeep(bs, j, n - 1, v);
      MergeKeeps(bs.items[n - 1], BranchValues(bs.items[n - 1]), Values(bs, n - 1), v);
    }
  }

  /** Every value some branch accepts is represented among the collected ones. */
  lemma {:induction false} ValuesCover(bs: Json, n: nat, depth: nat, p: (Json, nat) -> bool, v: Json, j: nat)
    requires bs.Arr? && j < n <= |bs.items| && Wf(bs.items[j]) && InBranch(bs.items[j], depth, p) && Demands(p) && Ranges(false, v)
    ensures NamesValues(bs.items[j]) && Sat(v, bs.items[j]) ==> Represented(v, Values(bs, n))
    decreases bs, 3
  {
    if NamesValues(bs.items[j]) && Sat(v, bs.items[j]) {
      MergedBranch(bs.items[j], depth, p, Values(bs, j), v);
      ValuesKeep(bs, j + 1, n, v);
    }
  }

  lemma {:induction false} MergedBranch(b: Json, depth: nat, p: (Json, nat) -> bool, values: seq<Json>, v: Json)
    requires Wf(b) && InBranch(b, depth, p) && Demands(p) && Ranges(false, v)
    ensures NamesValues(b) && Sat(v, b) ==> Represented(v, Merge(b, BranchValues(b), values))
    decreases b, 5
  {
    if NamesValues(b) && Sat(v, b) {
      BranchWf(b, depth, p);
      BranchCovers(b, depth, p, v);
      MergeCovers(b, BranchValues(b), values, v);
    }
  }

  lemma AdmitWf(source: Json, values: seq<Json>)
    requires AllWf(values)
    ensures AllWf(Admit(source, values)) && forall c :: c in Admit(source, values) ==> Sat(c, source)
  {
    var admitted := Admit(source, values);
    forall i | 0 <= i < |admitted| ensures Wf(admitted[i]) { AdmitMembers(source, values, admitted[i]); }
    forall c | c in admitted ensures Sat(c, source) { AdmitMembers(source, values, c); }
  }

  lemma AdmitCovers(source: Json, values: seq<Json>, v: Json)
    requires Ranges(false, v) && Sat(v, source) && AllWf(values) && Represented(v, values)
    ensures Represented(v, Admit(source, values))
  {
    var j :| 0 <= j < |values| && JsonEqual(v, values[j]);
    CleanEqual(v, values[j]);
    SatRespectsEqual(v, values[j], source);
    AdmitMembers(source, values, values[j]);
  }

  lemma {:induction false} UnionCovers(bs: Json, depth: nat, p: (Json, nat) -> bool, v: Json)
    requires bs.Arr? && Wf(bs) && InBranches(bs, depth, p, |bs.items|) && Demands(p) && AllNameValues(bs.items, |bs.items|)
    requires Ranges(false, v) && AnyOfOk(v, bs)
    ensures Represented(v, Values(bs, |bs.items|))
    decreases bs, 4
  {
    var j :| 0 <= j < |bs.items| && Sat(v, bs.items[j]);
    InBranchesIff(bs, depth, p, |bs.items|);
    ValuesCover(bs, |bs.items|, depth, p, v, j);
  }

  /** What a union admits: values of its branches it accepts, one for every value it accepts. */
  lemma {:induction false} AdmittedExact(s: Json, depth: nat, p: (Json, nat) -> bool)
    requires HasUnion(s) && Wf(s) && UnionFinite(s) && BelowUnion(s, depth, p) && Demands(p)
    ensures AllWf(Admitted(s)) && (forall c :: c in Admitted(s) ==> Sat(c, s))
    ensures forall v :: Ranges(false, v) && Sat(v, s) ==> Represented(v, Admitted(s))
    decreases s, 0
  {
    var bs := KeywordsOf(s).anyOf.value;
    GetWf(s, "anyOf");
    ValuesWf(bs, |bs.items|, depth, p);
    AdmitWf(s, Values(bs, |bs.items|));
    forall v | Ranges(false, v) && Sat(v, s) ensures Represented(v, Admitted(s)) {
      assert AnyOfOk(v, bs);
      UnionCovers(bs, depth, p, v);
      AdmitCovers(s, Values(bs, |bs.items|), v);
    }
  }

  lemma {:induction false} UnionExact(s: Json, depth: nat, p: (Json, nat) -> bool)
    requires HasUnion(s) && Wf(s) && UnionFinite(s) && BelowUnion(s, depth, p) && Demands(p)
    ensures Faithful(s, Form(s)) && Shape(s, Form(s))
    decreases s, 1
  {
    AdmittedExact(s, depth, p);
    ReplacementKeywords(s, Admitted(s));
    EnumerationExact(s, Admitted(s), Form(s));
  }

  /** Whatever the compiler can express it expresses exactly: the compiled schema accepts the same clean values. */
  lemma {:induction false} FormExact(s: Json, depth: nat, p: (Json, nat) -> bool)
    requires Wf(s) && Everywhere(s, depth, p) && Demands(p)
    ensures Faithful(s, Form(s)) && (Candidates(Form(s)).Some? <==> NamesValues(s))
    decreases s, 3
  {
    assert NodeFits(s);
    FormShape(s, depth, p);
    ShapeCandidates(s, Form(s));
    if HasUnion(s) {
      UnionExact(s, depth + 1, p);
    } else {
      CongruentExact(false, s, Form(s));
    }
  }

  lemma {:induction false} FormShape(s: Json, depth: nat, p: (Json, nat) -> bool)
    requires Wf(s) && Everywhere(s, depth, p) && Demands(p)
    ensures Wf(Form(s)) && Shape(s, Form(s))
    decreases s, 2
  {
    assert NodeFits(s);
    if HasUnion(s) {
      UnionExact(s, depth + 1, p);
    } else {
      NodeExact(s, depth + 1, p);
    }
  }
}
