/** Unions of indexed families of sets. */
module Unions {

  ghost function Join<X(!new), T(!new)>(f: X -> iset<T>, xs: seq<X>): iset<T> {
    if xs == [] then iset{} else Join(f, xs[..|xs| - 1]) + f(xs[|xs| - 1])
  }

  lemma {:induction false} JoinMember<X(!new), T(!new)>(f: X -> iset<T>, xs: seq<X>, v: T)
    ensures v in Join(f, xs) <==> exists i :: 0 <= i < |xs| && v in f(xs[i])
  {
    if xs != [] {
      var init := xs[..|xs| - 1];
      JoinMember(f, init, v);
      assert forall i :: 0 <= i < |init| ==> init[i] == xs[i];
    }
  }

  lemma JoinAppend<X(!new), T(!new)>(f: X -> iset<T>, xs: seq<X>, x: X)
    ensures Join(f, xs + [x]) == Join(f, xs) + f(x)
  {
    assert (xs + [x])[..|xs|] == xs;
  }

  lemma JoinOne<X(!new), T(!new)>(f: X -> iset<T>, x: X)
    ensures Join(f, [x]) == f(x)
  {
    JoinAppend(f, [], x);
    assert [] + [x] == [x];
  }

  lemma JoinPrefix<X(!new), T(!new)>(f: X -> iset<T>, xs: seq<X>, i: nat)
    requires i < |xs|
    ensures Join(f, xs[..i + 1]) == Join(f, xs[..i]) + f(xs[i])
  {
    JoinAppend(f, xs[..i], xs[i]);
    assert xs[..i + 1] == xs[..i] + [xs[i]];
  }

  lemma {:induction false} JoinConcat<X(!new), T(!new)>(f: X -> iset<T>, a: seq<X>, b: seq<X>)
    ensures Join(f, a + b) == Join(f, a) + Join(f, b)
  {
    if b == [] {
      assert a + b == a;
    } else {
      var init, last := b[..|b| - 1], b[|b| - 1];
      JoinConcat(f, a, init);
      JoinAppend(f, a + init, last);
      assert a + b == (a + init) + [last];
    }
  }
}

/**
 Unions that one native schema cannot express: lower_schema_alternatives distributes them
 into at most 64 whole schemas (tools/axiom_codex_schema.h).
 */
module SchemaAlternatives {
  import opened Common
  import opened Json
  import opened Schema
  import opened SchemaForm
  import opened SchemaLowering
  import opened SchemaSplit
  import opened Unions

  /** The schema accepts a NUL-free value exactly when one of the alternatives does. */
  ghost predicate Union(s: Json, alternatives: seq<Json>) {
    forall v :: Regular(v) ==> (Sat(v, s) <==> exists i :: 0 <= i < |alternatives| && Sat(v, alternatives[i]))
  }

  ghost predicate Objects(alternatives: seq<Json>) {
    forall i :: 0 <= i < |alternatives| ==> alternatives[i].Obj? && Wf(alternatives[i])
  }

  /** The NUL-free values a schema accepts. */
  ghost function Accepts(s: Json): iset<Json> {
    iset v | Regular(v) && Sat(v, s)
  }

  lemma JoinMeansUnion(s: Json, alternatives: seq<Json>)
    requires Accepts(s) == Join(Accepts, alternatives)
    ensures Union(s, alternatives)
  {
    forall v | Regular(v) ensures Sat(v, s) <==> exists i :: 0 <= i < |alternatives| && Sat(v, alternatives[i]) {
      JoinMember(Accepts, alternatives, v);
      assert v in Accepts(s) <==> Sat(v, s);
      assert forall i :: 0 <= i < |alternatives| ==> (v in Accepts(alternatives[i]) <==> Sat(v, alternatives[i]));
    }
  }

  lemma ExactAccepts(s: Json, t: Json)
    requires Exact(s, t)
    ensures Accepts(s) == Accepts(t)
  {
    forall v ensures v in Accepts(s) <==> v in Accepts(t) {
      if Regular(v) { NulFreeIsClean(v); }
    }
  }

  // ------------------------------------------------------ distribution over anyOf

  lemma AssertionNames()
    ensures !IsAnnotation("type") && !IsAnnotation("enum") && !IsAnnotation("const") && !IsAnnotation("required")
    ensures !IsAnnotation("minItems") && !IsAnnotation("minLength") && !IsAnnotation("maxLength")
    ensures !IsAnnotation("minimum") && !IsAnnotation("maximum") && !IsAnnotation("properties")
    ensures !IsAnnotation("additionalProperties") && !IsAnnotation("items") && !IsAnnotation("anyOf")
  {
  }

  lemma OnlyUnionKeywords(source: Json)
    requires OnlyUnion(source)
    ensures KeywordsOf(source) == KeywordsOf(Obj([])).(anyOf := Get(source, "anyOf"))
  {
    EmptyKeywords();
    AssertionNames();
    OnlyUnionLacks(source, "type");
    OnlyUnionLacks(source, "enum");
    OnlyUnionLacks(source, "const");
    OnlyUnionLacks(source, "required");
    OnlyUnionLacks(source, "minItems");
    OnlyUnionLacks(source, "minLength");
    OnlyUnionLacks(source, "maxLength");
    OnlyUnionLacks(source, "minimum");
    OnlyUnionLacks(source, "maximum");
    OnlyUnionLacks(source, "properties");
    OnlyUnionLacks(source, "additionalProperties");
    OnlyUnionLacks(source, "items");
  }

  lemma OnlyUnionSat(v: Json, source: Json)
    requires OnlyUnion(source) && NonEmptyUnion(source)
    ensures Sat(v, source) <==> AnyOfOk(v, Get(source, "anyOf").value)
  {
    OnlyUnionKeywords(source);
    EmptyKeywords();
  }

  lemma AnyOfAccepts(v: Json, bs: Json)
    requires bs.Arr? && Regular(v)
    ensures AnyOfOk(v, bs) <==> v in Join(Accepts, bs.items)
  {
    JoinMember(Accepts, bs.items, v);
    assert forall i :: 0 <= i < |bs.items| ==> (v in Accepts(bs.items[i]) <==> Sat(v, bs.items[i]));
  }

  lemma JoinIsRegular(alternatives: seq<Json>, v: Json)
    requires v in Join(Accepts, alternatives)
    ensures Regular(v)
  {
    JoinMember(Accepts, alternatives, v);
  }

  lemma OnlyUnionMeaning(source: Json)
    requires OnlyUnion(source) && NonEmptyUnion(source)
    ensures Accepts(source) == Join(Accepts, Get(source, "anyOf").value.items)
  {
    var branches := Get(source, "anyOf").value;
    forall v ensures v in Accepts(source) <==> v in Join(Accepts, branches.items) {
      OnlyUnionSat(v, source);
      if Regular(v) { AnyOfAccepts(v, branches); }
      if v in Join(Accepts, branches.items) { JoinIsRegular(branches.items, v); }
    }
  }

  lemma {:induction false} LabelledMeans(branch: Json, source: Json, n: nat)
    requires branch.Obj? && Wf(branch) && OnlyUnion(source) && Wf(source) && n <= |source.members|
    ensures Wf(Labelled(branch, source, n)) && Accepts(Labelled(branch, source, n)) == Accepts(branch)
  {
    if n > 0 {
      LabelledMeans(branch, source, n - 1);
      LabelMeans(Labelled(branch, source, n - 1), source.members[n - 1].0, source.members[n - 1].1);
    }
  }

  lemma LabelMeans(s: Json, key: string, value: Json)
    requires s.Obj? && Wf(s) && Wf(value)
    ensures IsAnnotation(key) ==> Wf(Set(s, key, value)) && Accepts(Set(s, key, value)) == Accepts(s)
  {
    if IsAnnotation(key) {
      AnnotationExact(s, key, value);
      assert Exact(s, Set(s, key, value));
      ExactAccepts(s, Set(s, key, value));
      SetWf(s, key, value);
    }
  }

  /** The union's annotations change nothing accepted. */
  lemma {:induction false} LabelledAllMeans(alternatives: seq<Json>, source: Json)
    requires Objects(alternatives) && OnlyUnion(source) && Wf(source)
    ensures Objects(LabelledAll(alternatives, source))
    ensures Join(Accepts, LabelledAll(alternatives, source)) == Join(Accepts, alternatives)
  {
    if alternatives != [] {
      var init, last := alternatives[..|alternatives| - 1], alternatives[|alternatives| - 1];
      LabelledAllMeans(init, source);
      LabelledMeans(last, source, |source.members|);
      JoinAppend(Accepts, LabelledAll(init, source), Labelled(last, source, |source.members|));
    }
  }

  lemma ObjectsConcat(a: seq<Json>, b: seq<Json>)
    requires Objects(a) && Objects(b)
    ensures Objects(a + b)
  {
  }

  /** The schemas of the list accept together what the branches accept. */
  ghost predicate Covers(out: seq<Json>, branches: seq<Json>) {
    Objects(out) && Join(Accepts, out) == Join(Accepts, branches)
  }

  lemma CoversNext(s: Json, branches: seq<Json>, n: nat, before: seq<Json>, part: seq<Json>)
    requires OnlyUnion(s) && Wf(s) && n < |branches|
    ensures Covers(before, branches[..n]) && Means(branches[n], part) ==> Covers(before + LabelledAll(part, s), branches[..n + 1])
  {
    if Covers(before, branches[..n]) && Means(branches[n], part) {
      LabelledAllMeans(part, s);
      ObjectsConcat(before, LabelledAll(part, s));
      JoinConcat(Accepts, before, LabelledAll(part, s));
      JoinPrefix(Accepts, branches, n);
    }
  }

  ghost function CoversUpTo(branches: seq<Json>): (seq<Json>, nat) -> bool {
    (out: seq<Json>, i: nat) => i <= |branches| && Covers(out, branches[..i])
  }

  lemma {:induction false} BranchesStepwise(s: Json, bs: Json, c: Compiler, depth: nat)
    requires Describes(c) && OnlyUnion(s) && Wf(s) && bs.Arr? && Wf(bs)
    ensures StepwiseBranches(CoversUpTo(bs.items), s, bs, c, depth)
    decreases bs, 4
  {
    forall out: seq<Json>, i: nat | i < |bs.items| && CoversUpTo(bs.items)(out, i) && DivisiblePart(bs.items[i], c, depth)
      ensures CoversUpTo(bs.items)(out + LabelledAll(SplitPart(bs.items[i], c, depth), s), i + 1)
    {
      SplitPartMeans(bs.items[i], c, depth);
      CoversNext(s, bs.items, i, out, SplitPart(bs.items[i], c, depth));
    }
  }

  /** The alternatives of all branches are together the branches. */
  lemma {:induction false} SplitBranchesMean(s: Json, bs: Json, c: Compiler, depth: nat)
    requires Describes(c) && OnlyUnion(s) && Wf(s) && bs.Arr? && Wf(bs)
    ensures (forall j :: 0 <= j < |bs.items| ==> DivisiblePart(bs.items[j], c, depth)) ==>
              Covers(SplitBranches(s, bs, c, depth, |bs.items|), bs.items)
    decreases bs, 5
  {
    BranchesStepwise(s, bs, c, depth);
    BranchesHold(s, bs, c, depth, CoversUpTo(bs.items), |bs.items|);
    assert bs.items[..0] == [] && bs.items[..|bs.items|] == bs.items;
  }

  lemma {:induction false} SplitPartMeans(x: Json, c: Compiler, depth: nat)
    requires Describes(c) && Wf(x)
    ensures DivisiblePart(x, c, depth) ==> Means(x, SplitPart(x, c, depth))
    decreases x, 3
  {
    if Divisible(x, c, depth) { SplitMeans(x, c, depth); }
  }

  /** The alternatives are schemas that together accept what the schema accepts. */
  ghost predicate Means(s: Json, alternatives: seq<Json>) {
    Objects(alternatives) && alternatives != [] && Accepts(s) == Join(Accepts, alternatives)
  }

  /** Whatever can be distributed means the union of its alternatives. */
  lemma {:induction false} SplitMeans(s: Json, c: Compiler, depth: nat)
    requires Describes(c) && Wf(s) && Divisible(s, c, depth)
    ensures Means(s, Split(s, c, depth))
    decreases s, 2
  {
    if c.compiles(s, depth) {
      LoweredMeans(s, c.check, depth);
      ExactAccepts(s, Form(s));
      JoinOne(Accepts, Form(s));
    } else {
      assert Divides(s, c, depth);
      if KeywordsOf(s).anyOf.Some? { SplitUnionMeans(s, c, depth); } else { SplitPropertiesMeans(s, c, depth); }
      WidthPositive(s, c, depth);
      SplitWidth(s, c, depth);
    }
  }

  lemma {:induction false} SplitUnionMeans(s: Json, c: Compiler, depth: nat)
    requires Describes(c) && Wf(s) && s.Obj? && DividesUnion(s, c, depth) && !c.compiles(s, depth)
    ensures Objects(Split(s, c, depth)) && Accepts(s) == Join(Accepts, Split(s, c, depth))
    decreases s, 1
  {
    var bs := KeywordsOf(s).anyOf.value;
    GetWf(s, "anyOf");
    SplitBranchesMean(s, bs, c, depth + 1);
    OnlyUnionMeaning(s);
  }

  // --------------------------------------------------- distribution over properties

  /** A property whose name holds a NUL says nothing through its own schema, which no lookup finds. */
  predicate KeyOk(v: Json, key: string, c: Json) {
    v.Obj? && !HasNul(key) && Get(v, key).Some? ==> Sat(Get(v, key).value, c)
  }

  predicate KeysOk(v: Json, ps: Json) {
    v.Obj? ==> ps.Obj? && forall i | 0 <= i < |ps.members| :: KeyOk(v, ps.members[i].0, ps.members[i].1)
  }

  /** What it does say: if the value has the cut name, the schema must have it too. */
  predicate NamesOk(v: Json, ps: Json) {
    v.Obj? && ps.Obj? ==> forall i | 0 <= i < |ps.members| ::
      HasNul(ps.members[i].0) && Lookup(v, ps.members[i].0).Some? ==> Lookup(ps, ps.members[i].0).Some?
  }

  lemma NamedSplit(v: Json, ps: Json)
    requires Regular(v) && Wf(ps)
    ensures NamedOk(v, ps) && MembersOk(v, ps) <==> KeysOk(v, ps) && NamesOk(v, ps)
  {
    if v.Obj? && ps.Obj? {
      forall i | 0 <= i < |ps.members| ensures Find(ps.members, ps.members[i].0) == Some(ps.members[i].1) {
        FindDistinct(ps.members, i);
      }
      if NamedOk(v, ps) { MembersFollow(v, ps); }
      if KeysOk(v, ps) && NamesOk(v, ps) {
        forall i | 0 <= i < |ps.members| && Lookup(v, ps.members[i].0).Some?
          ensures var n := ps.members[i].0; Lookup(ps, n).Some? && Sat(Lookup(v, n).value, Lookup(ps, n).value)
        {
          var n := ps.members[i].0;
          var m :| 0 <= m < |ps.members| && ps.members[m] == (CutAtNul(n), Lookup(ps, n).value);
          assert KeyOk(v, ps.members[m].0, ps.members[m].1);
        }
        MembersFollow(v, ps);
      }
    }
  }

  /** The values whose property `key`, when present, satisfies the argument. */
  ghost function AcceptsKey(key: string): Json -> iset<Json> {
    (c: Json) => iset v | Regular(v) && KeyOk(v, key, c)
  }

  /** The values whose properties satisfy the schemas `ps` gives them. */
  ghost function AcceptsProps(ps: Json): iset<Json> {
    iset v | Regular(v) && KeysOk(v, ps)
  }

  ghost function AcceptsPropsOf(o: Json): iset<Json> {
    AcceptsProps(PropsOf(o))
  }

  lemma PropsAppend(ms: Members, key: string, c: Json)
    ensures AcceptsProps(Obj(ms + [(key, c)])) == AcceptsProps(Obj(ms)) * AcceptsKey(key)(c)
  {
    var all := ms + [(key, c)];
    assert all[|ms|] == (key, c);
    assert forall i :: 0 <= i < |ms| ==> all[i] == ms[i];
  }

  /** Splitting a property's schema splits the values that property admits. */
  lemma SplitKey(v: Json, key: string, child: Json, choices: seq<Json>)
    requires Accepts(child) == Join(Accepts, choices) && choices != [] && Regular(v)
    ensures v in AcceptsKey(key)(child) <==> v in Join(AcceptsKey(key), choices)
  {
    JoinMember(AcceptsKey(key), choices, v);
    if v.Obj? && !HasNul(key) && Get(v, key).Some? {
      GetWf(v, key);
      var x := Get(v, key).value;
      JoinMember(Accepts, choices, x);
      assert forall c :: v in AcceptsKey(key)(c) <==> x in Accepts(c);
    } else {
      assert v in AcceptsKey(key)(choices[0]);
    }
  }

  lemma UnionKey(key: string, child: Json, choices: seq<Json>)
    requires Accepts(child) == Join(Accepts, choices) && choices != []
    ensures AcceptsKey(key)(child) == Join(AcceptsKey(key), choices)
  {
    forall v ensures v in AcceptsKey(key)(child) <==> v in Join(AcceptsKey(key), choices) {
      if Regular(v) {
        SplitKey(v, key, child, choices);
      } else {
        JoinMember(AcceptsKey(key), choices, v);
      }
    }
  }

  /** The node is `k` with property schemas under the given names. */
  predicate Shaped(o: Json, k: Keywords, names: Members) {
    && o.Obj?
    && KeywordsOf(o) == k.(properties := Some(PropsOf(o)))
    && PropsOf(o).Obj?
    && var ms := PropsOf(o).members;
       |ms| == |names| && forall i | 0 <= i < |ms| :: ms[i].0 == names[i].0
  }

  ghost predicate AllShaped(out: seq<Json>, k: Keywords, names: Members) {
    forall o :: o in out ==> Wf(o) && Shaped(o, k, names)
  }

  lemma AllShapedConcat(a: seq<Json>, b: seq<Json>, k: Keywords, names: Members)
    requires AllShaped(a, k, names) && AllShaped(b, k, names)
    ensures AllShaped(a + b, k, names)
  {
    forall o | o in a + b ensures Wf(o) && Shaped(o, k, names) {
      assert o in a || o in b;
    }
  }

  /** One more property schema meets what the parent accepts. */
  lemma WithChildMeans(parent: Json, key: string, child: Json, k: Keywords, names: Members, original: Json)
    requires Wf(parent) && Shaped(parent, k, names) && Wf(child)
    requires forall i :: 0 <= i < |names| ==> names[i].0 != key
    ensures var r := WithChild(parent, key, child);
            && Wf(r) && Shaped(r, k, names + [(key, original)])
            && AcceptsPropsOf(r) == AcceptsPropsOf(parent) * AcceptsKey(key)(child)
  {
    GetWf(parent, "properties");
    var children := PropsOf(parent);
    PropsAppend(children.members, key, child);
    SetMemberAppends(children.members, key, child);
    SetWf(children, key, child);
    SetProperties(parent, Set(children, key, child));
    SetWf(parent, "properties", Set(children, key, child));
  }

  lemma {:induction false} WithEachMeans(parent: Json, key: string, choices: seq<Json>, k: Keywords, names: Members, original: Json)
    requires Wf(parent) && Shaped(parent, k, names) && Objects(choices)
    requires forall i :: 0 <= i < |names| ==> names[i].0 != key
    ensures AllShaped(WithEach(parent, key, choices), k, names + [(key, original)])
    ensures Join(AcceptsPropsOf, WithEach(parent, key, choices)) == AcceptsPropsOf(parent) * Join(AcceptsKey(key), choices)
    decreases |choices|
  {
    if choices != [] {
      var init, last := choices[..|choices| - 1], choices[|choices| - 1];
      var r, x := WithEach(parent, key, init), WithChild(parent, key, last);
      WithEachMeans(parent, key, init, k, names, original);
      WithChildMeans(parent, key, last, k, names, original);
      AllShapedConcat(r, [x], k, names + [(key, original)]);
      JoinAppend(AcceptsPropsOf, r, x);
    }
  }

  /** The cross product accepts what a parent accepts together with some choice. */
  lemma {:induction false} ProductMeans(parents: seq<Json>, key: string, choices: seq<Json>, k: Keywords, names: Members, original: Json)
    requires AllShaped(parents, k, names) && Objects(choices)
    requires forall i :: 0 <= i < |names| ==> names[i].0 != key
    ensures AllShaped(Product(parents, key, choices), k, names + [(key, original)])
    ensures Join(AcceptsPropsOf, Product(parents, key, choices)) == Join(AcceptsPropsOf, parents) * Join(AcceptsKey(key), choices)
    decreases |parents|
  {
    if parents != [] {
      var init, last := parents[..|parents| - 1], parents[|parents| - 1];
      assert last in parents;
      ProductMeans(init, key, choices, k, names, original);
      WithEachMeans(last, key, choices, k, names, original);
      AllShapedConcat(Product(init, key, choices), WithEach(last, key, choices), k, names + [(key, original)]);
      JoinConcat(AcceptsPropsOf, Product(init, key, choices), WithEach(last, key, choices));
    }
  }

  ghost predicate SameNames(a: Json, b: Json) {
    && a.Obj? && b.Obj? && |a.members| == |b.members|
    && forall i :: 0 <= i < |a.members| ==> a.members[i].0 == b.members[i].0
  }

  /** Everything a node asserts besides its property schemas. */
  predicate RestOk(v: Json, k: Keywords) {
    && PlainOk(v, k)
    && (k.properties.Some? ==> NamesOk(v, k.properties.value))
    && ClosedOk(v, k.additional, k.properties)
    && (k.additional.Some? ==> AdditionalOk(v, k.additional.value, k.properties))
    && (k.items.Some? ==> ItemsOk(v, k.items.value))
  }

  lemma RestSame(v: Json, k: Keywords, k': Keywords)
    requires Regular(v) && k.properties.Some? && k'.properties.Some? && SameNames(k.properties.value, k'.properties.value)
    requires Congruent(false, k.(properties := None), k'.(properties := None))
    ensures RestOk(v, k) <==> RestOk(v, k')
  {
    forall key ensures Declared(k.properties, key) <==> Declared(k'.properties, key) {
    }
    NulFreeIsClean(v);
    CongruentAdditional(false, v, k.additional, k'.additional, k.properties, k'.properties);
    if k.items.Some? { CongruentItems(false, v, k.items, k'.items); }
  }

  /** Apart from its property schemas a built node asserts what the source asserts. */
  lemma ShapedMeaning(v: Json, source: Json, o: Json, k: Keywords, ps: Members)
    requires Regular(v) && Wf(source) && source.Obj? && KeywordsOf(source).anyOf.None? && KeywordsOf(source).properties == Some(Obj(ps))
    requires Congruent(false, KeywordsOf(source).(properties := Some(Obj([]))), k)
    requires Wf(o) && Shaped(o, k, ps)
    ensures v in Accepts(source) <==> v in AcceptsProps(Obj(ps)) && RestOk(v, KeywordsOf(source))
    ensures v in Accepts(o) <==> v in AcceptsPropsOf(o) && RestOk(v, KeywordsOf(source))
  {
    RestSame(v, KeywordsOf(source), KeywordsOf(o));
    GetWf(source, "properties");
    NamedSplit(v, Obj(ps));
    GetWf(o, "properties");
    NamedSplit(v, PropsOf(o));
  }

  lemma ShapedUnion(source: Json, k: Keywords, ps: Members, out: seq<Json>)
    requires Wf(source) && source.Obj? && KeywordsOf(source).anyOf.None? && KeywordsOf(source).properties == Some(Obj(ps))
    requires Congruent(false, KeywordsOf(source).(properties := Some(Obj([]))), k)
    requires AllShaped(out, k, ps) && out != []
    requires AcceptsProps(Obj(ps)) == Join(AcceptsPropsOf, out)
    ensures Accepts(source) == Join(Accepts, out)
  {
    forall v ensures v in Accepts(source) <==> v in Join(Accepts, out) {
      JoinMember(Accepts, out, v);
      if Regular(v) {
        JoinMember(AcceptsPropsOf, out, v);
        forall i | 0 <= i < |out|
          ensures v in Accepts(out[i]) <==> v in AcceptsPropsOf(out[i]) && RestOk(v, KeywordsOf(source))
        {
          assert out[i] in out;
          ShapedMeaning(v, source, out[i], k, ps);
        }
        assert out[0] in out;
        ShapedMeaning(v, source, out[0], k, ps);
      }
    }
  }

  lemma SeedShaped(source: Json, base: Json)
    requires source.Obj? && base.Obj? && Wf(base)
    requires Congruent(false, KeywordsOf(source).(properties := Some(Obj([]))), KeywordsOf(base))
    ensures AllShaped([base], KeywordsOf(base), [])
    ensures AcceptsProps(Obj([])) == Join(AcceptsPropsOf, [base])
  {
    assert PropsOf(base) == Obj([]);
    JoinOne(AcceptsPropsOf, base);
  }

  lemma ShapedObjects(out: seq<Json>, k: Keywords, names: Members)
    requires AllShaped(out, k, names)
    ensures Objects(out)
  {
    forall i | 0 <= i < |out| ensures out[i].Obj? && Wf(out[i]) { assert out[i] in out; }
  }

  lemma PropertyStep(ps: Members, i: nat, choices: seq<Json>)
    requires i < |ps| && Accepts(ps[i].1) == Join(Accepts, choices) && choices != []
    ensures AcceptsProps(Obj(ps[..i + 1])) == AcceptsProps(Obj(ps[..i])) * Join(AcceptsKey(ps[i].0), choices)
    ensures ps[..i + 1] == ps[..i] + [(ps[i].0, ps[i].1)]
  {
    assert ps[..i + 1] == ps[..i] + [(ps[i].0, ps[i].1)];
    UnionKey(ps[i].0, ps[i].1, choices);
    PropsAppend(ps[..i], ps[i].0, ps[i].1);
  }

  /** After `n` properties. */
  ghost predicate Built(out: seq<Json>, k: Keywords, ps: Members) {
    AllShaped(out, k, ps) && AcceptsProps(Obj(ps)) == Join(AcceptsPropsOf, out)
  }

  lemma BuiltNext(out: seq<Json>, k: Keywords, ps: Members, i: nat, choices: seq<Json>)
    requires i < |ps| && Distinct(ps)
    ensures Built(out, k, ps[..i]) && Means(ps[i].1, choices) ==> Built(Product(out, ps[i].0, choices), k, ps[..i + 1])
  {
    if Built(out, k, ps[..i]) && Means(ps[i].1, choices) {
      PropertyStep(ps, i, choices);
      ProductMeans(out, ps[i].0, choices, k, ps[..i], ps[i].1);
    }
  }

  ghost function BuiltUpTo(k: Keywords, ps: Members): (seq<Json>, nat) -> bool {
    (out: seq<Json>, i: nat) => i <= |ps| && Built(out, k, ps[..i])
  }

  lemma {:induction false} MembersStepwise(k: Keywords, ps: Json, c: Compiler, depth: nat)
    requires Describes(c) && ps.Obj? && Wf(ps)
    ensures Stepwise(BuiltUpTo(k, ps.members), ps, c, depth)
    decreases ps, 4
  {
    forall out: seq<Json>, i: nat | i < |ps.members| && BuiltUpTo(k, ps.members)(out, i) && DivisiblePart(ps.members[i].1, c, depth)
      ensures BuiltUpTo(k, ps.members)(Product(out, ps.members[i].0, SplitPart(ps.members[i].1, c, depth)), i + 1)
    {
      SplitPartMeans(ps.members[i].1, c, depth);
      BuiltNext(out, k, ps.members, i, SplitPart(ps.members[i].1, c, depth));
    }
  }

  /** The node without its properties, compiled. */
  lemma BaseBuilt(s: Json, depth: nat)
    requires Wf(s) && s.Obj? && HasProperties(s) && FirstFailure(Bare(s), AllPass(), depth).None? && KeywordsOf(s).anyOf.None?
    ensures var base := Form(Bare(s));
            && Built([base], KeywordsOf(base), [])
            && Congruent(false, KeywordsOf(s).(properties := Some(Obj([]))), KeywordsOf(base))
  {
    BareKeywords(s);
    LoweredMeans(Bare(s), AllPass(), depth);
    SeedShaped(s, Form(Bare(s)));
  }

  lemma BuiltMeans(s: Json, ps: Json, base: Json, out: seq<Json>)
    requires Wf(s) && s.Obj? && KeywordsOf(s).anyOf.None? && KeywordsOf(s).properties == Some(ps) && ps.Obj?
    requires Congruent(false, KeywordsOf(s).(properties := Some(Obj([]))), KeywordsOf(base))
    ensures Built(out, KeywordsOf(base), ps.members) && out != [] ==> Objects(out) && Accepts(s) == Join(Accepts, out)
  {
    if Built(out, KeywordsOf(base), ps.members) && out != [] {
      ShapedUnion(s, KeywordsOf(base), ps.members, out);
      ShapedObjects(out, KeywordsOf(base), ps.members);
    }
  }

  lemma {:induction false} MembersBuilt(base: Json, k: Keywords, ps: Json, c: Compiler, depth: nat)
    requires Describes(c) && ps.Obj? && Wf(ps)
    ensures Built([base], k, []) && (forall j :: 0 <= j < |ps.members| ==> DivisiblePart(ps.members[j].1, c, depth)) ==>
              var out := SplitMembers(base, ps, c, depth, |ps.members|); Built(out, k, ps.members) && out != []
    decreases ps, 5
  {
    MembersStepwise(k, ps, c, depth);
    MembersHold(base, ps, c, depth, BuiltUpTo(k, ps.members), |ps.members|);
    assert ps.members[..0] == [] && ps.members[..|ps.members|] == ps.members;
    ProductGrows(ps, c, depth, 0, |ps.members|);
    MembersWidth(base, ps, c, depth, |ps.members|);
  }

  lemma {:induction false} SplitPropertiesMeans(s: Json, c: Compiler, depth: nat)
    requires Describes(c) && Wf(s) && s.Obj? && KeywordsOf(s).anyOf.None? && DividesProperties(s, c, depth) && !c.compiles(s, depth)
    ensures Objects(Split(s, c, depth)) && Accepts(s) == Join(Accepts, Split(s, c, depth))
    decreases s, 1
  {
    var ps, base := KeywordsOf(s).properties.value, Form(Bare(s));
    BareKeywords(s);
    BaseBuilt(s, depth);
    GetWf(s, "properties");
    MembersBuilt(base, KeywordsOf(base), ps, c, depth + 1);
    BuiltMeans(s, ps, base, SplitMembers(base, ps, c, depth + 1, |ps.members|));
  }

  // ------------------------------------------------- lower_schema_alternatives

  /** What is returned under a limit. */
  function Limited(s: Json, c: Compiler, depth: nat, limit: nat): Option<seq<Json>> {
    if c.compiles(s, depth) || (Divides(s, c, depth) && Width(s, c, depth) <= limit) then Some(Split(s, c, depth)) else None
  }

  /** The union's own annotations, copied onto one alternative. */
  method Annotate(branch: Json, source: Json) returns (r: Json)
    requires source.Obj?
    ensures r == Labelled(branch, source, |source.members|)
  {
    r := branch;
    for i := 0 to |source.members|
      invariant r == Labelled(branch, source, i)
    {
      var (key, value) := source.members[i];
      if key != "anyOf" { r := Set(r, key, value); }
    }
  }

  /** One branch's alternatives, annotated and appended, refused beyond the limit. */
  method AppendAnnotated(out: seq<Json>, alternatives: seq<Json>, source: Json, limit: nat) returns (r: Option<seq<Json>>)
    requires source.Obj? && |out| <= limit
    ensures r == if |out| + |alternatives| <= limit then Some(out + LabelledAll(alternatives, source)) else None
  {
    var all := out;
    for j := 0 to |alternatives|
      invariant all == out + LabelledAll(alternatives[..j], source) && |all| <= limit
    {
      var annotated := Annotate(alternatives[j], source);
      assert alternatives[..j + 1][..j] == alternatives[..j];
      all := all + [annotated];
      if |all| > limit { return None; }
    }
    assert alternatives[..|alternatives|] == alternatives;
    return Some(all);
  }

  /** One branch's alternatives join the collected ones. */
  method DistributeBranch(branch: Json, out: seq<Json>, source: Json, check: Json -> bool, depth: nat, limit: nat, ghost c: Compiler)
    returns (r: Option<seq<Json>>)
    requires Describes(c) && c.check == check && Wf(branch) && source.Obj? && |out| <= limit
    ensures r == if DivisiblePart(branch, c, depth) && |out| + WidthPart(branch, c, depth) <= limit
                 then Some(out + LabelledAll(SplitPart(branch, c, depth), source)) else None
    decreases branch, 2
  {
    PartWidth(branch, c, depth);
    var alternatives := Alternatives(branch, check, depth, limit, c);
    if alternatives.None? { return None; }
    r := AppendAnnotated(out, alternatives.value, source, limit);
  }

  /** The alternatives of the first `i` branches. */
  ghost predicate UnionSoFar(s: Json, bs: Json, c: Compiler, depth: nat, limit: nat, i: nat, out: seq<Json>)
    requires s.Obj? && bs.Arr? && i <= |bs.items|
  {
    && out == SplitBranches(s, bs, c, depth, i) && |out| <= limit
    && forall j :: 0 <= j < i ==> DivisiblePart(bs.items[j], c, depth)
  }

  /** Every branch can be distributed, together within the limit. */
  ghost predicate BranchesFit(bs: Json, c: Compiler, depth: nat, limit: nat)
    requires bs.Arr?
  {
    && (forall j :: 0 <= j < |bs.items| ==> DivisiblePart(bs.items[j], c, depth))
    && WidthSum(bs, c, depth, |bs.items|) <= limit
  }

  lemma UnionStops(s: Json, bs: Json, c: Compiler, depth: nat, limit: nat, i: nat, out: seq<Json>)
    requires s.Obj? && bs.Arr? && i < |bs.items| && UnionSoFar(s, bs, c, depth, limit, i, out)
    ensures !DivisiblePart(bs.items[i], c, depth) || |out| + WidthPart(bs.items[i], c, depth) > limit ==> !BranchesFit(bs, c, depth, limit)
  {
    BranchesWidth(s, bs, c, depth, i);
    SumGrows(bs, c, depth, i + 1, |bs.items|);
  }

  lemma UnionNext(s: Json, bs: Json, c: Compiler, depth: nat, limit: nat, i: nat, out: seq<Json>)
    requires s.Obj? && bs.Arr? && i < |bs.items| && UnionSoFar(s, bs, c, depth, limit, i, out)
    ensures DivisiblePart(bs.items[i], c, depth) && |out| + WidthPart(bs.items[i], c, depth) <= limit ==>
              UnionSoFar(s, bs, c, depth, limit, i + 1, out + LabelledAll(SplitPart(bs.items[i], c, depth), s))
  {
    PartWidth(bs.items[i], c, depth);
  }

  lemma UnionCompletes(s: Json, bs: Json, c: Compiler, depth: nat, limit: nat, out: seq<Json>)
    requires s.Obj? && bs.Arr? && UnionSoFar(s, bs, c, depth, limit, |bs.items|, out)
    ensures BranchesFit(bs, c, depth, limit) && out == SplitBranches(s, bs, c, depth, |bs.items|)
  {
    BranchesWidth(s, bs, c, depth, |bs.items|);
  }

  /** The alternatives of every branch, in order. */
  method DistributeUnion(source: Json, bs: Json, check: Json -> bool, depth: nat, limit: nat, ghost c: Compiler) returns (r: Option<seq<Json>>)
    requires Describes(c) && c.check == check && source.Obj? && bs.Arr? && Wf(bs)
    ensures r == if BranchesFit(bs, c, depth, limit) then Some(SplitBranches(source, bs, c, depth, |bs.items|)) else None
    decreases bs, 3
  {
    var out: seq<Json> := [];
    for i := 0 to |bs.items|
      invariant UnionSoFar(source, bs, c, depth, limit, i, out)
    {
      var all := DistributeBranch(bs.items[i], out, source, check, depth, limit, c);
      UnionStops(source, bs, c, depth, limit, i, out);
      if all.None? { return None; }
      UnionNext(source, bs, c, depth, limit, i, out);
      out := all.value;
    }
    UnionCompletes(source, bs, c, depth, limit, out);
    return Some(out);
  }

  /** A bare union that the compiler leaves to distribution. */
  lemma LeftUnionLimited(s: Json, bs: Json, c: Compiler, depth: nat, limit: nat)
    requires Describes(c) && Wf(s) && OnlyUnion(s) && KeywordsOf(s).anyOf == Some(bs) && FirstFailure(s, c.check, depth) == Some(NonFinite)
    ensures bs.Arr?
    ensures Limited(s, c, depth, limit) ==
            if BranchesFit(bs, c, depth + 1, limit) then Some(SplitBranches(s, bs, c, depth + 1, |bs.items|)) else None
  {
    UnionDivides(s, c, depth);
  }

  /** One parent with each choice for one more property. */
  method ExtendParent(parent: Json, key: string, choices: seq<Json>) returns (r: seq<Json>)
    ensures r == WithEach(parent, key, choices)
  {
    r := [];
    for b := 0 to |choices|
      invariant r == WithEach(parent, key, choices[..b])
    {
      assert choices[..b + 1][..b] == choices[..b];
      r := r + [WithChild(parent, key, choices[b])];
    }
    assert choices[..|choices|] == choices;
  }

  /** The cross product of what was built so far with the choices for one more property. */
  method Expand(out: seq<Json>, key: string, choices: seq<Json>) returns (expanded: seq<Json>)
    ensures expanded == Product(out, key, choices)
  {
    expanded := [];
    for a := 0 to |out|
      invariant expanded == Product(out[..a], key, choices)
    {
      var extended := ExtendParent(out[a], key, choices);
      assert out[..a + 1][..a] == out[..a];
      expanded := expanded + extended;
    }
    assert out[..|out|] == out;
  }

  lemma ProductExceeds(a: nat, b: nat, limit: nat)
    requires a >= 1
    ensures b > limit / a <==> a * b > limit
  {
    if b > limit / a {
      assert limit < a * (limit / a + 1) <= a * b;
    } else {
      assert a * b <= a * (limit / a) <= limit;
    }
  }

  /** The products of the first `i` properties. */
  ghost predicate ProductSoFar(base: Json, ps: Json, c: Compiler, depth: nat, limit: nat, i: nat, out: seq<Json>)
    requires ps.Obj? && i <= |ps.members|
  {
    && out == SplitMembers(base, ps, c, depth, i) && |out| == WidthProduct(ps, c, depth, i) >= 1 && (i > 0 ==> |out| <= limit)
    && forall j :: 0 <= j < i ==> DivisiblePart(ps.members[j].1, c, depth)
  }

  /** Every property can be distributed, within the limit. */
  ghost predicate Fits(ps: Json, c: Compiler, depth: nat, limit: nat)
    requires ps.Obj?
  {
    && (forall j :: 0 <= j < |ps.members| ==> DivisiblePart(ps.members[j].1, c, depth))
    && (ps.members != [] ==> WidthProduct(ps, c, depth, |ps.members|) <= limit)
  }

  lemma ProductStops(ps: Json, c: Compiler, depth: nat, limit: nat, i: nat)
    requires ps.Obj? && i < |ps.members|
    ensures !DivisiblePart(ps.members[i].1, c, depth) || WidthProduct(ps, c, depth, i) * WidthPart(ps.members[i].1, c, depth) > limit ==>
              !Fits(ps, c, depth, limit)
  {
    ProductGrows(ps, c, depth, i + 1, |ps.members|);
  }

  lemma ProductNext(base: Json, ps: Json, c: Compiler, depth: nat, limit: nat, i: nat, out: seq<Json>)
    requires ps.Obj? && i < |ps.members| && ProductSoFar(base, ps, c, depth, limit, i, out)
    ensures var part := SplitPart(ps.members[i].1, c, depth);
            DivisiblePart(ps.members[i].1, c, depth) && WidthProduct(ps, c, depth, i) * WidthPart(ps.members[i].1, c, depth) <= limit ==>
              ProductSoFar(base, ps, c, depth, limit, i + 1, Product(out, ps.members[i].0, part))
  {
    MembersWidth(base, ps, c, depth, i + 1);
    ProductGrows(ps, c, depth, i + 1, i + 1);
  }

  /** The alternatives of one property's schema, unless they are too many to multiply with. */
  method Choices(child: Json, count: nat, check: Json -> bool, depth: nat, limit: nat, ghost c: Compiler) returns (r: Option<seq<Json>>)
    requires Describes(c) && c.check == check && Wf(child) && count >= 1
    ensures r == if DivisiblePart(child, c, depth) && count * WidthPart(child, c, depth) <= limit then Some(SplitPart(child, c, depth)) else None
    decreases child, 2
  {
    PartWidth(child, c, depth);
    PartPositive(child, c, depth);
    ProductExceeds(count, WidthPart(child, c, depth), limit);
    r := Alternatives(child, check, depth, limit, c);
    if r.None? {
      TimesAtLeast(count, WidthPart(child, c, depth));
    } else if |r.value| > limit / count {
      r := None;
    }
  }

  lemma TimesAtLeast(a: nat, b: nat)
    requires a >= 1
    ensures b <= a * b
  {
  }

  /** One property after the other, multiplying what was built by its choices. */
  method ExpandAll(base: Json, ps: Json, check: Json -> bool, depth: nat, limit: nat, ghost c: Compiler) returns (r: Option<seq<Json>>)
    requires Describes(c) && c.check == check && ps.Obj? && Wf(ps)
    ensures r == if Fits(ps, c, depth, limit) then Some(SplitMembers(base, ps, c, depth, |ps.members|)) else None
    decreases ps, 2
  {
    var out := [base];
    for i := 0 to |ps.members|
      invariant ProductSoFar(base, ps, c, depth, limit, i, out)
    {
      var choices := Choices(ps.members[i].1, |out|, check, depth, limit, c);
      if choices.None? {
        ProductStops(ps, c, depth, limit, i);
        return None;
      }
      ProductNext(base, ps, c, depth, limit, i, out);
      out := Expand(out, ps.members[i].0, choices.value);
    }
    return Some(out);
  }

  /** The alternatives all pass. */
  ghost predicate Passed(out: seq<Json>, check: Json -> bool) { forall a :: a in out ==> check(a) }

  method CheckAll(out: seq<Json>, check: Json -> bool) returns (ok: bool)
    ensures ok == Passed(out, check)
  {
    for i := 0 to |out|
      invariant forall j :: 0 <= j < i ==> check(out[j])
    {
      if !check(out[i]) {
        assert out[i] in out;
        return false;
      }
    }
    return true;
  }

  lemma NodeSplit(s: Json, ps: Json, c: Compiler, depth: nat)
    requires s.Obj? && KeywordsOf(s).anyOf.None? && KeywordsOf(s).properties == Some(ps) && ps.Obj? && !c.compiles(s, depth)
    ensures Split(s, c, depth) == SplitMembers(Form(Bare(s)), ps, c, depth + 1, |ps.members|)
    ensures Width(s, c, depth) == WidthProduct(ps, c, depth + 1, |ps.members|)
  {
  }

  lemma LeftNodeDivides(s: Json, ps: Json, c: Compiler, depth: nat)
    requires Describes(c) && Wf(s) && s.Obj? && KeywordsOf(s).anyOf.None? && FirstFailure(s, c.check, depth) == Some(NonFinite)
    requires KeywordsOf(s).properties == Some(ps) && ps.Obj? && c.compilesBare(Bare(s), depth)
    ensures Divides(s, c, depth) <==>
            && (forall j :: 0 <= j < |ps.members| ==> DivisiblePart(ps.members[j].1, c, depth + 1))
            && Passed(SplitMembers(Form(Bare(s)), ps, c, depth + 1, |ps.members|), c.check)
  {
    PropertiesDivide(s, c, depth);
    NodeSplit(s, ps, c, depth);
  }

  /** A node without a union that the compiler leaves to distribution. */
  lemma LeftNodeLimited(s: Json, c: Compiler, depth: nat, limit: nat)
    requires Describes(c) && Wf(s) && s.Obj? && KeywordsOf(s).anyOf.None? && FirstFailure(s, c.check, depth) == Some(NonFinite)
    ensures Wf(Bare(s)) && (Limited(s, c, depth, limit).Some? ==> FirstFailure(Bare(s), AllPass(), depth).None?)
    ensures FirstFailure(Bare(s), AllPass(), depth).None? ==>
              && HasProperties(s)
              && var ps := KeywordsOf(s).properties.value; var out := SplitMembers(Form(Bare(s)), ps, c, depth + 1, |ps.members|);
                 Limited(s, c, depth, limit) == if Fits(ps, c, depth + 1, limit) && Passed(out, c.check) then Some(out) else None
  {
    BareKeywords(s);
    if c.compilesBare(Bare(s), depth) {
      SomePropertyFailed(s, c, depth);
      LeftNodeDivides(s, KeywordsOf(s).properties.value, c, depth);
      NodeSplit(s, KeywordsOf(s).properties.value, c, depth);
    } else {
      PropertiesDivide(s, c, depth);
    }
  }

  /** The node without its properties, then one property after the other, including optional ones that are absent. */
  method DistributeProperties(source: Json, check: Json -> bool, depth: nat, limit: nat, ghost c: Compiler) returns (r: Option<seq<Json>>)
    requires Describes(c) && c.check == check && Wf(source) && Wf(Bare(source))
    requires FirstFailure(Bare(source), AllPass(), depth).None? ==> HasProperties(source)
    ensures r.Some? ==> FirstFailure(Bare(source), AllPass(), depth).None?
    ensures FirstFailure(Bare(source), AllPass(), depth).None? ==>
              var ps := KeywordsOf(source).properties.value; var out := SplitMembers(Form(Bare(source)), ps, c, depth + 1, |ps.members|);
              r == if Fits(ps, c, depth + 1, limit) && Passed(out, check) then Some(out) else None
    decreases source, 0, 0
  {
    var base := Lower(Bare(source), AllPass(), depth);
    if base.Failed? { return None; }
    GetWf(source, "properties");
    r := ExpandAll(base.schema, KeywordsOf(source).properties.value, check, depth + 1, limit, c);
    if r.None? { return; }
    var ok := CheckAll(r.value, check);
    if !ok { r := None; }
  }

  method Alternatives(source: Json, check: Json -> bool, depth: nat, limit: nat, ghost c: Compiler) returns (r: Option<seq<Json>>)
    requires Describes(c) && c.check == check && Wf(source)
    ensures r == Limited(source, c, depth, limit)
    decreases source, 1
  {
    var single := Lower(source, check, depth);
    if single.Lowered? { return Some([single.schema]); }
    if single.failure == Refused {
      RefusedLimited(source, c, depth, limit);
      return None;
    }
    NonFiniteMeans(source, check, depth);
    r := Distribute(source, check, depth, limit, c);
  }

  /** The part of lower_schema_alternatives that runs after the single-schema attempt. */
  method Distribute(source: Json, check: Json -> bool, depth: nat, limit: nat, ghost c: Compiler) returns (r: Option<seq<Json>>)
    requires Describes(c) && c.check == check && Wf(source) && source.Obj? && FirstFailure(source, check, depth) == Some(NonFinite)
    ensures r == Limited(source, c, depth, limit)
    decreases source, 0, 1
  {
    var anyOf := KeywordsOf(source).anyOf;
    if anyOf.Some? {
      if !OnlyUnion(source) {
        NotOnlyLimited(source, c, depth, limit);
        return None;
      }
      GetWf(source, "anyOf");
      LeftUnionLimited(source, anyOf.value, c, depth, limit);
      r := DistributeUnion(source, anyOf.value, check, depth + 1, limit, c);
    } else {
      LeftNodeLimited(source, c, depth, limit);
      r := DistributeProperties(source, check, depth, limit, c);
    }
  }

  lemma NotOnlyLimited(s: Json, c: Compiler, depth: nat, limit: nat)
    requires Describes(c) && Wf(s) && s.Obj? && KeywordsOf(s).anyOf.Some? && !OnlyUnion(s) && FirstFailure(s, c.check, depth).Some?
    ensures Limited(s, c, depth, limit).None?
  {
    assert !Divides(s, c, depth);
  }

  lemma RefusedLimited(s: Json, c: Compiler, depth: nat, limit: nat)
    requires Describes(c) && Wf(s) && FirstFailure(s, c.check, depth) == Some(Refused)
    ensures Limited(s, c, depth, limit).None?
  {
    if Divides(s, c, depth) { DividesFailure(s, c, depth); }
  }

  // --------------------------------------------------------- schemas without unions

  lemma UnionFreeLimited(s: Json, c: Compiler, depth: nat, limit: nat)
    requires Describes(c) && Wf(s) && UnionFree(s)
    ensures Limited(s, c, depth, limit) == if Legible(s, c.check, depth) then Some([s]) else None
  {
    LegibleForm(s, c.check, depth);
    if !Legible(s, c.check, depth) { RefusedLimited(s, c, depth, limit); }
  }

  /** Legible branches become one alternative each, as long as the limit admits them all. */
  ghost predicate OneForEach(source: Json, check: Json -> bool, depth: nat, limit: nat, r: Option<seq<Json>>)
    requires NonEmptyUnion(source)
  {
    var branches := KeywordsOf(source).anyOf.value.items;
    LegibleBranches(branches, check, depth + 1) ==>
      (r.Some? <==> |branches| <= limit) && (r.Some? ==> |r.value| == |branches|)
  }

  /** A bare union of legible branches, one of which no enumeration can express. */
  predicate OpenUnion(source: Json, check: Json -> bool, depth: nat) {
    OnlyUnion(source) && LegibleUnion(source, check, depth) && !AllFinite(KeywordsOf(source).anyOf.value.items)
  }

  lemma {:induction false} LegibleWidth(bs: Json, c: Compiler, depth: nat, n: nat)
    requires Describes(c) && bs.Arr? && Wf(bs) && n <= |bs.items|
    ensures LegibleUpTo(bs.items, c.check, depth, n) ==>
              WidthSum(bs, c, depth, n) == n && forall j :: 0 <= j < n ==> DivisiblePart(bs.items[j], c, depth)
    decreases n
  {
    if n > 0 && LegibleUpTo(bs.items, c.check, depth, n) {
      LegibleWidth(bs, c, depth, n - 1);
      LegiblePart(bs.items[n - 1], c, depth);
    }
  }

  lemma LegiblePart(b: Json, c: Compiler, depth: nat)
    requires Describes(c) && Wf(b) && UnionFree(b) && Legible(b, c.check, depth)
    ensures WidthPart(b, c, depth) == 1 && DivisiblePart(b, c, depth)
  {
    LegibleForm(b, c.check, depth);
    assert c.compiles(b, depth);
    assert Width(b, c, depth) == 1 && Divisible(b, c, depth);
  }

  lemma OpenUnionLimited(s: Json, c: Compiler, depth: nat, limit: nat)
    requires Describes(c) && Wf(s) && OpenUnion(s, c.check, depth)
    ensures OneForEach(s, c.check, depth, limit, Limited(s, c, depth, limit))
  {
    var bs := KeywordsOf(s).anyOf.value;
    LegibleUnionFailure(s, c.check, depth);
    LeftUnionLimited(s, bs, c, depth, limit);
    GetWf(s, "anyOf");
    LegibleWidth(bs, c, depth + 1, |bs.items|);
    BranchesWidth(s, bs, c, depth + 1, |bs.items|);
  }

  lemma LimitedMeans(s: Json, c: Compiler, depth: nat, limit: nat)
    requires Describes(c) && Wf(s) && Limited(s, c, depth, limit).Some?
    ensures var r := Limited(s, c, depth, limit).value;
            r != [] && |r| == Width(s, c, depth) && Objects(r) && Union(s, r)
  {
    SplitMeans(s, c, depth);
    SplitWidth(s, c, depth);
    JoinMeansUnion(s, Split(s, c, depth));
  }

  /** lower_schema_alternatives: succeeds if and only if the schema compiles as it stands, or can be distributed into no
      more schemas than the limit; what it returns is at least one whole schema, and their union is exactly the source. */
  method LowerAlternatives(source: Json, check: Json -> bool, depth: nat := 0, limit: nat := 64) returns (r: Option<seq<Json>>)
    requires Wf(source)
    ensures var c := CompilerOf(check);
            && (r.Some? <==> Whole(source, check, depth) || (Divides(source, c, depth) && Width(source, c, depth) <= limit))
            && (r.Some? ==> r.value == Split(source, c, depth) && |r.value| == Width(source, c, depth))
    ensures r.Some? ==> 1 <= |r.value| && (1 <= limit ==> |r.value| <= limit) && Objects(r.value) && Union(source, r.value)
    ensures UnionFree(source) ==> r == if Legible(source, check, depth) then Some([source]) else None
    ensures OpenUnion(source, check, depth) ==> OneForEach(source, check, depth, limit, r)
  {
    ghost var c := CompilerOf(check);
    CompilerDescribes(check);
    r := Alternatives(source, check, depth, limit, c);
    if r.Some? { LimitedMeans(source, c, depth, limit); }
    if UnionFree(source) { UnionFreeLimited(source, c, depth, limit); }
    if OpenUnion(source, check, depth) { OpenUnionLimited(source, c, depth, limit); }
  }
}
