/**
 Where the exactness of lowering and of distribution ends: values with a NUL byte in a member
 name, which every lookup by C string cuts (tools/axiom_aliced_json.h).
 */
module SchemaNulNames {
  import opened Common
  import opened Json
  import opened Schema
  import opened SchemaForm
  import opened SchemaLowering
  import opened SchemaStrict
  import opened SchemaLost
  import opened SchemaSplit
  import opened SchemaAlternatives
  import opened SchemaScattered

  /** A name holding a NUL, and what a lookup makes of it; for example "a\0b" and "a". */
  predicate Cuts(long: string, short: string) { HasNul(long) && CutAtNul(long) == short }

  lemma FindOne(name: string, x: Json, key: string)
    ensures Find([(name, x)], key) == if key == name then Some(x) else None
  {
  }

  // ------------------------------------------------------------------ lowering

  /** `{"enum":[{name: x}]}` */
  function OneObject(name: string, x: Json): (e: Json)
    ensures e.Obj?
  {
    Only("enum", Arr([Obj([(name, x)])]))
  }

  /** `{"anyOf":[branch],"type":"object","properties":{name: p},"required":[name]}` */
  function ObjectUnion(branch: Json, name: string, p: Json): (s: Json)
    ensures s.Obj?
  {
    Set(Set(Set(Only("anyOf", Arr([branch])), "type", Str("object")), "properties", Obj([(name, p)])), "required", Arr([Str(name)]))
  }

  function UnionKeywords(branch: Json, name: string, p: Json): Keywords {
    EMPTY.(anyOf := Some(Arr([branch])), kind := Some(Str("object")), properties := Some(Obj([(name, p)])),
           required := Some(Arr([Str(name)])))
  }

  lemma ObjectUnionKeywords(branch: Json, name: string, p: Json)
    ensures KeywordsOf(ObjectUnion(branch, name, p)) == UnionKeywords(branch, name, p)
  {
    var a := Only("anyOf", Arr([branch]));
    var b := Set(a, "type", Str("object"));
    OnlyAnyOf(Arr([branch]));
    SetType(a, Str("object"));
    SetProperties(b, Obj([(name, p)]));
    SetRequired(Set(b, "properties", Obj([(name, p)])), Arr([Str(name)]));
  }

  lemma OneBranch(v: Json, branch: Json, bs: Json)
    requires bs == Arr([branch])
    ensures AnyOfOk(v, bs) <==> Sat(v, branch)
  {
    assert bs.items[0] == branch;
  }

  lemma OneName(v: Json, name: string, names: Json)
    requires names == Arr([Str(name)])
    ensures RequiredOk(v, Some(names)) <==> (v.Obj? ==> Lookup(v, name).Some?)
  {
    assert names.items[0] == Str(name);
  }

  lemma ObjectType(v: Json, t: Option<Json>)
    requires t == Some(Str("object"))
    ensures TypeOk(v, t) <==> v.Obj?
  {
  }

  lemma UnionAssertions(v: Json, branch: Json, name: string, p: Json, k: Keywords)
    requires k == UnionKeywords(branch, name, p)
    ensures Asserts(v, k) <==>
            Sat(v, branch) && v.Obj? && Lookup(v, name).Some? && NamedOk(v, Obj([(name, p)])) && MembersOk(v, Obj([(name, p)]))
  {
    OneBranch(v, branch, Arr([branch]));
    OneName(v, name, Arr([Str(name)]));
    ObjectType(v, k.kind);
  }

  lemma ObjectUnionMeaning(v: Json, branch: Json, name: string, p: Json)
    ensures Sat(v, ObjectUnion(branch, name, p)) <==>
            Sat(v, branch) && v.Obj? && Lookup(v, name).Some? && NamedOk(v, Obj([(name, p)])) && MembersOk(v, Obj([(name, p)]))
  {
    var s := ObjectUnion(branch, name, p);
    ObjectUnionKeywords(branch, name, p);
    SatAsserts(v, s);
    UnionAssertions(v, branch, name, p, KeywordsOf(s));
  }

  lemma OneObjectMeaning(v: Json, name: string, x: Json)
    ensures Sat(v, OneObject(name, x)) <==> JsonEqual(v, Obj([(name, x)]))
  {
    var c := Obj([(name, x)]);
    OnlyEnum(c);
    SatAsserts(v, OneObject(name, x));
    EnumAsserts(v, c, KeywordsOf(OneObject(name, x)));
  }

  /** The one value it is meant for satisfies the union. */
  lemma UnionAdmits(name: string, x: Json, p: Json)
    requires Regular(x) && !HasNul(name) && Sat(x, p)
    ensures Sat(Obj([(name, x)]), ObjectUnion(OneObject(name, x), name, p))
  {
    var c, ps := Obj([(name, x)]), Obj([(name, p)]);
    OwnProperty(name, x, p, c, ps);
    EqualReflexive(c);
    OneObjectMeaning(c, name, x);
    ObjectUnionMeaning(c, OneObject(name, x), name, p);
  }

  lemma OwnProperty(name: string, x: Json, p: Json, c: Json, ps: Json)
    requires Regular(x) && !HasNul(name) && Sat(x, p) && c == Obj([(name, x)]) && ps == Obj([(name, p)])
    ensures Regular(c) && Lookup(c, name).Some? && NamedOk(c, ps) && MembersOk(c, ps)
  {
    assert c.members[0] == (name, x) && ps.members[0] == (name, p);
    FindOne(name, x, name);
    FindOne(name, p, name);
    assert NamedOk(c, ps);
    MembersFollow(c, ps);
  }

  // ----------------------------------------------------------- what is built

  lemma {:induction false} NoAnnotations(s: Json, n: nat)
    requires n <= |ANNOTATIONS| && forall key :: key in ANNOTATIONS ==> Get(s, key).None?
    ensures Annotated(s, n) == Obj([])
  {
    if n > 0 {
      NoAnnotations(s, n - 1);
      assert ANNOTATIONS[n - 1] in ANNOTATIONS;
    }
  }

  lemma OtherKey(key: string)
    requires key in ANNOTATIONS || IsBound(key)
    ensures key != "anyOf" && key != "type" && key != "properties" && key != "required"
  {
  }

  lemma UnionHasNot(branch: Json, name: string, p: Json, key: string)
    requires key != "anyOf" && key != "type" && key != "properties" && key != "required"
    ensures Get(ObjectUnion(branch, name, p), key).None?
  {
    var a := Only("anyOf", Arr([branch]));
    var b := Set(a, "type", Str("object"));
    var c := Set(b, "properties", Obj([(name, p)]));
    GetSet(Obj([]), "anyOf", Arr([branch]), key);
    GetSet(a, "type", Str("object"), key);
    GetSet(b, "properties", Obj([(name, p)]), key);
    GetSet(c, "required", Arr([Str(name)]), key);
  }

  lemma BareReplacement(s: Json, admitted: seq<Json>)
    requires s.Obj? && forall key :: key in ANNOTATIONS || IsBound(key) ==> Get(s, key).None?
    ensures Replacement(s, admitted) == Only("enum", Arr(admitted))
  {
    NoAnnotations(s, |ANNOTATIONS|);
    assert IsBound("minLength") && IsBound("maxLength") && IsBound("minimum") && IsBound("maximum");
  }

  lemma EnumForm(c: Json, e: Json)
    requires e == Only("enum", Arr([c]))
    ensures Form(e) == e && BranchValues(e) == [c]
  {
    OnlyEnum(c);
    BareNode(e);
  }

  lemma OneMerged(e: Json, c: Json)
    requires Sat(c, e)
    ensures Merge(e, [c], []) == [c]
  {
    assert [c][..0] == [];
  }

  lemma OneAdmitted(s: Json, c: Json)
    requires Sat(c, s)
    ensures Admit(s, [c]) == [c]
  {
    assert [c][..0] == [];
  }

  lemma OneBranchAdmits(s: Json, e: Json, bs: Json, c: Json)
    requires HasUnion(s) && KeywordsOf(s).anyOf == Some(bs) && bs == Arr([e]) && e == Only("enum", Arr([c])) && Sat(c, e) && Sat(c, s)
    ensures Admitted(s) == [c]
  {
    EnumForm(c, e);
    OneMerged(e, c);
    OneValue(bs, e, c);
    OneAdmitted(s, c);
  }

  lemma OneValue(bs: Json, e: Json, c: Json)
    requires bs == Arr([e]) && Merge(e, BranchValues(e), []) == [c]
    ensures Values(bs, |bs.items|) == [c]
  {
    assert bs.items[0] == e && Values(bs, 0) == [];
  }

  lemma BareForm(s: Json, c: Json)
    requires HasUnion(s) && Admitted(s) == [c] && forall key :: key in ANNOTATIONS || IsBound(key) ==> Get(s, key).None?
    ensures Form(s) == Only("enum", Arr([c]))
  {
    BareReplacement(s, [c]);
  }

  /** The compiler turns the union into the enumeration and nothing else. */
  lemma ObjectUnionForm(name: string, x: Json, p: Json)
    requires Regular(x) && !HasNul(name) && Sat(x, p)
    ensures Form(ObjectUnion(OneObject(name, x), name, p)) == OneObject(name, x)
  {
    var c, e := Obj([(name, x)]), OneObject(name, x);
    var s := ObjectUnion(e, name, p);
    ObjectUnionKeywords(e, name, p);
    EqualReflexive(c);
    OneObjectMeaning(c, name, x);
    UnionAdmits(name, x, p);
    OneBranchAdmits(s, e, Arr([e]), c);
    forall key | key in ANNOTATIONS || IsBound(key) ensures Get(s, key).None? {
      OtherKey(key);
      UnionHasNot(e, name, p, key);
    }
    BareForm(s, c);
  }

  /** The union `{"anyOf":[{"enum":[{short: x}]}],"type":"object","properties":{short: p},"required":[short]}` is compiled
      to `{"enum":[{short: x}]}`.  The value `{long: x}` satisfies that and not the union, and does not equal itself. */
  lemma NulNameEscapesLowering(long: string, short: string, x: Json, p: Json)
    requires Cuts(long, short) && Regular(x) && Sat(x, p)
    ensures var v, e := Obj([(long, x)]), OneObject(short, x); var s := ObjectUnion(e, short, p);
            Form(s) == e && Wf(v) && Sat(v, e) && !Sat(v, s) && !JsonEqual(v, v)
  {
    var v, c, e := Obj([(long, x)]), Obj([(short, x)]), OneObject(short, x);
    ObjectUnionForm(short, x, p);
    FindOne(long, x, short);
    FindOne(short, x, short);
    EqualReflexive(x);
    assert v.members[0] == (long, x);
    OneObjectMeaning(v, short, x);
    ObjectUnionMeaning(v, e, short, p);
  }

  lemma LeafOutcome(e: Json, check: Json -> bool, depth: nat)
    requires e.Obj? && SyntaxOk(e) && KeywordsOf(e) == EMPTY.(members := KeywordsOf(e).members)
    ensures FirstFailure(e, check, depth).None? <==> depth <= MAX_DEPTH && check(e)
  {
    BareNode(e);
    Childless(e, check, depth + 1);
  }

  lemma OnePropertyFailure(s: Json, name: string, p: Json, check: Json -> bool, depth: nat, k: Keywords)
    requires s.Obj? && KeywordsOf(s) == k && k.properties == Some(Obj([(name, p)])) && k.items.None? && k.additional.None?
    ensures ChildFailure(s, check, depth) == FirstFailure(p, check, depth)
  {
    var ps := Obj([(name, p)]);
    assert ps.members[0] == (name, p);
    assert MembersFailure(ps, check, depth, 0).None?;
    assert MembersFailure(ps, check, depth, 1) == FirstFailure(p, check, depth);
    assert PropertiesFailure(s, check, depth) == FirstFailure(p, check, depth);
    assert ItemsFailure(s, check, depth).None? && AdditionalFailure(s, check, depth).None?;
  }

  lemma OneBranchFailure(e: Json, bs: Json, check: Json -> bool, depth: nat)
    requires bs == Arr([e])
    ensures BranchesFailure(bs, check, depth, |bs.items|) == BranchFailure(e, check, depth)
  {
    assert bs.items[0] == e;
    assert BranchesFailure(bs, check, depth, 0).None?;
  }

  lemma UnionSyntax(branch: Json, name: string, p: Json)
    ensures SyntaxOk(ObjectUnion(branch, name, p))
  {
    var a := Only("anyOf", Arr([branch]));
    var b := Set(a, "type", Str("object"));
    KnownKeys();
    EmptySyntax();
    SetSyntax(Obj([]), "anyOf", Arr([branch]));
    SetSyntax(a, "type", Str("object"));
    SetSyntax(b, "properties", Obj([(name, p)]));
    SetSyntax(Set(b, "properties", Obj([(name, p)])), "required", Arr([Str(name)]));
  }

  lemma OneBranchUnion(s: Json, e: Json, check: Json -> bool, depth: nat)
    requires HasUnion(s) && KeywordsOf(s).anyOf == Some(Arr([e])) && Admitted(s) != [] && Form(s) == e
    requires BranchFailure(e, check, depth).None? <==> depth <= MAX_DEPTH && check(e)
    ensures UnionFailure(s, check, depth).None? <==> depth <= MAX_DEPTH && check(e) && check(Siblings(Node(s)))
  {
    OneBranchFailure(e, Arr([e]), check, depth);
  }

  /** The compiler accepts that union exactly when it accepts the property's schema and `check` accepts the enumeration
      and the node without its union. */
  lemma ObjectUnionCompiles(name: string, x: Json, p: Json, check: Json -> bool, depth: nat)
    requires Regular(x) && !HasNul(name) && Sat(x, p)
    ensures var e := OneObject(name, x); var s := ObjectUnion(e, name, p);
            FirstFailure(s, check, depth).None? <==>
            depth < MAX_DEPTH && FirstFailure(p, check, depth + 1).None? && check(e) && check(Siblings(Node(s)))
  {
    var c, e := Obj([(name, x)]), OneObject(name, x);
    var s := ObjectUnion(e, name, p);
    ObjectUnionKeywords(e, name, p);
    UnionSyntax(e, name, p);
    OnePropertyFailure(s, name, p, check, depth + 1, KeywordsOf(s));
    EnumBranch(c, e, check, depth + 1);
    UnionBuilt(name, x, p);
    OneBranchUnion(s, e, check, depth + 1);
    UnionOutcome(s, check, depth, FirstFailure(p, check, depth + 1), UnionFailure(s, check, depth + 1));
  }

  lemma UnionOutcome(s: Json, check: Json -> bool, depth: nat, child: Option<Failure>, union: Option<Failure>)
    requires s.Obj? && SyntaxOk(s) && KeywordsOf(s).anyOf.Some?
    requires ChildFailure(s, check, depth + 1) == child && UnionFailure(s, check, depth + 1) == union
    ensures FirstFailure(s, check, depth).None? <==> depth <= MAX_DEPTH && child.None? && union.None?
  {
  }

  lemma EnumBranch(c: Json, e: Json, check: Json -> bool, depth: nat)
    requires e == Only("enum", Arr([c]))
    ensures BranchFailure(e, check, depth).None? <==> depth <= MAX_DEPTH && check(e)
  {
    OnlyEnum(c);
    KnownKeys();
    EmptySyntax();
    SetSyntax(Obj([]), "enum", Arr([c]));
    LeafOutcome(e, check, depth);
  }

  lemma UnionBuilt(name: string, x: Json, p: Json)
    requires Regular(x) && !HasNul(name) && Sat(x, p)
    ensures var s := ObjectUnion(OneObject(name, x), name, p); HasUnion(s) && Admitted(s) != [] && Form(s) == OneObject(name, x)
  {
    var c, e := Obj([(name, x)]), OneObject(name, x);
    ObjectUnionKeywords(e, name, p);
    EqualReflexive(c);
    OneObjectMeaning(c, name, x);
    UnionAdmits(name, x, p);
    OneBranchAdmits(ObjectUnion(e, name, p), e, Arr([e]), c);
    ObjectUnionForm(name, x, p);
  }

  // -------------------------------------------------------------- distribution

  /** The object schema with one property. */
  function WithProperty(name: string, c: Json): Json { Only("properties", Obj([(name, c)])) }

  lemma WithPropertyKeywords(name: string, c: Json)
    ensures KeywordsOf(WithProperty(name, c)) == EMPTY.(properties := Some(Obj([(name, c)])))
  {
    EmptyKeywords();
    SetProperties(Obj([]), Obj([(name, c)]));
  }

  /** The schema applies to all members that are looked up under the name. */
  lemma PropertyApplies(v: Json, name: string, c: Json)
    requires !HasNul(name)
    ensures Sat(v, WithProperty(name, c)) <==> AllSat(Under([v], name), c)
  {
    WithPropertyKeywords(name, c);
    PropertiesOnly([v], WithProperty(name, c), Obj([(name, c)]));
    OneProperty([v], name, c, Obj([(name, c)]));
    assert v in [v];
  }

  lemma TwoUnder(long: string, short: string, x: Json, y: Json)
    requires Cuts(long, short)
    ensures Under([Obj([(short, x), (long, y)])], short) == [x, y]
  {
    var v := Obj([(short, x), (long, y)]);
    assert v.members[0] == (short, x) && v.members[1] == (long, y);
    assert MembersUnder(v, short, 0) == [] && MembersUnder(v, short, 1) == [x] && MembersUnder(v, short, 2) == [x, y];
    assert [v][..0] == [] && Under([v][..0], short) == [];
  }

  lemma WithPropertyMeaning(long: string, short: string, x: Json, y: Json, c: Json)
    requires Cuts(long, short)
    ensures Sat(Obj([(short, x), (long, y)]), WithProperty(short, c)) <==> Sat(x, c) && Sat(y, c)
  {
    PropertyApplies(Obj([(short, x), (long, y)]), short, c);
    TwoUnder(long, short, x, y);
    AllOfTwo([x, y], x, y, c);
  }

  lemma AllOfTwo(g: seq<Json>, x: Json, y: Json, c: Json)
    requires g == [x, y]
    ensures AllSat(g, c) <==> Sat(x, c) && Sat(y, c)
  {
    assert x in g && y in g;
  }

  /** Below a property a union takes one branch for each of the two members, an alternative with a single
      branch `e` the same one for both: distribution loses every object whose members need different branches. */
  lemma NulNameEscapesDistribution(long: string, short: string, x: Json, y: Json, u: Json, choices: seq<Json>, e: Json)
    requires Cuts(long, short) && Regular(x) && Regular(y) && Union(u, choices)
    ensures var v := Obj([(short, x), (long, y)]);
            && (Sat(v, WithProperty(short, u)) <==> OneAccepts(x, choices) && OneAccepts(y, choices))
            && (Sat(v, WithProperty(short, e)) <==> Sat(x, e) && Sat(y, e))
  {
    WithPropertyMeaning(long, short, x, y, u);
    WithPropertyMeaning(long, short, x, y, e);
  }

  /** Splitting the union `u` of a property into its choices judges `v` alike. */
  ghost predicate SplitKeeps(v: Json, name: string, u: Json, choices: seq<Json>) {
    AllSat(Under([v], name), u) <==> exists i :: 0 <= i < |choices| && AllSat(Under([v], name), choices[i])
  }

  lemma EqualsAgree(g: seq<Json>, u: Json, choices: seq<Json>)
    requires (forall x :: x in g ==> Regular(x)) && (forall x, y :: x in g && y in g ==> JsonEqual(x, y))
    requires Union(u, choices) && choices != []
    ensures AllSat(g, u) <==> exists i :: 0 <= i < |choices| && AllSat(g, choices[i])
  {
    if AllSat(g, u) && g != [] {
      var x := g[0];
      assert x in g && Sat(x, u);
      var i :| 0 <= i < |choices| && Sat(x, choices[i]);
      forall y | y in g ensures Sat(y, choices[i]) { SatRespectsEqual(x, y, choices[i]); }
      assert AllSat(g, choices[i]);
    }
    if AllSat(g, u) && g == [] { assert AllSat(g, choices[0]); }
    if i :| 0 <= i < |choices| && AllSat(g, choices[i]) {
      forall y | y in g ensures Sat(y, u) { assert Sat(y, choices[i]); }
    }
  }

  lemma BareUnion(s: Json, bs: Json)
    requires s == Only("anyOf", bs) && bs.Arr?
    ensures Union(s, bs.items)
  {
    OnlyAnyOf(bs);
    forall v ensures Sat(v, s) <==> AnyOfOk(v, bs) {
      SatAsserts(v, s);
      UnionAsserts(v, bs, KeywordsOf(s));
    }
  }

  /** Each member satisfies the union of the strict schemas of all. */
  lemma StrictUnionTakes(g: seq<Json>, x: Json)
    requires (forall z :: z in g ==> Regular(z)) && x in g
    ensures Sat(x, StrictUnion(Arr(g)))
  {
    forall i | 0 <= i < |g| ensures Regular(g[i]) { assert g[i] in g; }
    var i :| 0 <= i < |g| && g[i] == x;
    EqualReflexive(x);
    ItemStrict(x, Arr(g), i);
  }

  lemma OneStrictBranch(g: seq<Json>, i: nat, x: Json, y: Json)
    requires (forall z :: z in g ==> Regular(z)) && i < |g| && x in g && y in g && AllSat(g, StrictItems(Arr(g), |g|)[i])
    ensures JsonEqual(x, y)
  {
    assert g[i] in g;
    StrictItemAt(Arr(g), |g|, i);
    StrictAccepts(x, g[i]);
    StrictAccepts(y, g[i]);
    EqualSymmetric(y, g[i]);
    EqualTransitive(x, g[i], y);
  }

  /** Unequal members are lost by the split of that union. */
  lemma UnequalLost(v: Json, name: string, g: seq<Json>, x: Json, y: Json) returns (u: Json, choices: seq<Json>)
    requires g == Under([v], name) && (forall z :: z in g ==> Regular(z)) && x in g && y in g && !JsonEqual(x, y)
    ensures choices != [] && Union(u, choices) && !SplitKeeps(v, name, u, choices)
  {
    u, choices := StrictUnion(Arr(g)), StrictItems(Arr(g), |g|);
    BareUnion(u, Arr(choices));
    StrictUnionTakesAll(g);
    forall i | 0 <= i < |choices| ensures !AllSat(g, choices[i]) { NoStrictBranch(g, i, x, y); }
  }

  lemma StrictUnionTakesAll(g: seq<Json>)
    requires forall z :: z in g ==> Regular(z)
    ensures AllSat(g, StrictUnion(Arr(g)))
  {
    forall z | z in g ensures Sat(z, StrictUnion(Arr(g))) { StrictUnionTakes(g, z); }
  }

  lemma NoStrictBranch(g: seq<Json>, i: nat, x: Json, y: Json)
    requires (forall z :: z in g ==> Regular(z)) && i < |g| && x in g && y in g && !JsonEqual(x, y)
    ensures !AllSat(g, StrictItems(Arr(g), |g|)[i])
  {
    if AllSat(g, StrictItems(Arr(g), |g|)[i]) { OneStrictBranch(g, i, x, y); }
  }

  ghost predicate SplitsAlways(v: Json, name: string) {
    forall u, choices :: choices != [] && Union(u, choices) ==> SplitKeeps(v, name, u, choices)
  }

  /** The exact condition for one split: every union of a property may be split into its choices if and only if the
      members looked up under its name all equal each other. */
  lemma SplitExactIff(v: Json, name: string)
    requires forall x :: x in Under([v], name) ==> Regular(x)
    ensures SplitsAlways(v, name) <==> AllEqual(Under([v], name))
  {
    var g := Under([v], name);
    if AllEqual(g) {
      forall u, choices | choices != [] && Union(u, choices) ensures SplitKeeps(v, name, u, choices) { EqualsAgree(g, u, choices); }
      assert SplitsAlways(v, name);
    } else {
      var x, y :| x in g && y in g && !JsonEqual(x, y);
      var u, choices := UnequalLost(v, name, g, x, y);
      assert !SplitsAlways(v, name);
    }
  }

  /** Two unequal members under one name scatter the object that holds them, so that some distribution loses it. */
  lemma UnequalScattered(long: string, short: string, x: Json, y: Json, f: Compiler, h: nat)
    requires Cuts(long, short) && Regular(x) && Regular(y) && !JsonEqual(x, y) && Nested(x, h) && Nested(y, h) && 2 + 2 * h <= MAX_DEPTH
    ensures Lenient(f) ==> Scattered([Obj([(short, x), (long, y)])], f, 0)
  {
    var g := Under([Obj([(short, x), (long, y)])], short);
    TwoUnder(long, short, x, y);
    assert g == [x, y] && x in g && y in g;
    LeastIffEqual(g, f, 2, h);
    if Lenient(f) { NoLeastScatters([Obj([(short, x), (long, y)])], f, short); }
  }

  lemma NoLeastScatters(g: seq<Json>, f: Compiler, key: string)
    requires !Least(Under(g, key), f, 2)
    ensures Scattered(g, f, 0)
  {
    assert Strays(Under(g, key), HasLeast(f), 1);
  }

  /** `{"type":t}`, and annotations perhaps. */
  predicate TypeSchema(s: Json, t: string) {
    s.Obj? && KeywordsOf(s) == Keywords(Some(Str(t)), None, None, None, None, None, None, None, None, None, None, None, None)
  }

  lemma TypeSchemaMeaning(v: Json, s: Json, t: string)
    requires TypeSchema(s, t)
    ensures Sat(v, s) <==> TypeOk(v, Some(Str(t)))
  {
    PlainKind(v, KeywordsOf(s));
  }

  lemma PlainKind(v: Json, k: Keywords)
    requires k == Keywords(k.kind, None, None, None, None, None, None, None, None, None, None, None, None)
    ensures PlainOk(v, k) <==> TypeOk(v, k.kind)
  {
  }

  lemma StringsAndIntegers(s: string, n: int, text: string, whole: string)
    requires text == "string" && whole == "integer"
    ensures TypeOk(Str(s), Some(Str(text))) && !TypeOk(Str(s), Some(Str(whole)))
    ensures TypeOk(Int(n), Some(Str(whole))) && !TypeOk(Int(n), Some(Str(text)))
  {
  }

  lemma TypesSplit(s: string, n: int, c: Json, d: Json)
    requires TypeSchema(c, "string") && TypeSchema(d, "integer")
    ensures Sat(Str(s), c) && Sat(Int(n), d)
    ensures forall e :: e in [c, d] ==> !(Sat(Str(s), e) && Sat(Int(n), e))
  {
    StringsAndIntegers(s, n, "string", "integer");
    TypeSchemaMeaning(Str(s), c, "string");
    TypeSchemaMeaning(Int(n), c, "string");
    TypeSchemaMeaning(Str(s), d, "integer");
    TypeSchemaMeaning(Int(n), d, "integer");
  }

  lemma LostByAll(long: string, short: string, x: Json, y: Json, choices: seq<Json>)
    requires Cuts(long, short) && forall e :: e in choices ==> !(Sat(x, e) && Sat(y, e))
    ensures forall e :: e in choices ==> !Sat(Obj([(short, x), (long, y)]), WithProperty(short, e))
  {
    forall e | e in choices ensures !Sat(Obj([(short, x), (long, y)]), WithProperty(short, e)) {
      WithPropertyMeaning(long, short, x, y, e);
    }
  }

  lemma KeptByUnion(long: string, short: string, x: Json, y: Json, u: Json, c: Json, d: Json)
    requires Cuts(long, short) && Regular(x) && Regular(y) && Union(u, [c, d]) && Sat(x, c) && Sat(y, d)
    ensures Sat(Obj([(short, x), (long, y)]), WithProperty(short, u))
  {
    var choices := [c, d];
    assert choices[0] == c && choices[1] == d;
    WithPropertyMeaning(long, short, x, y, u);
  }

  /** For example a property that is a string or an integer, and an object with a string under the short name and an
      integer under the long one: neither alternative accepts it. */
  lemma MixedTypesLost(long: string, short: string, s: string, n: int, c: Json, d: Json)
    requires Cuts(long, short)
    ensures TypeSchema(c, "string") && TypeSchema(d, "integer") ==>
              forall e :: e in [c, d] ==> !Sat(Obj([(short, Str(s)), (long, Int(n))]), WithProperty(short, e))
  {
    if TypeSchema(c, "string") && TypeSchema(d, "integer") {
      TypesSplit(s, n, c, d);
      LostByAll(long, short, Str(s), Int(n), [c, d]);
    }
  }

  /** And the source does. */
  lemma MixedTypesKept(long: string, short: string, s: string, n: int, u: Json, c: Json, d: Json)
    requires Cuts(long, short)
    ensures TypeSchema(c, "string") && TypeSchema(d, "integer") && Union(u, [c, d]) ==>
              Sat(Obj([(short, Str(s)), (long, Int(n))]), WithProperty(short, u))
  {
    if TypeSchema(c, "string") && TypeSchema(d, "integer") && Union(u, [c, d]) {
      TypesSplit(s, n, c, d);
      KeptByUnion(long, short, Str(s), Int(n), u, c, d);
    }
  }
}
