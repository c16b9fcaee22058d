/**
 Exactly which values a whole distribution judges otherwise than its source: objects with names that are cut to one
 another, whose members are looked up together (tools/axiom_codex_schema.h, tools/axiom_aliced_json.h).
 */
module SchemaScattered {
  import opened Common
  import opened Json
  import opened Schema
  import opened SchemaForm
  import opened SchemaLowering
  import opened SchemaSplit
  import opened SchemaStrict
  import opened SchemaLost
  import opened SchemaAlternatives

  /** One of the alternatives takes the whole group. */
  ghost predicate OneTakes(g: seq<Json>, alternatives: seq<Json>) {
    exists i :: 0 <= i < |alternatives| && AllSat(g, alternatives[i])
  }

  lemma TakesConcat(g: seq<Json>, a: seq<Json>, b: seq<Json>)
    ensures OneTakes(g, a + b) <==> OneTakes(g, a) || OneTakes(g, b)
  {
    var c := a + b;
    if i :| 0 <= i < |a| && AllSat(g, a[i]) { assert c[i] == a[i]; }
    if i :| 0 <= i < |b| && AllSat(g, b[i]) { assert c[|a| + i] == b[i]; }
  }

  lemma TakesOne(g: seq<Json>, s: Json)
    ensures OneTakes(g, [s]) <==> AllSat(g, s)
  {
    assert [s][0] == s;
  }

  // ---------------------------------------------------------------- any depth

  /** A compiler whose `check` passes everything. */
  ghost predicate Lenient(f: Compiler) { Describes(f) && forall s :: f.check(s) }

  ghost predicate Distributable(s: Json, f: Compiler, depth: nat) { Wf(s) && Divisible(s, f, depth) }

  lemma CompiledFits(s: Json, c: Compiler, depth: nat)
    requires Describes(c) && Wf(s)
    ensures c.compiles(s, depth) ==> depth <= MAX_DEPTH && Everywhere(s, depth, Fitting())
    ensures c.compilesBare(s, depth) ==> depth <= MAX_DEPTH && Everywhere(s, depth, Fitting())
  {
    if c.compiles(s, depth) { CompiledFit(s, c.check, depth); }
    if c.compilesBare(s, depth) { CompiledFit(s, AllPass(), depth); }
  }

  lemma CompiledFit(s: Json, check: Json -> bool, depth: nat)
    requires Wf(s) && FirstFailure(s, check, depth).None?
    ensures depth <= MAX_DEPTH && Everywhere(s, depth, Fitting())
  {
    SucceedsIff(s, check, depth);
    AcceptedFits(check, 0);
    EverywhereImplies(s, depth, Accepted(check), Fitting(), 0);
  }

  lemma WholeHigher(s: Json, check: Json -> bool, check': Json -> bool, depth: nat, below: nat)
    requires Wf(s) && depth <= below && FirstFailure(s, check, below).None? && forall s :: check'(s)
    ensures FirstFailure(s, check', depth).None?
  {
    SucceedsIff(s, check, below);
    AcceptedPasses(check, check', below - depth);
    EverywhereImplies(s, depth, Accepted(check), Accepted(check'), below - depth);
    SucceedsIff(s, check', depth);
  }

  /** What compiles under one check at one depth never fails for want of finitely many values. */
  lemma FiniteAnywhere(s: Json, check: Json -> bool, depth: nat, check': Json -> bool, depth': nat)
    requires Wf(s) && FirstFailure(s, check, depth).None?
    ensures FirstFailure(s, check', depth') != Some(NonFinite)
  {
    SucceedsIff(s, check, depth);
    AcceptedIsFinite(check, depth - depth');
    EverywhereImplies(s, depth', Accepted(check), Finite(), depth - depth');
    FiniteIsRefused(s, check', depth');
  }

  /** A compiler, and one whose check passes everything. */
  ghost predicate Compared(c: Compiler, f: Compiler) { Describes(c) && Lenient(f) }

  /** Whatever can be distributed under some check can be distributed further up when everything passes. */
  lemma {:induction false} Higher(s: Json, c: Compiler, f: Compiler, depth: nat, below: nat)
    requires depth <= below && Wf(s)
    ensures Compared(c, f) && Divisible(s, c, below) ==> Divisible(s, f, depth)
    decreases s, 2
  {
    if Compared(c, f) && Divisible(s, c, below) {
      if c.compiles(s, below) {
        WholeHigher(s, c.check, f.check, depth, below);
      } else {
        DividedNode(s, c, below);
        if KeywordsOf(s).anyOf.Some? {
          GetWf(s, "anyOf");
          HigherUnion(s, KeywordsOf(s).anyOf.value, c, f, depth, below);
        } else {
          HigherNode(s, c, f, depth, below);
        }
      }
    }
  }

  lemma DividedNode(s: Json, c: Compiler, depth: nat)
    requires Divides(s, c, depth)
    ensures depth <= MAX_DEPTH && s.Obj? && SyntaxOk(s)
    ensures if KeywordsOf(s).anyOf.Some? then NonEmptyUnion(s) && OnlyUnion(s) else HasProperties(s)
  {
    assert if KeywordsOf(s).anyOf.Some? then DividesUnion(s, c, depth) else DividesProperties(s, c, depth);
  }

  lemma {:induction false} HigherPart(x: Json, c: Compiler, f: Compiler, depth: nat, below: nat)
    requires depth <= below && Wf(x)
    ensures Compared(c, f) && DivisiblePart(x, c, below) ==> DivisiblePart(x, f, depth)
    decreases x, 3
  {
    Higher(x, c, f, depth, below);
  }

  /** A part that is not compiled as it stands is not so anywhere. */
  lemma StillNotWhole(x: Json, c: Compiler, f: Compiler, depth: nat, below: nat)
    requires Wf(x)
    ensures Compared(c, f) && DivisiblePart(x, c, below) && !c.compiles(x, below) ==> !f.compiles(x, depth)
  {
    if Compared(c, f) && Divisible(x, c, below) && !c.compiles(x, below) && f.compiles(x, depth) {
      DividesFailure(x, c, below);
      FiniteAnywhere(x, f.check, depth, c.check, below);
    }
  }

  ghost predicate PartsDivisible(parts: seq<Json>, c: Compiler, depth: nat) { forall j :: 0 <= j < |parts| ==> DivisiblePart(parts[j], c, depth) }

  lemma {:induction false} HigherBranches(bs: Json, c: Compiler, f: Compiler, depth: nat, below: nat)
    requires depth <= below && bs.Arr? && Wf(bs)
    ensures Compared(c, f) && PartsDivisible(bs.items, c, below) ==> PartsDivisible(bs.items, f, depth)
    decreases bs, 4
  {
    if Compared(c, f) {
      forall j | 0 <= j < |bs.items| ensures DivisiblePart(bs.items[j], c, below) ==> DivisiblePart(bs.items[j], f, depth) {
        HigherPart(bs.items[j], c, f, depth, below);
      }
    }
  }

  /** What is left to say of a union, or of a node with properties. */
  ghost predicate UnionParts(s: Json, bs: Json, f: Compiler, depth: nat)
    requires s.Obj? && bs.Arr?
  {
    && f.check(Siblings(s)) && PartsDivisible(bs.items, f, depth)
    && exists j :: 0 <= j < |bs.items| && !Listed(bs.items[j], f, depth)
  }

  lemma UnionIsDivided(s: Json, bs: Json, f: Compiler, depth: nat)
    requires s.Obj? && bs.Arr? && depth <= MAX_DEPTH
    ensures UnionNode(s, bs) ==> (UnionParts(s, bs, f, depth + 1) <==> Divides(s, f, depth))
  {
    if UnionNode(s, bs) { assert UnionParts(s, bs, f, depth + 1) <==> DividesUnion(s, f, depth); }
  }

  ghost predicate UnionNode(s: Json, bs: Json) {
    s.Obj? && SyntaxOk(s) && KeywordsOf(s).anyOf == Some(bs) && NonEmptyUnion(s) && OnlyUnion(s)
  }

  lemma {:induction false} HigherUnionParts(s: Json, bs: Json, c: Compiler, f: Compiler, depth: nat, below: nat)
    requires depth <= below && s.Obj? && bs.Arr? && Wf(bs)
    ensures Compared(c, f) && UnionParts(s, bs, c, below) ==> UnionParts(s, bs, f, depth)
    decreases bs, 5
  {
    HigherBranches(bs, c, f, depth, below);
    if Compared(c, f) && UnionParts(s, bs, c, below) {
      var j :| 0 <= j < |bs.items| && !Listed(bs.items[j], c, below);
      StillNotWhole(bs.items[j], c, f, depth, below);
      assert !Listed(bs.items[j], f, depth);
    }
  }

  lemma {:induction false} HigherUnion(s: Json, bs: Json, c: Compiler, f: Compiler, depth: nat, below: nat)
    requires depth <= below <= MAX_DEPTH && Wf(bs) && UnionNode(s, bs) && Compared(c, f) && Divides(s, c, below)
    ensures Divisible(s, f, depth)
    decreases bs, 6
  {
    UnionIsDivided(s, bs, c, below);
    HigherUnionParts(s, bs, c, f, depth + 1, below + 1);
    UnionIsDivided(s, bs, f, depth);
  }

  lemma {:induction false} HigherMembers(ps: Json, c: Compiler, f: Compiler, depth: nat, below: nat)
    requires depth <= below && ps.Obj? && Wf(ps)
    ensures Compared(c, f) && PropertiesDivisible(ps.members, c, below) ==> PropertiesDivisible(ps.members, f, depth)
    decreases ps, 4
  {
    if Compared(c, f) {
      forall i | 0 <= i < |ps.members| ensures DivisiblePart(ps.members[i].1, c, below) ==> DivisiblePart(ps.members[i].1, f, depth) {
        HigherPart(ps.members[i].1, c, f, depth, below);
      }
    }
  }

  ghost predicate PropertiesDivisible(ps: Members, c: Compiler, depth: nat) { forall i :: 0 <= i < |ps| ==> DivisiblePart(ps[i].1, c, depth) }

  ghost predicate NodeParts(s: Json, ps: Members, f: Compiler, depth: nat) {
    && f.compilesBare(Bare(s), depth) && PropertiesDivisible(ps, f, depth + 1)
    && exists i :: 0 <= i < |ps| && !f.compiles(ps[i].1, depth + 1)
  }

  lemma NodeIsDivided(s: Json, ps: Json, f: Compiler, depth: nat)
    requires depth <= MAX_DEPTH && s.Obj? && SyntaxOk(s) && KeywordsOf(s).anyOf.None? && KeywordsOf(s).properties == Some(ps) && ps.Obj?
    ensures Divides(s, f, depth) ==> NodeParts(s, ps.members, f, depth)
    ensures Lenient(f) && NodeParts(s, ps.members, f, depth) ==> Divides(s, f, depth)
  {
    assert DividesProperties(s, f, depth) ==> NodeParts(s, ps.members, f, depth);
    if Lenient(f) && NodeParts(s, ps.members, f, depth) { assert DividesProperties(s, f, depth); }
  }

  lemma BareHigher(s: Json, c: Compiler, f: Compiler, depth: nat, below: nat)
    requires depth <= below && Wf(s)
    ensures Compared(c, f) && c.compilesBare(s, below) ==> f.compilesBare(s, depth)
  {
    if Compared(c, f) && c.compilesBare(s, below) { WholeHigher(s, AllPass(), AllPass(), depth, below); }
  }

  lemma {:induction false} HigherNodeParts(s: Json, ps: Json, c: Compiler, f: Compiler, depth: nat, below: nat)
    requires depth <= below && ps.Obj? && Wf(ps) && Wf(Bare(s))
    ensures Compared(c, f) && NodeParts(s, ps.members, c, below) ==> NodeParts(s, ps.members, f, depth)
    decreases ps, 5
  {
    BareHigher(Bare(s), c, f, depth, below);
    HigherMembers(ps, c, f, depth + 1, below + 1);
    if Compared(c, f) && NodeParts(s, ps.members, c, below) {
      var i :| 0 <= i < |ps.members| && !c.compiles(ps.members[i].1, below + 1);
      StillNotWhole(ps.members[i].1, c, f, depth + 1, below + 1);
    }
  }

  lemma {:induction false} HigherNode(s: Json, c: Compiler, f: Compiler, depth: nat, below: nat)
    requires depth <= below <= MAX_DEPTH && Wf(s) && s.Obj? && SyntaxOk(s) && KeywordsOf(s).anyOf.None? && HasProperties(s)
    ensures Compared(c, f) && Divisible(s, c, below) && !c.compiles(s, below) ==> Divisible(s, f, depth)
    decreases s, 1
  {
    var ps := KeywordsOf(s).properties.value;
    GetWf(s, "properties");
    BareKeywords(s);
    NodeIsDivided(s, ps, c, below);
    NodeIsDivided(s, ps, f, depth);
    HigherNodeParts(s, ps, c, f, depth, below);
  }

  // --------------------------------------------------- which alternatives take a group

  lemma LabelKeywords(s: Json, key: string, x: Json)
    requires s.Obj?
    ensures IsAnnotation(key) ==> KeywordsOf(Set(s, key, x)) == KeywordsOf(s)
  {
    if IsAnnotation(key) { SetAnnotation(s, key, x); }
  }

  lemma {:induction false} LabelledKeywords(branch: Json, source: Json, n: nat)
    requires branch.Obj? && OnlyUnion(source) && n <= |source.members|
    ensures KeywordsOf(Labelled(branch, source, n)) == KeywordsOf(branch)
  {
    if n > 0 {
      LabelledKeywords(branch, source, n - 1);
      LabelKeywords(Labelled(branch, source, n - 1), source.members[n - 1].0, source.members[n - 1].1);
    }
  }

  lemma LabelledTakes(branch: Json, source: Json, n: nat, g: seq<Json>)
    requires branch.Obj? && OnlyUnion(source) && n <= |source.members|
    ensures AllSat(g, Labelled(branch, source, n)) <==> AllSat(g, branch)
  {
    LabelledKeywords(branch, source, n);
    SameKeywordsTake(g, branch, Labelled(branch, source, n));
  }

  lemma SameKeywordsTake(g: seq<Json>, s: Json, t: Json)
    requires s.Obj? && t.Obj? && KeywordsOf(s) == KeywordsOf(t)
    ensures AllSat(g, s) <==> AllSat(g, t)
  {
    forall v ensures Sat(v, s) <==> Sat(v, t) {
      SatAsserts(v, s);
      SatAsserts(v, t);
    }
  }

  lemma {:induction false} LabelledAllTakes(alternatives: seq<Json>, source: Json, g: seq<Json>)
    requires Objects(alternatives) && OnlyUnion(source) && AllWfIn(g)
    ensures OneTakes(g, LabelledAll(alternatives, source)) <==> OneTakes(g, alternatives)
  {
    if alternatives != [] {
      var init, last := alternatives[..|alternatives| - 1], alternatives[|alternatives| - 1];
      var marked := Labelled(last, source, |source.members|);
      LabelledAllTakes(init, source, g);
      LabelledTakes(last, source, |source.members|, g);
      TakesConcat(g, LabelledAll(init, source), [marked]);
      TakesOne(g, marked);
      TakesConcat(g, init, [last]);
      TakesOne(g, last);
      assert alternatives == init + [last];
    }
  }

  ghost predicate PartTakes(g: seq<Json>, x: Json, c: Compiler, depth: nat) { OneTakes(g, SplitPart(x, c, depth)) }

  ghost predicate SomeBranchTakes(g: seq<Json>, branches: seq<Json>, c: Compiler, depth: nat) {
    exists j :: 0 <= j < |branches| && PartTakes(g, branches[j], c, depth)
  }

  ghost function BranchesTakenUpTo(g: seq<Json>, branches: seq<Json>, c: Compiler, depth: nat): (seq<Json>, nat) -> bool {
    (out: seq<Json>, i: nat) => i <= |branches| && Objects(out) && (OneTakes(g, out) <==> SomeBranchTakes(g, branches[..i], c, depth))
  }

  lemma SomeBranchNext(g: seq<Json>, branches: seq<Json>, c: Compiler, depth: nat, i: nat)
    requires i < |branches|
    ensures SomeBranchTakes(g, branches[..i + 1], c, depth) <==> SomeBranchTakes(g, branches[..i], c, depth) || PartTakes(g, branches[i], c, depth)
  {
    var a, b := branches[..i], branches[..i + 1];
    if j :| 0 <= j < |a| && PartTakes(g, a[j], c, depth) { assert b[j] == a[j]; }
    if PartTakes(g, branches[i], c, depth) { assert b[i] == branches[i]; }
    if j :| 0 <= j < |b| && PartTakes(g, b[j], c, depth) { assert j < i ==> a[j] == b[j]; }
  }

  lemma BranchTaken(g: seq<Json>, s: Json, branches: seq<Json>, c: Compiler, depth: nat, i: nat, out: seq<Json>, part: seq<Json>)
    requires AllWfIn(g) && OnlyUnion(s) && Wf(s) && i < |branches| && part == SplitPart(branches[i], c, depth)
    ensures Objects(part) && BranchesTakenUpTo(g, branches, c, depth)(out, i) ==>
              BranchesTakenUpTo(g, branches, c, depth)(out + LabelledAll(part, s), i + 1)
  {
    if Objects(part) && BranchesTakenUpTo(g, branches, c, depth)(out, i) {
      LabelledAllMeans(part, s);
      ObjectsConcat(out, LabelledAll(part, s));
      LabelledAllTakes(part, s, g);
      TakesConcat(g, out, LabelledAll(part, s));
      SomeBranchNext(g, branches, c, depth, i);
    }
  }

  lemma BranchesTake(g: seq<Json>, s: Json, bs: Json, c: Compiler, depth: nat)
    requires AllWfIn(g) && OnlyUnion(s) && Wf(s) && bs.Arr? && Wf(bs) && Describes(c)
    ensures PartsDivisible(bs.items, c, depth) ==>
              (OneTakes(g, SplitBranches(s, bs, c, depth, |bs.items|)) <==> SomeBranchTakes(g, bs.items, c, depth))
  {
    var good := BranchesTakenUpTo(g, bs.items, c, depth);
    forall out: seq<Json>, i: nat | i < |bs.items| && good(out, i) && DivisiblePart(bs.items[i], c, depth)
      ensures good(out + LabelledAll(SplitPart(bs.items[i], c, depth), s), i + 1)
    {
      SplitPartMeans(bs.items[i], c, depth);
      BranchTaken(g, s, bs.items, c, depth, i, out, SplitPart(bs.items[i], c, depth));
    }
    BranchesHold(s, bs, c, depth, good, |bs.items|);
    assert bs.items[..0] == [] && bs.items[..|bs.items|] == bs.items;
    assert good([], 0);
    if PartsDivisible(bs.items, c, depth) { assert good(SplitBranches(s, bs, c, depth, |bs.items|), |bs.items|); }
  }

  // ----------------------------------------------------------------- properties

  /** Each property's schema takes the members looked up under its name. */
  ghost predicate KeysTake(g: seq<Json>, ps: Members) {
    forall i :: 0 <= i < |ps| && !HasNul(ps[i].0) ==> AllSat(Under(g, ps[i].0), ps[i].1)
  }

  lemma KeysAppend(g: seq<Json>, ps: Members, key: string, x: Json)
    ensures KeysTake(g, ps + [(key, x)]) <==> KeysTake(g, ps) && (HasNul(key) || AllSat(Under(g, key), x))
  {
    var all := ps + [(key, x)];
    assert all[|ps|] == (key, x);
    assert forall i :: 0 <= i < |ps| ==> all[i] == ps[i];
  }

  ghost predicate NodeKeysTake(g: seq<Json>, o: Json) { PropsOf(o).Obj? && KeysTake(g, PropsOf(o).members) }

  ghost predicate SomeKeysTake(g: seq<Json>, out: seq<Json>) { exists i :: 0 <= i < |out| && NodeKeysTake(g, out[i]) }

  lemma KeysConcat(g: seq<Json>, a: seq<Json>, b: seq<Json>)
    ensures SomeKeysTake(g, a + b) <==> SomeKeysTake(g, a) || SomeKeysTake(g, b)
  {
    var c := a + b;
    if i :| 0 <= i < |a| && NodeKeysTake(g, a[i]) { assert c[i] == a[i]; }
    if i :| 0 <= i < |b| && NodeKeysTake(g, b[i]) { assert c[|a| + i] == b[i]; }
  }

  lemma KeysOne(g: seq<Json>, o: Json)
    ensures SomeKeysTake(g, [o]) <==> NodeKeysTake(g, o)
  {
    assert [o][0] == o;
  }

  /** Some choice takes the members under the name; a name that holds a NUL looks nothing up. */
  ghost predicate Chosen(g: seq<Json>, key: string, choices: seq<Json>) {
    choices != [] && (HasNul(key) || OneTakes(Under(g, key), choices))
  }

  lemma ChosenNext(g: seq<Json>, key: string, choices: seq<Json>, x: Json)
    ensures Chosen(g, key, choices + [x]) <==> Chosen(g, key, choices) || HasNul(key) || AllSat(Under(g, key), x)
  {
    TakesConcat(Under(g, key), choices, [x]);
    TakesOne(Under(g, key), x);
    if OneTakes(Under(g, key), choices) { assert choices != []; }
  }

  /** The parent has properties, and none of this name. */
  ghost predicate Lacks(parent: Json, key: string) {
    parent.Obj? && PropsOf(parent).Obj? && forall i :: 0 <= i < |PropsOf(parent).members| ==> PropsOf(parent).members[i].0 != key
  }

  lemma ChildTakes(g: seq<Json>, parent: Json, key: string, x: Json)
    requires Lacks(parent, key)
    ensures NodeKeysTake(g, WithChild(parent, key, x)) <==> NodeKeysTake(g, parent) && (HasNul(key) || AllSat(Under(g, key), x))
  {
    var ms := PropsOf(parent).members;
    SetMemberAppends(ms, key, x);
    GetSet(parent, "properties", Set(PropsOf(parent), key, x), "properties");
    KeysAppend(g, ms, key, x);
  }

  lemma EachTakesNext(g: seq<Json>, parent: Json, key: string, init: seq<Json>, last: Json, built: seq<Json>)
    requires Lacks(parent, key) && (SomeKeysTake(g, built) <==> NodeKeysTake(g, parent) && Chosen(g, key, init))
    ensures SomeKeysTake(g, built + [WithChild(parent, key, last)]) <==> NodeKeysTake(g, parent) && Chosen(g, key, init + [last])
  {
    ChildTakes(g, parent, key, last);
    KeysConcat(g, built, [WithChild(parent, key, last)]);
    KeysOne(g, WithChild(parent, key, last));
    ChosenNext(g, key, init, last);
  }

  lemma {:induction false} EachTakes(g: seq<Json>, parent: Json, key: string, choices: seq<Json>)
    requires Lacks(parent, key)
    ensures SomeKeysTake(g, WithEach(parent, key, choices)) <==> NodeKeysTake(g, parent) && Chosen(g, key, choices)
    decreases |choices|
  {
    if choices != [] {
      var init, last := choices[..|choices| - 1], choices[|choices| - 1];
      EachTakes(g, parent, key, init);
      EachTakesNext(g, parent, key, init, last, WithEach(parent, key, init));
      assert choices == init + [last];
    }
  }

  lemma {:induction false} ProductTakes(g: seq<Json>, parents: seq<Json>, key: string, choices: seq<Json>)
    requires forall o :: o in parents ==> Lacks(o, key)
    ensures SomeKeysTake(g, Product(parents, key, choices)) <==> SomeKeysTake(g, parents) && Chosen(g, key, choices)
    decreases |parents|
  {
    if parents != [] {
      var init, last := parents[..|parents| - 1], parents[|parents| - 1];
      assert last in parents;
      ProductTakes(g, init, key, choices);
      EachTakes(g, last, key, choices);
      KeysConcat(g, Product(init, key, choices), WithEach(last, key, choices));
      KeysConcat(g, init, [last]);
      KeysOne(g, last);
      assert parents == init + [last];
    }
  }

  ghost predicate AllChosen(g: seq<Json>, ps: Members, c: Compiler, depth: nat) {
    forall j :: 0 <= j < |ps| ==> Chosen(g, ps[j].0, SplitPart(ps[j].1, c, depth))
  }

  lemma ChosenAppend(g: seq<Json>, ps: Members, i: nat, c: Compiler, depth: nat)
    requires i < |ps|
    ensures AllChosen(g, ps[..i + 1], c, depth) <==> AllChosen(g, ps[..i], c, depth) && Chosen(g, ps[i].0, SplitPart(ps[i].1, c, depth))
  {
    var a, b := ps[..i], ps[..i + 1];
    assert forall j :: 0 <= j < i ==> b[j] == a[j];
    assert b[i] == ps[i];
  }

  ghost function ChosenUpTo(g: seq<Json>, k: Keywords, ps: Members, c: Compiler, depth: nat): (seq<Json>, nat) -> bool {
    (out: seq<Json>, i: nat) => i <= |ps| && AllShaped(out, k, ps[..i]) && (SomeKeysTake(g, out) <==> AllChosen(g, ps[..i], c, depth))
  }

  lemma ShapedLacks(out: seq<Json>, k: Keywords, ps: Members, i: nat)
    requires i < |ps| && Distinct(ps) && AllShaped(out, k, ps[..i])
    ensures forall o :: o in out ==> Lacks(o, ps[i].0)
  {
    forall o | o in out ensures Lacks(o, ps[i].0) {
      assert Shaped(o, k, ps[..i]);
    }
  }

  lemma MemberTaken(g: seq<Json>, k: Keywords, ps: Members, c: Compiler, depth: nat, i: nat, out: seq<Json>, part: seq<Json>)
    requires i < |ps| && Distinct(ps) && part == SplitPart(ps[i].1, c, depth)
    ensures Objects(part) && ChosenUpTo(g, k, ps, c, depth)(out, i) ==> ChosenUpTo(g, k, ps, c, depth)(Product(out, ps[i].0, part), i + 1)
  {
    if Objects(part) && ChosenUpTo(g, k, ps, c, depth)(out, i) {
      ShapedLacks(out, k, ps, i);
      ProductTakes(g, out, ps[i].0, part);
      ChosenAppend(g, ps, i, c, depth);
      ProductShaped(out, k, ps, i, part);
    }
  }

  lemma ProductShaped(out: seq<Json>, k: Keywords, ps: Members, i: nat, part: seq<Json>)
    requires i < |ps| && Distinct(ps) && AllShaped(out, k, ps[..i]) && Objects(part)
    ensures AllShaped(Product(out, ps[i].0, part), k, ps[..i + 1])
  {
    ProductMeans(out, ps[i].0, part, k, ps[..i], ps[i].1);
    assert ps[..i + 1] == ps[..i] + [(ps[i].0, ps[i].1)];
  }

  lemma MembersTake(g: seq<Json>, base: Json, k: Keywords, ps: Json, c: Compiler, depth: nat)
    requires ps.Obj? && Wf(ps) && Describes(c) && AllShaped([base], k, []) && PropsOf(base) == Obj([])
    ensures PropertiesDivisible(ps.members, c, depth) ==>
              var out := SplitMembers(base, ps, c, depth, |ps.members|);
              AllShaped(out, k, ps.members) && (SomeKeysTake(g, out) <==> AllChosen(g, ps.members, c, depth))
  {
    var good := ChosenUpTo(g, k, ps.members, c, depth);
    forall out: seq<Json>, i: nat | i < |ps.members| && good(out, i) && DivisiblePart(ps.members[i].1, c, depth)
      ensures good(Product(out, ps.members[i].0, SplitPart(ps.members[i].1, c, depth)), i + 1)
    {
      SplitPartMeans(ps.members[i].1, c, depth);
      MemberTaken(g, k, ps.members, c, depth, i, out, SplitPart(ps.members[i].1, c, depth));
    }
    KeysOne(g, base);
    MembersHold(base, ps, c, depth, good, |ps.members|);
    assert ps.members[..0] == [] && ps.members[..|ps.members|] == ps.members;
  }

  // ---------------------------------------------------------------- whole nodes

  ghost predicate AllNames(g: seq<Json>, ps: Json) { forall v :: v in g ==> NamesDeclared(v, ps) }

  /** What a property list asserts: which names there are, and what each name's schema says. */
  lemma MembersAreKeys(g: seq<Json>, ps: Json)
    requires ps.Obj? && Wf(ps)
    ensures AllMembersOk(g, ps) <==> AllNames(g, ps) && KeysTake(g, ps.members)
  {
    if AllMembersOk(g, ps) {
      forall v | v in g ensures NamesDeclared(v, ps) { NamedFromMembers(v, ps); }
      forall i | 0 <= i < |ps.members| && !HasNul(ps.members[i].0) ensures AllSat(Under(g, ps.members[i].0), ps.members[i].1) {
        FindDistinct(ps.members, i);
        GroupMembers(g, ps, ps.members[i].0);
      }
    }
    if AllNames(g, ps) && KeysTake(g, ps.members) {
      forall v | v in g ensures NamedOk(v, ps) && MembersOk(v, ps) {
        KeysGiveMembers(g, ps, v);
        NamedFromMembers(v, ps);
      }
    }
  }

  lemma KeysGiveMembers(g: seq<Json>, ps: Json, v: Json)
    requires ps.Obj? && Wf(ps) && KeysTake(g, ps.members) && v in g
    ensures MembersOk(v, ps)
  {
    forall key: string | Lookup(ps, key).Some? && !HasNul(key) ensures AllSat(Under(g, key), Lookup(ps, key).value) {
      var i :| 0 <= i < |ps.members| && ps.members[i] == (key, Lookup(ps, key).value);
    }
    MembersFromGroups(g, ps, v);
  }

  /** Everything a node asserts besides its property schemas. */
  ghost predicate RestTakes(g: seq<Json>, k: Keywords, ps: Json) {
    && AllPlain(g, k) && AllClosed(g, k.additional, Some(ps)) && AllNames(g, ps)
    && (k.additional.Some? ==> AllAdditional(g, k.additional.value, Some(ps)))
    && (k.items.Some? ==> AllItems(g, k.items.value))
  }

  lemma NodeTakes(g: seq<Json>, o: Json, k: Keywords, ps: Json)
    requires o.Obj? && KeywordsOf(o) == k && k.anyOf.None? && k.properties == Some(ps) && ps.Obj? && Wf(ps)
    ensures AllSat(g, o) <==> RestTakes(g, k, ps) && KeysTake(g, ps.members)
  {
    AllSatSplits(g, o, k);
    MembersAreKeys(g, ps);
  }

  lemma NamesSame(g: seq<Json>, ps: Json, qs: Json)
    requires SameNames(ps, qs)
    ensures AlikeDeclared(Some(ps), Some(qs)) && (AllNames(g, ps) <==> AllNames(g, qs))
  {
    forall key: string ensures Lookup(ps, key).Some? <==> Lookup(qs, key).Some? {
    }
    forall v ensures NamesDeclared(v, ps) <==> NamesDeclared(v, qs) { SameNamesDeclared(v, ps, qs); }
  }

  lemma SameNamesDeclared(v: Json, ps: Json, qs: Json)
    requires SameNames(ps, qs) && forall key: string :: Lookup(ps, key).Some? <==> Lookup(qs, key).Some?
    ensures NamesDeclared(v, ps) <==> NamesDeclared(v, qs)
  {
  }

  /** The keywords of a node compiled without its properties. */
  ghost predicate Compiles(k: Keywords, k': Keywords) {
    && k' == k.(properties := k'.properties, items := k'.items, additional := k'.additional)
    && k'.items == (if k.items.Some? then Some(Form(k.items.value)) else None)
    && k'.additional == (if k.additional.Some? && !k.additional.value.Bool? then Some(Form(k.additional.value)) else k.additional)
  }

  lemma BareCompiles(s: Json)
    requires s.Obj? && KeywordsOf(s).anyOf.None?
    ensures Compiles(KeywordsOf(s), KeywordsOf(Form(Bare(s))))
  {
    BareKeywords(s);
    NodeKeywords(Bare(s));
  }

  lemma RestItems(g: seq<Json>, s: Json, e: Json, depth: nat)
    requires Wf(s) && KeywordsOf(s).items == Some(e) && BelowItems(s, depth, Fitting()) && AllWfIn(g) && !Lost(Elements(g))
    ensures AllItems(g, e) <==> AllItems(g, Form(e))
  {
    GetWf(s, "items");
    FittingDemands();
    ItemsExactOn(e, depth, Fitting(), g);
  }

  lemma RestAdditional(g: seq<Json>, s: Json, a: Json, depth: nat, ps: Json, qs: Json)
    requires Wf(s) && KeywordsOf(s).additional == Some(a) && !a.Bool? && BelowAdditional(s, depth, Fitting()) && AllWfIn(g)
    requires (forall key: string :: !Lost(Under(g, key))) && AlikeDeclared(Some(ps), Some(qs))
    ensures a.Obj? && Form(a).Obj? && (AllAdditional(g, a, Some(ps)) <==> AllAdditional(g, Form(a), Some(qs)))
  {
    GetWf(s, "additionalProperties");
    FittingDemands();
    assert NodeFits(a);
    AdditionalExactOn(a, depth, Fitting(), g, Some(ps), Some(qs));
  }

  /** On a group that is not lost the node without its properties asserts what its compiled form asserts. */
  lemma RestExact(g: seq<Json>, s: Json, k: Keywords, k': Keywords, ps: Json, qs: Json, depth: nat)
    requires Wf(s) && KeywordsOf(s) == k && Compiles(k, k') && SameNames(ps, qs) && AllWfIn(g) && !Lost(g)
    requires BelowItems(s, depth, Fitting()) && BelowAdditional(s, depth, Fitting())
    ensures RestTakes(g, k, ps) <==> RestTakes(g, k', qs)
  {
    NotLostBelow(g);
    NamesSame(g, ps, qs);
    PlainSame(g, k, k');
    if k.items.Some? { RestItems(g, s, k.items.value, depth); }
    if k.additional.Some? && !k.additional.value.Bool? { RestAdditional(g, s, k.additional.value, depth, ps, qs); }
    ClosedSame(g, k.additional, k'.additional, Some(ps), Some(qs));
    AdditionalFlag(g, k.additional, Some(ps), Some(qs));
  }

  lemma AdditionalFlag(g: seq<Json>, a: Option<Json>, ps: Option<Json>, qs: Option<Json>)
    ensures a.Some? && a.value.Bool? ==> AllAdditional(g, a.value, ps) && AllAdditional(g, a.value, qs)
  {
  }

  lemma BareBelow(s: Json, c: Compiler, depth: nat)
    requires Describes(c) && Wf(s) && s.Obj? && c.compilesBare(Bare(s), depth)
    ensures BelowItems(s, depth + 1, Fitting()) && BelowAdditional(s, depth + 1, Fitting())
  {
    BareKeywords(s);
    CompiledFits(Bare(s), c, depth);
    assert BelowItems(Bare(s), depth + 1, Fitting()) && BelowAdditional(Bare(s), depth + 1, Fitting());
  }

  lemma AlternativeTakes(g: seq<Json>, s: Json, k: Keywords, k': Keywords, ps: Json, o: Json, depth: nat)
    requires Wf(s) && KeywordsOf(s) == k && k.anyOf.None? && Compiles(k, k') && ps.Obj? && AllWfIn(g) && !Lost(g)
    requires BelowItems(s, depth, Fitting()) && BelowAdditional(s, depth, Fitting())
    requires Wf(o) && Shaped(o, k', ps.members)
    ensures AllSat(g, o) <==> RestTakes(g, k, ps) && NodeKeysTake(g, o)
  {
    GetWf(o, "properties");
    NodeTakes(g, o, KeywordsOf(o), PropsOf(o));
    RestExact(g, s, k, KeywordsOf(o), ps, PropsOf(o), depth);
  }

  lemma AlternativesTake(g: seq<Json>, s: Json, k: Keywords, k': Keywords, ps: Json, out: seq<Json>, depth: nat)
    requires Wf(s) && KeywordsOf(s) == k && k.anyOf.None? && Compiles(k, k') && ps.Obj? && AllWfIn(g) && !Lost(g)
    requires BelowItems(s, depth, Fitting()) && BelowAdditional(s, depth, Fitting())
    requires AllShaped(out, k', ps.members)
    ensures OneTakes(g, out) <==> RestTakes(g, k, ps) && SomeKeysTake(g, out)
  {
    forall i | 0 <= i < |out| ensures AllSat(g, out[i]) <==> RestTakes(g, k, ps) && NodeKeysTake(g, out[i]) {
      assert out[i] in out;
      AlternativeTakes(g, s, k, k', ps, out[i], depth);
    }
  }

  /** What distribution starts from below a node. */
  ghost predicate Base(s: Json, base: Json, k': Keywords, depth: nat) {
    && base.Obj? && k' == KeywordsOf(base) && AllShaped([base], k', []) && PropsOf(base) == Obj([]) && Compiles(KeywordsOf(s), k')
    && BelowItems(s, depth, Fitting()) && BelowAdditional(s, depth, Fitting())
  }

  lemma NodeBase(s: Json, c: Compiler, depth: nat)
    requires Describes(c) && Wf(s) && s.Obj? && KeywordsOf(s).anyOf.None? && HasProperties(s) && c.compilesBare(Bare(s), depth)
    ensures Base(s, Form(Bare(s)), KeywordsOf(Form(Bare(s))), depth + 1)
  {
    BareKeywords(s);
    BaseBuilt(s, depth);
    BareBelow(s, c, depth);
    BareCompiles(s);
  }

  lemma BaseTakes(g: seq<Json>, s: Json, ps: Json, c: Compiler, base: Json, k': Keywords, depth: nat)
    requires Describes(c) && Wf(s) && KeywordsOf(s).anyOf.None? && ps.Obj? && Wf(ps) && Base(s, base, k', depth)
    requires PropertiesDivisible(ps.members, c, depth) && AllWfIn(g) && !Lost(g)
    ensures OneTakes(g, SplitMembers(base, ps, c, depth, |ps.members|)) <==>
            RestTakes(g, KeywordsOf(s), ps) && AllChosen(g, ps.members, c, depth)
  {
    MembersTake(g, base, k', ps, c, depth);
    AlternativesTake(g, s, KeywordsOf(s), k', ps, SplitMembers(base, ps, c, depth, |ps.members|), depth);
  }

  /** An alternative of a node takes the group if the rest of the node does and every name has a choice. */
  lemma SplitNodeTakes(g: seq<Json>, s: Json, ps: Json, c: Compiler, depth: nat)
    requires Describes(c) && Wf(s) && s.Obj? && KeywordsOf(s).anyOf.None? && KeywordsOf(s).properties == Some(ps) && ps.Obj? && Wf(ps)
    requires c.compilesBare(Bare(s), depth) && PropertiesDivisible(ps.members, c, depth + 1) && AllWfIn(g) && !Lost(g)
    ensures OneTakes(g, SplitMembers(Form(Bare(s)), ps, c, depth + 1, |ps.members|)) <==>
            RestTakes(g, KeywordsOf(s), ps) && AllChosen(g, ps.members, c, depth + 1)
  {
    NodeBase(s, c, depth);
    BaseTakes(g, s, ps, c, Form(Bare(s)), KeywordsOf(Form(Bare(s))), depth + 1);
  }

  // ------------------------------------------------------------ scattered groups

  /** A schema, so far down, that accepts the first value and not the second. */
  ghost predicate TellsApart(s: Json, x: Json, y: Json, f: Compiler, depth: nat) { Distributable(s, f, depth) && Sat(x, s) && !Sat(y, s) }

  /** Every schema, so far down, that accepts the first value accepts the second. */
  ghost predicate Below(x: Json, y: Json, f: Compiler, depth: nat) { forall s :: !TellsApart(s, x, y, f, depth) }

  /** Some member is accepted by no more than all others are. */
  ghost predicate Least(g: seq<Json>, f: Compiler, depth: nat) {
    g == [] || exists x :: x in g && forall y :: y in g ==> Below(x, y, f, depth)
  }

  /** Some group of members, reached by one path of names, is not as it should be. */
  ghost predicate Strays(g: seq<Json>, good: (seq<Json>, nat) -> bool, depth: nat)
    decreases if depth < MAX_DEPTH then MAX_DEPTH - depth else 0
  {
    !good(g, depth + 1) || (depth < MAX_DEPTH && exists key: string :: Strays(Under(g, key), good, depth + 1))
  }

  ghost function HasLeast(f: Compiler): (seq<Json>, nat) -> bool { (g: seq<Json>, depth: nat) => Least(g, f, depth) }

  /** Some group of members, reached by one path of names, has no least one. */
  ghost predicate Scattered(g: seq<Json>, f: Compiler, depth: nat) { Strays(g, HasLeast(f), depth) }

  lemma BelowDeeper(x: Json, y: Json, f: Compiler, depth: nat, below: nat)
    requires depth <= below
    ensures Lenient(f) && Below(x, y, f, depth) ==> Below(x, y, f, below)
  {
    if Lenient(f) && Below(x, y, f, depth) {
      forall s ensures !TellsApart(s, x, y, f, below) {
        if Wf(s) { Higher(s, f, f, depth, below); }
        assert !TellsApart(s, x, y, f, depth);
      }
    }
  }

  lemma LeastDeeper(g: seq<Json>, f: Compiler, depth: nat, below: nat)
    requires depth <= below
    ensures Lenient(f) && Least(g, f, depth) ==> Least(g, f, below)
  {
    if Lenient(f) && Least(g, f, depth) && g != [] {
      var x :| x in g && forall y :: y in g ==> Below(x, y, f, depth);
      forall y | y in g ensures Below(x, y, f, below) { BelowDeeper(x, y, f, depth, below); }
    }
  }

  ghost predicate Deepens(good: (seq<Json>, nat) -> bool) {
    forall g, d: nat, e: nat {:trigger good(g, d), good(g, e)} :: d <= e && good(g, d) ==> good(g, e)
  }

  lemma {:induction false} StraysHigher(g: seq<Json>, good: (seq<Json>, nat) -> bool, depth: nat)
    requires Deepens(good) && Strays(g, good, depth + 1)
    ensures Strays(g, good, depth)
    decreases if depth < MAX_DEPTH then MAX_DEPTH - depth else 0
  {
    if good(g, depth + 1) {
      assert good(g, depth + 2);
      var key: string :| Strays(Under(g, key), good, depth + 2);
      StraysHigher(Under(g, key), good, depth + 1);
    }
  }

  lemma LeastDeepens(f: Compiler)
    ensures Lenient(f) ==> Deepens(HasLeast(f))
  {
    forall g, d: nat, e: nat | d <= e ensures Lenient(f) && HasLeast(f)(g, d) ==> HasLeast(f)(g, e) { LeastDeeper(g, f, d, e); }
  }

  lemma ScatteredHigher(g: seq<Json>, f: Compiler, depth: nat)
    ensures Lenient(f) && Scattered(g, f, depth + 1) ==> Scattered(g, f, depth)
  {
    LeastDeepens(f);
    if Deepens(HasLeast(f)) && Strays(g, HasLeast(f), depth + 1) { StraysHigher(g, HasLeast(f), depth); }
  }

  lemma NotScatteredBelow(g: seq<Json>, f: Compiler, depth: nat, key: string)
    ensures !Scattered(g, f, depth) ==> Least(g, f, depth + 1) && (depth < MAX_DEPTH ==> !Scattered(Under(g, key), f, depth + 1))
  {
    if !Strays(g, HasLeast(f), depth) { assert HasLeast(f)(g, depth + 1); }
  }

  // ------------------------------------------------- what is not scattered is kept

  /** Where an alternative takes the group the schema does; and if `kept`, the other way round. */
  ghost predicate Judged(g: seq<Json>, s: Json, alternatives: seq<Json>, kept: bool) {
    && (OneTakes(g, alternatives) ==> AllSat(g, s))
    && (kept && AllSat(g, s) ==> OneTakes(g, alternatives))
  }

  lemma UnionTakes(g: seq<Json>, s: Json, bs: Json)
    requires OnlyUnion(s) && NonEmptyUnion(s) && KeywordsOf(s).anyOf == Some(bs)
    ensures AllSat(g, s) <==> forall x :: x in g ==> AnyOfOk(x, bs)
  {
    forall x ensures Sat(x, s) <==> AnyOfOk(x, bs) { OnlyUnionSat(x, s); }
  }

  /** The branch that takes the least member takes them all. */
  lemma LeastBranch(g: seq<Json>, bs: Json, c: Compiler, f: Compiler, depth: nat) returns (j: nat)
    requires Compared(c, f) && bs.Arr? && bs.items != [] && Wf(bs) && PartsDivisible(bs.items, c, depth)
    requires Least(g, f, depth) && forall x :: x in g ==> AnyOfOk(x, bs)
    ensures j < |bs.items| && AllSat(g, bs.items[j])
  {
    if g == [] {
      j := 0;
    } else {
      var x :| x in g && forall y :: y in g ==> Below(x, y, f, depth);
      assert AnyOfOk(x, bs);
      j :| 0 <= j < |bs.items| && Sat(x, bs.items[j]);
      HigherPart(bs.items[j], c, f, depth, depth);
      assert DivisiblePart(bs.items[j], f, depth);
      assert Distributable(bs.items[j], f, depth);
      forall y | y in g ensures Sat(y, bs.items[j]) { assert Below(x, y, f, depth) && !TellsApart(bs.items[j], x, y, f, depth); }
    }
  }

  lemma {:induction false} BranchJudged(bs: Json, c: Compiler, f: Compiler, depth: nat, g: seq<Json>)
    requires bs.Arr? && Wf(bs) && AllWfIn(g) && !Lost(g)
    ensures Compared(c, f) && PartsDivisible(bs.items, c, depth) && SomeBranchTakes(g, bs.items, c, depth) ==>
              exists j :: 0 <= j < |bs.items| && AllSat(g, bs.items[j])
    decreases bs, 4
  {
    if Compared(c, f) && PartsDivisible(bs.items, c, depth) && SomeBranchTakes(g, bs.items, c, depth) {
      var j :| 0 <= j < |bs.items| && PartTakes(g, bs.items[j], c, depth);
      SplitPartGroup(bs.items[j], c, f, depth, g);
      assert AllSat(g, bs.items[j]);
    }
  }

  lemma {:induction false} BranchKept(bs: Json, c: Compiler, f: Compiler, depth: nat, g: seq<Json>)
    requires Compared(c, f) && bs.Arr? && bs.items != [] && Wf(bs) && PartsDivisible(bs.items, c, depth) && AllWfIn(g) && !Lost(g)
    requires Least(g, f, depth) && !Scattered(g, f, depth) && forall x :: x in g ==> AnyOfOk(x, bs)
    ensures SomeBranchTakes(g, bs.items, c, depth)
    decreases bs, 4
  {
    var j := LeastBranch(g, bs, c, f, depth);
    SplitPartGroup(bs.items[j], c, f, depth, g);
    assert PartTakes(g, bs.items[j], c, depth);
  }

  lemma {:induction false} SplitUnionGroup(s: Json, bs: Json, c: Compiler, f: Compiler, depth: nat, g: seq<Json>)
    requires Compared(c, f) && Wf(s) && OnlyUnion(s) && NonEmptyUnion(s) && KeywordsOf(s).anyOf == Some(bs) && Wf(bs)
    requires PartsDivisible(bs.items, c, depth + 1) && AllWfIn(g) && !Lost(g)
    ensures Judged(g, s, SplitBranches(s, bs, c, depth + 1, |bs.items|), !Scattered(g, f, depth))
    decreases bs, 5
  {
    BranchesTake(g, s, bs, c, depth + 1);
    UnionTakes(g, s, bs);
    BranchJudged(bs, c, f, depth + 1, g);
    if !Scattered(g, f, depth) && AllSat(g, s) {
      ScatteredHigher(g, f, depth);
      NotScatteredBelow(g, f, depth, "");
      BranchKept(bs, c, f, depth + 1, g);
    }
  }

  lemma {:induction false} SplitPartGroup(x: Json, c: Compiler, f: Compiler, depth: nat, g: seq<Json>)
    requires Wf(x) && AllWfIn(g) && !Lost(g)
    ensures Compared(c, f) && DivisiblePart(x, c, depth) ==> Judged(g, x, SplitPart(x, c, depth), !Scattered(g, f, depth))
    decreases x, 3
  {
    if Compared(c, f) && Divisible(x, c, depth) { SplitGroup(x, c, f, depth, g); }
  }

  lemma DivisibleDepth(s: Json, c: Compiler, depth: nat)
    requires Wf(s)
    ensures Describes(c) && DivisiblePart(s, c, depth) ==> depth <= MAX_DEPTH
  {
    if Describes(c) && Divisible(s, c, depth) {
      CompiledFits(s, c, depth);
      assert c.compiles(s, depth) || Divides(s, c, depth);
    }
  }

  lemma PartNonEmpty(x: Json, c: Compiler, depth: nat)
    requires Wf(x)
    ensures Describes(c) && DivisiblePart(x, c, depth) ==> SplitPart(x, c, depth) != []
  {
    PartPositive(x, c, depth);
    PartWidth(x, c, depth);
  }

  /** One name: its schema and its choices. */
  ghost predicate KeyJudged(g: seq<Json>, key: string, x: Json, choices: seq<Json>, kept: bool) {
    && (Chosen(g, key, choices) && !HasNul(key) ==> AllSat(Under(g, key), x))
    && (kept && (HasNul(key) || AllSat(Under(g, key), x)) ==> Chosen(g, key, choices))
  }

  lemma KeyFromPart(g: seq<Json>, key: string, x: Json, choices: seq<Json>, kept: bool, below: bool)
    ensures Judged(Under(g, key), x, choices, below) && choices != [] && (kept ==> below) ==> KeyJudged(g, key, x, choices, kept)
  {
  }

  lemma {:induction false} SplitKeyGroup(key: string, x: Json, c: Compiler, f: Compiler, depth: nat, g: seq<Json>)
    requires Wf(x) && AllWfIn(g) && !Lost(g)
    ensures Compared(c, f) && DivisiblePart(x, c, depth + 1) ==> KeyJudged(g, key, x, SplitPart(x, c, depth + 1), !Scattered(g, f, depth))
    decreases x, 4
  {
    NotLostBelow(g);
    WfBelow(g, key);
    DivisibleDepth(x, c, depth + 1);
    PartNonEmpty(x, c, depth + 1);
    SplitPartGroup(x, c, f, depth + 1, Under(g, key));
    NotScatteredBelow(g, f, depth, key);
    KeyFromPart(g, key, x, SplitPart(x, c, depth + 1), !Scattered(g, f, depth), !Scattered(Under(g, key), f, depth + 1));
  }

  lemma {:induction false} SplitNodeGroup(s: Json, ps: Json, c: Compiler, f: Compiler, depth: nat, g: seq<Json>)
    requires Compared(c, f) && Wf(s) && s.Obj? && KeywordsOf(s).anyOf.None? && KeywordsOf(s).properties == Some(ps) && ps.Obj? && Wf(ps)
    requires c.compilesBare(Bare(s), depth) && PropertiesDivisible(ps.members, c, depth + 1) && AllWfIn(g) && !Lost(g)
    ensures Judged(g, s, SplitMembers(Form(Bare(s)), ps, c, depth + 1, |ps.members|), !Scattered(g, f, depth))
    decreases ps, 5
  {
    SplitNodeTakes(g, s, ps, c, depth);
    NodeTakes(g, s, KeywordsOf(s), ps);
    KeysJudged(ps, c, f, depth, g);
  }

  lemma {:induction false} KeysJudged(ps: Json, c: Compiler, f: Compiler, depth: nat, g: seq<Json>)
    requires Compared(c, f) && ps.Obj? && Wf(ps) && PropertiesDivisible(ps.members, c, depth + 1) && AllWfIn(g) && !Lost(g)
    ensures AllChosen(g, ps.members, c, depth + 1) ==> KeysTake(g, ps.members)
    ensures !Scattered(g, f, depth) && KeysTake(g, ps.members) ==> AllChosen(g, ps.members, c, depth + 1)
    decreases ps, 4
  {
    forall j | 0 <= j < |ps.members|
      ensures KeyJudged(g, ps.members[j].0, ps.members[j].1, SplitPart(ps.members[j].1, c, depth + 1), !Scattered(g, f, depth))
    {
      SplitKeyGroup(ps.members[j].0, ps.members[j].1, c, f, depth, g);
    }
  }

  /** On a group that is not lost an alternative takes only what the schema takes, and on one that is not scattered either
      some alternative takes whatever the schema takes. */
  lemma {:induction false} SplitGroup(s: Json, c: Compiler, f: Compiler, depth: nat, g: seq<Json>)
    requires Compared(c, f) && Wf(s) && Divisible(s, c, depth) && AllWfIn(g) && !Lost(g)
    ensures Judged(g, s, Split(s, c, depth), !Scattered(g, f, depth))
    decreases s, 2
  {
    if c.compiles(s, depth) {
      CompiledFits(s, c, depth);
      FittingDemands();
      GroupExact(s, depth, Fitting(), g);
      TakesOne(g, Form(s));
    } else {
      DividedNode(s, c, depth);
      SplitDividedGroup(s, c, f, depth, g);
    }
  }

  lemma {:induction false} SplitDividedGroup(s: Json, c: Compiler, f: Compiler, depth: nat, g: seq<Json>)
    requires Compared(c, f) && Wf(s) && Divides(s, c, depth) && !c.compiles(s, depth) && AllWfIn(g) && !Lost(g)
    requires s.Obj? && if KeywordsOf(s).anyOf.Some? then NonEmptyUnion(s) && OnlyUnion(s) else HasProperties(s)
    ensures Judged(g, s, Split(s, c, depth), !Scattered(g, f, depth))
    decreases s, 1
  {
    if KeywordsOf(s).anyOf.Some? {
      var bs := KeywordsOf(s).anyOf.value;
      GetWf(s, "anyOf");
      assert DividesUnion(s, c, depth);
      SplitUnionGroup(s, bs, c, f, depth, g);
    } else {
      var ps := KeywordsOf(s).properties.value;
      GetWf(s, "properties");
      assert DividesProperties(s, c, depth);
      SplitNodeGroup(s, ps, c, f, depth, g);
    }
  }

  // ------------------------------------------------ what is scattered is misjudged

  /** For an unknown type `t`, a schema that nothing satisfies and that names no finite set of values. */
  function Nothing(t: string): Json { Only("type", Str(t)) }

  lemma NothingKeywords(t: string, s: Json)
    requires s == Nothing(t)
    ensures KeywordsOf(s) == EMPTY.(kind := Some(Str(t))) && Sound(s)
  {
    EmptyKeywords();
    KnownKeys();
    SetType(Obj([]), Str(t));
    SoundOnly("type", Str(t));
  }

  lemma NothingRefuses(t: string, s: Json, v: Json)
    requires s.Obj? && KeywordsOf(s).kind == Some(Str(t)) && !TypeSupported(t)
    ensures !Sat(v, s)
  {
    SatAsserts(v, s);
    assert !TypeOk(v, KeywordsOf(s).kind);
  }

  lemma NothingNames(t: string, s: Json, k: Keywords)
    requires KeywordsOf(s) == k && k == EMPTY.(kind := Some(Str(t))) && !TypeSupported(t)
    ensures !NamesValues(s)
  {
  }

  lemma LenientCompiles(s: Json, f: Compiler, depth: nat)
    requires Lenient(f) && Wf(s) && Everywhere(s, depth, Accepted(f.check))
    ensures f.compiles(s, depth)
  {
    SucceedsIff(s, f.check, depth);
    assert FailureAt(s, f.check, depth).None?;
  }

  lemma LeafCompiles(s: Json, k: Keywords, f: Compiler, depth: nat)
    requires Sound(s) && KeywordsOf(s) == k && k.properties.None? && k.items.None? && k.additional.None? && k.anyOf.None?
    ensures Lenient(f) && depth <= MAX_DEPTH ==> f.compiles(s, depth)
  {
    if Lenient(f) && depth <= MAX_DEPTH {
      AcceptedCompiling(f.check);
      LeafFits(s, k, depth, Accepted(f.check), MAX_DEPTH);
      assert Everywhere(s, depth, Accepted(f.check));
      LenientCompiles(s, f, depth);
    }
  }

  /** Refused by every value, compiled, and not listed. */
  ghost predicate Barren(s: Json, f: Compiler, depth: nat) {
    Wf(s) && (forall v :: !Sat(v, s)) && f.compiles(s, depth) && !Listed(s, f, depth)
  }

  lemma NothingIsBarren(t: string, s: Json, f: Compiler, depth: nat)
    requires s == Nothing(t) && !TypeSupported(t)
    ensures Lenient(f) && depth <= MAX_DEPTH ==> Barren(s, f, depth)
  {
    NothingKeywords(t, s);
    NothingNames(t, s, KeywordsOf(s));
    forall v ensures !Sat(v, s) { NothingRefuses(t, s, v); }
    LeafCompiles(s, KeywordsOf(s), f, depth);
  }

  /** The schema takes that member and not the whole group. */
  ghost predicate Separates(s: Json, x: Json, g: seq<Json>, f: Compiler, depth: nat) {
    Distributable(s, f, depth) && Sat(x, s) && !AllSat(g, s)
  }

  ghost predicate Separable(x: Json, g: seq<Json>, f: Compiler, depth: nat) { exists s :: Separates(s, x, g, f, depth) }

  lemma NotBelow(x: Json, y: Json, g: seq<Json>, f: Compiler, depth: nat)
    requires !Below(x, y, f, depth) && y in g
    ensures Separable(x, g, f, depth)
  {
    var s :| TellsApart(s, x, y, f, depth);
    assert Separates(s, x, g, f, depth);
  }

  /** In a group without a least member each can be separated from it. */
  lemma NotLeast(g: seq<Json>, f: Compiler, depth: nat, x: Json)
    requires !Least(g, f, depth) && x in g
    ensures Separable(x, g, f, depth)
  {
    var y :| y in g && !Below(x, y, f, depth);
    NotBelow(x, y, g, f, depth);
  }

  lemma {:induction false} Pick(xs: seq<Json>, good: (Json, Json) -> bool) returns (ys: seq<Json>)
    requires forall x :: x in xs ==> exists y :: good(x, y)
    ensures |ys| == |xs| && forall i :: 0 <= i < |xs| ==> good(xs[i], ys[i])
  {
    if xs == [] {
      ys := [];
    } else {
      var init := xs[..|xs| - 1];
      forall x | x in init ensures exists y :: good(x, y) { assert x in xs; }
      ys := Pick(init, good);
      assert xs[|xs| - 1] in xs;
      var y :| good(xs[|xs| - 1], y);
      ys := ys + [y];
    }
  }

  ghost function SeparatesFrom(g: seq<Json>, f: Compiler, depth: nat): (Json, Json) -> bool {
    (x: Json, s: Json) => Separates(s, x, g, f, depth)
  }

  /** For each member a schema that separates it from the group. */
  ghost predicate Parted(g: seq<Json>, ss: seq<Json>, good: (Json, Json) -> bool) {
    g != [] && |ss| == |g| && forall i :: 0 <= i < |g| ==> good(g[i], ss[i])
  }

  ghost predicate Partable(g: seq<Json>, good: (Json, Json) -> bool) { exists ss :: Parted(g, ss, good) }

  lemma PickAll(g: seq<Json>, good: (Json, Json) -> bool)
    requires g != [] && forall x :: x in g ==> exists s :: good(x, s)
    ensures Partable(g, good)
  {
    var ss := Pick(g, good);
    assert Parted(g, ss, good);
  }

  lemma SeparableFrom(x: Json, g: seq<Json>, f: Compiler, depth: nat)
    requires Separable(x, g, f, depth)
    ensures exists s :: SeparatesFrom(g, f, depth)(x, s)
  {
    var s :| Separates(s, x, g, f, depth);
    assert SeparatesFrom(g, f, depth)(x, s);
  }

  lemma NotLeastParted(g: seq<Json>, f: Compiler, depth: nat)
    requires !Least(g, f, depth)
    ensures Partable(g, SeparatesFrom(g, f, depth))
  {
    forall x | x in g ensures exists s :: SeparatesFrom(g, f, depth)(x, s) {
      NotLeast(g, f, depth, x);
      SeparableFrom(x, g, f, depth);
    }
    PickAll(g, SeparatesFrom(g, f, depth));
  }

  /** The schema takes the group, and none of its alternatives does. */
  ghost predicate Loses(s: Json, f: Compiler, depth: nat, g: seq<Json>) {
    Distributable(s, f, depth) && AllSat(g, s) && !OneTakes(g, Split(s, f, depth))
  }

  lemma BareUnionNode(u: Json, bs: Json)
    requires u == Only("anyOf", bs) && bs.Arr? && bs.items != [] && Wf(bs)
    ensures UnionNode(u, bs) && Wf(u)
  {
    OnlyAnyOf(bs);
    KnownKeys();
    SoundOnly("anyOf", bs);
  }

  /** A barren schema, and beside it one for each member that separates it from the group. */
  ghost predicate Separating(bs: Json, g: seq<Json>, good: (Json, Json) -> bool) {
    bs.Arr? && |bs.items| == |g| + 1 && forall i :: 0 <= i < |g| ==> good(g[i], bs.items[i + 1])
  }

  lemma SeparatingPart(bs: Json, g: seq<Json>, f: Compiler, depth: nat, j: nat)
    requires Separating(bs, g, SeparatesFrom(g, f, depth)) && Barren(bs.items[0], f, depth) && j < |bs.items| && g != []
    ensures DivisiblePart(bs.items[j], f, depth) && Wf(bs.items[j]) && !AllSat(g, bs.items[j])
  {
    if j == 0 {
      assert g[0] in g;
    } else {
      assert SeparatesFrom(g, f, depth)(g[j - 1], bs.items[j - 1 + 1]);
    }
    assert Divisible(bs.items[j], f, depth);
  }

  /** Parts that can all be distributed, the first not listed, and none takes the group. */
  ghost predicate Stray(bs: Json, g: seq<Json>, f: Compiler, depth: nat) {
    && bs.Arr? && bs.items != [] && Wf(bs) && PartsDivisible(bs.items, f, depth) && !Listed(bs.items[0], f, depth)
    && forall j :: 0 <= j < |bs.items| ==> !AllSat(g, bs.items[j])
  }

  lemma SeparatingParts(bs: Json, g: seq<Json>, f: Compiler, depth: nat)
    requires Separating(bs, g, SeparatesFrom(g, f, depth)) && Barren(bs.items[0], f, depth) && g != []
    ensures Stray(bs, g, f, depth)
  {
    forall j | 0 <= j < |bs.items| ensures DivisiblePart(bs.items[j], f, depth) && Wf(bs.items[j]) && !AllSat(g, bs.items[j]) {
      SeparatingPart(bs, g, f, depth, j);
    }
  }

  lemma SeparatingTakes(bs: Json, g: seq<Json>, f: Compiler, depth: nat, x: Json)
    requires Separating(bs, g, SeparatesFrom(g, f, depth)) && x in g
    ensures AnyOfOk(x, bs)
  {
    var i :| 0 <= i < |g| && g[i] == x;
    assert SeparatesFrom(g, f, depth)(g[i], bs.items[i + 1]);
    assert Sat(x, bs.items[i + 1]);
  }

  lemma DividedSplits(s: Json, bs: Json, f: Compiler, depth: nat)
    requires Describes(f) && Wf(s) && UnionNode(s, bs) && bs.Arr? && Divides(s, f, depth)
    ensures Split(s, f, depth) == SplitBranches(s, bs, f, depth + 1, |bs.items|)
  {
    DividesFailure(s, f, depth);
    assert !f.compiles(s, depth);
  }

  /** Branches that can be distributed, none of which takes the group, which their union takes. */
  ghost predicate StrayBranches(bs: Json, g: seq<Json>, f: Compiler, depth: nat) {
    Stray(bs, g, f, depth) && forall x :: x in g ==> AnyOfOk(x, bs)
  }

  ghost predicate Strayed(g: seq<Json>, f: Compiler, depth: nat) { depth <= MAX_DEPTH && exists bs :: StrayBranches(bs, g, f, depth) }

  lemma SeparatingStrays(bs: Json, g: seq<Json>, good: (Json, Json) -> bool, f: Compiler, depth: nat)
    ensures good == SeparatesFrom(g, f, depth) && Separating(bs, g, good) && Barren(bs.items[0], f, depth) && g != [] ==>
              StrayBranches(bs, g, f, depth)
  {
    if good == SeparatesFrom(g, f, depth) && Separating(bs, g, good) && Barren(bs.items[0], f, depth) && g != [] {
      SeparatingParts(bs, g, f, depth);
      SeparatingTakesAll(bs, g, f, depth);
    }
  }

  lemma PartedStrays(g: seq<Json>, ss: seq<Json>, nothing: Json, good: (Json, Json) -> bool, f: Compiler, depth: nat) returns (bs: Json)
    requires Parted(g, ss, good) && Barren(nothing, f, depth)
    ensures good == SeparatesFrom(g, f, depth) ==> StrayBranches(bs, g, f, depth)
  {
    bs := Arr([nothing] + ss);
    PartedSeparates(bs, nothing, g, ss, good);
    SeparatingStrays(bs, g, good, f, depth);
  }

  lemma PartedSeparates(bs: Json, nothing: Json, g: seq<Json>, ss: seq<Json>, good: (Json, Json) -> bool)
    requires Parted(g, ss, good) && bs == Arr([nothing] + ss)
    ensures Separating(bs, g, good) && bs.items[0] == nothing
  {
    forall i | 0 <= i < |g| ensures good(g[i], bs.items[i + 1]) { assert bs.items[i + 1] == ss[i]; }
  }

  lemma SeparatingTakesAll(bs: Json, g: seq<Json>, f: Compiler, depth: nat)
    requires Separating(bs, g, SeparatesFrom(g, f, depth))
    ensures forall x :: x in g ==> AnyOfOk(x, bs)
  {
    forall x | x in g ensures AnyOfOk(x, bs) { SeparatingTakes(bs, g, f, depth, x); }
  }

  lemma StrayDepth(s: Json, g: seq<Json>, f: Compiler, depth: nat)
    requires Describes(f) && g != [] && SeparatesFrom(g, f, depth)(g[0], s)
    ensures depth <= MAX_DEPTH
  {
    DivisibleDepth(s, f, depth);
    assert DivisiblePart(s, f, depth);
  }

  lemma StrayDivides(u: Json, bs: Json, g: seq<Json>, f: Compiler, depth: nat)
    requires Stray(bs, g, f, depth + 1) && UnionNode(u, bs) && Wf(u) && depth < MAX_DEPTH
    ensures Lenient(f) ==> Distributable(u, f, depth) && Split(u, f, depth) == SplitBranches(u, bs, f, depth + 1, |bs.items|)
  {
    if Lenient(f) {
      assert UnionParts(u, bs, f, depth + 1);
      UnionIsDivided(u, bs, f, depth);
      DividedSplits(u, bs, f, depth);
    }
  }

  lemma StrayNotTaken(u: Json, bs: Json, g: seq<Json>, f: Compiler, depth: nat)
    requires Lenient(f) && Stray(bs, g, f, depth) && OnlyUnion(u) && Wf(u) && AllWfIn(g) && !Lost(g)
    ensures !OneTakes(g, SplitBranches(u, bs, f, depth, |bs.items|))
  {
    BranchesTake(g, u, bs, f, depth);
    BranchJudged(bs, f, f, depth, g);
  }

  ghost predicate Lossy(g: seq<Json>, f: Compiler, depth: nat) { exists u :: Loses(u, f, depth, g) }

  lemma NotLeastStrays(g: seq<Json>, f: Compiler, depth: nat, t: string)
    requires !Least(g, f, depth) && !TypeSupported(t)
    ensures Lenient(f) ==> Strayed(g, f, depth)
  {
    NotLeastParted(g, f, depth);
    PartableStrays(g, f, depth, t);
  }

  lemma PartableStrays(g: seq<Json>, f: Compiler, depth: nat, t: string)
    requires !TypeSupported(t)
    ensures Lenient(f) && Partable(g, SeparatesFrom(g, f, depth)) ==> Strayed(g, f, depth)
  {
    if Lenient(f) && Partable(g, SeparatesFrom(g, f, depth)) {
      var ss :| Parted(g, ss, SeparatesFrom(g, f, depth));
      StrayDepth(ss[0], g, f, depth);
      NothingIsBarren(t, Nothing(t), f, depth);
      var bs := PartedStrays(g, ss, Nothing(t), SeparatesFrom(g, f, depth), f, depth);
    }
  }

  lemma StrayedLoses(g: seq<Json>, f: Compiler, depth: nat)
    requires Lenient(f) && Strayed(g, f, depth + 1) && AllWfIn(g) && !Lost(g)
    ensures Lossy(g, f, depth)
  {
    var bs :| StrayBranches(bs, g, f, depth + 1);
    var u := StrayLoses(bs, g, f, depth);
  }

  lemma StrayLoses(bs: Json, g: seq<Json>, f: Compiler, depth: nat) returns (u: Json)
    requires Lenient(f) && depth < MAX_DEPTH && Stray(bs, g, f, depth + 1) && (forall x :: x in g ==> AnyOfOk(x, bs)) && AllWfIn(g) && !Lost(g)
    ensures Loses(u, f, depth, g)
  {
    u := Only("anyOf", bs);
    BareUnionNode(u, bs);
    StrayDivides(u, bs, g, f, depth);
    StrayNotTaken(u, bs, g, f, depth + 1);
    UnionTakes(g, u, bs);
  }

  // ----------------------------------------------------------- along a path of names

  lemma LostSplit(t: Json, f: Compiler, depth: nat, g: seq<Json>)
    requires Describes(f) && Loses(t, f, depth, g) && AllWfIn(g) && !Lost(g)
    ensures g != [] && !f.compiles(t, depth)
  {
    SplitNonEmpty(t, f, depth);
    if g == [] { assert AllSat(g, Split(t, f, depth)[0]); }
    if f.compiles(t, depth) {
      CompiledFits(t, f, depth);
      FittingDemands();
      GroupExact(t, depth, Fitting(), g);
      TakesOne(g, Form(t));
    }
  }

  lemma SplitNonEmpty(t: Json, f: Compiler, depth: nat)
    requires Divisible(t, f, depth)
    ensures Split(t, f, depth) != []
  {
    WidthPositive(t, f, depth);
    SplitWidth(t, f, depth);
  }

  lemma UnderCut(g: seq<Json>, key: string)
    requires Under(g, key) != []
    ensures !HasNul(key)
  {
    var y := Under(g, key)[0];
    assert y in Under(g, key);
    UnderMeans(g, key, y);
    var v :| v in g && HasUnder(v, key, y);
  }

  lemma BareProperty(s: Json, ps: Json, f: Compiler, depth: nat)
    requires Sound(s) && KeywordsOf(s) == EMPTY.(properties := Some(ps)) && depth <= MAX_DEPTH
    ensures Describes(f) ==> f.compilesBare(Bare(s), depth)
  {
    if Describes(f) {
      KnownKeys();
      SoundSet(s, "properties", Obj([]));
      BareKeywords(s);
      AcceptedCompiling(AllPass());
      assert InMembers(Obj([]), depth + 1, Accepted(AllPass()), 0);
      PropertiesNodeFits(Bare(s), Obj([]), KeywordsOf(Bare(s)), depth, Accepted(AllPass()), MAX_DEPTH);
      SucceedsIff(Bare(s), AllPass(), depth);
      assert FailureAt(Bare(s), AllPass(), depth).None?;
    }
  }

  lemma NodeSplits(s: Json, ps: Json, f: Compiler, depth: nat)
    requires Describes(f) && Wf(s) && s.Obj? && KeywordsOf(s).anyOf.None? && KeywordsOf(s).properties == Some(ps) && ps.Obj? && Divides(s, f, depth)
    ensures Split(s, f, depth) == SplitMembers(Form(Bare(s)), ps, f, depth + 1, |ps.members|)
  {
    DividesFailure(s, f, depth);
    assert FailureAt(s, f.check, depth).Some?;
    NodeSplit(s, ps, f, depth);
  }

  /** The schema of one property. */
  ghost predicate OneKey(s: Json, ps: Json, key: string, t: Json) {
    ps == Obj([(key, t)]) && Sound(s) && KeywordsOf(s) == EMPTY.(properties := Some(ps))
  }

  lemma OneKeyDivides(s: Json, ps: Json, key: string, t: Json, f: Compiler, depth: nat)
    requires OneKey(s, ps, key, t) && depth < MAX_DEPTH && DivisiblePart(t, f, depth + 1) && !f.compiles(t, depth + 1)
    ensures Lenient(f) ==> Divides(s, f, depth) && PropertiesDivisible(ps.members, f, depth + 1) && f.compilesBare(Bare(s), depth)
  {
    if Lenient(f) {
      assert ps.members[0] == (key, t);
      BareProperty(s, ps, f, depth);
      assert NodeParts(s, ps.members, f, depth);
      NodeIsDivided(s, ps, f, depth);
    }
  }

  lemma OneKeyTakes(s: Json, ps: Json, key: string, t: Json, f: Compiler, depth: nat, g: seq<Json>)
    requires Lenient(f) && OneKey(s, ps, key, t) && Wf(t) && Divides(s, f, depth) && !HasNul(key) && AllWfIn(g) && !Lost(g)
    requires PropertiesDivisible(ps.members, f, depth + 1) && f.compilesBare(Bare(s), depth)
    ensures AllSat(g, s) <==> AllSat(Under(g, key), t)
    ensures OneTakes(g, Split(s, f, depth)) ==> OneTakes(Under(g, key), SplitPart(t, f, depth + 1))
  {
    assert ps.members[0] == (key, t);
    PropertiesOnly(g, s, ps);
    OneProperty(g, key, t, ps);
    NodeSplits(s, ps, f, depth);
    SplitNodeTakes(g, s, ps, f, depth);
    OneChosen(g, ps, key, t, f, depth + 1);
  }

  lemma OneChosen(g: seq<Json>, ps: Json, key: string, t: Json, f: Compiler, depth: nat)
    requires ps == Obj([(key, t)]) && !HasNul(key)
    ensures AllChosen(g, ps.members, f, depth) ==> OneTakes(Under(g, key), SplitPart(t, f, depth))
  {
    assert ps.members[0] == (key, t);
  }

  lemma StrayProperty(g: seq<Json>, key: string, t: Json, f: Compiler, depth: nat)
    requires Lenient(f) && Loses(t, f, depth + 1, Under(g, key)) && depth < MAX_DEPTH && AllWfIn(g) && !Lost(g)
    ensures Lossy(g, f, depth)
  {
    NotLostBelow(g);
    WfBelow(g, key);
    LostSplit(t, f, depth + 1, Under(g, key));
    UnderCut(g, key);
    var ps := Obj([(key, t)]);
    var s := Only("properties", ps);
    PropertyForm(s, key, t, ps);
    OneKeyLoses(s, ps, key, t, f, depth, g);
  }

  lemma OneKeyLoses(s: Json, ps: Json, key: string, t: Json, f: Compiler, depth: nat, g: seq<Json>)
    requires Lenient(f) && OneKey(s, ps, key, t) && Loses(t, f, depth + 1, Under(g, key)) && !f.compiles(t, depth + 1) && depth < MAX_DEPTH
    requires !HasNul(key) && AllWfIn(g) && !Lost(g)
    ensures Loses(s, f, depth, g)
  {
    assert DivisiblePart(t, f, depth + 1);
    OneKeyDivides(s, ps, key, t, f, depth);
    OneKeyTakes(s, ps, key, t, f, depth, g);
  }

  /** A scattered group is lost by the distribution of some schema. */
  lemma {:induction false} ScatteredLoses(g: seq<Json>, f: Compiler, depth: nat, t: string)
    requires Lenient(f) && Scattered(g, f, depth) && AllWfIn(g) && !Lost(g) && !TypeSupported(t)
    ensures Lossy(g, f, depth)
    decreases if depth < MAX_DEPTH then MAX_DEPTH - depth else 0
  {
    if !Least(g, f, depth + 1) {
      NotLeastStrays(g, f, depth + 1, t);
      StrayedLoses(g, f, depth);
    } else {
      var key: string :| Scattered(Under(g, key), f, depth + 1);
      NotLostBelow(g);
      WfBelow(g, key);
      ScatteredLoses(Under(g, key), f, depth + 1, t);
      var u :| Loses(u, f, depth + 1, Under(g, key));
      StrayProperty(g, key, u, f, depth);
    }
  }

  // --------------------------------------------------------------- the exact condition

  /** The value satisfies one of the alternatives. */
  ghost predicate OneAccepts(v: Json, alternatives: seq<Json>) { exists i :: 0 <= i < |alternatives| && Sat(v, alternatives[i]) }

  lemma SingleTakes(v: Json, alternatives: seq<Json>)
    ensures OneTakes([v], alternatives) <==> OneAccepts(v, alternatives)
  {
    forall s ensures AllSat([v], s) <==> Sat(v, s) { assert v in [v]; }
  }

  /** Distribution judges the value like the schema, whatever the schema. */
  ghost predicate DistributesExactly(v: Json, f: Compiler) {
    forall s :: Distributable(s, f, 0) ==> (Sat(v, s) <==> OneAccepts(v, Split(s, f, 0)))
  }

  /** For a value that is not lost: whatever an alternative accepts the schema accepts, and unless the value is scattered some
      alternative accepts it if the schema does; under every check and from every depth. */
  lemma SplitJudges(v: Json, s: Json, c: Compiler, f: Compiler, depth: nat)
    requires Compared(c, f) && Wf(v) && !Lost([v]) && Wf(s) && Divisible(s, c, depth)
    ensures OneAccepts(v, Split(s, c, depth)) ==> Sat(v, s)
    ensures !Scattered([v], f, depth) && Sat(v, s) ==> OneAccepts(v, Split(s, c, depth))
  {
    SplitGroup(s, c, f, depth, [v]);
    SingleTakes(v, Split(s, c, depth));
    assert v in [v];
  }

  lemma ScatteredMisjudged(v: Json, f: Compiler, t: string)
    requires Lenient(f) && Wf(v) && !Lost([v]) && Scattered([v], f, 0) && !TypeSupported(t)
    ensures !DistributesExactly(v, f)
  {
    ScatteredLoses([v], f, 0, t);
    var u :| Loses(u, f, 0, [v]);
    SingleTakes(v, Split(u, f, 0));
    assert v in [v];
  }

  lemma UnsupportedType()
    ensures !TypeSupported("none")
  {
  }

  /** A value that is not lost is judged exactly by every distribution if and only if it is not scattered. */
  lemma ScatteredIff(v: Json, f: Compiler)
    requires Lenient(f) && Wf(v) && !Lost([v])
    ensures DistributesExactly(v, f) <==> !Scattered([v], f, 0)
  {
    if Scattered([v], f, 0) {
      UnsupportedType();
      ScatteredMisjudged(v, f, "none");
    } else {
      forall s | Distributable(s, f, 0) ensures Sat(v, s) <==> OneAccepts(v, Split(s, f, 0)) { SplitJudges(v, s, f, f, 0); }
    }
  }

  lemma WholeJudged(v: Json, s: Json, f: Compiler)
    requires f.compiles(s, 0) && Wf(s) && Sat(v, Form(s)) && !Sat(v, s)
    ensures !DistributesExactly(v, f)
  {
    assert Distributable(s, f, 0) && Split(s, f, 0) == [Form(s)];
    assert [Form(s)][0] == Form(s);
  }

  lemma LostMisjudged(v: Json, f: Compiler)
    requires Lenient(f) && Wf(v) && Lost([v]) && Nested(v, 31)
    ensures !DistributesExactly(v, f)
  {
    AcceptedCompiling(f.check);
    var s := LostValue(v, 31, Accepted(f.check), MAX_DEPTH);
    LenientCompiles(s, f, 0);
    WholeJudged(v, s, f);
  }

  lemma FreeIsLenient()
    ensures Lenient(CompilerOf(AllPass()))
  {
    CompilerDescribes(AllPass());
  }

  /** The exact condition for whole distributions, of every value nested at most 31 deep: with a check that passes everything
      all schemas are distributed exactly if and only if the value is neither lost nor scattered. */
  lemma DistributionIff(v: Json)
    requires Wf(v) && Nested(v, 31)
    ensures var f := CompilerOf(AllPass());
            DistributesExactly(v, f) <==> !Lost([v]) && !Scattered([v], f, 0)
  {
    var f := CompilerOf(AllPass());
    FreeIsLenient();
    if Lost([v]) { LostMisjudged(v, f); } else { ScatteredIff(v, f); }
  }

  /** Values without NULs in names are neither lost nor scattered. */
  lemma RegularKept(v: Json, f: Compiler)
    requires Lenient(f) && Regular(v)
    ensures !Lost([v]) && !Scattered([v], f, 0)
  {
    NulFreeIsClean(v);
    CleanNotLost(v);
    forall s | Distributable(s, f, 0) ensures Sat(v, s) <==> OneAccepts(v, Split(s, f, 0)) {
      SplitMeans(s, f, 0);
      JoinMeansUnion(s, Split(s, f, 0));
    }
    ScatteredIff(v, f);
  }

  // -------------------------------------------------------------------- regular members

  ghost predicate AllEqual(g: seq<Json>) { forall x, y :: x in g && y in g ==> JsonEqual(x, y) }

  ghost predicate AllRegular(g: seq<Json>, h: nat) { forall x :: x in g ==> Regular(x) && Nested(x, h) }

  lemma EqualIsBelow(x: Json, y: Json, f: Compiler, depth: nat)
    requires Regular(x) && Regular(y) && JsonEqual(x, y)
    ensures Below(x, y, f, depth)
  {
    forall s ensures !TellsApart(s, x, y, f, depth) {
      if Sat(x, s) { SatRespectsEqual(x, y, s); }
    }
  }

  lemma BelowIsEqual(x: Json, y: Json, f: Compiler, depth: nat, h: nat)
    requires Lenient(f) && Regular(x) && Regular(y) && Nested(x, h) && depth + 2 * h <= MAX_DEPTH && Below(x, y, f, depth)
    ensures JsonEqual(y, x)
  {
    var s := Strict(x);
    StrictSound(x);
    AcceptedCompiling(f.check);
    StrictFits(x, h, depth, Accepted(f.check), MAX_DEPTH);
    assert Everywhere(s, depth, Accepted(f.check));
    LenientCompiles(s, f, depth);
    assert Distributable(s, f, depth);
    EqualReflexive(x);
    StrictAccepts(x, x);
    StrictAccepts(y, x);
    assert !TellsApart(s, x, y, f, depth);
  }

  lemma LeastIsEqual(g: seq<Json>, x: Json, f: Compiler, depth: nat, h: nat)
    requires Lenient(f) && AllRegular(g, h) && depth + 2 * h <= MAX_DEPTH && x in g && forall y :: y in g ==> Below(x, y, f, depth)
    ensures AllEqual(g)
  {
    forall y, z | y in g && z in g ensures JsonEqual(y, z) {
      BelowIsEqual(x, y, f, depth, h);
      BelowIsEqual(x, z, f, depth, h);
      EqualSymmetric(z, x);
      EqualTransitive(y, x, z);
    }
  }

  lemma EqualsHaveLeast(g: seq<Json>, f: Compiler, depth: nat, h: nat)
    requires AllRegular(g, h) && AllEqual(g)
    ensures Least(g, f, depth)
  {
    if g != [] {
      var x := g[0];
      assert x in g;
      forall y | y in g ensures Below(x, y, f, depth) { EqualIsBelow(x, y, f, depth); }
    }
  }

  lemma LeastAreEqual(g: seq<Json>, f: Compiler, depth: nat, h: nat)
    requires AllRegular(g, h) && depth + 2 * h <= MAX_DEPTH && Least(g, f, depth)
    ensures Lenient(f) ==> AllEqual(g)
  {
    if Lenient(f) && g != [] {
      var x :| x in g && forall y :: y in g ==> Below(x, y, f, depth);
      LeastIsEqual(g, x, f, depth, h);
    }
  }

  /** Among members without NULs in names, and not too deep, there is a least one if and only if they are all equal. */
  lemma LeastIffEqual(g: seq<Json>, f: Compiler, depth: nat, h: nat)
    requires AllRegular(g, h) && depth + 2 * h <= MAX_DEPTH
    ensures Lenient(f) ==> (Least(g, f, depth) <==> AllEqual(g))
  {
    if Least(g, f, depth) { LeastAreEqual(g, f, depth, h); }
    if AllEqual(g) { EqualsHaveLeast(g, f, depth, h); }
  }
}
