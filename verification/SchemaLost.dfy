/**
 Exactly which values a compiled schema may judge otherwise than its source: values with a NUL byte in a
 member name, which every lookup by C string cuts (tools/axiom_aliced_json.h).
 */
module SchemaLost {
  import opened Common
  import opened Json
  import opened Schema
  import opened SchemaForm
  import opened SchemaLowering
  import opened SchemaSplit
  import opened SchemaStrict

  // --------------------------------------------- an equal value without NULs

  function Longest(ms: Members, n: nat): nat
    requires n <= |ms|
  {
    if n == 0 then 0 else
      var rest := Longest(ms, n - 1);
      if |ms[n - 1].0| > rest then |ms[n - 1].0| else rest
  }

  lemma {:induction false} LongestBounds(ms: Members, n: nat, i: nat)
    requires i < n <= |ms|
    ensures |ms[i].0| <= Longest(ms, n)
    decreases n
  {
    if i < n - 1 { LongestBounds(ms, n - 1, i); }
  }

  function Marks(n: nat): (s: string)
    ensures |s| == n && !HasNul(s)
  {
    if n == 0 then "" else Marks(n - 1) + "x"
  }

  /** Members whose names hold a NUL are found by no lookup; they get names that no member had.  What is nested deeper
      than `h` goes. */
  function Scrub(w: Json, h: nat): (r: Json)
    ensures w.Obj? && h > 0 <==> r.Obj?
    ensures w.Arr? && h > 0 <==> r.Arr?
    decreases w, 1
  {
    match w
    case Obj(members) => if h == 0 then Null else Obj(ScrubMembers(w, h, |members|))
    case Arr(items) => if h == 0 then Null else Arr(ScrubItems(w, h, |items|))
    case _ => w
  }

  function ScrubMember(w: Json, h: nat, i: nat): (string, Json)
    requires w.Obj? && h > 0 && i < |w.members|
    decreases w, 0, 0
  {
    var ms := w.members;
    if HasNul(ms[i].0) then (Marks(Longest(ms, |ms|) + 1 + i), Null) else (ms[i].0, Scrub(ms[i].1, h - 1))
  }

  function ScrubMembers(w: Json, h: nat, n: nat): (r: Members)
    requires w.Obj? && h > 0 && n <= |w.members|
    ensures |r| == n
    decreases w, 0, n + 1
  {
    if n == 0 then [] else ScrubMembers(w, h, n - 1) + [ScrubMember(w, h, n - 1)]
  }

  function ScrubItems(w: Json, h: nat, n: nat): (r: seq<Json>)
    requires w.Arr? && h > 0 && n <= |w.items|
    ensures |r| == n
    decreases w, 0, n
  {
    if n == 0 then [] else ScrubItems(w, h, n - 1) + [Scrub(w.items[n - 1], h - 1)]
  }

  lemma {:induction false} ScrubMemberAt(w: Json, h: nat, n: nat, i: nat)
    requires w.Obj? && h > 0 && i < n <= |w.members|
    ensures ScrubMembers(w, h, n)[i] == ScrubMember(w, h, i)
    decreases n
  {
    if i < n - 1 { ScrubMemberAt(w, h, n - 1, i); }
  }

  lemma {:induction false} ScrubItemAt(w: Json, h: nat, n: nat, i: nat)
    requires w.Arr? && h > 0 && i < n <= |w.items|
    ensures ScrubItems(w, h, n)[i] == Scrub(w.items[i], h - 1)
    decreases n
  {
    if i < n - 1 { ScrubItemAt(w, h, n - 1, i); }
  }

  lemma ScrubNames(w: Json, h: nat, i: nat, j: nat)
    requires w.Obj? && h > 0 && Wf(w) && i < j < |w.members|
    ensures ScrubMember(w, h, i).0 != ScrubMember(w, h, j).0
  {
    var ms := w.members;
    LongestBounds(ms, |ms|, i);
    LongestBounds(ms, |ms|, j);
  }

  lemma {:induction false} ScrubRegular(w: Json, h: nat)
    requires Wf(w)
    ensures Regular(Scrub(w, h)) && Nested(Scrub(w, h), h)
    decreases w
  {
    match w
    case Obj(members) =>
      if h > 0 {
        var r := ScrubMembers(w, h, |members|);
        forall i | 0 <= i < |r| ensures !HasNul(r[i].0) && Wf(r[i].1) && NulFree(r[i].1) && Nested(r[i].1, h - 1) {
          ScrubMemberAt(w, h, |members|, i);
          ScrubRegular(members[i].1, h - 1);
        }
        forall i, j | 0 <= i < j < |r| ensures r[i].0 != r[j].0 {
          ScrubMemberAt(w, h, |members|, i);
          ScrubMemberAt(w, h, |members|, j);
          ScrubNames(w, h, i, j);
        }
      }
    case Arr(items) =>
      if h > 0 {
        var r := ScrubItems(w, h, |items|);
        forall i | 0 <= i < |r| ensures Wf(r[i]) && NulFree(r[i]) && Nested(r[i], h - 1) {
          ScrubItemAt(w, h, |items|, i);
          ScrubRegular(items[i], h - 1);
        }
      }
    case _ =>
  }

  /** What a NUL-free name finds, it finds scrubbed. */
  lemma ScrubFind(w: Json, h: nat, key: string)
    requires w.Obj? && h > 0 && Wf(w) && !HasNul(key) && Find(w.members, key).Some?
    ensures Find(Scrub(w, h).members, key) == Some(Scrub(Find(w.members, key).value, h - 1))
  {
    var i :| 0 <= i < |w.members| && w.members[i] == (key, Find(w.members, key).value);
    ScrubRegular(w, h);
    ScrubMemberAt(w, h, |w.members|, i);
    FindDistinct(ScrubMembers(w, h, |w.members|), i);
  }

  /** Whatever equals a value and is nested no deeper than `h` equals the scrubbed value. */
  lemma {:induction false} ScrubEqual(v: Json, w: Json, h: nat)
    requires Wf(w) && JsonEqual(v, w) && Nested(v, h)
    ensures JsonEqual(v, Scrub(w, h))
    decreases w
  {
    match (v, w)
    case (Obj(x), Obj(y)) =>
      forall i | 0 <= i < |x|
        ensures Find(Scrub(w, h).members, CutAtNul(x[i].0)).Some? && JsonEqual(x[i].1, Find(Scrub(w, h).members, CutAtNul(x[i].0)).value)
      {
        ScrubFind(w, h, CutAtNul(x[i].0));
        ScrubEqual(x[i].1, Find(y, CutAtNul(x[i].0)).value, h - 1);
      }
    case (Arr(x), Arr(y)) =>
      forall i | 0 <= i < |x| ensures JsonEqual(x[i], ScrubItems(w, h, |y|)[i]) {
        ScrubItemAt(w, h, |y|, i);
        ScrubEqual(x[i], y[i], h - 1);
      }
    case _ =>
  }

  lemma RegularTwin(v: Json, h: nat) returns (c: Json)
    requires EqualsSome(v) && Nested(v, h)
    ensures Regular(c) && JsonEqual(v, c) && Nested(c, h)
  {
    var w :| Wf(w) && JsonEqual(v, w);
    ScrubRegular(w, h);
    ScrubEqual(v, w, h);
    c := Scrub(w, h);
  }

  lemma RegularEqualsNone(c: Json, v: Json)
    requires Regular(c) && Wf(v) && !NulFree(v)
    ensures !JsonEqual(c, v)
  {
    if JsonEqual(c, v) { EqualNulFree(c, v); }
  }

  ghost predicate Symmetric(v: Json) { forall w :: Wf(w) && JsonEqual(v, w) ==> JsonEqual(w, v) }

  /** Equality of a value with others is symmetric if and only if the value is not escaping. */
  lemma SymmetricIff(v: Json)
    requires Wf(v)
    ensures Symmetric(v) <==> !Escaping(v)
  {
    if Escaping(v) {
      var h := NestedSomehow(v);
      var c := RegularTwin(v, h);
      RegularEqualsNone(c, v);
      assert !Symmetric(v);
    } else {
      forall w | Wf(w) && JsonEqual(v, w) ensures JsonEqual(w, v) { EqualSymmetric(v, w); }
      assert Symmetric(v);
    }
  }

  // ------------------------------------------------------------------- groups

  ghost predicate EqualsSome(v: Json) { exists w :: Wf(w) && JsonEqual(v, w) }

  /** The values one schema is applied to together: those of all members of the objects in `g` that are looked up
      under `key`. */
  function MembersUnder(v: Json, key: string, n: nat): seq<Json>
    requires v.Obj? && n <= |v.members|
  {
    if n == 0 then []
    else MembersUnder(v, key, n - 1) + if CutAtNul(v.members[n - 1].0) == key then [v.members[n - 1].1] else []
  }

  function Under(g: seq<Json>, key: string): seq<Json> {
    if g == [] then []
    else
      var v := g[|g| - 1];
      Under(g[..|g| - 1], key) + if v.Obj? then MembersUnder(v, key, |v.members|) else []
  }

  function Elements(g: seq<Json>): seq<Json> {
    if g == [] then []
    else
      var v := g[|g| - 1];
      Elements(g[..|g| - 1]) + if v.Arr? then v.items else []
  }

  lemma {:induction false} MembersUnderMeans(v: Json, key: string, n: nat, y: Json)
    requires v.Obj? && n <= |v.members|
    ensures y in MembersUnder(v, key, n) <==> exists i :: 0 <= i < n && CutAtNul(v.members[i].0) == key && v.members[i].1 == y
  {
    if n > 0 { MembersUnderMeans(v, key, n - 1, y); }
  }

  ghost predicate HasUnder(v: Json, key: string, y: Json) {
    v.Obj? && exists i :: 0 <= i < |v.members| && CutAtNul(v.members[i].0) == key && v.members[i].1 == y
  }

  lemma {:induction false} UnderMeans(g: seq<Json>, key: string, y: Json)
    ensures y in Under(g, key) <==> exists v :: v in g && HasUnder(v, key, y)
  {
    if g != [] {
      var init, v := g[..|g| - 1], g[|g| - 1];
      UnderMeans(init, key, y);
      if v.Obj? {
        MembersUnderMeans(v, key, |v.members|, y);
        assert y in MembersUnder(v, key, |v.members|) <==> HasUnder(v, key, y);
      }
      assert g == init + [v];
    }
  }

  lemma {:induction false} ElementsMeans(g: seq<Json>, y: Json)
    ensures y in Elements(g) <==> exists v :: v in g && v.Arr? && y in v.items
  {
    if g != [] {
      ElementsMeans(g[..|g| - 1], y);
      assert g == g[..|g| - 1] + [g[|g| - 1]];
    }
  }

  /** All of them equal something, and one has a NUL in a name: an enumeration takes them all, a schema need not. */
  ghost predicate Mistaken(g: seq<Json>) {
    (forall x :: x in g ==> EqualsSome(x)) && exists x :: x in g && !NulFree(x)
  }

  ghost predicate LostWithin(g: seq<Json>, h: nat)
    decreases h
  {
    || Mistaken(g)
    || (h > 0 && ((exists key: string :: LostWithin(Under(g, key), h - 1)) || LostWithin(Elements(g), h - 1)))
  }

  /** Some group of parts, reached by one path of names and items, is mistaken. */
  ghost predicate Lost(g: seq<Json>) { exists h: nat :: LostWithin(g, h) }

  ghost predicate AllWfIn(g: seq<Json>) { forall x :: x in g ==> Wf(x) }

  ghost predicate AllSat(g: seq<Json>, s: Json) { forall x :: x in g ==> Sat(x, s) }

  lemma NotLostBelow(g: seq<Json>)
    requires !Lost(g)
    ensures !Mistaken(g) && !Lost(Elements(g)) && forall key: string :: !Lost(Under(g, key))
  {
    assert !LostWithin(g, 0);
    forall key: string ensures !Lost(Under(g, key)) {
      forall h: nat ensures !LostWithin(Under(g, key), h) { assert !LostWithin(g, h + 1); }
    }
    forall h: nat ensures !LostWithin(Elements(g), h) { assert !LostWithin(g, h + 1); }
  }

  lemma WfBelow(g: seq<Json>, key: string)
    requires AllWfIn(g)
    ensures AllWfIn(Under(g, key)) && AllWfIn(Elements(g))
  {
    forall y | y in Under(g, key) ensures Wf(y) {
      UnderMeans(g, key, y);
      var v :| v in g && HasUnder(v, key, y);
    }
    forall y | y in Elements(g) ensures Wf(y) {
      ElementsMeans(g, y);
      var v :| v in g && v.Arr? && y in v.items;
    }
  }

  // ------------------------------------------------------- keyword by keyword

  /** What the compiled node asserts. */
  function NodeProperties(s: Json): Option<Json> {
    var k := KeywordsOf(s);
    if k.properties.Some? && k.properties.value.Obj? then Some(Obj(FormMembers(k.properties.value, |k.properties.value.members|)))
    else k.properties
  }

  function NodeItems(s: Json): Option<Json> {
    var k := KeywordsOf(s);
    if k.items.Some? then Some(Form(k.items.value)) else None
  }

  function NodeAdditional(s: Json): Option<Json> {
    var k := KeywordsOf(s);
    if k.additional.Some? && !k.additional.value.Bool? then Some(Form(k.additional.value)) else k.additional
  }

  lemma NodeKeywords(s: Json)
    requires s.Obj?
    ensures KeywordsOf(Node(s)) ==
            KeywordsOf(s).(properties := NodeProperties(s), items := NodeItems(s), additional := NodeAdditional(s))
  {
    var k, a := KeywordsOf(s), WithProperties(s);
    if k.properties.Some? && k.properties.value.Obj? { SetProperties(s, NodeProperties(s).value); }
    var b := WithItems(s, a);
    if k.items.Some? { SetItems(a, Form(k.items.value)); }
    if k.additional.Some? && !k.additional.value.Bool? { SetAdditional(b, Form(k.additional.value)); }
  }

  ghost predicate AllPlain(g: seq<Json>, k: Keywords) { forall x :: x in g ==> PlainOk(x, k) }

  ghost predicate AllClosed(g: seq<Json>, a: Option<Json>, ps: Option<Json>) { forall x :: x in g ==> ClosedOk(x, a, ps) }

  ghost predicate AllMembersOk(g: seq<Json>, ps: Json) { forall x :: x in g ==> NamedOk(x, ps) && MembersOk(x, ps) }

  ghost predicate AllAdditional(g: seq<Json>, a: Json, ps: Option<Json>) { forall x :: x in g ==> AdditionalOk(x, a, ps) }

  ghost predicate AllItems(g: seq<Json>, e: Json) { forall x :: x in g ==> ItemsOk(x, e) }

  ghost predicate AllAssert(g: seq<Json>, k: Keywords) {
    && AllPlain(g, k) && AllClosed(g, k.additional, k.properties)
    && (k.properties.Some? ==> AllMembersOk(g, k.properties.value))
    && (k.additional.Some? ==> AllAdditional(g, k.additional.value, k.properties))
    && (k.items.Some? ==> AllItems(g, k.items.value))
  }

  lemma AllSatSplits(g: seq<Json>, s: Json, k: Keywords)
    requires s.Obj? && k == KeywordsOf(s) && k.anyOf.None?
    ensures AllSat(g, s) <==> AllAssert(g, k)
  {
    forall x ensures Sat(x, s) <==> Asserts(x, k) { SatAsserts(x, s); }
    AllAssertsSplit(g, k);
  }

  lemma AllAssertsSplit(g: seq<Json>, k: Keywords)
    requires k.anyOf.None?
    ensures (forall x :: x in g ==> Asserts(x, k)) <==> AllAssert(g, k)
  {
  }

  // ---------------------------------------------------------------- properties

  /** Every property name the value has is found among the properties. */
  predicate NamesDeclared(v: Json, ps: Json) {
    v.Obj? ==> ps.Obj? && forall i | 0 <= i < |ps.members| :: Lookup(v, ps.members[i].0).Some? ==> Lookup(ps, ps.members[i].0).Some?
  }

  lemma CutTwice(key: string)
    ensures CutAtNul(CutAtNul(key)) == CutAtNul(key)
  {
  }

  /** Beyond names, the pass over property names repeats the pass over members. */
  lemma NamedFromMembers(v: Json, ps: Json)
    requires MembersOk(v, ps)
    ensures NamedOk(v, ps) <==> NamesDeclared(v, ps)
  {
    if v.Obj? && ps.Obj? {
      forall i | 0 <= i < |ps.members| && Lookup(v, ps.members[i].0).Some? && Lookup(ps, ps.members[i].0).Some?
        ensures Sat(Lookup(v, ps.members[i].0).value, Lookup(ps, ps.members[i].0).value)
      {
        FoundMember(v, ps, ps.members[i].0);
      }
    }
  }

  lemma FoundMember(v: Json, ps: Json, name: string)
    requires v.Obj? && MembersOk(v, ps) && Lookup(v, name).Some? && Lookup(ps, name).Some?
    ensures Sat(Lookup(v, name).value, Lookup(ps, name).value)
  {
    var m :| 0 <= m < |v.members| && v.members[m] == (CutAtNul(name), Lookup(v, name).value);
    CutTwice(name);
    assert Lookup(ps, v.members[m].0) == Lookup(ps, name);
  }

  /** Each declared schema applies to the group under its name. */
  lemma GroupMembers(g: seq<Json>, ps: Json, key: string)
    requires (forall v :: v in g ==> MembersOk(v, ps)) && Lookup(ps, key).Some? && !HasNul(key)
    ensures AllSat(Under(g, key), Lookup(ps, key).value)
  {
    forall y | y in Under(g, key) ensures Sat(y, Lookup(ps, key).value) {
      UnderMeans(g, key, y);
      var v :| v in g && HasUnder(v, key, y);
      var i :| 0 <= i < |v.members| && CutAtNul(v.members[i].0) == key && v.members[i].1 == y;
      assert Lookup(ps, v.members[i].0) == Lookup(ps, key);
    }
  }

  lemma MembersFromGroups(g: seq<Json>, ps: Json, v: Json)
    requires v in g && forall key: string :: Lookup(ps, key).Some? && !HasNul(key) ==> AllSat(Under(g, key), Lookup(ps, key).value)
    ensures MembersOk(v, ps)
  {
    if v.Obj? {
      forall i | 0 <= i < |v.members| && Lookup(ps, v.members[i].0).Some?
        ensures Sat(v.members[i].1, Lookup(ps, v.members[i].0).value)
      {
        var key := CutAtNul(v.members[i].0);
        CutTwice(v.members[i].0);
        assert Lookup(ps, key) == Lookup(ps, v.members[i].0);
        assert HasUnder(v, key, v.members[i].1);
        UnderMeans(g, key, v.members[i].1);
      }
    }
  }

  /** Two lists of properties with the same names whose schemas agree on each group. */
  ghost predicate Agree(g: seq<Json>, ps: Json, qs: Json) {
    && ps.Obj? && qs.Obj? && |ps.members| == |qs.members| && (forall i :: 0 <= i < |ps.members| ==> ps.members[i].0 == qs.members[i].0)
    && forall key: string :: !HasNul(key) ==>
         && (Lookup(ps, key).Some? <==> Lookup(qs, key).Some?)
         && (Lookup(ps, key).Some? && AllSat(Under(g, key), Lookup(ps, key).value) ==> AllSat(Under(g, key), Lookup(qs, key).value))
  }

  lemma SameLookups(g: seq<Json>, ps: Json, qs: Json, name: string)
    requires Agree(g, ps, qs)
    ensures Lookup(ps, name).Some? <==> Lookup(qs, name).Some?
  {
    CutTwice(name);
    assert Lookup(ps, name) == Lookup(ps, CutAtNul(name)) && Lookup(qs, name) == Lookup(qs, CutAtNul(name));
  }

  lemma AgreeNames(g: seq<Json>, ps: Json, qs: Json, v: Json)
    requires Agree(g, ps, qs) && NamesDeclared(v, ps)
    ensures NamesDeclared(v, qs)
  {
    if v.Obj? {
      forall i | 0 <= i < |qs.members| && Lookup(v, qs.members[i].0).Some? ensures Lookup(qs, qs.members[i].0).Some? {
        assert ps.members[i].0 == qs.members[i].0;
        SameLookups(g, ps, qs, qs.members[i].0);
      }
    }
  }

  lemma PropertiesAgree(g: seq<Json>, ps: Json, qs: Json)
    requires Agree(g, ps, qs) && AllMembersOk(g, ps)
    ensures AllMembersOk(g, qs)
  {
    forall key: string | !HasNul(key) && Lookup(qs, key).Some? ensures AllSat(Under(g, key), Lookup(qs, key).value) {
      GroupMembers(g, ps, key);
    }
    forall v | v in g ensures NamedOk(v, qs) && MembersOk(v, qs) {
      MembersFromGroups(g, qs, v);
      NamedFromMembers(v, ps);
      AgreeNames(g, ps, qs, v);
      NamedFromMembers(v, qs);
    }
  }

  // ----------------------------------------------------- additional properties

  ghost predicate AlikeDeclared(p: Option<Json>, q: Option<Json>) {
    forall key: string :: Declared(p, key) <==> Declared(q, key)
  }

  /** One schema for all undeclared names applies to each of their groups. */
  lemma AdditionalAgree(g: seq<Json>, a: Json, b: Json, p: Option<Json>, q: Option<Json>)
    requires AlikeDeclared(p, q) && a.Obj? && b.Obj? && AllAdditional(g, a, p)
    requires forall key: string :: AllSat(Under(g, key), a) ==> AllSat(Under(g, key), b)
    ensures AllAdditional(g, b, q)
  {
    forall v | v in g ensures AdditionalOk(v, b, q) {
      if v.Obj? {
        forall i | 0 <= i < |v.members| && !Declared(q, v.members[i].0)
          ensures Lookup(v, v.members[i].0).Some? && Sat(Lookup(v, v.members[i].0).value, b) && Sat(v.members[i].1, b)
        {
          UndeclaredGroup(g, a, p, CutAtNul(v.members[i].0), v, i);
          InGroup(g, v, i);
          FoundInGroup(g, v, v.members[i].0);
        }
      }
    }
  }

  lemma InGroup(g: seq<Json>, v: Json, i: nat)
    requires v in g && v.Obj? && i < |v.members|
    ensures v.members[i].1 in Under(g, CutAtNul(v.members[i].0))
  {
    assert HasUnder(v, CutAtNul(v.members[i].0), v.members[i].1);
    UnderMeans(g, CutAtNul(v.members[i].0), v.members[i].1);
  }

  lemma FoundInGroup(g: seq<Json>, v: Json, name: string)
    requires v in g && v.Obj? && Lookup(v, name).Some?
    ensures Lookup(v, name).value in Under(g, CutAtNul(name))
  {
    var m :| 0 <= m < |v.members| && v.members[m] == (CutAtNul(name), Lookup(v, name).value);
    CutTwice(name);
    InGroup(g, v, m);
  }

  lemma UndeclaredGroup(g: seq<Json>, a: Json, p: Option<Json>, key: string, v: Json, i: nat)
    requires a.Obj? && AllAdditional(g, a, p) && v in g && v.Obj? && i < |v.members|
    requires key == CutAtNul(v.members[i].0) && !Declared(p, v.members[i].0)
    ensures Lookup(v, v.members[i].0).Some? && AllSat(Under(g, key), a)
  {
    assert AdditionalOk(v, a, p);
    forall y | y in Under(g, key) ensures Sat(y, a) {
      UnderMeans(g, key, y);
      var u :| u in g && HasUnder(u, key, y);
      var j :| 0 <= j < |u.members| && CutAtNul(u.members[j].0) == key && u.members[j].1 == y;
      assert AdditionalOk(u, a, p);
      assert Declared(p, u.members[j].0) <==> Declared(p, v.members[i].0);
    }
  }

  // --------------------------------------------------------------------- items

  lemma ItemsAgree(g: seq<Json>, e: Json, f: Json)
    requires f.Obj? && AllItems(g, e) && (AllSat(Elements(g), e) ==> AllSat(Elements(g), f))
    ensures AllItems(g, f)
  {
    forall y | y in Elements(g) ensures Sat(y, e) {
      ElementsMeans(g, y);
      var v :| v in g && v.Arr? && y in v.items;
      assert ItemsOk(v, e);
    }
    forall v | v in g ensures ItemsOk(v, f) {
      if v.Arr? {
        forall i | 0 <= i < |v.items| ensures Sat(v.items[i], f) { ElementsMeans(g, v.items[i]); }
      }
    }
  }

  // ------------------------------------------------- what is not lost is kept

  lemma {:induction false} InMembersAt(ps: Json, depth: nat, p: (Json, nat) -> bool, n: nat, i: nat)
    requires ps.Obj? && i < n <= |ps.members| && InMembers(ps, depth, p, n)
    ensures InMember(ps.members[i].1, depth, p)
    decreases n
  {
    if i < n - 1 { InMembersAt(ps, depth, p, n - 1, i); }
  }

  /** `properties` compiled. */
  function Formed(ps: Json): (qs: Json)
    requires ps.Obj?
    ensures qs.Obj? && |qs.members| == |ps.members|
  {
    Obj(FormMembers(ps, |ps.members|))
  }

  lemma FormedAt(ps: Json, i: nat)
    requires ps.Obj? && i < |ps.members|
    ensures Formed(ps).members[i] == (ps.members[i].0, Form(ps.members[i].1))
  {
    FormMemberAt(ps, |ps.members|, i);
  }

  lemma FormedNames(ps: Json)
    requires ps.Obj?
    ensures forall i :: 0 <= i < |ps.members| ==> ps.members[i].0 == Formed(ps).members[i].0
  {
    forall i | 0 <= i < |ps.members| ensures ps.members[i].0 == Formed(ps).members[i].0 { FormedAt(ps, i); }
  }

  lemma FormedLookup(ps: Json, key: string) returns (i: nat)
    requires ps.Obj? && Wf(ps) && (Lookup(ps, key).Some? || Lookup(Formed(ps), key).Some?)
    ensures i < |ps.members| && Lookup(ps, key) == Some(ps.members[i].1) && Lookup(Formed(ps), key) == Some(Form(ps.members[i].1))
  {
    var qs := Formed(ps);
    FormedNames(ps);
    i :| 0 <= i < |ps.members| && ps.members[i].0 == CutAtNul(key);
    FindDistinct(ps.members, i);
    FormedAt(ps, i);
    FindDistinct(qs.members, i);
  }

  lemma {:induction false} MembersExactOn(ps: Json, depth: nat, p: (Json, nat) -> bool, g: seq<Json>)
    requires ps.Obj? && Wf(ps) && InMembers(ps, depth, p, |ps.members|) && Demands(p)
    requires AllWfIn(g) && forall key: string :: !Lost(Under(g, key))
    ensures AllMembersOk(g, ps) <==> AllMembersOk(g, Formed(ps))
    decreases ps, 3
  {
    var qs := Formed(ps);
    FormedNames(ps);
    forall key: string | !HasNul(key)
      ensures Lookup(ps, key).Some? <==> Lookup(qs, key).Some?
      ensures Lookup(ps, key).Some? ==>
                (AllSat(Under(g, key), Lookup(ps, key).value) <==> AllSat(Under(g, key), Lookup(qs, key).value))
    {
      if Lookup(ps, key).Some? || Lookup(qs, key).Some? {
        var i := FormedLookup(ps, key);
        WfBelow(g, key);
        InMembersAt(ps, depth, p, |ps.members|, i);
        GroupExact(ps.members[i].1, depth, p, Under(g, key));
      }
    }
    if AllMembersOk(g, ps) { PropertiesAgree(g, ps, qs); }
    if AllMembersOk(g, qs) { PropertiesAgree(g, qs, ps); }
  }

  lemma {:induction false} ItemsExactOn(e: Json, depth: nat, p: (Json, nat) -> bool, g: seq<Json>)
    requires Wf(e) && Everywhere(e, depth, p) && Demands(p) && AllWfIn(g) && !Lost(Elements(g))
    ensures AllItems(g, e) <==> AllItems(g, Form(e))
    decreases e, 3
  {
    WfBelow(g, "");
    assert NodeFits(e);
    GroupExact(e, depth, p, Elements(g));
    if AllItems(g, e) { ItemsAgree(g, e, Form(e)); }
    if AllItems(g, Form(e)) { ItemsAgree(g, Form(e), e); }
  }

  lemma {:induction false} AdditionalExactOn(a: Json, depth: nat, p: (Json, nat) -> bool, g: seq<Json>, ps: Option<Json>, qs: Option<Json>)
    requires Wf(a) && Everywhere(a, depth, p) && Demands(p) && AllWfIn(g) && forall key: string :: !Lost(Under(g, key))
    requires AlikeDeclared(ps, qs)
    ensures AllAdditional(g, a, ps) <==> AllAdditional(g, Form(a), qs)
    decreases a, 3
  {
    assert NodeFits(a);
    forall key: string ensures AllSat(Under(g, key), a) <==> AllSat(Under(g, key), Form(a)) {
      WfBelow(g, key);
      GroupExact(a, depth, p, Under(g, key));
    }
    if AllAdditional(g, a, ps) { AdditionalAgree(g, a, Form(a), ps, qs); }
    if AllAdditional(g, Form(a), qs) { AdditionalAgree(g, Form(a), a, qs, ps); }
  }

  lemma FormedDeclared(s: Json)
    requires s.Obj? && Wf(s) && PropertiesAreObject(s)
    ensures AlikeDeclared(KeywordsOf(s).properties, NodeProperties(s))
  {
    var k := KeywordsOf(s);
    if k.properties.Some? {
      GetWf(s, "properties");
      forall key: string ensures Declared(k.properties, key) <==> Declared(NodeProperties(s), key) {
        if Declared(k.properties, key) || Declared(NodeProperties(s), key) { var i := FormedLookup(k.properties.value, key); }
      }
    }
  }

  lemma ClosedSame(g: seq<Json>, a: Option<Json>, b: Option<Json>, ps: Option<Json>, qs: Option<Json>)
    requires AlikeDeclared(ps, qs) && (a == b || (a.Some? && b.Some? && a.value.Obj? && b.value.Obj?))
    ensures AllClosed(g, a, ps) <==> AllClosed(g, b, qs)
  {
    forall x ensures ClosedOk(x, a, ps) <==> ClosedOk(x, b, qs) {
    }
  }

  lemma PlainSame(g: seq<Json>, k: Keywords, k': Keywords)
    requires k' == k.(properties := k'.properties, items := k'.items, additional := k'.additional)
    ensures AllPlain(g, k) <==> AllPlain(g, k')
  {
    forall x ensures PlainOk(x, k) <==> PlainOk(x, k') {
    }
  }

  lemma {:induction false} PropertiesPart(s: Json, depth: nat, p: (Json, nat) -> bool, g: seq<Json>)
    requires s.Obj? && Wf(s) && PropertiesAreObject(s) && BelowProperties(s, depth, p) && Demands(p)
    requires AllWfIn(g) && forall key: string :: !Lost(Under(g, key))
    ensures var a, b := KeywordsOf(s).properties, NodeProperties(s);
            (a.Some? <==> b.Some?) && (a.Some? ==> (AllMembersOk(g, a.value) <==> AllMembersOk(g, b.value)))
    decreases s, 0
  {
    var k := KeywordsOf(s);
    if k.properties.Some? {
      GetWf(s, "properties");
      MembersExactOn(k.properties.value, depth, p, g);
    }
  }

  lemma {:induction false} ItemsPart(s: Json, depth: nat, p: (Json, nat) -> bool, g: seq<Json>)
    requires s.Obj? && Wf(s) && BelowItems(s, depth, p) && Demands(p) && AllWfIn(g) && !Lost(Elements(g))
    ensures var a, b := KeywordsOf(s).items, NodeItems(s);
            (a.Some? <==> b.Some?) && (a.Some? ==> (AllItems(g, a.value) <==> AllItems(g, b.value)))
    decreases s, 0
  {
    var k := KeywordsOf(s);
    if k.items.Some? {
      GetWf(s, "items");
      ItemsExactOn(k.items.value, depth, p, g);
    }
  }

  lemma {:induction false} AdditionalPart(s: Json, depth: nat, p: (Json, nat) -> bool, g: seq<Json>)
    requires s.Obj? && Wf(s) && PropertiesAreObject(s) && BelowAdditional(s, depth, p) && Demands(p)
    requires AllWfIn(g) && forall key: string :: !Lost(Under(g, key))
    ensures var a, b := KeywordsOf(s).additional, NodeAdditional(s); var ps, qs := KeywordsOf(s).properties, NodeProperties(s);
            && (a.Some? <==> b.Some?) && (a.Some? ==> (AllAdditional(g, a.value, ps) <==> AllAdditional(g, b.value, qs)))
            && (AllClosed(g, a, ps) <==> AllClosed(g, b, qs))
    decreases s, 0
  {
    var k := KeywordsOf(s);
    FormedDeclared(s);
    if k.additional.Some? && !k.additional.value.Bool? {
      GetWf(s, "additionalProperties");
      assert NodeFits(k.additional.value);
      AdditionalExactOn(k.additional.value, depth, p, g, k.properties, NodeProperties(s));
    }
    ClosedSame(g, k.additional, NodeAdditional(s), k.properties, NodeProperties(s));
  }

  lemma {:induction false} GroupNode(s: Json, depth: nat, p: (Json, nat) -> bool, g: seq<Json>)
    requires s.Obj? && Wf(s) && PropertiesAreObject(s) && KeywordsOf(s).anyOf.None? && BelowNode(s, depth, p) && Demands(p)
    requires AllWfIn(g) && !Lost(g)
    ensures AllSat(g, s) <==> AllSat(g, Node(s))
    decreases s, 1
  {
    NotLostBelow(g);
    NodeKeywords(s);
    var k, k' := KeywordsOf(s), KeywordsOf(Node(s));
    AllSatSplits(g, s, k);
    AllSatSplits(g, Node(s), k');
    PlainSame(g, k, k');
    PropertiesPart(s, depth, p, g);
    ItemsPart(s, depth, p, g);
    AdditionalPart(s, depth, p, g);
  }

  /** A value that satisfies a schema which names its values equals one of them. */
  lemma {:induction false} NamedEqual(b: Json, depth: nat, p: (Json, nat) -> bool, x: Json)
    requires Wf(b) && Everywhere(b, depth, p) && Demands(p)
    ensures NamesValues(b) && Sat(x, b) ==> EqualsSome(x)
    decreases b, 1
  {
    if NamesValues(b) && Sat(x, b) {
      assert NodeFits(b);
      if KeywordsOf(b).anyOf.Some? {
        BranchEqual(b, depth + 1, p, x);
      } else {
        CandidatesComplete(b, x);
        CandidatesWf(b);
      }
    }
  }

  lemma {:induction false} BranchEqual(b: Json, depth: nat, p: (Json, nat) -> bool, x: Json)
    requires Wf(b) && HasUnion(b) && UnionFinite(b) && BelowUnion(b, depth, p) && Demands(p) && AnyOfOk(x, KeywordsOf(b).anyOf.value)
    ensures EqualsSome(x)
    decreases b, 0
  {
    var bs := KeywordsOf(b).anyOf.value;
    GetWf(b, "anyOf");
    var j :| 0 <= j < |bs.items| && Sat(x, bs.items[j]);
    InBranchesIff(bs, depth, p, |bs.items|);
    assert InBranch(bs.items[j], depth, p);
    NamedEqual(bs.items[j], depth, p, x);
  }

  lemma EnumeratedEqual(s: Json, x: Json)
    requires HasUnion(s) && Wf(s) && AllWf(Admitted(s)) && Sat(x, Form(s))
    ensures EqualsSome(x)
  {
    ReplacementKeywords(s, Admitted(s));
    EnumKeywordsSat(x, Form(s), KeywordsOf(s), Admitted(s));
    var j :| 0 <= j < |Admitted(s)| && JsonEqual(x, Admitted(s)[j]);
  }

  lemma {:induction false} GroupUnion(s: Json, depth: nat, p: (Json, nat) -> bool, g: seq<Json>)
    requires HasUnion(s) && Wf(s) && Everywhere(s, depth, p) && Demands(p) && AllWfIn(g) && !Mistaken(g)
    ensures AllSat(g, s) <==> AllSat(g, Form(s))
  {
    assert NodeFits(s);
    AdmittedExact(s, depth + 1, p);
    UnionExact(s, depth + 1, p);
    if AllSat(g, s) || AllSat(g, Form(s)) {
      forall x | x in g ensures EqualsSome(x) {
        if AllSat(g, s) { NamedEqual(s, depth, p, x); } else { EnumeratedEqual(s, x); }
      }
      forall x | x in g ensures Sat(x, s) <==> Sat(x, Form(s)) {
        NulFreeIsClean(x);
        assert Ranges(false, x);
      }
    }
  }

  /** On a group that is not lost a compiled schema decides like its source. */
  lemma {:induction false} GroupExact(s: Json, depth: nat, p: (Json, nat) -> bool, g: seq<Json>)
    requires Wf(s) && Everywhere(s, depth, p) && Demands(p) && AllWfIn(g) && !Lost(g)
    ensures AllSat(g, s) <==> AllSat(g, Form(s))
    decreases s, 2
  {
    assert NodeFits(s);
    if HasUnion(s) {
      NotLostBelow(g);
      GroupUnion(s, depth, p, g);
    } else {
      GroupNode(s, depth + 1, p, g);
    }
  }

  // ------------------------------------------------- what is lost is misjudged

  /** A schema in which `p` holds everywhere, if it starts so far above the limit. */
  ghost predicate Usable(s: Json, p: (Json, nat) -> bool, limit: nat, room: nat) {
    Sound(s) && forall depth: nat :: depth + room <= limit ==> Everywhere(s, depth, p)
  }

  ghost predicate NestedIn(g: seq<Json>, h: nat) { forall x :: x in g ==> Nested(x, h) }

  lemma FittingDemands()
    ensures Demands(Fitting())
  {
  }

  lemma FittingCompiling(limit: nat)
    ensures Compiling(Fitting(), limit)
  {
  }

  lemma {:induction false} Twins(g: seq<Json>, h: nat) returns (cs: seq<Json>)
    requires NestedIn(g, h) && forall x :: x in g ==> EqualsSome(x)
    ensures |cs| == |g| && forall i :: 0 <= i < |g| ==> Regular(cs[i]) && JsonEqual(g[i], cs[i]) && Nested(cs[i], h)
  {
    if g == [] {
      cs := [];
    } else {
      cs := Twins(g[..|g| - 1], h);
      var x := g[|g| - 1];
      assert x in g;
      var c := RegularTwin(x, h);
      cs := cs + [c];
    }
  }

  lemma UnionUsable(c: Json, h: nat, p: (Json, nat) -> bool, limit: nat)
    requires c.Arr? && c.items != [] && Regular(c) && Nested(c, h)
    ensures Compiling(p, limit) ==> Usable(StrictUnion(c), p, limit, 2 * h - 1)
    ensures HasUnion(StrictUnion(c)) && KeywordsOf(StrictUnion(c)) == EMPTY.(anyOf := Some(Arr(StrictItems(c, |c.items|))))
  {
    ItemsSound(c);
    OnlyAnyOf(Arr(StrictItems(c, |c.items|)));
    forall depth: nat | depth + (2 * h - 1) <= limit ensures Compiling(p, limit) ==> Everywhere(StrictUnion(c), depth, p) {
      UnionFits(c, h, depth, p, limit);
    }
  }

  /** The compiled union of strict schemas takes everything that equals one of the items. */
  lemma UnionEnumerates(c: Json, s: Json, x: Json, i: nat)
    requires c.Arr? && c.items != [] && Regular(c) && s == StrictUnion(c) && i < |c.items| && JsonEqual(x, c.items[i])
    ensures Sat(x, Form(s))
  {
    var t := c.items[i];
    var h := NestedSomehow(c);
    UnionUsable(c, h, Fitting(), 2 * h);
    FittingCompiling(2 * h);
    EqualReflexive(t);
    ItemStrict(t, c, i);
    assert Everywhere(s, 0, Fitting());
    assert NodeFits(s);
    AdmittedExact(s, 1, Fitting());
    NulFreeIsClean(t);
    var j :| 0 <= j < |Admitted(s)| && JsonEqual(t, Admitted(s)[j]);
    EqualTransitive(x, t, Admitted(s)[j]);
    ReplacementKeywords(s, Admitted(s));
    EnumKeywordsSat(x, Form(s), KeywordsOf(s), Admitted(s));
  }

  lemma MistakenWitness(g: seq<Json>, h: nat, p: (Json, nat) -> bool, limit: nat) returns (s: Json)
    requires AllWfIn(g) && Mistaken(g) && NestedIn(g, h)
    ensures Misjudges(s, g) && (Compiling(p, limit) ==> Usable(s, p, limit, 2 * h + 1))
  {
    var cs := Twins(g, h);
    var c := Arr(cs);
    s := StrictUnion(c);
    var x :| x in g && !NulFree(x);
    UnionUsable(c, h + 1, p, limit);
    ItemsSound(c);
    TwinRefused(g, c, x);
    TwinsTaken(g, c);
  }

  /** Each member of the group equals the item at its place. */
  ghost predicate Twinned(g: seq<Json>, c: Json) {
    c.Arr? && |c.items| == |g| && forall i :: 0 <= i < |g| ==> JsonEqual(g[i], c.items[i])
  }

  lemma TwinRefused(g: seq<Json>, c: Json, x: Json)
    requires Twinned(g, c) && Regular(c) && x in g && Wf(x) && !NulFree(x)
    ensures !Sat(x, StrictUnion(c))
  {
    var k :| 0 <= k < |g| && g[k] == x;
    ItemStrict(x, c, k);
  }

  lemma TwinsTaken(g: seq<Json>, c: Json)
    requires Twinned(g, c) && Regular(c) && g != []
    ensures AllSat(g, Form(StrictUnion(c)))
  {
    forall y | y in g ensures Sat(y, Form(StrictUnion(c))) {
      var i :| 0 <= i < |g| && g[i] == y;
      UnionEnumerates(c, StrictUnion(c), y, i);
    }
  }

  lemma PropertiesOnly(g: seq<Json>, s: Json, ps: Json)
    requires s.Obj? && KeywordsOf(s) == EMPTY.(properties := Some(ps))
    ensures AllSat(g, s) <==> AllMembersOk(g, ps)
  {
    AllSatSplits(g, s, KeywordsOf(s));
  }

  lemma ItemsOnly(g: seq<Json>, s: Json, e: Json)
    requires s.Obj? && KeywordsOf(s) == EMPTY.(items := Some(e))
    ensures AllSat(g, s) <==> AllItems(g, e)
  {
    AllSatSplits(g, s, KeywordsOf(s));
  }

  /** One property applies to its group. */
  lemma OneProperty(g: seq<Json>, key: string, t: Json, ps: Json)
    requires ps == Obj([(key, t)]) && !HasNul(key)
    ensures AllMembersOk(g, ps) <==> AllSat(Under(g, key), t)
  {
    assert ps.members[0] == (key, t);
    forall name: string ensures Lookup(ps, name) == if CutAtNul(name) == key then Some(t) else None {
      FindDistinct(ps.members, 0);
    }
    if AllMembersOk(g, ps) { GroupMembers(g, ps, key); }
    if AllSat(Under(g, key), t) {
      forall v | v in g ensures NamedOk(v, ps) && MembersOk(v, ps) {
        MembersFromGroups(g, ps, v);
        NamedFromMembers(v, ps);
      }
    }
  }

  lemma AllItemsIff(g: seq<Json>, e: Json)
    requires e.Obj?
    ensures AllItems(g, e) <==> AllSat(Elements(g), e)
  {
    if AllSat(Elements(g), e) {
      forall v | v in g ensures ItemsOk(v, e) {
        if v.Arr? {
          forall i | 0 <= i < |v.items| ensures Sat(v.items[i], e) { ElementsMeans(g, v.items[i]); }
        }
      }
    }
    if AllItems(g, e) {
      forall y | y in Elements(g) ensures Sat(y, e) {
        ElementsMeans(g, y);
        var v :| v in g && v.Arr? && y in v.items;
        assert ItemsOk(v, e);
      }
    }
  }

  lemma PropertyWitness(g: seq<Json>, key: string, t: Json, p: (Json, nat) -> bool, limit: nat, room: nat) returns (s: Json)
    requires t.Obj? && Wf(t) && AllSat(Under(g, key), Form(t)) && !AllSat(Under(g, key), t)
    ensures AllSat(g, Form(s)) && !AllSat(g, s) && s.Obj? && Wf(s)
    ensures Compiling(p, limit) && Usable(t, p, limit, room) ==> Usable(s, p, limit, room + 1)
  {
    var y :| y in Under(g, key) && !Sat(y, t);
    UnderMeans(g, key, y);
    var v :| v in g && HasUnder(v, key, y);
    var ps := Obj([(key, t)]);
    s := Only("properties", ps);
    PropertyForm(s, key, t, ps);
    PropertyUsable(s, key, t, ps, p, limit, room);
    OneProperty(g, key, t, ps);
    OneProperty(g, key, Form(t), Formed(ps));
    PropertiesOnly(g, s, ps);
    PropertiesOnly(g, Form(s), Formed(ps));
  }

  lemma PropertyForm(s: Json, key: string, t: Json, ps: Json)
    requires Wf(t) && ps == Obj([(key, t)]) && s == Only("properties", ps)
    ensures Sound(s) && KeywordsOf(s) == EMPTY.(properties := Some(ps))
    ensures Formed(ps) == Obj([(key, Form(t))]) && KeywordsOf(Form(s)) == EMPTY.(properties := Some(Formed(ps)))
  {
    assert ps.members[0] == (key, t);
    KnownKeys();
    SoundOnly("properties", ps);
    EmptyKeywords();
    SetProperties(Obj([]), ps);
    FormedAt(ps, 0);
    NodeKeywords(s);
  }

  lemma PropertyUsable(s: Json, key: string, t: Json, ps: Json, p: (Json, nat) -> bool, limit: nat, room: nat)
    requires ps == Obj([(key, t)]) && Sound(s) && KeywordsOf(s) == EMPTY.(properties := Some(ps))
    ensures Compiling(p, limit) && Usable(t, p, limit, room) ==> Usable(s, p, limit, room + 1)
  {
    assert ps.members[0] == (key, t);
    forall depth: nat | depth + room + 1 <= limit && Usable(t, p, limit, room) ensures Compiling(p, limit) ==> Everywhere(s, depth, p) {
      assert Everywhere(t, depth + 1, p);
      assert InMember(ps.members[0].1, depth + 1, p);
      assert InMembers(ps, depth + 1, p, 0) && InMembers(ps, depth + 1, p, 1);
      PropertiesNodeFits(s, ps, KeywordsOf(s), depth, p, limit);
    }
  }

  lemma ItemsWitness(g: seq<Json>, t: Json, p: (Json, nat) -> bool, limit: nat, room: nat) returns (s: Json)
    requires t.Obj? && Wf(t) && AllSat(Elements(g), Form(t)) && !AllSat(Elements(g), t)
    ensures AllSat(g, Form(s)) && !AllSat(g, s) && s.Obj? && Wf(s)
    ensures Compiling(p, limit) && Usable(t, p, limit, room) ==> Usable(s, p, limit, room + 1)
  {
    s := Only("items", t);
    ItemsUsable(s, t, p, limit, room);
    AllItemsIff(g, t);
    AllItemsIff(g, Form(t));
    ItemsOnly(g, s, t);
    ItemsOnly(g, Form(s), Form(t));
  }

  lemma ItemsUsable(s: Json, t: Json, p: (Json, nat) -> bool, limit: nat, room: nat)
    requires Wf(t) && s == Only("items", t)
    ensures Sound(s) && KeywordsOf(s) == EMPTY.(items := Some(t)) && KeywordsOf(Form(s)) == EMPTY.(items := Some(Form(t)))
    ensures Compiling(p, limit) && Usable(t, p, limit, room) ==> Usable(s, p, limit, room + 1)
  {
    KnownKeys();
    SoundOnly("items", t);
    EmptyKeywords();
    SetItems(Obj([]), t);
    NodeKeywords(s);
    forall depth: nat | depth + room + 1 <= limit && Usable(t, p, limit, room) ensures Compiling(p, limit) ==> Everywhere(s, depth, p) {
      assert Everywhere(t, depth + 1, p);
      ItemsNodeFits(s, t, KeywordsOf(s), depth, p, limit);
    }
  }

  lemma {:induction false} EmptyNotLost(h: nat)
    ensures !LostWithin([], h)
  {
    if h > 0 {
      forall key: string ensures Under([], key) == [] && !LostWithin(Under([], key), h - 1) { EmptyNotLost(h - 1); }
      EmptyNotLost(h - 1);
      assert Elements([]) == [];
    }
  }

  lemma NestedBelow(g: seq<Json>, key: string, h: nat)
    requires NestedIn(g, h)
    ensures h > 0 ==> NestedIn(Under(g, key), h - 1) && NestedIn(Elements(g), h - 1)
    ensures h == 0 ==> Under(g, key) == [] && Elements(g) == []
  {
    forall y | y in Under(g, key) ensures h > 0 && Nested(y, h - 1) {
      UnderMeans(g, key, y);
      var v :| v in g && HasUnder(v, key, y);
    }
    forall y | y in Elements(g) ensures h > 0 && Nested(y, h - 1) {
      ElementsMeans(g, y);
      var v :| v in g && v.Arr? && y in v.items;
    }
    if h == 0 {
      assert |Under(g, key)| > 0 ==> Under(g, key)[0] in Under(g, key);
      assert |Elements(g)| > 0 ==> Elements(g)[0] in Elements(g);
    }
  }

  /** The schema is compiled to one that takes the group, and does not take it itself. */
  ghost predicate Misjudges(s: Json, g: seq<Json>) { s.Obj? && Wf(s) && AllSat(g, Form(s)) && !AllSat(g, s) }

  lemma {:induction false} LostWitness(g: seq<Json>, n: nat, h: nat, p: (Json, nat) -> bool, limit: nat) returns (s: Json)
    requires AllWfIn(g) && LostWithin(g, n) && NestedIn(g, h)
    ensures Misjudges(s, g) && (Compiling(p, limit) ==> Usable(s, p, limit, 2 * h + 1))
    decreases n, 0
  {
    if Mistaken(g) {
      s := MistakenWitness(g, h, p, limit);
    } else if LostWithin(Elements(g), n - 1) {
      s := LostElements(g, n - 1, h, p, limit);
    } else {
      var key: string :| LostWithin(Under(g, key), n - 1);
      s := LostMembers(g, key, n - 1, h, p, limit);
    }
  }

  lemma {:induction false} LostElements(g: seq<Json>, n: nat, h: nat, p: (Json, nat) -> bool, limit: nat) returns (s: Json)
    requires AllWfIn(g) && LostWithin(Elements(g), n) && NestedIn(g, h)
    ensures Misjudges(s, g) && (Compiling(p, limit) ==> Usable(s, p, limit, 2 * h + 1))
    decreases n, 1
  {
    WfBelow(g, "");
    NestedBelow(g, "", h);
    EmptyNotLost(n);
    var t := LostWitness(Elements(g), n, h - 1, p, limit);
    s := ItemsWitness(g, t, p, limit, 2 * h - 1);
  }

  lemma {:induction false} LostMembers(g: seq<Json>, key: string, n: nat, h: nat, p: (Json, nat) -> bool, limit: nat) returns (s: Json)
    requires AllWfIn(g) && LostWithin(Under(g, key), n) && NestedIn(g, h)
    ensures Misjudges(s, g) && (Compiling(p, limit) ==> Usable(s, p, limit, 2 * h + 1))
    decreases n, 1
  {
    WfBelow(g, key);
    NestedBelow(g, key, h);
    EmptyNotLost(n);
    var t := LostWitness(Under(g, key), n, h - 1, p, limit);
    s := PropertyWitness(g, key, t, p, limit, 2 * h - 1);
  }

  /** For a lost value there is a schema, about twice as deep as the value, that is compiled to one that judges it otherwise. */
  lemma LostValue(v: Json, h: nat, p: (Json, nat) -> bool, limit: nat) returns (s: Json)
    requires Wf(v) && Lost([v]) && Nested(v, h) && Compiling(p, limit) && 2 * h + 1 <= limit
    ensures Wf(s) && Everywhere(s, 0, p) && Sat(v, Form(s)) && !Sat(v, s)
  {
    var g := [v];
    var n: nat :| LostWithin(g, n);
    s := LostWitness(g, n, h, p, limit);
    assert v in g;
  }

  lemma NotLostExact(v: Json, s: Json, depth: nat, p: (Json, nat) -> bool)
    requires Wf(v) && !Lost([v]) && Wf(s) && Everywhere(s, depth, p) && Demands(p)
    ensures Sat(v, s) <==> Sat(v, Form(s))
  {
    GroupExact(s, depth, p, [v]);
    assert v in [v];
  }

  /** The exact condition: every schema that can be compiled judges a value like its compiled form if and only if the
      value is not lost. */
  lemma ExactIff(v: Json)
    requires Wf(v)
    ensures (forall s :: Wf(s) && Compilable(s) ==> (Sat(v, s) <==> Sat(v, Form(s)))) <==> !Lost([v])
  {
    var h := NestedSomehow(v);
    FittingCompiling(2 * h + 1);
    if !Lost([v]) {
      forall s | Wf(s) && Compilable(s) ensures Sat(v, s) <==> Sat(v, Form(s)) { NotLostExact(v, s, 0, Fitting()); }
    } else {
      var s := LostValue(v, h, Fitting(), 2 * h + 1);
      assert Compilable(s);
    }
  }

  lemma AcceptedCompiling(check: Json -> bool)
    requires forall s :: check(s)
    ensures Compiling(Accepted(check), MAX_DEPTH)
  {
    AcceptedDemands(check);
  }

  /** The same of lower_schema itself, at every depth and whatever `check` says, in one direction; in the other within
      the limit of 64, for values nested at most 31 deep and a `check` that passes everything. */
  lemma ExactWithin(v: Json)
    requires Wf(v)
    ensures !Lost([v]) ==> forall s, check: Json -> bool, depth :: Wf(s) && Whole(s, check, depth) ==> (Sat(v, s) <==> Sat(v, Form(s)))
    ensures Nested(v, 31) && (forall s :: Wf(s) && Whole(s, AllPass(), 0) ==> (Sat(v, s) <==> Sat(v, Form(s)))) ==> !Lost([v])
  {
    if !Lost([v]) {
      forall s, check: Json -> bool, depth | Wf(s) && Whole(s, check, depth) ensures Sat(v, s) <==> Sat(v, Form(s)) {
        AcceptedDemands(check);
        NotLostExact(v, s, depth, Accepted(check));
      }
    } else if Nested(v, 31) {
      AcceptedCompiling(AllPass());
      var s := LostValue(v, 31, Accepted(AllPass()), MAX_DEPTH);
      assert Whole(s, AllPass(), 0);
    }
  }

  /** Values without NULs in names, and all whose parts are clean, are not lost. */
  lemma CleanNotLost(v: Json)
    requires Wf(v) && Clean(v)
    ensures !Lost([v])
  {
    forall s | Wf(s) && Compilable(s) ensures Sat(v, s) <==> Sat(v, Form(s)) {
      FittingDemands();
      FormExact(s, 0, Fitting());
      assert Ranges(false, v);
    }
    ExactIff(v);
  }

  /** A value with a NUL in a name that equals something is lost. */
  lemma EscapingLost(v: Json)
    requires Escaping(v)
    ensures Lost([v])
  {
    assert Mistaken([v]);
    assert LostWithin([v], 0);
  }
}
