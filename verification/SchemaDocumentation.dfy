/**
 hoist_schema_documentation of tools/axiom_codex_schema.h: documentation leaves every schema
 position, and only schema positions, without changing what the schema accepts.
 */
module SchemaDocumentation {
  import opened Common
  import opened Json
  import opened Schema

  predicate IsDocumentation(key: string) {
    key in ["description", "title", "examples", "default", "$comment"]
  }

  /** No documentation is left at any schema position of `s`. */
  predicate Bare(s: Json)
    decreases s, 0
  {
    s.Obj? ==> forall i | 0 <= i < |s.members| ::
      !IsDocumentation(s.members[i].0) && BareUnder(s.members[i].0, s.members[i].1)
  }

  /** Nor below the keyword `key` whose value is `x`; enum and const values are not schemas. */
  predicate BareUnder(key: string, x: Json)
    decreases x, 1
  {
    && (key == "properties" && x.Obj? ==> forall i | 0 <= i < |x.members| :: Bare(x.members[i].1))
    && ((key == "items" || key == "additionalProperties") ==> Bare(x))
    && (key == "anyOf" && x.Arr? ==> forall i | 0 <= i < |x.items| :: Bare(x.items[i]))
  }

  /** `y` may stand for `x` under the keyword `key`. */
  ghost predicate Replaces(key: string, x: Json, y: Json) {
    || x == y
    || (key == "properties" && ExactMembers(true, Some(x), Some(y)))
    || ((key == "items" || key == "additionalProperties") && SameOrExact(true, Some(x), Some(y)))
    || (key == "anyOf" && ExactItems(true, Some(x), Some(y)))
  }

  lemma CongruentSet(s: Json, t: Json, key: string, x: Json, y: Json)
    requires s.Obj? && t.Obj? && Congruent(true, KeywordsOf(s), KeywordsOf(t)) && Replaces(key, x, y)
    ensures Congruent(true, KeywordsOf(Set(s, key, x)), KeywordsOf(Set(t, key, y)))
  {
    KeywordsAfterSet(s, key, x);
    KeywordsAfterSet(t, key, y);
  }

  lemma DocumentationIsAnnotation(key: string)
    requires IsDocumentation(key)
    ensures IsAnnotation(key)
  {
  }

  /** Writing a keyword that is not there yet appends it. */
  lemma SetAppends(s: Json, key: string, x: Json)
    requires s.Obj? && forall i :: 0 <= i < |s.members| ==> s.members[i].0 != key
    ensures Set(s, key, x) == Obj(s.members + [(key, x)])
  {
    SetMemberAppends(s.members, key, x);
  }

  method HoistProperties(ps: Json) returns (r: Json)
    requires ps.Obj? && Wf(ps)
    ensures r.Obj? && ExactMembers(true, Some(ps), Some(r)) && BareUnder("properties", r)
    ensures BareUnder("properties", ps) ==> r == ps
    decreases ps, 1
  {
    r := Obj([]);
    for i := 0 to |ps.members|
      invariant r.Obj? && |r.members| == i
      invariant forall j :: 0 <= j < i ==>
                  && r.members[j].0 == ps.members[j].0 && ExactOn(true, ps.members[j].1, r.members[j].1)
                  && Bare(r.members[j].1) && (Bare(ps.members[j].1) ==> r.members[j] == ps.members[j])
    {
      var child := Hoist(ps.members[i].1);
      SetAppends(r, ps.members[i].0, child);
      r := Set(r, ps.members[i].0, child);
    }
    assert BareUnder("properties", ps) ==> r.members == ps.members;
  }

  method HoistBranches(bs: Json) returns (r: Json)
    requires bs.Arr? && Wf(bs)
    ensures r.Arr? && ExactItems(true, Some(bs), Some(r)) && BareUnder("anyOf", r)
    ensures BareUnder("anyOf", bs) ==> r == bs
    decreases bs, 1
  {
    r := Arr([]);
    for i := 0 to |bs.items|
      invariant r.Arr? && |r.items| == i
      invariant forall j :: 0 <= j < i ==>
                  && ExactOn(true, bs.items[j], r.items[j]) && Bare(r.items[j])
                  && (Bare(bs.items[j]) ==> r.items[j] == bs.items[j])
    {
      var child := Hoist(bs.items[i]);
      r := Arr(r.items + [child]);
    }
    assert BareUnder("anyOf", bs) ==> r.items == bs.items;
  }

  /** The value kept for one keyword. */
  method HoistValue(key: string, value: Json) returns (r: Json)
    requires Wf(value)
    ensures Replaces(key, value, r) && BareUnder(key, r)
    ensures BareUnder(key, value) ==> r == value
    decreases value, 2
  {
    if key == "properties" && value.Obj? {
      r := HoistProperties(value);
    } else if (key == "items" || key == "additionalProperties") && value.Obj? {
      r := Hoist(value);
    } else if key == "anyOf" && value.Arr? {
      r := HoistBranches(value);
    } else {
      r := value;
    }
  }

  /** The members kept of the first `i`, in order. */
  ghost predicate Kept(source: Members, i: nat, out: Json) {
    && i <= |source| && out.Obj? && Bare(out)
    && Congruent(true, KeywordsOf(Obj(source[..i])), KeywordsOf(out))
    && (forall n, j :: i <= n < |source| && 0 <= j < |out.members| ==> out.members[j].0 != source[n].0)
    && (Bare(Obj(source)) ==> out.members == source[..i])
  }

  lemma KeptNothing(source: Members)
    ensures Kept(source, 0, Obj([]))
  {
    assert source[..0] == [];
  }

  lemma KeptDocumentation(source: Members, i: nat, out: Json)
    requires i < |source| && Kept(source, i, out) && Distinct(source) && IsDocumentation(source[i].0)
    ensures Kept(source, i + 1, out)
  {
    DocumentationIsAnnotation(source[i].0);
    SetAppends(Obj(source[..i]), source[i].0, source[i].1);
    SetAnnotation(Obj(source[..i]), source[i].0, source[i].1);
    assert source[..i + 1] == source[..i] + [source[i]];
    assert !Bare(Obj(source));
  }

  lemma BareAppend(ms: Members, key: string, y: Json)
    requires Bare(Obj(ms)) && !IsDocumentation(key) && BareUnder(key, y)
    ensures Bare(Obj(ms + [(key, y)]))
  {
    var all := Obj(ms + [(key, y)]);
    forall j | 0 <= j < |all.members|
      ensures !IsDocumentation(all.members[j].0) && BareUnder(all.members[j].0, all.members[j].1)
    {
      if j < |ms| { assert all.members[j] == Obj(ms).members[j]; }
    }
  }

  lemma BareMember(ms: Members, i: nat)
    requires Bare(Obj(ms)) && i < |ms|
    ensures BareUnder(ms[i].0, ms[i].1)
  {
    assert Obj(ms).members[i] == ms[i];
  }

  lemma KeptMember(source: Members, i: nat, out: Json, y: Json)
    requires i < |source| && Kept(source, i, out) && Distinct(source) && !IsDocumentation(source[i].0)
    requires Replaces(source[i].0, source[i].1, y) && BareUnder(source[i].0, y)
    requires BareUnder(source[i].0, source[i].1) ==> y == source[i].1
    ensures Kept(source, i + 1, Set(out, source[i].0, y))
  {
    var key, x := source[i].0, source[i].1;
    assert source[..i + 1] == source[..i] + [(key, x)];
    SetAppends(Obj(source[..i]), key, x);
    SetAppends(out, key, y);
    CongruentSet(Obj(source[..i]), out, key, x, y);
    BareAppend(out.members, key, y);
    if Bare(Obj(source)) { BareMember(source, i); }
  }

  /** Hoisting accepts the same values, leaves no documentation, and changes nothing the second time. */
  method Hoist(schema: Json) returns (out: Json)
    requires Wf(schema)
    ensures ExactOn(true, schema, out) && Bare(out)
    ensures schema.Obj? <==> out.Obj?
    ensures Bare(schema) ==> out == schema
    decreases schema, 0
  {
    if !schema.Obj? { return schema; }
    out := Obj([]);
    KeptNothing(schema.members);
    for i := 0 to |schema.members|
      invariant Kept(schema.members, i, out)
    {
      var (key, value) := schema.members[i];
      if IsDocumentation(key) {
        KeptDocumentation(schema.members, i, out);
      } else {
        var kept := HoistValue(key, value);
        KeptMember(schema.members, i, out, kept);
        out := Set(out, key, kept);
      }
    }
    assert schema.members[..|schema.members|] == schema.members;
    CongruentExact(true, schema, out);
  }
}
