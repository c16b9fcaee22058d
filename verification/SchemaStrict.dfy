/**
 For every value without NULs in names a schema that accepts just the values without NULs in names
 that equal it, and how to make a value that has such names equal to one that has not.
 */
module SchemaStrict {
  import opened Common
  import opened Json
  import opened Schema
  import opened SchemaForm

  /** The schema of one keyword. */
  function Only(key: string, x: Json): (r: Json)
    ensures r.Obj?
  {
    Set(Obj([]), key, x)
  }

  // ------------------------------------------------------------------ keywords

  lemma SetAnyOf(s: Json, x: Json)
    requires s.Obj?
    ensures KeywordsOf(Set(s, "anyOf", x)) == KeywordsOf(s).(anyOf := Some(x))
  {
    KeywordsAfterSet(s, "anyOf", x);
  }

  lemma SetType(s: Json, x: Json)
    requires s.Obj?
    ensures KeywordsOf(Set(s, "type", x)) == KeywordsOf(s).(kind := Some(x))
  {
    KeywordsAfterSet(s, "type", x);
  }

  lemma SetRequired(s: Json, x: Json)
    requires s.Obj?
    ensures KeywordsOf(Set(s, "required", x)) == KeywordsOf(s).(required := Some(x))
  {
    KeywordsAfterSet(s, "required", x);
  }

  /** What keywords assert, kind by kind. */
  predicate Asserts(v: Json, k: Keywords) {
    && PlainOk(v, k) && ClosedOk(v, k.additional, k.properties)
    && (k.properties.Some? ==> NamedOk(v, k.properties.value) && MembersOk(v, k.properties.value))
    && (k.additional.Some? ==> AdditionalOk(v, k.additional.value, k.properties))
    && (k.items.Some? ==> ItemsOk(v, k.items.value))
    && (k.anyOf.Some? ==> AnyOfOk(v, k.anyOf.value))
  }

  lemma SatAsserts(v: Json, s: Json)
    requires s.Obj?
    ensures Sat(v, s) <==> Asserts(v, KeywordsOf(s))
  {
  }

  const EMPTY := Keywords(None, None, None, None, None, None, None, None, None, None, None, None, None)

  lemma EnumAsserts(v: Json, c: Json, k: Keywords)
    requires k == EMPTY.(members := Some(Arr([c])))
    ensures Asserts(v, k) <==> JsonEqual(v, c)
  {
    assert Arr([c]).items[0] == c;
  }

  lemma UnionAsserts(v: Json, bs: Json, k: Keywords)
    requires k == EMPTY.(anyOf := Some(bs))
    ensures Asserts(v, k) <==> AnyOfOk(v, bs)
  {
  }

  lemma ObjectAsserts(v: Json, c: Json, ps: Json, names: Json, k: Keywords)
    requires k == EMPTY.(members := Some(Arr([c])), properties := Some(ps), required := Some(names))
    ensures Asserts(v, k) <==> JsonEqual(v, c) && RequiredOk(v, Some(names)) && NamedOk(v, ps) && MembersOk(v, ps)
  {
    assert Arr([c]).items[0] == c;
  }

  lemma ArrayAsserts(v: Json, c: Json, e: Json, k: Keywords)
    requires k == EMPTY.(members := Some(Arr([c])), items := Some(e))
    ensures Asserts(v, k) <==> JsonEqual(v, c) && ItemsOk(v, e)
  {
    assert Arr([c]).items[0] == c;
  }

  // ------------------------------------------------------------ strict schemas

  function Names(members: Members, n: nat): (r: seq<Json>)
    requires n <= |members|
    ensures |r| == n && forall i :: 0 <= i < n ==> r[i] == Str(members[i].0)
  {
    if n == 0 then [] else Names(members, n - 1) + [Str(members[n - 1].0)]
  }

  /** Equal to `c`, every name required, and strict below. */
  function Strict(c: Json): (s: Json)
    ensures s.Obj?
    decreases c, 1
  {
    match c
    case Obj(members) =>
      Set(Set(Only("enum", Arr([c])), "properties", Obj(StrictMembers(c, |members|))), "required", Arr(Names(members, |members|)))
    case Arr(items) =>
      if items == [] then Only("enum", Arr([c])) else Set(Only("enum", Arr([c])), "items", StrictUnion(c))
    case _ => Only("enum", Arr([c]))
  }

  function StrictMembers(c: Json, n: nat): (r: Members)
    requires c.Obj? && n <= |c.members|
    ensures |r| == n && forall i :: 0 <= i < n ==> r[i].0 == c.members[i].0
    decreases c, 0, n
  {
    if n == 0 then [] else StrictMembers(c, n - 1) + [(c.members[n - 1].0, Strict(c.members[n - 1].1))]
  }

  /** Any of the items. */
  function StrictUnion(c: Json): (r: Json)
    requires c.Arr?
    ensures r.Obj?
    decreases c, 0, |c.items| + 1
  {
    Only("anyOf", Arr(StrictItems(c, |c.items|)))
  }

  function StrictItems(c: Json, n: nat): (r: seq<Json>)
    requires c.Arr? && n <= |c.items|
    ensures |r| == n
    decreases c, 0, n
  {
    if n == 0 then [] else StrictItems(c, n - 1) + [Strict(c.items[n - 1])]
  }

  lemma {:induction false} StrictMemberAt(c: Json, n: nat, i: nat)
    requires c.Obj? && i < n <= |c.members|
    ensures StrictMembers(c, n)[i].1 == Strict(c.members[i].1)
    decreases n
  {
    if i < n - 1 { StrictMemberAt(c, n - 1, i); }
  }

  lemma {:induction false} StrictItemAt(c: Json, n: nat, i: nat)
    requires c.Arr? && i < n <= |c.items|
    ensures StrictItems(c, n)[i] == Strict(c.items[i])
    decreases n
  {
    if i < n - 1 { StrictItemAt(c, n - 1, i); }
  }

  lemma OnlyEnum(c: Json)
    ensures KeywordsOf(Only("enum", Arr([c]))) == EMPTY.(members := Some(Arr([c])))
  {
    EmptyKeywords();
    SetEnum(Obj([]), Arr([c]));
  }

  lemma OnlyAnyOf(bs: Json)
    ensures KeywordsOf(Only("anyOf", bs)) == EMPTY.(anyOf := Some(bs))
  {
    EmptyKeywords();
    SetAnyOf(Obj([]), bs);
  }

  lemma StrictObject(c: Json, s: Json)
    requires c.Obj? && s == Strict(c)
    ensures KeywordsOf(s) == EMPTY.(members := Some(Arr([c])), properties := Some(Obj(StrictMembers(c, |c.members|))),
                                    required := Some(Arr(Names(c.members, |c.members|))))
  {
    var e, ps, names := Only("enum", Arr([c])), Obj(StrictMembers(c, |c.members|)), Arr(Names(c.members, |c.members|));
    OnlyEnum(c);
    SetProperties(e, ps);
    SetRequired(Set(e, "properties", ps), names);
  }

  lemma StrictArray(c: Json, s: Json)
    requires c.Arr? && c.items != [] && s == Strict(c)
    ensures KeywordsOf(s) == EMPTY.(members := Some(Arr([c])), items := Some(StrictUnion(c)))
  {
    OnlyEnum(c);
    SetItems(Only("enum", Arr([c])), StrictUnion(c));
  }

  lemma StrictLeaf(c: Json, s: Json)
    requires !c.Obj? && !(c.Arr? && c.items != []) && s == Strict(c)
    ensures KeywordsOf(s) == EMPTY.(members := Some(Arr([c])))
  {
    OnlyEnum(c);
  }

  // ------------------------------------------------------- what they accept

  /** All names of `c` are names of `v`, so of equally many members all names agree. */
  lemma RequiredNames(v: Json, c: Json, i: nat) returns (j: nat)
    requires v.Obj? && c.Obj? && Wf(v) && Regular(c) && |v.members| == |c.members| && i < |v.members|
    requires RequiredOk(v, Some(Arr(Names(c.members, |c.members|))))
    ensures j < |c.members| && c.members[j].0 == v.members[i].0
  {
    DistinctKeyCount(v.members);
    DistinctKeyCount(c.members);
    var names := Arr(Names(c.members, |c.members|));
    forall k | k in KeySet(c.members) ensures k in KeySet(v.members) {
      var m :| 0 <= m < |c.members| && c.members[m].0 == k;
      assert names.items[m] == Str(k) && Lookup(v, k).Some?;
    }
    SubsetOfSameSize(KeySet(c.members), KeySet(v.members));
    assert v.members[i].0 in KeySet(c.members);
    j :| 0 <= j < |c.members| && c.members[j].0 == v.members[i].0;
  }

  /** The property schema of a name of `c` is that of its member. */
  lemma StrictProperty(c: Json, j: nat)
    requires c.Obj? && Regular(c) && j < |c.members|
    ensures Lookup(Obj(StrictMembers(c, |c.members|)), c.members[j].0) == Some(Strict(c.members[j].1))
  {
    StrictMemberAt(c, |c.members|, j);
    FindDistinct(StrictMembers(c, |c.members|), j);
  }

  lemma {:induction false} ObjectRejects(v: Json, c: Json)
    requires v.Obj? && c.Obj? && Wf(v) && Regular(c) && JsonEqual(v, c)
    requires RequiredOk(v, Some(Arr(Names(c.members, |c.members|)))) && MembersOk(v, Obj(StrictMembers(c, |c.members|)))
    ensures NulFree(v)
    decreases c, 0, 1
  {
    forall i | 0 <= i < |v.members| ensures !HasNul(v.members[i].0) && NulFree(v.members[i].1) { MemberRejects(v, c, i); }
  }

  lemma {:induction false} MemberRejects(v: Json, c: Json, i: nat)
    requires v.Obj? && c.Obj? && Wf(v) && Regular(c) && |v.members| == |c.members| && i < |v.members|
    requires RequiredOk(v, Some(Arr(Names(c.members, |c.members|)))) && MembersOk(v, Obj(StrictMembers(c, |c.members|)))
    ensures !HasNul(v.members[i].0) && NulFree(v.members[i].1)
    decreases c, 0, 0
  {
    var j := RequiredNames(v, c, i);
    StrictProperty(c, j);
    StrictAccepts(v.members[i].1, c.members[j].1);
  }

  lemma {:induction false} ObjectAccepts(v: Json, c: Json)
    requires v.Obj? && c.Obj? && Regular(v) && Regular(c) && JsonEqual(v, c)
    ensures var ps := Obj(StrictMembers(c, |c.members|));
            RequiredOk(v, Some(Arr(Names(c.members, |c.members|)))) && NamedOk(v, ps) && MembersOk(v, ps)
    decreases c, 0, 1
  {
    var ps := Obj(StrictMembers(c, |c.members|));
    forall j | 0 <= j < |c.members| ensures MemberAccepted(v, ps, c.members[j].0) { MemberAccepts(v, c, j); }
    AllMembersAccepted(v, c, ps);
    MembersFollow(v, ps);
  }

  predicate MemberAccepted(v: Json, ps: Json, name: string) {
    Lookup(v, name).Some? && Lookup(ps, name).Some? && Sat(Lookup(v, name).value, Lookup(ps, name).value)
  }

  lemma AllMembersAccepted(v: Json, c: Json, ps: Json)
    requires v.Obj? && c.Obj? && ps.Obj? && |ps.members| == |c.members| && forall j :: 0 <= j < |c.members| ==> ps.members[j].0 == c.members[j].0
    requires forall j :: 0 <= j < |c.members| ==> MemberAccepted(v, ps, c.members[j].0)
    ensures RequiredOk(v, Some(Arr(Names(c.members, |c.members|)))) && NamedOk(v, ps)
  {
  }

  lemma {:induction false} MemberAccepts(v: Json, c: Json, j: nat)
    requires v.Obj? && c.Obj? && Regular(v) && Regular(c) && JsonEqual(v, c) && j < |c.members|
    ensures MemberAccepted(v, Obj(StrictMembers(c, |c.members|)), c.members[j].0)
    decreases c, 0, 0
  {
    var i := EqualMember(v.members, c.members, j);
    StrictProperty(c, j);
    StrictAccepts(v.members[i].1, c.members[j].1);
  }

  lemma {:induction false} ArrayStrict(v: Json, c: Json)
    requires v.Arr? && c.Arr? && Wf(v) && Regular(c) && JsonEqual(v, c)
    ensures ItemsOk(v, StrictUnion(c)) <==> NulFree(v)
    decreases c, 0, 2
  {
    forall i | 0 <= i < |v.items| ensures Sat(v.items[i], StrictUnion(c)) <==> NulFree(v.items[i]) {
      ItemStrict(v.items[i], c, i);
    }
  }

  lemma {:induction false} ItemStrict(x: Json, c: Json, i: nat)
    requires c.Arr? && Wf(x) && Regular(c) && i < |c.items| && JsonEqual(x, c.items[i])
    ensures Sat(x, StrictUnion(c)) <==> NulFree(x)
    decreases c, 0, 1
  {
    var bs := Arr(StrictItems(c, |c.items|));
    OnlyAnyOf(bs);
    SatAsserts(x, StrictUnion(c));
    UnionAsserts(x, bs, KeywordsOf(StrictUnion(c)));
    UnionStrict(x, c, i);
  }

  lemma {:induction false} UnionStrict(x: Json, c: Json, i: nat)
    requires c.Arr? && Wf(x) && Regular(c) && i < |c.items| && JsonEqual(x, c.items[i])
    ensures AnyOfOk(x, Arr(StrictItems(c, |c.items|))) <==> NulFree(x)
    decreases c, 0, 0
  {
    var bs := StrictItems(c, |c.items|);
    if j :| 0 <= j < |bs| && Sat(x, bs[j]) {
      StrictItemAt(c, |c.items|, j);
      StrictAccepts(x, c.items[j]);
    }
    StrictItemAt(c, |c.items|, i);
    StrictAccepts(x, c.items[i]);
    if NulFree(x) { assert Sat(x, Arr(bs).items[i]); }
  }

  /** Exactly the values equal to `c` without a NUL in a name. */
  lemma {:induction false} StrictAccepts(v: Json, c: Json)
    requires Wf(v) && Regular(c)
    ensures Sat(v, Strict(c)) <==> JsonEqual(v, c) && NulFree(v)
    decreases c, 1
  {
    var s := Strict(c);
    SatAsserts(v, s);
    if c.Obj? {
      StrictObject(c, s);
      var ps, names := Obj(StrictMembers(c, |c.members|)), Arr(Names(c.members, |c.members|));
      ObjectAsserts(v, c, ps, names, KeywordsOf(s));
      if JsonEqual(v, c) && RequiredOk(v, Some(names)) && MembersOk(v, ps) { ObjectRejects(v, c); }
      if JsonEqual(v, c) && NulFree(v) { ObjectAccepts(v, c); }
    } else if c.Arr? && c.items != [] {
      StrictArray(c, s);
      ArrayAsserts(v, c, StrictUnion(c), KeywordsOf(s));
      if JsonEqual(v, c) { ArrayStrict(v, c); }
    } else {
      StrictLeaf(c, s);
      EnumAsserts(v, c, KeywordsOf(s));
    }
  }

  // ----------------------------------------------------- they can be compiled

  lemma EmptySyntax()
    ensures SyntaxOk(Obj([]))
  {
  }

  lemma SetSyntax(s: Json, key: string, x: Json)
    requires s.Obj? && SyntaxOk(s) && Known(key) && key !in BOUNDS
    ensures SyntaxOk(Set(s, key, x))
  {
    SetMemberKeys(s.members, key, x);
    forall i | 0 <= i < |BOUNDS| ensures Get(Set(s, key, x), BOUNDS[i]) == Get(s, BOUNDS[i]) {
      GetSet(s, key, x, BOUNDS[i]);
    }
  }

  lemma KnownKeys()
    ensures Known("enum") && Known("properties") && Known("required") && Known("items") && Known("anyOf") && Known("type")
    ensures "enum" !in BOUNDS && "properties" !in BOUNDS && "required" !in BOUNDS
    ensures "items" !in BOUNDS && "anyOf" !in BOUNDS && "type" !in BOUNDS
  {
  }

  /** A well-formed node: no repeated names, known keywords. */
  ghost predicate Sound(s: Json) { s.Obj? && Wf(s) && SyntaxOk(s) }

  lemma SoundSet(s: Json, key: string, x: Json)
    requires Sound(s) && Wf(x) && Known(key) && key !in BOUNDS
    ensures Sound(Set(s, key, x))
  {
    SetSyntax(s, key, x);
    SetWf(s, key, x);
  }

  lemma SoundOnly(key: string, x: Json)
    requires Wf(x) && Known(key) && key !in BOUNDS
    ensures Sound(Only(key, x))
  {
    EmptySyntax();
    SoundSet(Obj([]), key, x);
  }

  lemma {:induction false} StrictSound(c: Json)
    requires Wf(c)
    ensures Sound(Strict(c))
    decreases c, 1
  {
    var e := Arr([c]);
    KnownKeys();
    SoundOnly("enum", e);
    if c.Obj? {
      MembersSound(c, |c.members|);
      var ps := Obj(StrictMembers(c, |c.members|));
      SoundSet(Only("enum", e), "properties", ps);
      SoundSet(Set(Only("enum", e), "properties", ps), "required", Arr(Names(c.members, |c.members|)));
    } else if c.Arr? && c.items != [] {
      ItemsSound(c);
      SoundSet(Only("enum", e), "items", StrictUnion(c));
    }
  }

  lemma {:induction false} MembersSound(c: Json, n: nat)
    requires c.Obj? && Wf(c) && n <= |c.members|
    ensures Wf(Obj(StrictMembers(c, n)))
    decreases c, 0
  {
    var ms := StrictMembers(c, n);
    forall i | 0 <= i < n ensures Wf(ms[i].1) {
      StrictMemberAt(c, n, i);
      StrictSound(c.members[i].1);
    }
  }

  lemma {:induction false} ItemsSound(c: Json)
    requires c.Arr? && Wf(c)
    ensures Sound(StrictUnion(c))
    decreases c, 0
  {
    var bs := StrictItems(c, |c.items|);
    forall i | 0 <= i < |bs| ensures Wf(bs[i]) {
      StrictItemAt(c, |c.items|, i);
      StrictSound(c.items[i]);
    }
    KnownKeys();
    SoundOnly("anyOf", Arr(bs));
  }

  /** `p` holds of every node down to the limit that the compiler can express. */
  ghost predicate Licenses(p: (Json, nat) -> bool, limit: nat) {
    forall t, d: nat {:trigger p(t, d), Expressible(t)} :: d <= limit && Expressible(t) ==> p(t, d)
  }

  /** The node fits, and if it is a union it admits something. */
  predicate Expressible(s: Json) { NodeFits(s) && (HasUnion(s) ==> Admitted(s) != []) }

  /** What compiling asks of each position, as far as the limit. */
  ghost predicate Compiling(p: (Json, nat) -> bool, limit: nat) { Demands(p) && Licenses(p, limit) }

  /** At most `h` objects and arrays inside each other. */
  ghost predicate Nested(v: Json, h: nat) {
    match v
    case Obj(members) => h > 0 && forall i :: 0 <= i < |members| ==> Nested(members[i].1, h - 1)
    case Arr(items) => h > 0 && forall i :: 0 <= i < |items| ==> Nested(items[i], h - 1)
    case _ => true
  }

  lemma {:induction false} NestedMore(v: Json, h: nat, h': nat)
    requires Nested(v, h) && h <= h'
    ensures Nested(v, h')
    decreases v
  {
    match v
    case Obj(members) => forall i | 0 <= i < |members| ensures Nested(members[i].1, h' - 1) { NestedMore(members[i].1, h - 1, h' - 1); }
    case Arr(items) => forall i | 0 <= i < |items| ensures Nested(items[i], h' - 1) { NestedMore(items[i], h - 1, h' - 1); }
    case _ =>
  }

  ghost predicate AllNested(vs: seq<Json>, h: nat) { forall i :: 0 <= i < |vs| ==> Nested(vs[i], h) }

  lemma NestedAppend(vs: seq<Json>, h: nat, v: Json, h': nat) returns (most: nat)
    requires AllNested(vs, h) && Nested(v, h')
    ensures AllNested(vs + [v], most)
  {
    most := if h < h' then h' else h;
    forall i | 0 <= i < |vs| ensures Nested(vs[i], most) { NestedMore(vs[i], h, most); }
    NestedMore(v, h', most);
  }

  function ValuesOf(members: Members, n: nat): (r: seq<Json>)
    requires n <= |members|
    ensures |r| == n && forall i :: 0 <= i < n ==> r[i] == members[i].1
  {
    if n == 0 then [] else ValuesOf(members, n - 1) + [members[n - 1].1]
  }

  /** Every value is nested to some depth. */
  lemma {:induction false} NestedSomehow(v: Json) returns (h: nat)
    ensures Nested(v, h)
    decreases v, 0
  {
    match v
    case Obj(members) =>
      var vs := ValuesOf(members, |members|);
      h := 0;
      for n := 0 to |members|
        invariant AllNested(vs[..n], h)
      {
        var h' := NestedSomehow(members[n].1);
        h := NestedAppend(vs[..n], h, vs[n], h');
        assert vs[..n + 1] == vs[..n] + [vs[n]];
      }
      assert vs[..|members|] == vs;
      h := h + 1;
      forall i | 0 <= i < |members| ensures Nested(members[i].1, h - 1) { assert Nested(vs[i], h - 1); }
    case Arr(items) =>
      h := 0;
      for n := 0 to |items|
        invariant AllNested(items[..n], h)
      {
        var h' := NestedSomehow(items[n]);
        h := NestedAppend(items[..n], h, items[n], h');
        assert items[..n + 1] == items[..n] + [items[n]];
      }
      assert items[..|items|] == items;
      h := h + 1;
    case _ => h := 0;
  }

  lemma LeafFits(s: Json, k: Keywords, depth: nat, p: (Json, nat) -> bool, limit: nat)
    requires depth <= limit && KeywordsOf(s) == k && k.properties.None? && k.items.None? && k.additional.None? && k.anyOf.None?
    ensures Compiling(p, limit) && Sound(s) ==> InBranch(s, depth, p)
  {
    assert Sound(s) ==> Expressible(s);
    assert BelowProperties(s, depth + 1, p) && BelowItems(s, depth + 1, p) && BelowAdditional(s, depth + 1, p);
    assert BelowUnion(s, depth + 1, p);
  }

  lemma {:induction false} ObjectFits(c: Json, s: Json, h: nat, depth: nat, p: (Json, nat) -> bool, limit: nat)
    requires c.Obj? && Regular(c) && s == Strict(c) && Nested(c, h) && depth + 2 * h <= limit
    ensures Compiling(p, limit) ==> Everywhere(s, depth, p)
    decreases c, 0, |c.members| + 2
  {
    StrictSound(c);
    StrictObject(c, s);
    var ps := Obj(StrictMembers(c, |c.members|));
    MembersFit(c, ps, h, depth + 1, p, limit);
    PropertiesNodeFits(s, ps, KeywordsOf(s), depth, p, limit);
  }

  lemma PropertiesNodeFits(s: Json, ps: Json, k: Keywords, depth: nat, p: (Json, nat) -> bool, limit: nat)
    requires depth <= limit
    requires Sound(s) && KeywordsOf(s) == k && k.properties == Some(ps) && k.items.None? && k.additional.None? && k.anyOf.None?
    requires ps.Obj?
    ensures Compiling(p, limit) && InMembers(ps, depth + 1, p, |ps.members|) ==> Everywhere(s, depth, p)
  {
    assert Expressible(s);
    assert BelowItems(s, depth + 1, p) && BelowAdditional(s, depth + 1, p) && BelowUnion(s, depth + 1, p);
    assert InMembers(ps, depth + 1, p, |ps.members|) ==> BelowProperties(s, depth + 1, p);
  }

  lemma {:induction false} MembersFit(c: Json, ps: Json, h: nat, depth: nat, p: (Json, nat) -> bool, limit: nat)
    requires c.Obj? && Regular(c) && ps == Obj(StrictMembers(c, |c.members|)) && Nested(c, h) && depth - 1 + 2 * h <= limit
    ensures Compiling(p, limit) ==> InMembers(ps, depth, p, |ps.members|)
    decreases c, 0, 1
  {
    forall j | 0 <= j < |ps.members| ensures Compiling(p, limit) ==> InMember(ps.members[j].1, depth, p) {
      MemberFits(c, ps.members[j].1, j, h, depth, p, limit);
    }
    AllInMembers(ps, depth, p, |ps.members|);
  }

  lemma {:induction false} AllInMembers(ps: Json, depth: nat, p: (Json, nat) -> bool, n: nat)
    requires ps.Obj? && n <= |ps.members|
    ensures (forall j :: 0 <= j < n ==> InMember(ps.members[j].1, depth, p)) ==> InMembers(ps, depth, p, n)
    decreases n
  {
    if n > 0 { AllInMembers(ps, depth, p, n - 1); }
  }

  lemma {:induction false} MemberFits(c: Json, s: Json, i: nat, h: nat, depth: nat, p: (Json, nat) -> bool, limit: nat)
    requires c.Obj? && Regular(c) && i < |c.members| && s == StrictMembers(c, |c.members|)[i].1
    requires Nested(c, h) && depth - 1 + 2 * h <= limit
    ensures Compiling(p, limit) ==> InMember(s, depth, p)
    decreases c, 0, 0
  {
    StrictMemberAt(c, |c.members|, i);
    PartFits(c.members[i].1, s, h - 1, depth, p, limit);
  }

  lemma {:induction false} ArrayFits(c: Json, s: Json, h: nat, depth: nat, p: (Json, nat) -> bool, limit: nat)
    requires c.Arr? && c.items != [] && Regular(c) && s == Strict(c) && Nested(c, h) && depth + 2 * h <= limit
    ensures Compiling(p, limit) ==> Everywhere(s, depth, p)
    decreases c, 0, |c.items| + 2
  {
    StrictSound(c);
    StrictArray(c, s);
    UnionFits(c, h, depth + 1, p, limit);
    ItemsNodeFits(s, StrictUnion(c), KeywordsOf(s), depth, p, limit);
  }

  lemma ItemsNodeFits(s: Json, e: Json, k: Keywords, depth: nat, p: (Json, nat) -> bool, limit: nat)
    requires depth <= limit
    requires Sound(s) && KeywordsOf(s) == k && k.items == Some(e) && k.properties.None? && k.additional.None? && k.anyOf.None?
    ensures Compiling(p, limit) && Everywhere(e, depth + 1, p) ==> Everywhere(s, depth, p)
  {
    assert Expressible(s);
    assert BelowProperties(s, depth + 1, p) && BelowAdditional(s, depth + 1, p) && BelowUnion(s, depth + 1, p);
    assert Everywhere(e, depth + 1, p) ==> BelowItems(s, depth + 1, p);
  }

  lemma {:induction false} UnionFits(c: Json, h: nat, depth: nat, p: (Json, nat) -> bool, limit: nat)
    requires c.Arr? && c.items != [] && Regular(c) && Nested(c, h) && depth - 1 + 2 * h <= limit
    ensures Compiling(p, limit) ==> Everywhere(StrictUnion(c), depth, p)
    decreases c, 0, |c.items| + 1
  {
    ItemsSound(c);
    var bs := Arr(StrictItems(c, |c.items|));
    ItemsFit(c, bs, h, depth + 1, p, limit);
    forall i | 0 <= i < |bs.items| ensures NamesValues(bs.items[i]) {
      StrictItemAt(c, |c.items|, i);
      StrictNames(c.items[i]);
    }
    EqualReflexive(c.items[0]);
    ItemStrict(c.items[0], c, 0);
    BareUnionFits(StrictUnion(c), bs, depth, p, limit, c.items[0]);
  }

  /** A union without siblings fits if its branches do and name their values, and it accepts something. */
  lemma BareUnionFits(s: Json, bs: Json, depth: nat, p: (Json, nat) -> bool, limit: nat, v: Json)
    requires depth <= limit
    requires s == Only("anyOf", bs) && Sound(s) && bs.Arr? && bs.items != [] && Regular(v) && Sat(v, s)
    requires AllNameValues(bs.items, |bs.items|)
    ensures HasUnion(s)
    ensures Compiling(p, limit) && InBranches(bs, depth + 1, p, |bs.items|) ==> Everywhere(s, depth, p)
  {
    OnlyAnyOf(bs);
    assert BelowProperties(s, depth + 1, p) && BelowItems(s, depth + 1, p) && BelowAdditional(s, depth + 1, p);
    if Compiling(p, limit) && InBranches(bs, depth + 1, p, |bs.items|) {
      assert BelowUnion(s, depth + 1, p);
      UnionAdmitsSome(s, depth + 1, p, v);
      assert Expressible(s);
    }
  }

  lemma UnionAdmitsSome(s: Json, depth: nat, p: (Json, nat) -> bool, v: Json)
    requires HasUnion(s) && Wf(s) && UnionFinite(s) && BelowUnion(s, depth, p) && Demands(p) && Regular(v) && Sat(v, s)
    ensures Admitted(s) != []
  {
    AdmittedExact(s, depth, p);
    NulFreeIsClean(v);
  }

  lemma {:induction false} ItemsFit(c: Json, bs: Json, h: nat, depth: nat, p: (Json, nat) -> bool, limit: nat)
    requires c.Arr? && Regular(c) && bs == Arr(StrictItems(c, |c.items|)) && Nested(c, h) && depth - 2 + 2 * h <= limit
    ensures Compiling(p, limit) ==> InBranches(bs, depth, p, |bs.items|)
    decreases c, 0, 1
  {
    forall j | 0 <= j < |bs.items| ensures Compiling(p, limit) ==> InBranch(bs.items[j], depth, p) { ItemFits(c, bs.items[j], j, h, depth, p, limit); }
    InBranchesIff(bs, depth, p, |bs.items|);
  }

  lemma {:induction false} ItemFits(c: Json, s: Json, j: nat, h: nat, depth: nat, p: (Json, nat) -> bool, limit: nat)
    requires c.Arr? && Regular(c) && j < |c.items| && s == StrictItems(c, |c.items|)[j]
    requires Nested(c, h) && depth - 2 + 2 * h <= limit
    ensures Compiling(p, limit) ==> InBranch(s, depth, p)
    decreases c, 0, 0
  {
    StrictItemAt(c, |c.items|, j);
    PartFits(c.items[j], s, h - 1, depth, p, limit);
  }

  lemma {:induction false} PartFits(c: Json, s: Json, h: nat, depth: nat, p: (Json, nat) -> bool, limit: nat)
    requires Regular(c) && s == Strict(c) && Nested(c, h) && depth + 2 * h <= limit
    ensures Compiling(p, limit) ==> InMember(s, depth, p) && InBranch(s, depth, p)
    decreases c, 2
  {
    StrictFits(c, h, depth, p, limit);
  }

  lemma StrictNames(c: Json)
    ensures KeywordsOf(Strict(c)).members == Some(Arr([c])) && Candidates(Strict(c)) == Some([c]) && NamesValues(Strict(c))
  {
    var s := Strict(c);
    if c.Obj? { StrictObject(c, s); } else if c.Arr? && c.items != [] { StrictArray(c, s); } else { StrictLeaf(c, s); }
  }

  /** A schema that is just an enumeration. */
  lemma EnumFits(e: Json, c: Json, depth: nat, p: (Json, nat) -> bool, limit: nat)
    requires e == Only("enum", Arr([c])) && Wf(c) && depth <= limit
    ensures Compiling(p, limit) ==> InBranch(e, depth, p)
  {
    OnlyEnum(c);
    EnumSound(e, c);
    LeafFits(e, KeywordsOf(e), depth, p, limit);
  }

  lemma EnumSound(e: Json, c: Json)
    requires e == Only("enum", Arr([c])) && Wf(c)
    ensures Sound(e)
  {
    KnownKeys();
    SoundOnly("enum", Arr([c]));
  }

  /** The strict schema of a value can be compiled, and is at most twice as deep as the value. */
  lemma {:induction false} StrictFits(c: Json, h: nat, depth: nat, p: (Json, nat) -> bool, limit: nat)
    requires Regular(c) && Nested(c, h) && depth + 2 * h <= limit
    ensures Compiling(p, limit) ==> InBranch(Strict(c), depth, p)
    decreases c, 1
  {
    var s := Strict(c);
    if c.Obj? {
      ObjectFits(c, s, h, depth, p, limit);
    } else if c.Arr? && c.items != [] {
      ArrayFits(c, s, h, depth, p, limit);
    } else {
      EnumFits(s, c, depth, p, limit);
    }
  }
}
