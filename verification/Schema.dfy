/**
 What a tool schema means: the satisfaction relation of the keywords the bridge knows
 (JSON Schema Core draft 2020-12, sections 10.2.1.2, 10.3.2.1 and 10.3.2.3, with the daemon's
 reading of malformed keywords), and when two schemas accept the same values.
 */
module Schema {
  import opened Common
  import opened Json

  // ---------------------------------------------------------------- vocabulary

  predicate IsAnnotation(key: string) {
    key in ["description", "title", "default", "examples", "$comment", "deprecated", "readOnly", "writeOnly"]
  }

  predicate IsBound(key: string) {
    key in ["minLength", "maxLength", "minimum", "maximum"]
  }

  /** Keywords whose value is compared as it stands; the other assertions hold sub-schemas. */
  predicate IsPlain(key: string) {
    key in ["type", "enum", "const", "required", "minItems"] || IsBound(key)
  }

  predicate HoldsSchemas(key: string) {
    key in ["properties", "additionalProperties", "items", "anyOf"]
  }

  predicate Known(key: string) {
    IsPlain(key) || HoldsSchemas(key) || IsAnnotation(key)
  }

  function Bound(v: Json): real {
    if IsNumber(v) then NumberOf(v) else 0.0
  }

  predicate TypeSupported(t: string) {
    t in {"object", "array", "string", "integer", "number", "boolean", "null"}
  }

  predicate Integral(x: real) { x == x.Floor as real }

  predicate TypeMatches(v: Json, t: string) {
    match t
    case "object" => v.Obj?
    case "array" => v.Arr?
    case "string" => v.Str?
    case "integer" => IsNumber(v) && Integral(NumberOf(v))
    case "number" => IsNumber(v)
    case "boolean" => v.Bool?
    case "null" => v.Null?
    case _ => false
  }

  /** Bytes of the UTF-8 sequence that starts with `lead`; 0 for an invalid lead byte. */
  function Utf8Width(lead: char): nat {
    var b := lead as int;
    if b < 0x80 then 1
    else if 0xc2 <= b <= 0xdf then 2
    else if 0xe0 <= b <= 0xef then 3
    else if 0xf0 <= b <= 0xf4 then 4
    else 0
  }

  /** Code point of a sequence of `width` bytes, when every continuation byte is one. */
  function Utf8CodePoint(s: string, width: nat): Option<nat>
    requires 1 <= width <= |s|
  {
    if width == 1 then
      var b := s[0] as int;
      Some(if b < 0x80 then b else if b < 0xe0 then b % 32 else if b < 0xf0 then b % 16 else b % 8)
    else
      var next := s[width - 1] as int;
      match Utf8CodePoint(s, width - 1)
      case Some(cp) => if 0x80 <= next < 0xc0 then Some(cp * 64 + next % 64) else None
      case None => None
  }

  /** Number of code points of well-formed UTF-8 without surrogates. */
  function CodePointLength(s: string): Option<nat>
    decreases |s|
  {
    if s == [] then Some(0)
    else
      var width := Utf8Width(s[0]);
      if width == 0 || width > |s| then None
      else match Utf8CodePoint(s, width)
        case None => None
        case Some(cp) =>
          if (width == 2 && cp < 0x80) || (width == 3 && cp < 0x800) || (width == 4 && cp < 0x10000)
             || cp > 0x10ffff || 0xd800 <= cp <= 0xdfff then None
          else match CodePointLength(s[width..])
            case None => None
            case Some(n) => Some(n + 1)
  }

  // -------------------------------------------------------------- satisfaction

  /** The assertions of a schema object, each present or absent. */
  datatype Keywords = Keywords(
    kind: Option<Json>, members: Option<Json>, constant: Option<Json>, required: Option<Json>,
    minItems: Option<Json>, minLength: Option<Json>, maxLength: Option<Json>,
    minimum: Option<Json>, maximum: Option<Json>,
    properties: Option<Json>, additional: Option<Json>, items: Option<Json>, anyOf: Option<Json>)

  function KeywordsOf(s: Json): (k: Keywords)
    ensures k.properties.Some? ==> k.properties.value < s
    ensures k.additional.Some? ==> k.additional.value < s
    ensures k.items.Some? ==> k.items.value < s
    ensures k.anyOf.Some? ==> k.anyOf.value < s
  {
    Keywords(Get(s, "type"), Get(s, "enum"), Get(s, "const"), Get(s, "required"),
             Get(s, "minItems"), Get(s, "minLength"), Get(s, "maxLength"),
             Get(s, "minimum"), Get(s, "maximum"),
             Get(s, "properties"), Get(s, "additionalProperties"), Get(s, "items"), Get(s, "anyOf"))
  }

  predicate TypeOk(v: Json, kind: Option<Json>) {
    kind.Some? ==> kind.value.Str? && TypeSupported(kind.value.s) && TypeMatches(v, kind.value.s)
  }

  predicate EnumOk(v: Json, members: Option<Json>) {
    members.Some? ==>
      members.value.Arr? && exists i | 0 <= i < |members.value.items| :: JsonEqual(v, members.value.items[i])
  }

  predicate ConstOk(v: Json, constant: Option<Json>) {
    constant.Some? ==> JsonEqual(v, constant.value)
  }

  predicate RequiredOk(v: Json, required: Option<Json>) {
    required.Some? && v.Obj? ==>
      && required.value.Arr?
      && forall i | 0 <= i < |required.value.items| ::
           required.value.items[i].Str? && Lookup(v, required.value.items[i].s).Some?
  }

  predicate MinItemsOk(v: Json, minItems: Option<Json>) {
    minItems.Some? && v.Arr? ==> |v.items| as real >= Bound(minItems.value)
  }

  predicate LengthOk(v: Json, lo: Option<Json>, hi: Option<Json>) {
    v.Str? && (lo.Some? || hi.Some?) ==>
      match CodePointLength(v.s)
      case None => false
      case Some(n) => (lo.Some? ==> n as real >= Bound(lo.value)) && (hi.Some? ==> n as real <= Bound(hi.value))
  }

  predicate RangeOk(v: Json, lo: Option<Json>, hi: Option<Json>) {
    IsNumber(v) ==>
      (lo.Some? ==> NumberOf(v) >= Bound(lo.value)) && (hi.Some? ==> NumberOf(v) <= Bound(hi.value))
  }

  /** Every assertion that does not look inside a sub-schema. */
  predicate PlainOk(v: Json, k: Keywords) {
    && TypeOk(v, k.kind) && EnumOk(v, k.members) && ConstOk(v, k.constant) && RequiredOk(v, k.required)
    && MinItemsOk(v, k.minItems) && LengthOk(v, k.minLength, k.maxLength) && RangeOk(v, k.minimum, k.maximum)
  }

  predicate Declared(properties: Option<Json>, key: string) {
    properties.Some? && Lookup(properties.value, key).Some?
  }

  predicate ClosedOk(v: Json, additional: Option<Json>, properties: Option<Json>) {
    additional.Some? && v.Obj? ==>
      && (additional.value.Bool? || additional.value.Obj?)
      && (additional.value == Bool(false) ==>
            forall i | 0 <= i < |v.members| :: Declared(properties, v.members[i].0))
  }

  /** The native pass: each property name, looked up in the value and in the schema. */
  predicate NamedOk(v: Json, ps: Json)
    decreases ps, 1
  {
    v.Obj? ==> ps.Obj? && forall i | 0 <= i < |ps.members| ::
      var x, c := Lookup(v, ps.members[i].0), Lookup(ps, ps.members[i].0);
      x.Some? ==> c.Some? && Sat(x.value, c.value)
  }

  /** The original-schema pass: each member of the value whose name is declared. */
  predicate MembersOk(v: Json, ps: Json)
    decreases ps, 1
  {
    v.Obj? ==> forall i | 0 <= i < |v.members| ::
      var c := Lookup(ps, v.members[i].0);
      c.Some? ==> Sat(v.members[i].1, c.value)
  }

  /** Both passes again for the members that are not declared. */
  predicate AdditionalOk(v: Json, a: Json, properties: Option<Json>)
    decreases a, 1
  {
    v.Obj? && a.Obj? ==> forall i | 0 <= i < |v.members| ::
      Declared(properties, v.members[i].0) ||
      (&& Lookup(v, v.members[i].0).Some? && Sat(Lookup(v, v.members[i].0).value, a)
       && Sat(v.members[i].1, a))
  }

  predicate ItemsOk(v: Json, e: Json)
    decreases e, 1
  {
    v.Arr? ==> e.Obj? && forall i | 0 <= i < |v.items| :: Sat(v.items[i], e)
  }

  predicate AnyOfOk(v: Json, bs: Json)
    decreases bs, 1
  {
    bs.Arr? && exists i | 0 <= i < |bs.items| :: Sat(v, bs.items[i])
  }

  /** The value satisfies the schema. */
  predicate Sat(v: Json, s: Json)
    decreases s, 0
  {
    var k := KeywordsOf(s);
    && s.Obj?
    && PlainOk(v, k)
    && ClosedOk(v, k.additional, k.properties)
    && (k.properties.Some? ==> NamedOk(v, k.properties.value) && MembersOk(v, k.properties.value))
    && (k.additional.Some? ==> AdditionalOk(v, k.additional.value, k.properties))
    && (k.items.Some? ==> ItemsOk(v, k.items.value))
    && (k.anyOf.Some? ==> AnyOfOk(v, k.anyOf.value))
  }

  // ------------------------------------------------------- names without a NUL

  /** Without repeated names and without NUL bytes in names: every lookup finds the member of that very name. */
  ghost predicate Regular(v: Json) { Wf(v) && NulFree(v) }

  lemma OwnMember(v: Json, i: nat)
    requires v.Obj? && Regular(v) && i < |v.members|
    ensures Lookup(v, v.members[i].0) == Some(v.members[i].1) && Regular(v.members[i].1)
  {
    FindDistinct(v.members, i);
  }

  lemma LookupRegular(v: Json, key: string)
    requires Lookup(v, key).Some?
    ensures Wf(v) ==> Wf(Lookup(v, key).value)
    ensures Regular(v) ==> Regular(Lookup(v, key).value)
  {
    if Wf(v) { GetWf(v, CutAtNul(key)); }
  }

  /** For a regular value the second pass repeats the first. */
  lemma MembersFollow(v: Json, ps: Json)
    requires Regular(v) && NamedOk(v, ps)
    ensures MembersOk(v, ps)
  {
    if v.Obj? {
      forall i | 0 <= i < |v.members| && Lookup(ps, v.members[i].0).Some?
        ensures Sat(v.members[i].1, Lookup(ps, v.members[i].0).value)
      {
        OwnMember(v, i);
        var m :| 0 <= m < |ps.members| && ps.members[m] == (v.members[i].0, Lookup(ps, v.members[i].0).value);
      }
    }
  }

  // ------------------------------------------ satisfaction respects JSON equality

  lemma EqualMembership(v: Json, w: Json, c: Json)
    requires Regular(v) && Wf(w) && JsonEqual(v, w) && JsonEqual(v, c)
    ensures JsonEqual(w, c)
  {
    EqualSymmetric(v, w);
    EqualTransitive(w, v, c);
  }

  lemma EqualTypes(v: Json, w: Json, t: string)
    requires JsonEqual(v, w)
    ensures TypeMatches(v, t) <==> TypeMatches(w, t)
  {
  }

  lemma EqualRequired(v: Json, w: Json, required: Option<Json>)
    requires Regular(v) && Wf(w) && JsonEqual(v, w) && RequiredOk(v, required)
    ensures RequiredOk(w, required)
  {
    if required.Some? && w.Obj? {
      EqualObjectsSameKeys(v.members, w.members);
      var r := required.value.items;
      forall i | 0 <= i < |r| ensures r[i].Str? && Lookup(w, r[i].s).Some? {
        assert CutAtNul(r[i].s) in KeySet(v.members);
        assert CutAtNul(r[i].s) in KeySet(w.members);
      }
    }
  }

  lemma EqualPlain(v: Json, w: Json, k: Keywords)
    requires Regular(v) && Wf(w) && JsonEqual(v, w) && PlainOk(v, k)
    ensures PlainOk(w, k)
  {
    if k.kind.Some? { EqualTypes(v, w, k.kind.value.s); }
    if k.members.Some? {
      var es := k.members.value.items;
      var i :| 0 <= i < |es| && JsonEqual(v, es[i]);
      EqualMembership(v, w, es[i]);
    }
    if k.constant.Some? { EqualMembership(v, w, k.constant.value); }
    EqualRequired(v, w, k.required);
  }

  lemma EqualClosed(v: Json, w: Json, additional: Option<Json>, properties: Option<Json>)
    requires Regular(v) && Wf(w) && JsonEqual(v, w) && ClosedOk(v, additional, properties)
    ensures ClosedOk(w, additional, properties)
  {
    if w.Obj? && additional == Some(Bool(false)) {
      forall j | 0 <= j < |w.members| ensures Declared(properties, w.members[j].0) {
        var i := EqualMember(v.members, w.members, j);
      }
    }
  }

  lemma {:induction false} EqualNamed(v: Json, w: Json, ps: Json)
    requires Regular(v) && Regular(w) && JsonEqual(v, w) && NamedOk(v, ps)
    ensures NamedOk(w, ps)
    decreases ps, 1
  {
    if w.Obj? {
      forall n | 0 <= n < |ps.members| && Lookup(w, ps.members[n].0).Some?
        ensures Lookup(ps, ps.members[n].0).Some? && Sat(Lookup(w, ps.members[n].0).value, Lookup(ps, ps.members[n].0).value)
      {
        var j :| 0 <= j < |w.members| && w.members[j] == (CutAtNul(ps.members[n].0), Lookup(w, ps.members[n].0).value);
        var i := EqualMember(v.members, w.members, j);
        SatRespectsEqual(v.members[i].1, w.members[j].1, Lookup(ps, ps.members[n].0).value);
      }
    }
  }

  lemma {:induction false} EqualAdditional(v: Json, w: Json, a: Json, properties: Option<Json>)
    requires Regular(v) && Regular(w) && JsonEqual(v, w) && AdditionalOk(v, a, properties)
    ensures AdditionalOk(w, a, properties)
    decreases a, 1
  {
    if w.Obj? && a.Obj? {
      forall j | 0 <= j < |w.members| && !Declared(properties, w.members[j].0)
        ensures Lookup(w, w.members[j].0) == Some(w.members[j].1) && Sat(w.members[j].1, a)
      {
        OwnMember(w, j);
        var i := EqualMember(v.members, w.members, j);
        SatRespectsEqual(v.members[i].1, w.members[j].1, a);
      }
    }
  }

  lemma {:induction false} EqualItems(v: Json, w: Json, e: Json)
    requires Regular(v) && Regular(w) && JsonEqual(v, w) && ItemsOk(v, e)
    ensures ItemsOk(w, e)
    decreases e, 1
  {
    if w.Arr? {
      forall i | 0 <= i < |w.items| ensures Sat(w.items[i], e) { SatRespectsEqual(v.items[i], w.items[i], e); }
    }
  }

  /** Whether a NUL-free value satisfies a schema does not depend on how it is spelled. */
  lemma {:induction false} SatRespectsEqual(v: Json, w: Json, s: Json)
    requires Regular(v) && Wf(w) && JsonEqual(v, w) && Sat(v, s)
    ensures Sat(w, s)
    decreases s, 0
  {
    var k := KeywordsOf(s);
    EqualNulFree(v, w);
    EqualPlain(v, w, k);
    EqualClosed(v, w, k.additional, k.properties);
    if k.properties.Some? {
      EqualNamed(v, w, k.properties.value);
      MembersFollow(w, k.properties.value);
    }
    if k.additional.Some? { EqualAdditional(v, w, k.additional.value, k.properties); }
    if k.items.Some? { EqualItems(v, w, k.items.value); }
    if k.anyOf.Some? {
      var bs := k.anyOf.value;
      var i :| 0 <= i < |bs.items| && Sat(v, bs.items[i]);
      SatRespectsEqual(v, w, bs.items[i]);
    }
  }

  // ------------------------------------------------------- equivalent schemas

  /** A value with a NUL in some name that the validator nevertheless takes for another value. */
  ghost predicate Escaping(v: Json) {
    !NulFree(v) && exists w :: Wf(w) && JsonEqual(v, w)
  }

  /** No part of the value is escaping; without NULs in names none is. */
  ghost predicate Clean(v: Json) {
    && !Escaping(v)
    && match v
       case Arr(items) => forall i :: 0 <= i < |items| ==> Clean(items[i])
       case Obj(members) => forall i :: 0 <= i < |members| ==> Clean(members[i].1)
       case _ => true
  }

  lemma {:induction false} NulFreeIsClean(v: Json)
    requires NulFree(v)
    ensures Clean(v)
  {
    match v
    case Arr(items) => forall i | 0 <= i < |items| ensures Clean(items[i]) { NulFreeIsClean(items[i]); }
    case Obj(members) => forall i | 0 <= i < |members| ensures Clean(members[i].1) { NulFreeIsClean(members[i].1); }
    case _ =>
  }

  /** A clean value that equals another has no NULs in names. */
  lemma CleanEqual(v: Json, w: Json)
    requires Wf(v) && Clean(v) && Wf(w) && JsonEqual(v, w)
    ensures Regular(v)
  {
  }

  /** The values a statement is about: all without repeated names, or only those of them that are clean. */
  ghost predicate Ranges(all: bool, v: Json) { Wf(v) && (all || Clean(v)) }

  /** Both schemas accept exactly the same of these values. */
  ghost predicate ExactOn(all: bool, s: Json, t: Json) {
    forall v :: Ranges(all, v) ==> (Sat(v, s) <==> Sat(v, t))
  }

  /** Both schemas accept exactly the same clean values, so the same NUL-free ones. */
  ghost predicate Exact(s: Json, t: Json) { ExactOn(false, s, t) }

  ghost predicate SameOrExact(all: bool, a: Option<Json>, b: Option<Json>) {
    a == b || (a.Some? && b.Some? && a.value.Obj? && b.value.Obj? && ExactOn(all, a.value, b.value))
  }

  ghost predicate ExactMembers(all: bool, a: Option<Json>, b: Option<Json>) {
    a == b ||
    (&& a.Some? && b.Some? && a.value.Obj? && b.value.Obj?
     && |a.value.members| == |b.value.members|
     && forall i :: 0 <= i < |a.value.members| ==>
          && a.value.members[i].0 == b.value.members[i].0
          && ExactOn(all, a.value.members[i].1, b.value.members[i].1))
  }

  ghost predicate ExactItems(all: bool, a: Option<Json>, b: Option<Json>) {
    a == b ||
    (&& a.Some? && b.Some? && a.value.Arr? && b.value.Arr?
     && |a.value.items| == |b.value.items|
     && forall i :: 0 <= i < |a.value.items| ==> ExactOn(all, a.value.items[i], b.value.items[i]))
  }

  /** The second set of keywords is the first with sub-schemas replaced by equivalent ones. */
  ghost predicate Congruent(all: bool, k: Keywords, k': Keywords) {
    && k' == k.(properties := k'.properties, additional := k'.additional, items := k'.items, anyOf := k'.anyOf)
    && ExactMembers(all, k.properties, k'.properties)
    && SameOrExact(all, k.additional, k'.additional)
    && SameOrExact(all, k.items, k'.items)
    && ExactItems(all, k.anyOf, k'.anyOf)
  }

  lemma {:induction false} FindExact(all: bool, a: Members, b: Members, key: string)
    requires |a| == |b| && forall i :: 0 <= i < |a| ==> a[i].0 == b[i].0 && ExactOn(all, a[i].1, b[i].1)
    ensures Find(a, key).Some? <==> Find(b, key).Some?
    ensures Find(a, key).Some? ==> ExactOn(all, Find(a, key).value, Find(b, key).value)
    decreases |a|
  {
    if a != [] && a[0].0 != key { FindExact(all, a[1..], b[1..], key); }
  }

  /** Looking a name up in both gives nothing twice, or equivalent schemas. */
  lemma LookupExact(all: bool, a: Option<Json>, b: Option<Json>, key: string)
    requires ExactMembers(all, a, b) && a.Some?
    ensures Lookup(a.value, key).Some? <==> Lookup(b.value, key).Some?
    ensures Lookup(a.value, key).Some? ==> ExactOn(all, Lookup(a.value, key).value, Lookup(b.value, key).value)
  {
    if a != b { FindExact(all, a.value.members, b.value.members, CutAtNul(key)); }
  }

  lemma RangesWithin(all: bool, v: Json, key: string)
    requires Ranges(all, v) && Lookup(v, key).Some?
    ensures Ranges(all, Lookup(v, key).value)
  {
    LookupRegular(v, key);
    var i :| 0 <= i < |v.members| && v.members[i] == (CutAtNul(key), Lookup(v, key).value);
  }

  lemma CongruentNamed(all: bool, v: Json, a: Option<Json>, b: Option<Json>)
    requires ExactMembers(all, a, b) && Ranges(all, v) && a.Some? && NamedOk(v, a.value)
    ensures NamedOk(v, b.value)
  {
    if a != b && v.Obj? {
      forall i | 0 <= i < |b.value.members| && Lookup(v, b.value.members[i].0).Some?
        ensures var n := b.value.members[i].0; Lookup(b.value, n).Some? && Sat(Lookup(v, n).value, Lookup(b.value, n).value)
      {
        var n := b.value.members[i].0;
        assert a.value.members[i].0 == n;
        RangesWithin(all, v, n);
        LookupExact(all, a, b, n);
      }
    }
  }

  lemma CongruentMembers(all: bool, v: Json, a: Option<Json>, b: Option<Json>)
    requires ExactMembers(all, a, b) && Ranges(all, v) && a.Some? && MembersOk(v, a.value)
    ensures MembersOk(v, b.value)
  {
    if v.Obj? {
      forall i | 0 <= i < |v.members| && Lookup(b.value, v.members[i].0).Some?
        ensures Sat(v.members[i].1, Lookup(b.value, v.members[i].0).value)
      {
        LookupExact(all, a, b, v.members[i].0);
        assert Ranges(all, v.members[i].1);
      }
    }
  }

  lemma SameDeclared(all: bool, a: Option<Json>, b: Option<Json>, key: string)
    requires ExactMembers(all, a, b)
    ensures Declared(a, key) <==> Declared(b, key)
  {
    if a.Some? { LookupExact(all, a, b, key); }
  }

  lemma MembersRange(all: bool, v: Json)
    requires v.Obj? && Ranges(all, v)
    ensures forall i :: 0 <= i < |v.members| ==> Ranges(all, v.members[i].1)
    ensures forall i :: 0 <= i < |v.members| && Lookup(v, v.members[i].0).Some? ==> Ranges(all, Lookup(v, v.members[i].0).value)
  {
    forall i | 0 <= i < |v.members| && Lookup(v, v.members[i].0).Some?
      ensures Ranges(all, Lookup(v, v.members[i].0).value)
    {
      RangesWithin(all, v, v.members[i].0);
    }
  }

  /** What undeclared members must satisfy depends only on which names are declared. */
  lemma CongruentAdditional(all: bool, v: Json, a: Option<Json>, a': Option<Json>, p: Option<Json>, p': Option<Json>)
    requires Ranges(all, v) && SameOrExact(all, a, a') && forall key :: Declared(p, key) <==> Declared(p', key)
    ensures ClosedOk(v, a, p) <==> ClosedOk(v, a', p')
    ensures a.Some? ==> (AdditionalOk(v, a.value, p) <==> AdditionalOk(v, a'.value, p'))
  {
    if a.Some? && AdditionalOk(v, a.value, p) { AdditionalFollows(all, v, a, a', p, p'); }
    if a.Some? && AdditionalOk(v, a'.value, p') { AdditionalFollows(all, v, a', a, p', p); }
  }

  lemma AdditionalFollows(all: bool, v: Json, a: Option<Json>, a': Option<Json>, p: Option<Json>, p': Option<Json>)
    requires Ranges(all, v) && SameOrExact(all, a, a') && forall key :: Declared(p, key) <==> Declared(p', key)
    requires a.Some? && AdditionalOk(v, a.value, p)
    ensures AdditionalOk(v, a'.value, p')
  {
    if a != a' && v.Obj? {
      MembersRange(all, v);
      forall i | 0 <= i < |v.members| && !Declared(p', v.members[i].0)
        ensures Lookup(v, v.members[i].0).Some? && Sat(Lookup(v, v.members[i].0).value, a'.value) && Sat(v.members[i].1, a'.value)
      {
        assert !Declared(p, v.members[i].0);
      }
    }
  }

  lemma CongruentAnyOf(all: bool, v: Json, a: Option<Json>, b: Option<Json>)
    requires ExactItems(all, a, b) && Ranges(all, v) && a.Some?
    ensures AnyOfOk(v, a.value) <==> AnyOfOk(v, b.value)
  {
    if a != b {
      assert forall i :: 0 <= i < |a.value.items| ==> (Sat(v, a.value.items[i]) <==> Sat(v, b.value.items[i]));
    }
  }

  lemma CongruentItems(all: bool, v: Json, a: Option<Json>, b: Option<Json>)
    requires SameOrExact(all, a, b) && Ranges(all, v) && a.Some?
    ensures ItemsOk(v, a.value) <==> ItemsOk(v, b.value)
  {
    if v.Arr? { assert forall i :: 0 <= i < |v.items| ==> Ranges(all, v.items[i]); }
  }

  lemma ExactBack(all: bool, a: Option<Json>, b: Option<Json>)
    requires ExactMembers(all, a, b)
    ensures ExactMembers(all, b, a)
  {
  }

  /** Replacing sub-schemas by equivalent ones, and changing annotations at will, preserves meaning. */
  lemma CongruentExact(all: bool, s: Json, t: Json)
    requires s.Obj? && t.Obj? && Congruent(all, KeywordsOf(s), KeywordsOf(t))
    ensures ExactOn(all, s, t)
  {
    var k, k' := KeywordsOf(s), KeywordsOf(t);
    forall v | Ranges(all, v) ensures Sat(v, s) <==> Sat(v, t) {
      if k.properties.Some? { CongruentProperties(all, v, k.properties, k'.properties); }
      forall key ensures Declared(k.properties, key) <==> Declared(k'.properties, key) {
        SameDeclared(all, k.properties, k'.properties, key);
      }
      CongruentAdditional(all, v, k.additional, k'.additional, k.properties, k'.properties);
      if k.anyOf.Some? { CongruentAnyOf(all, v, k.anyOf, k'.anyOf); }
      if k.items.Some? { CongruentItems(all, v, k.items, k'.items); }
    }
  }

  lemma CongruentProperties(all: bool, v: Json, a: Option<Json>, b: Option<Json>)
    requires ExactMembers(all, a, b) && Ranges(all, v) && a.Some?
    ensures NamedOk(v, a.value) <==> NamedOk(v, b.value)
    ensures MembersOk(v, a.value) <==> MembersOk(v, b.value)
  {
    ExactBack(all, a, b);
    if NamedOk(v, a.value) { CongruentNamed(all, v, a, b); }
    if NamedOk(v, b.value) { CongruentNamed(all, v, b, a); }
    if MembersOk(v, a.value) { CongruentMembers(all, v, a, b); }
    if MembersOk(v, b.value) { CongruentMembers(all, v, b, a); }
  }

  // ------------------------------------------------------ writing one keyword

  /** What `k` reads as once `key` was written. */
  function After(s: Json, key: string, x: Json, k: string): Option<Json> {
    if k == key then Some(x) else Get(s, k)
  }

  lemma KeywordsAfterSet(s: Json, key: string, x: Json)
    requires s.Obj?
    ensures KeywordsOf(Set(s, key, x)) ==
            Keywords(After(s, key, x, "type"),
                     After(s, key, x, "enum"),
                     After(s, key, x, "const"),
                     After(s, key, x, "required"),
                     After(s, key, x, "minItems"),
                     After(s, key, x, "minLength"),
                     After(s, key, x, "maxLength"),
                     After(s, key, x, "minimum"),
                     After(s, key, x, "maximum"),
                     After(s, key, x, "properties"),
                     After(s, key, x, "additionalProperties"),
                     After(s, key, x, "items"),
                     After(s, key, x, "anyOf"))
  {
    GetSet(s, key, x, "type");
    GetSet(s, key, x, "enum");
    GetSet(s, key, x, "const");
    GetSet(s, key, x, "required");
    GetSet(s, key, x, "minItems");
    GetSet(s, key, x, "minLength");
    GetSet(s, key, x, "maxLength");
    GetSet(s, key, x, "minimum");
    GetSet(s, key, x, "maximum");
    GetSet(s, key, x, "properties");
    GetSet(s, key, x, "additionalProperties");
    GetSet(s, key, x, "items");
    GetSet(s, key, x, "anyOf");
  }

  lemma SetAnnotation(s: Json, key: string, x: Json)
    requires s.Obj? && IsAnnotation(key)
    ensures KeywordsOf(Set(s, key, x)) == KeywordsOf(s)
  {
    AnnotationsAreNotAssertions(key);
    KeywordsAfterSet(s, key, x);
  }

  lemma AnnotationsAreNotAssertions(key: string)
    requires IsAnnotation(key)
    ensures key != "type" && key != "enum" && key != "const" && key != "required" && key != "minItems"
    ensures key != "minLength" && key != "maxLength" && key != "minimum" && key != "maximum"
    ensures key != "properties" && key != "additionalProperties" && key != "items" && key != "anyOf"
  {
  }

  lemma SetProperties(s: Json, x: Json)
    requires s.Obj?
    ensures KeywordsOf(Set(s, "properties", x)) == KeywordsOf(s).(properties := Some(x))
  {
    KeywordsAfterSet(s, "properties", x);
  }

  lemma SetAdditional(s: Json, x: Json)
    requires s.Obj?
    ensures KeywordsOf(Set(s, "additionalProperties", x)) == KeywordsOf(s).(additional := Some(x))
  {
    KeywordsAfterSet(s, "additionalProperties", x);
  }

  lemma SetItems(s: Json, x: Json)
    requires s.Obj?
    ensures KeywordsOf(Set(s, "items", x)) == KeywordsOf(s).(items := Some(x))
  {
    KeywordsAfterSet(s, "items", x);
  }

  lemma SetEnum(s: Json, x: Json)
    requires s.Obj?
    ensures KeywordsOf(Set(s, "enum", x)) == KeywordsOf(s).(members := Some(x))
  {
    KeywordsAfterSet(s, "enum", x);
  }

  lemma SetMinLength(s: Json, x: Json)
    requires s.Obj?
    ensures KeywordsOf(Set(s, "minLength", x)) == KeywordsOf(s).(minLength := Some(x))
  {
    KeywordsAfterSet(s, "minLength", x);
  }

  lemma SetMaxLength(s: Json, x: Json)
    requires s.Obj?
    ensures KeywordsOf(Set(s, "maxLength", x)) == KeywordsOf(s).(maxLength := Some(x))
  {
    KeywordsAfterSet(s, "maxLength", x);
  }

  lemma SetMinimum(s: Json, x: Json)
    requires s.Obj?
    ensures KeywordsOf(Set(s, "minimum", x)) == KeywordsOf(s).(minimum := Some(x))
  {
    KeywordsAfterSet(s, "minimum", x);
  }

  lemma SetMaximum(s: Json, x: Json)
    requires s.Obj?
    ensures KeywordsOf(Set(s, "maximum", x)) == KeywordsOf(s).(maximum := Some(x))
  {
    KeywordsAfterSet(s, "maximum", x);
  }

  /** Annotations assert nothing. */
  lemma AnnotationExact(s: Json, key: string, x: Json)
    requires s.Obj? && IsAnnotation(key)
    ensures ExactOn(true, s, Set(s, key, x))
  {
    SetAnnotation(s, key, x);
    CongruentExact(true, s, Set(s, key, x));
  }
}
