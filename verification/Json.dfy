/**
 The JSON value of tools/axiom_aliced_json.h: integers and doubles are distinct, object
 members keep their insertion order.  A char stands for one byte of the source's strings.
 */
module Json {
  import opened Common

  type Members = seq<(string, Json)>

  datatype Json =
    | Null
    | Bool(b: bool)
    | Int(i: int)
    | Num(d: real)
    | Str(s: string)
    | Arr(items: seq<Json>)
    | Obj(members: Members)

  // ----------------------------------------------------------- object access

  /** The first member named `key`. */
  function Find(members: Members, key: string): (r: Option<Json>)
    ensures r.Some? <==> exists i :: 0 <= i < |members| && members[i].0 == key
    ensures r.Some? ==> exists i :: 0 <= i < |members| && members[i] == (key, r.value)
  {
    if members == [] then None
    else if members[0].0 == key then Some(members[0].1)
    else
      var r := Find(members[1..], key);
      assert forall i :: 0 <= i < |members[1..]| ==> members[1..][i] == members[i + 1];
      assert r.Some? ==> exists i :: 0 <= i < |members[1..]| && members[1..][i] == (key, r.value);
      r
  }

  function Get(v: Json, key: string): (r: Option<Json>)
    ensures r.Some? ==> v.Obj? && r.value < v
  {
    if v.Obj? then Find(v.members, key) else None
  }

  /** A C string ends at its first NUL byte. */
  predicate HasNul(s: string) { '\0' in s }

  function CutAtNul(s: string): (r: string)
    ensures !HasNul(r) && (!HasNul(s) ==> r == s) && r <= s
  {
    if s == [] || s[0] == '\0' then []
    else
      var r := [s[0]] + CutAtNul(s[1..]);
      assert !HasNul(s) ==> !HasNul(s[1..]);
      r
  }

  /** The program's get(key.c_str()): literal keys hold no NUL, others are cut. */
  function Lookup(v: Json, key: string): (r: Option<Json>)
    ensures r.Some? ==> v.Obj? && r.value < v
    ensures !HasNul(key) ==> r == Get(v, key)
  {
    Get(v, CutAtNul(key))
  }

  /** Replace in place, or append. */
  function SetMember(members: Members, key: string, x: Json): (r: Members)
    ensures |members| <= |r| <= |members| + 1
  {
    if members == [] then [(key, x)]
    else if members[0].0 == key then [(key, x)] + members[1..]
    else [members[0]] + SetMember(members[1..], key, x)
  }

  function Set(v: Json, key: string, x: Json): (r: Json)
    ensures r.Obj?
  {
    if v.Obj? then Obj(SetMember(v.members, key, x)) else Obj([(key, x)])
  }

  ghost predicate Distinct(members: Members) {
    forall i, j :: 0 <= i < j < |members| ==> members[i].0 != members[j].0
  }

  /** What the parser and `set` produce: no object holds two members of one name. */
  ghost predicate Wf(v: Json) {
    match v
    case Arr(items) => forall i :: 0 <= i < |items| ==> Wf(items[i])
    case Obj(members) => Distinct(members) && forall i :: 0 <= i < |members| ==> Wf(members[i].1)
    case _ => true
  }

  /** No member name at any depth holds a NUL. */
  ghost predicate NulFree(v: Json) {
    match v
    case Arr(items) => forall i :: 0 <= i < |items| ==> NulFree(items[i])
    case Obj(members) => forall i :: 0 <= i < |members| ==> !HasNul(members[i].0) && NulFree(members[i].1)
    case _ => true
  }

  lemma {:induction false} FindDistinct(members: Members, i: nat)
    requires Distinct(members) && i < |members|
    ensures Find(members, members[i].0) == Some(members[i].1)
  {
    if i > 0 {
      FindDistinct(members[1..], i - 1);
    }
  }

  /** A written member reads back, and every other member reads as before. */
  lemma {:induction false} FindSet(members: Members, key: string, x: Json, other: string)
    ensures Find(SetMember(members, key, x), other) == if other == key then Some(x) else Find(members, other)
  {
    if members != [] && members[0].0 != key {
      var r := SetMember(members, key, x);
      assert r[0] == members[0] && r[1..] == SetMember(members[1..], key, x);
      FindSet(members[1..], key, x, other);
    } else if members != [] {
      assert SetMember(members, key, x)[1..] == members[1..];
    }
  }

  /** Through get a written member reads back exactly when its name holds no NUL; other names read as before. */
  lemma LookupSet(v: Json, key: string, x: Json, other: string)
    requires v.Obj?
    ensures Lookup(Set(v, key, x), other) == if CutAtNul(other) == key then Some(x) else Lookup(v, other)
    ensures HasNul(key) ==> Lookup(Set(v, key, x), other) == Lookup(v, other)
  {
    FindSet(v.members, key, x, CutAtNul(other));
  }

  lemma GetSet(v: Json, key: string, x: Json, other: string)
    requires v.Obj?
    ensures Get(Set(v, key, x), other) == if other == key then Some(x) else Get(v, other)
  {
    FindSet(v.members, key, x, other);
  }

  lemma {:induction false} SetMemberKeys(members: Members, key: string, x: Json)
    ensures var r := SetMember(members, key, x);
            forall i :: 0 <= i < |r| ==> if i < |members| then r[i].0 == members[i].0 else r[i].0 == key
    ensures var r := SetMember(members, key, x);
            forall i :: 0 <= i < |r| ==> r[i].1 == x || (i < |members| && r[i] == members[i])
    ensures |SetMember(members, key, x)| > |members| ==> forall i :: 0 <= i < |members| ==> members[i].0 != key
  {
    if members != [] && members[0].0 != key {
      var rest := SetMember(members[1..], key, x);
      SetMemberKeys(members[1..], key, x);
      assert SetMember(members, key, x) == [members[0]] + rest;
    }
  }

  /** A name that is not there yet is appended. */
  lemma {:induction false} SetMemberAppends(members: Members, key: string, x: Json)
    requires forall i :: 0 <= i < |members| ==> members[i].0 != key
    ensures SetMember(members, key, x) == members + [(key, x)]
  {
    if members != [] {
      SetMemberAppends(members[1..], key, x);
    }
  }

  lemma SetWf(v: Json, key: string, x: Json)
    requires v.Obj? && Wf(v) && Wf(x)
    ensures Wf(Set(v, key, x))
  {
    SetMemberKeys(v.members, key, x);
  }

  lemma GetWf(v: Json, key: string)
    requires Wf(v) && Get(v, key).Some?
    ensures Wf(Get(v, key).value) && (NulFree(v) ==> NulFree(Get(v, key).value))
  {
  }

  // ------------------------------------------------------------- JSON equality

  predicate IsNumber(v: Json) { v.Int? || v.Num? }

  function NumberOf(v: Json): real
    requires IsNumber(v)
  {
    if v.Int? then v.i as real else v.d
  }

  /** native_tool_json_equal: numbers by value, objects without regard to order. */
  predicate JsonEqual(a: Json, b: Json) {
    if IsNumber(a) && IsNumber(b) then NumberOf(a) == NumberOf(b)
    else match (a, b)
      case (Null, Null) => true
      case (Bool(x), Bool(y)) => x == y
      case (Str(x), Str(y)) => x == y
      case (Arr(x), Arr(y)) => |x| == |y| && forall i | 0 <= i < |x| :: JsonEqual(x[i], y[i])
      case (Obj(x), Obj(y)) =>
        |x| == |y| && forall i | 0 <= i < |x| ::
          (match Find(y, CutAtNul(x[i].0)) case Some(z) => JsonEqual(x[i].1, z) case None => false)
      case _ => false
  }

  /** Every name that holds a NUL has a twin under the cut name with an equal value. */
  ghost predicate Mirrored(v: Json) {
    match v
    case Arr(items) => forall i :: 0 <= i < |items| ==> Mirrored(items[i])
    case Obj(members) =>
      forall i :: 0 <= i < |members| ==>
        if HasNul(members[i].0) then
          Find(members, CutAtNul(members[i].0)).Some? && JsonEqual(members[i].1, Find(members, CutAtNul(members[i].0)).value)
        else Mirrored(members[i].1)
    case _ => true
  }

  /** A value equals itself exactly when each of its names that holds a NUL has such a twin; so every NUL-free value does. */
  lemma {:induction false} EqualReflexive(v: Json)
    requires Wf(v)
    ensures JsonEqual(v, v) <==> Mirrored(v)
    ensures NulFree(v) ==> JsonEqual(v, v)
  {
    match v
    case Arr(items) =>
      forall i | 0 <= i < |items|
        ensures (JsonEqual(items[i], items[i]) <==> Mirrored(items[i])) && (NulFree(items[i]) ==> JsonEqual(items[i], items[i]))
      {
        EqualReflexive(items[i]);
      }
    case Obj(members) =>
      forall i | 0 <= i < |members|
        ensures Find(members, members[i].0) == Some(members[i].1)
        ensures (JsonEqual(members[i].1, members[i].1) <==> Mirrored(members[i].1))
                && (NulFree(members[i].1) ==> JsonEqual(members[i].1, members[i].1))
      {
        FindDistinct(members, i);
        EqualReflexive(members[i].1);
      }
    case _ =>
  }

  /** The value of the text `{"a\u0000b":1}`, which the parser accepts. */
  function NulNamed(): Json { Obj([("a\0b", Int(1))]) }

  /** It is not equal to itself, it equals another value, and that one does not equal it. */
  lemma NulNameBreaksEquality()
    ensures var v, w := NulNamed(), Obj([("a", Int(1))]);
            Wf(v) && Wf(w) && !JsonEqual(v, v) && JsonEqual(v, w) && !JsonEqual(w, v)
  {
    assert CutAtNul("a\0b") == "a" by {
      assert "a\0b"[1..] == "\0b";
      assert CutAtNul("\0b") == "";
    }
    var v, w := NulNamed(), Obj([("a", Int(1))]);
    assert v.members[0] == ("a\0b", Int(1)) && w.members[0] == ("a", Int(1));
    assert v.members[1..] == [] && w.members[1..] == [];
    assert Find(v.members, "a").None? && Find(w.members, "a") == Some(Int(1));
    assert !HasNul("a") && CutAtNul(w.members[0].0) == "a";
  }

  /** A NUL in a name alone decides nothing: here the cut name finds an equal value. */
  lemma TwinEqualsItself()
    ensures var v := Obj([("a", Int(1)), ("a\0b", Int(1))]);
            Wf(v) && !NulFree(v) && JsonEqual(v, v)
  {
    assert "a\0b"[1..] == "\0b" && CutAtNul("\0b") == "" && "a\0b"[1] == '\0';
    assert CutAtNul("a\0b") == "a" && CutAtNul("a") == "a";
    var v := Obj([("a", Int(1)), ("a\0b", Int(1))]);
    assert v.members[0] == ("a", Int(1)) && v.members[1] == ("a\0b", Int(1));
    assert Find(v.members, "a") == Some(Int(1));
  }

  function KeySet(members: Members): set<string> {
    set i | 0 <= i < |members| :: members[i].0
  }

  lemma {:induction false} DistinctKeyCount(members: Members)
    requires Distinct(members)
    ensures |KeySet(members)| == |members|
  {
    if members != [] {
      var rest := members[..|members| - 1];
      DistinctKeyCount(rest);
      assert KeySet(members) == KeySet(rest) + {members[|members| - 1].0};
    }
  }

  lemma SubsetOfSameSize<T>(a: set<T>, b: set<T>)
    requires a <= b && |a| == |b|
    ensures a == b
  {
    if a != b {
      var x :| x in b && x !in a;
      assert a <= b - {x};
      SubsetSize(a, b - {x});
    }
  }

  /** A NUL-free object has the names of every object it equals, not only as many. */
  lemma EqualObjectsSameKeys(x: Members, y: Members)
    requires Wf(Obj(x)) && Wf(Obj(y)) && NulFree(Obj(x)) && JsonEqual(Obj(x), Obj(y))
    ensures KeySet(x) == KeySet(y)
  {
    DistinctKeyCount(x);
    DistinctKeyCount(y);
    forall k | k in KeySet(x) ensures k in KeySet(y) {
      var i :| 0 <= i < |x| && x[i].0 == k;
      assert Find(y, CutAtNul(k)).Some? && CutAtNul(k) == k;
    }
    SubsetOfSameSize(KeySet(x), KeySet(y));
  }

  /** Where a member of `y` has its equal in `x`. */
  lemma EqualMember(x: Members, y: Members, j: nat) returns (i: nat)
    requires Wf(Obj(x)) && Wf(Obj(y)) && NulFree(Obj(x)) && JsonEqual(Obj(x), Obj(y)) && j < |y|
    ensures i < |x| && x[i].0 == y[j].0 && !HasNul(y[j].0) && JsonEqual(x[i].1, y[j].1)
    ensures Find(x, y[j].0) == Some(x[i].1) && Find(y, y[j].0) == Some(y[j].1)
  {
    EqualObjectsSameKeys(x, y);
    assert y[j].0 in KeySet(y);
    i :| 0 <= i < |x| && x[i].0 == y[j].0;
    FindDistinct(x, i);
    FindDistinct(y, j);
    assert CutAtNul(x[i].0) == x[i].0;
  }

  lemma {:induction false} EqualNulFree(a: Json, b: Json)
    requires Wf(a) && Wf(b) && NulFree(a) && JsonEqual(a, b)
    ensures NulFree(b)
  {
    match (a, b)
    case (Arr(x), Arr(y)) =>
      forall i | 0 <= i < |y| ensures NulFree(y[i]) { EqualNulFree(x[i], y[i]); }
    case (Obj(x), Obj(y)) =>
      forall j | 0 <= j < |y| ensures !HasNul(y[j].0) && NulFree(y[j].1) {
        var i := EqualMember(x, y, j);
        EqualNulFree(x[i].1, y[j].1);
      }
    case _ =>
  }

  lemma {:induction false} EqualSymmetric(a: Json, b: Json)
    requires Wf(a) && Wf(b) && NulFree(a) && JsonEqual(a, b)
    ensures JsonEqual(b, a)
  {
    match (a, b)
    case (Arr(x), Arr(y)) =>
      forall i | 0 <= i < |x| ensures JsonEqual(y[i], x[i]) { EqualSymmetric(x[i], y[i]); }
    case (Obj(x), Obj(y)) =>
      forall j | 0 <= j < |y|
        ensures Find(x, CutAtNul(y[j].0)).Some? && JsonEqual(y[j].1, Find(x, CutAtNul(y[j].0)).value)
      {
        var i := EqualMember(x, y, j);
        EqualSymmetric(x[i].1, y[j].1);
      }
    case _ =>
  }

  lemma {:induction false} EqualTransitive(a: Json, b: Json, c: Json)
    requires JsonEqual(a, b) && JsonEqual(b, c)
    ensures JsonEqual(a, c)
  {
    match (a, b, c)
    case (Arr(x), Arr(y), Arr(z)) =>
      forall i | 0 <= i < |x| ensures JsonEqual(x[i], z[i]) { EqualTransitive(x[i], y[i], z[i]); }
    case (Obj(x), Obj(y), Obj(z)) =>
      forall i | 0 <= i < |x|
        ensures Find(z, CutAtNul(x[i].0)).Some? && JsonEqual(x[i].1, Find(z, CutAtNul(x[i].0)).value)
      {
        var k := CutAtNul(x[i].0);
        var w := Find(y, k).value;
        var j :| 0 <= j < |y| && y[j] == (k, w);
        EqualTransitive(x[i].1, w, Find(z, k).value);
      }
    case _ =>
  }
}
