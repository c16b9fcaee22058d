/** JSON text of tools/axiom_aliced_json.h: what the parser reads, what the serializer writes, and that they agree. */
module JsonText {
  import opened Common
  import opened Decimal
  import opened Json
  import opened JsonStrings
  import opened JsonNumbers

  /** Nesting levels allowed below the top one. */
  const MAX_DEPTH: int := 64

  // ---------------------------------------------------------------------- reading

  predicate IsSpace(c: char) { c == ' ' || c == '\t' || c == '\n' || c == '\r' }

  function Space(t: string, p: nat): (q: nat)
    requires p <= |t|
    ensures p <= q <= |t|
    decreases |t| - p
  {
    if p < |t| && IsSpace(t[p]) then Space(t, p + 1) else p
  }

  predicate Holds(t: string, p: nat, c: char) { p < |t| && t[p] == c }

  function ReadLiteral(t: string, p: nat): (r: Option<(Json, nat)>)
    ensures r.Some? ==> p < r.value.1 <= |t|
  {
    if p + 4 <= |t| && t[p] == 't' && t[p + 1] == 'r' && t[p + 2] == 'u' && t[p + 3] == 'e' then Some((Bool(true), p + 4))
    else if p + 5 <= |t| && t[p] == 'f' && t[p + 1] == 'a' && t[p + 2] == 'l' && t[p + 3] == 's' && t[p + 4] == 'e' then
      Some((Bool(false), p + 5))
    else if p + 4 <= |t| && t[p] == 'n' && t[p + 1] == 'u' && t[p + 2] == 'l' && t[p + 3] == 'l' then Some((Null, p + 4))
    else None
  }

  function ReadScalar(lib: Library, t: string, p: nat): (r: Option<(Json, nat)>)
    requires p < |t|
    ensures r.Some? ==> p < r.value.1 <= |t|
  {
    if t[p] == '"' then
      match ReadString(t, p)
      case None => None
      case Some((s, q)) => Some((Str(s), q))
    else if t[p] == '-' || IsDigit(t[p]) then ReadNumeral(lib, t, p)
    else ReadLiteral(t, p)
  }

  /** parse_value; `left` is how many more levels of nesting are allowed. */
  function ReadValue(lib: Library, t: string, p: nat, left: int): (r: Option<(Json, nat)>)
    requires p <= |t|
    ensures r.Some? ==> p < r.value.1 <= |t|
    decreases |t| - p, 2
  {
    if left < 0 || Space(t, p) == |t| then None else ReadAt(lib, t, Space(t, p), left)
  }

  function ReadAt(lib: Library, t: string, p: nat, left: int): (r: Option<(Json, nat)>)
    requires p < |t|
    ensures r.Some? ==> p < r.value.1 <= |t|
    decreases |t| - p, 1
  {
    if t[p] == '{' then ReadObject(lib, t, p + 1, left)
    else if t[p] == '[' then ReadArray(lib, t, p + 1, left)
    else ReadScalar(lib, t, p)
  }

  /** What follows an opening bracket. */
  function ReadArray(lib: Library, t: string, p: nat, left: int): (r: Option<(Json, nat)>)
    requires p <= |t|
    ensures r.Some? ==> p < r.value.1 <= |t|
    decreases |t| - p, 5
  {
    var q := Space(t, p);
    if Holds(t, q, ']') then Some((Arr([]), q + 1))
    else match ReadItems(lib, t, q, left - 1, [])
      case None => None
      case Some((items, end)) => Some((Arr(items), end))
  }

  /** What follows an opening brace. */
  function ReadObject(lib: Library, t: string, p: nat, left: int): (r: Option<(Json, nat)>)
    requires p <= |t|
    ensures r.Some? ==> p < r.value.1 <= |t|
    decreases |t| - p, 5
  {
    var q := Space(t, p);
    if Holds(t, q, '}') then Some((Obj([]), q + 1))
    else match ReadMembers(lib, t, q, left - 1, [])
      case None => None
      case Some((members, end)) => Some((Obj(members), end))
  }

  function ReadItem(lib: Library, t: string, p: nat, left: int): (r: Option<(Json, nat)>)
    requires p <= |t|
    ensures r.Some? ==> p < r.value.1 <= |t|
    decreases |t| - p, 3
  {
    ReadValue(lib, t, p, left)
  }

  function ReadItems(lib: Library, t: string, p: nat, left: int, sofar: seq<Json>): (r: Option<(seq<Json>, nat)>)
    requires p <= |t|
    ensures r.Some? ==> p < r.value.1 <= |t|
    decreases |t| - p, 4
  {
    match ReadItem(lib, t, p, left)
    case None => None
    case Some((v, q)) =>
      var r := Space(t, q);
      if Holds(t, r, ',') then ReadItems(lib, t, r + 1, left, sofar + [v])
      else if Holds(t, r, ']') then Some((sofar + [v], r + 1))
      else None
  }

  /** A member name and the colon after it. */
  function ReadKey(t: string, p: nat): (r: Option<(string, nat)>)
    requires p <= |t|
    ensures r.Some? ==> p < r.value.1 <= |t|
  {
    match ReadString(t, Space(t, p))
    case None => None
    case Some((key, q)) =>
      var r := Space(t, q);
      if Holds(t, r, ':') then Some((key, r + 1)) else None
  }

  function ReadMember(lib: Library, t: string, p: nat, left: int): (r: Option<((string, Json), nat)>)
    requires p <= |t|
    ensures r.Some? ==> p < r.value.1 <= |t|
    decreases |t| - p, 3
  {
    match ReadKey(t, p)
    case None => None
    case Some((key, q)) =>
      match ReadValue(lib, t, q, left)
      case None => None
      case Some((v, end)) => Some(((key, v), end))
  }

  function ReadMembers(lib: Library, t: string, p: nat, left: int, sofar: Members): (r: Option<(Members, nat)>)
    requires p <= |t|
    ensures r.Some? ==> p < r.value.1 <= |t|
    decreases |t| - p, 4
  {
    match ReadMember(lib, t, p, left)
    case None => None
    case Some(((key, v), q)) =>
      var r, members := Space(t, q), SetMember(sofar, key, v);
      if Holds(t, r, ',') then ReadMembers(lib, t, r + 1, left, members)
      else if Holds(t, r, '}') then Some((members, r + 1))
      else None
  }

  /** ajson_parse: one value and nothing but space after it. */
  function Parse(lib: Library, t: string): Option<Json> {
    match ReadValue(lib, t, 0, MAX_DEPTH)
    case None => None
    case Some((v, p)) => if Space(t, p) == |t| then Some(v) else None
  }

  // ---------------------------------------------------------------------- writing

  /** ajson_dump_double: the shortest text that reads back, with ".0" on integral values. */
  type Show = real -> string

  function Text(show: Show, v: Json): string
    decreases v, 0
  {
    match v
    case Null => "null"
    case Bool(b) => if b then "true" else "false"
    case Int(i) => IntText(i)
    case Num(d) => show(d)
    case Str(s) => StringText(s)
    case Arr(items) => "[" + ItemsText(show, items, false) + "]"
    case Obj(members) => "{" + MembersText(show, members, false) + "}"
  }

  function Comma(b: bool): string { if b then "," else "" }

  function ItemText(show: Show, v: Json): string
    decreases v, 1
  {
    Text(show, v)
  }

  function ItemsText(show: Show, items: seq<Json>, comma: bool): string
    decreases items, 2
  {
    if items == [] then "" else Comma(comma) + ItemText(show, items[0]) + ItemsText(show, items[1..], true)
  }

  function MemberText(show: Show, m: (string, Json)): string
    decreases m, 1
  {
    StringText(m.0) + ":" + Text(show, m.1)
  }

  function MembersText(show: Show, members: Members, comma: bool): string
    decreases members, 2
  {
    if members == [] then "" else Comma(comma) + MemberText(show, members[0]) + MembersText(show, members[1..], true)
  }

  // ------------------------------------------------------------------- round trip

  function Max(a: nat, b: nat): nat { if a < b then b else a }

  /** Levels of nesting below the top. */
  function Height(v: Json): nat
    decreases v, 0
  {
    match v
    case Arr(items) => if items == [] then 0 else 1 + ItemsHeight(items)
    case Obj(members) => if members == [] then 0 else 1 + MembersHeight(members)
    case _ => 0
  }

  function ItemHeight(v: Json): nat
    decreases v, 1
  {
    Height(v)
  }

  function ItemsHeight(items: seq<Json>): nat
    decreases items, 2
  {
    if items == [] then 0 else Max(ItemHeight(items[0]), ItemsHeight(items[1..]))
  }

  function MemberHeight(m: (string, Json)): nat
    decreases m, 1
  {
    Height(m.1)
  }

  function MembersHeight(members: Members): nat
    decreases members, 2
  {
    if members == [] then 0 else Max(MemberHeight(members[0]), MembersHeight(members[1..]))
  }

  /** Integers of 64 bits, doubles whose text reads back, and no object with two members of one name. */
  ghost predicate Printable(lib: Library, show: Show, v: Json)
    decreases v, 0
  {
    match v
    case Int(i) => Fits(i)
    case Num(d) => Spells(lib, show(d), d)
    case Arr(items) => ItemsPrintable(lib, show, items)
    case Obj(members) => MembersPrintable(lib, show, members) && NewNames({}, members)
    case _ => true
  }

  ghost predicate ItemPrintable(lib: Library, show: Show, v: Json)
    decreases v, 1
  {
    Printable(lib, show, v)
  }

  ghost predicate ItemsPrintable(lib: Library, show: Show, items: seq<Json>)
    decreases items, 2
  {
    items == [] || (ItemPrintable(lib, show, items[0]) && ItemsPrintable(lib, show, items[1..]))
  }

  ghost predicate MemberPrintable(lib: Library, show: Show, m: (string, Json))
    decreases m, 1
  {
    Printable(lib, show, m.1)
  }

  ghost predicate MembersPrintable(lib: Library, show: Show, members: Members)
    decreases members, 2
  {
    members == [] || (MemberPrintable(lib, show, members[0]) && MembersPrintable(lib, show, members[1..]))
  }

  /** No member is named in `taken`, and no two of them have one name. */
  ghost predicate NewNames(taken: set<string>, members: Members)
    decreases |members|
  {
    members == [] || (members[0].0 !in taken && NewNames(taken + {members[0].0}, members[1..]))
  }

  lemma {:induction false} NewNamesMeans(taken: set<string>, members: Members)
    ensures NewNames(taken, members) <==>
            Distinct(members) && forall i :: 0 <= i < |members| ==> members[i].0 !in taken
    decreases |members|
  {
    if members != [] {
      var rest, all := members[1..], taken + {members[0].0};
      NewNamesMeans(all, rest);
      if NewNames(taken, members) {
        forall i, j | 0 <= i < j < |members| ensures members[i].0 != members[j].0 {
          assert members[j] == rest[j - 1];
          if i > 0 { assert members[i] == rest[i - 1]; }
        }
        forall i | 0 <= i < |members| ensures members[i].0 !in taken {
          if i > 0 { assert members[i] == rest[i - 1]; }
        }
      }
    }
  }

  lemma NumeralStart(s: string)
    requires NumberEnd(s, 0).Some?
    ensures s != [] && (s[0] == '-' || IsDigit(s[0]))
  {
  }

  lemma IntStart(i: int)
    ensures IntText(i) != [] && (IntText(i)[0] == '-' || IsDigit(IntText(i)[0]))
  {
  }

  /** The text of a value begins with a character that tells its kind. */
  lemma TextStart(lib: Library, show: Show, v: Json)
    requires Printable(lib, show, v)
    ensures Text(show, v) != []
    ensures var c := Text(show, v)[0];
            && (c == '{' <==> v.Obj?) && (c == '[' <==> v.Arr?) && (c == '"' <==> v.Str?)
            && (c == '-' || IsDigit(c) <==> v.Int? || v.Num?) && !IsSpace(c) && c != ']'
  {
    match v
    case Int(i) => IntStart(i);
    case Num(d) => NumeralStart(show(d));
    case _ =>
  }

  lemma LiteralReads(t: string, p: nat, v: Json)
    requires v.Null? || v.Bool?
    requires At(t, p, if v.Null? then "null" else if v.b then "true" else "false")
    ensures ReadLiteral(t, p) == Some((v, p + if v == Bool(false) then 5 else 4))
  {
    var s := if v.Null? then "null" else if v.b then "true" else "false";
    AtMeans(t, p, s);
    assert forall i {:trigger s[i]} :: 0 <= i < |s| ==> t[p..p + |s|][i] == s[i];
    assert s[0] == t[p] && s[1] == t[p + 1] && s[2] == t[p + 2] && s[3] == t[p + 3];
  }

  lemma NumberReads(lib: Library, show: Show, t: string, p: nat, v: Json)
    requires Printable(lib, show, v) && (v.Int? || v.Num?)
    requires At(t, p, Text(show, v)) && Stop(t, p + |Text(show, v)|)
    ensures ReadNumeral(lib, t, p) == Some((v, p + |Text(show, v)|))
  {
    match v
    case Int(i) => IntReads(lib, t, p, i);
    case Num(d) => DoubleReads(lib, t, p, show(d), d);
  }

  lemma ScalarReads(lib: Library, show: Show, t: string, p: nat, v: Json)
    requires Printable(lib, show, v) && !v.Arr? && !v.Obj?
    requires At(t, p, Text(show, v)) && Stop(t, p + |Text(show, v)|)
    ensures p < |t| && ReadScalar(lib, t, p) == Some((v, p + |Text(show, v)|))
  {
    TextStart(lib, show, v);
    if v.Str? {
      StringReads(t, p, v.s);
    } else if v.Int? || v.Num? {
      NumberReads(lib, show, t, p, v);
    } else {
      LiteralReads(t, p, v);
    }
  }

  lemma Dispatch(lib: Library, t: string, p: nat, left: int)
    requires p < |t| && !IsSpace(t[p])
    ensures ReadValue(lib, t, p, left) ==
            if left < 0 then None
            else if t[p] == '{' then ReadObject(lib, t, p + 1, left)
            else if t[p] == '[' then ReadArray(lib, t, p + 1, left)
            else ReadScalar(lib, t, p)
  {
    assert Space(t, p) == p;
  }

  lemma ScalarValueReads(lib: Library, show: Show, t: string, p: nat, v: Json, left: int)
    requires Printable(lib, show, v) && !v.Arr? && !v.Obj? && At(t, p, Text(show, v)) && Stop(t, p + |Text(show, v)|)
    ensures p <= |t| && ReadValue(lib, t, p, left) == if 0 <= left then Some((v, p + |Text(show, v)|)) else None
  {
    TextStart(lib, show, v);
    ScalarReads(lib, show, t, p, v);
    Dispatch(lib, t, p, left);
  }

  lemma Bracketed(t: string, p: nat, open: char, inner: string, close: char)
    requires At(t, p, [open] + inner + [close])
    ensures Holds(t, p, open) && At(t, p + 1, inner) && Holds(t, p + 1 + |inner|, close)
  {
    AtJoin(t, p, [open] + inner, [close]);
    AtJoin(t, p, [open], inner);
  }

  /** `sofar + rest`, one element at a time as the loops build it. */
  ghost function Built<T>(sofar: seq<T>, rest: seq<T>): seq<T>
    decreases |rest|
  {
    if rest == [] then sofar else Built(sofar + [rest[0]], rest[1..])
  }

  lemma {:induction false} BuiltIs<T>(sofar: seq<T>, rest: seq<T>)
    ensures Built(sofar, rest) == sofar + rest
    decreases |rest|
  {
    if rest == [] {
      assert sofar + rest == sofar;
    } else {
      BuiltIs(sofar + [rest[0]], rest[1..]);
      assert (sofar + [rest[0]]) + rest[1..] == sofar + rest;
    }
  }

  lemma BuiltWhole<T>(all: seq<T>)
    ensures Built([], all) == all
  {
    BuiltIs([], all);
    assert [] + all == all;
  }

  // ----- arrays

  lemma ItemsComma(show: Show, items: seq<Json>)
    requires items != []
    ensures ItemsText(show, items, true) == "," + ItemsText(show, items, false)
  {
  }

  lemma ItemsParts(show: Show, t: string, p: nat, items: seq<Json>) returns (q: nat)
    requires items != [] && At(t, p, ItemsText(show, items, false)) && Holds(t, p + |ItemsText(show, items, false)|, ']')
    ensures At(t, p, ItemText(show, items[0])) && q == p + |ItemText(show, items[0])| && Stop(t, q)
    ensures |items| == 1 ==> Holds(t, q, ']') && q == p + |ItemsText(show, items, false)|
    ensures |items| > 1 ==> Holds(t, q, ',') && At(t, q + 1, ItemsText(show, items[1..], false))
    ensures |items| > 1 ==> q + 1 + |ItemsText(show, items[1..], false)| == p + |ItemsText(show, items, false)|
  {
    var first, rest := ItemText(show, items[0]), ItemsText(show, items[1..], true);
    assert ItemsText(show, items, false) == first + rest;
    AtJoin(t, p, first, rest);
    q := p + |first|;
    if |items| > 1 {
      ItemsComma(show, items[1..]);
      AtJoin(t, q, ",", ItemsText(show, items[1..], false));
    }
  }

  lemma {:induction false} ItemReads(lib: Library, show: Show, t: string, p: nat, v: Json, left: int)
    requires p <= |t| && ItemPrintable(lib, show, v) && At(t, p, ItemText(show, v)) && Stop(t, p + |ItemText(show, v)|)
    ensures p < |t| && t[p] != ']' && !IsSpace(t[p])
    ensures ReadItem(lib, t, p, left) == if ItemHeight(v) <= left then Some((v, p + |ItemText(show, v)|)) else None
    decreases v, 1
  {
    TextStart(lib, show, v);
    ValueReads(lib, show, t, p, v, left);
  }

  /** One turn of the item loop, given what its value reads as. */
  lemma ItemsTurn(lib: Library, t: string, p: nat, left: int, sofar: seq<Json>, v: Json, q: nat)
    requires p <= |t| && q <= |t|
    ensures ReadItem(lib, t, p, left) == None ==> ReadItems(lib, t, p, left, sofar) == None
    ensures ReadItem(lib, t, p, left) == Some((v, q)) && Holds(t, q, ',') ==>
              ReadItems(lib, t, p, left, sofar) == ReadItems(lib, t, q + 1, left, sofar + [v])
    ensures ReadItem(lib, t, p, left) == Some((v, q)) && Holds(t, q, ']') ==>
              ReadItems(lib, t, p, left, sofar) == Some((sofar + [v], q + 1))
  {
    assert q < |t| && !IsSpace(t[q]) ==> Space(t, q) == q;
  }

  /** The first item, and where the others begin. */
  lemma {:induction false} FirstItem(lib: Library, show: Show, t: string, p: nat, items: seq<Json>, left: int) returns (q: nat)
    requires p <= |t| && items != [] && ItemsPrintable(lib, show, items)
    requires At(t, p, ItemsText(show, items, false)) && Holds(t, p + |ItemsText(show, items, false)|, ']')
    ensures p < |t| && t[p] != ']' && !IsSpace(t[p]) && q <= |t|
    ensures ReadItem(lib, t, p, left) == if ItemHeight(items[0]) <= left then Some((items[0], q)) else None
    ensures |items| == 1 ==> Holds(t, q, ']') && q == p + |ItemsText(show, items, false)|
    ensures |items| > 1 ==> Holds(t, q, ',') && At(t, q + 1, ItemsText(show, items[1..], false))
    ensures |items| > 1 ==> q + 1 + |ItemsText(show, items[1..], false)| == p + |ItemsText(show, items, false)|
    decreases items, 1
  {
    q := ItemsParts(show, t, p, items);
    ItemReads(lib, show, t, p, items[0], left);
  }

  lemma {:induction false} ItemsRead(lib: Library, show: Show, t: string, p: nat, items: seq<Json>, sofar: seq<Json>, left: int)
    requires p <= |t| && items != [] && ItemsPrintable(lib, show, items)
    requires At(t, p, ItemsText(show, items, false)) && Holds(t, p + |ItemsText(show, items, false)|, ']')
    ensures ReadItems(lib, t, p, left, sofar) ==
            if ItemsHeight(items) <= left then Some((Built(sofar, items), p + |ItemsText(show, items, false)| + 1)) else None
    decreases items, 2
  {
    var q := FirstItem(lib, show, t, p, items, left);
    ItemsTurn(lib, t, p, left, sofar, items[0], q);
    if |items| > 1 {
      ItemsRead(lib, show, t, q + 1, items[1..], sofar + [items[0]], left);
    }
  }

  lemma {:induction false} ArrayReads(lib: Library, show: Show, t: string, p: nat, items: seq<Json>, left: int)
    requires ItemsPrintable(lib, show, items)
    requires At(t, p, ItemsText(show, items, false)) && Holds(t, p + |ItemsText(show, items, false)|, ']')
    ensures p <= |t| && ReadArray(lib, t, p, left) ==
            if items == [] || ItemsHeight(items) < left then Some((Arr(items), p + |ItemsText(show, items, false)| + 1)) else None
    decreases items, 3
  {
    if items != [] {
      var q := FirstItem(lib, show, t, p, items, left);
      ItemsRead(lib, show, t, p, items, [], left - 1);
      BuiltWhole(items);
    }
  }

  lemma {:induction false} ArrayValueReads(lib: Library, show: Show, t: string, p: nat, items: seq<Json>, left: int)
    requires ItemsPrintable(lib, show, items) && At(t, p, "[" + ItemsText(show, items, false) + "]")
    ensures p <= |t| && ReadValue(lib, t, p, left) ==
            if (items == [] && left >= 0) || ItemsHeight(items) < left then Some((Arr(items), p + |ItemsText(show, items, false)| + 2)) else None
    decreases items, 4
  {
    Bracketed(t, p, '[', ItemsText(show, items, false), ']');
    Dispatch(lib, t, p, left);
    ArrayReads(lib, show, t, p + 1, items, left);
  }

  // ----- objects

  lemma MembersComma(show: Show, members: Members)
    requires members != []
    ensures MembersText(show, members, true) == "," + MembersText(show, members, false)
  {
  }

  lemma MembersParts(show: Show, t: string, p: nat, members: Members) returns (q: nat)
    requires members != [] && At(t, p, MembersText(show, members, false)) && Holds(t, p + |MembersText(show, members, false)|, '}')
    ensures At(t, p, MemberText(show, members[0])) && q == p + |MemberText(show, members[0])| && Stop(t, q)
    ensures |members| == 1 ==> Holds(t, q, '}') && q == p + |MembersText(show, members, false)|
    ensures |members| > 1 ==> Holds(t, q, ',') && At(t, q + 1, MembersText(show, members[1..], false))
    ensures |members| > 1 ==> q + 1 + |MembersText(show, members[1..], false)| == p + |MembersText(show, members, false)|
  {
    var first, rest := MemberText(show, members[0]), MembersText(show, members[1..], true);
    assert MembersText(show, members, false) == first + rest;
    AtJoin(t, p, first, rest);
    q := p + |first|;
    if |members| > 1 {
      MembersComma(show, members[1..]);
      AtJoin(t, q, ",", MembersText(show, members[1..], false));
    }
  }

  lemma MemberParts(show: Show, t: string, p: nat, m: (string, Json)) returns (k: nat)
    requires At(t, p, MemberText(show, m))
    ensures At(t, p, StringText(m.0)) && k == p + |StringText(m.0)| && Holds(t, k, ':')
    ensures At(t, k + 1, Text(show, m.1)) && k + 1 + |Text(show, m.1)| == p + |MemberText(show, m)|
  {
    AtJoin(t, p, StringText(m.0) + ":", Text(show, m.1));
    AtJoin(t, p, StringText(m.0), ":");
    k := p + |StringText(m.0)|;
  }

  lemma KeyReads(t: string, p: nat, key: string)
    requires p <= |t| && At(t, p, StringText(key)) && Holds(t, p + |StringText(key)|, ':')
    ensures ReadKey(t, p) == Some((key, p + |StringText(key)| + 1)) && Holds(t, p, '"')
  {
    StringParts(t, p, key);
    StringReads(t, p, key);
  }

  lemma {:induction false} MemberReads(lib: Library, show: Show, t: string, p: nat, m: (string, Json), left: int)
    requires p <= |t| && MemberPrintable(lib, show, m) && At(t, p, MemberText(show, m)) && Stop(t, p + |MemberText(show, m)|)
    ensures Holds(t, p, '"')
    ensures ReadMember(lib, t, p, left) == if MemberHeight(m) <= left then Some((m, p + |MemberText(show, m)|)) else None
    decreases m, 1
  {
    var k := MemberParts(show, t, p, m);
    KeyReads(t, p, m.0);
    ValueReads(lib, show, t, k + 1, m.1, left);
  }

  lemma NewMember(members: Members, key: string, x: Json)
    requires key !in KeySet(members)
    ensures SetMember(members, key, x) == members + [(key, x)] && KeySet(members + [(key, x)]) == KeySet(members) + {key}
  {
    forall i | 0 <= i < |members| ensures members[i].0 != key { assert members[i].0 in KeySet(members); }
    SetMemberAppends(members, key, x);
    var all := members + [(key, x)];
    forall k | k in KeySet(members) ensures k in KeySet(all) {
      var i :| 0 <= i < |members| && members[i].0 == k;
      assert all[i].0 == k;
    }
    assert all[|members|].0 == key;
  }

  /** One turn of the member loop, given what its member reads as. */
  lemma MembersTurn(lib: Library, t: string, p: nat, left: int, sofar: Members, m: (string, Json), q: nat)
    requires p <= |t| && q <= |t| && m.0 !in KeySet(sofar)
    ensures ReadMember(lib, t, p, left) == None ==> ReadMembers(lib, t, p, left, sofar) == None
    ensures ReadMember(lib, t, p, left) == Some((m, q)) && Holds(t, q, ',') ==>
              ReadMembers(lib, t, p, left, sofar) == ReadMembers(lib, t, q + 1, left, sofar + [m])
    ensures ReadMember(lib, t, p, left) == Some((m, q)) && Holds(t, q, '}') ==>
              ReadMembers(lib, t, p, left, sofar) == Some((sofar + [m], q + 1))
  {
    NewMember(sofar, m.0, m.1);
    assert q < |t| && !IsSpace(t[q]) ==> Space(t, q) == q;
  }

  /** The first member, and where the others begin. */
  lemma {:induction false} FirstMember(lib: Library, show: Show, t: string, p: nat, members: Members, left: int) returns (q: nat)
    requires p <= |t| && members != [] && MembersPrintable(lib, show, members)
    requires At(t, p, MembersText(show, members, false)) && Holds(t, p + |MembersText(show, members, false)|, '}')
    ensures Holds(t, p, '"') && q <= |t|
    ensures ReadMember(lib, t, p, left) == if MemberHeight(members[0]) <= left then Some((members[0], q)) else None
    ensures |members| == 1 ==> Holds(t, q, '}') && q == p + |MembersText(show, members, false)|
    ensures |members| > 1 ==> Holds(t, q, ',') && At(t, q + 1, MembersText(show, members[1..], false))
    ensures |members| > 1 ==> q + 1 + |MembersText(show, members[1..], false)| == p + |MembersText(show, members, false)|
    decreases members, 1
  {
    q := MembersParts(show, t, p, members);
    MemberReads(lib, show, t, p, members[0], left);
  }

  lemma {:induction false} MembersRead(lib: Library, show: Show, t: string, p: nat, members: Members, sofar: Members, left: int)
    requires p <= |t| && members != [] && MembersPrintable(lib, show, members) && NewNames(KeySet(sofar), members)
    requires At(t, p, MembersText(show, members, false)) && Holds(t, p + |MembersText(show, members, false)|, '}')
    ensures ReadMembers(lib, t, p, left, sofar) ==
            if MembersHeight(members) <= left then Some((Built(sofar, members), p + |MembersText(show, members, false)| + 1)) else None
    decreases members, 2
  {
    var q := FirstMember(lib, show, t, p, members, left);
    MembersTurn(lib, t, p, left, sofar, members[0], q);
    if |members| > 1 {
      NewRest(sofar, members);
      MembersRead(lib, show, t, q + 1, members[1..], sofar + [members[0]], left);
    }
  }

  lemma NewRest(sofar: Members, members: Members)
    requires members != [] && NewNames(KeySet(sofar), members)
    ensures NewNames(KeySet(sofar + [members[0]]), members[1..])
  {
    NewMember(sofar, members[0].0, members[0].1);
  }

  lemma {:induction false} AllMembersRead(lib: Library, show: Show, t: string, p: nat, members: Members, left: int)
    requires p <= |t| && members != [] && MembersPrintable(lib, show, members) && NewNames({}, members)
    requires At(t, p, MembersText(show, members, false)) && Holds(t, p + |MembersText(show, members, false)|, '}')
    ensures ReadMembers(lib, t, p, left, []) ==
            if MembersHeight(members) <= left then Some((members, p + |MembersText(show, members, false)| + 1)) else None
    decreases members, 3
  {
    assert KeySet([]) == {};
    MembersRead(lib, show, t, p, members, [], left);
    BuiltWhole(members);
  }

  lemma {:induction false} ObjectReads(lib: Library, show: Show, t: string, p: nat, members: Members, left: int)
    requires NewNames({}, members) && MembersPrintable(lib, show, members)
    requires At(t, p, MembersText(show, members, false)) && Holds(t, p + |MembersText(show, members, false)|, '}')
    ensures p <= |t| && ReadObject(lib, t, p, left) ==
            if members == [] || MembersHeight(members) < left then Some((Obj(members), p + |MembersText(show, members, false)| + 1)) else None
    decreases members, 4
  {
    if members != [] {
      var q := FirstMember(lib, show, t, p, members, left);
      AllMembersRead(lib, show, t, p, members, left - 1);
    }
  }

  lemma {:induction false} ObjectValueReads(lib: Library, show: Show, t: string, p: nat, members: Members, left: int)
    requires NewNames({}, members) && MembersPrintable(lib, show, members) && At(t, p, "{" + MembersText(show, members, false) + "}")
    ensures p <= |t| && ReadValue(lib, t, p, left) ==
            if (members == [] && left >= 0) || MembersHeight(members) < left then
              Some((Obj(members), p + |MembersText(show, members, false)| + 2))
            else None
    decreases members, 5
  {
    Bracketed(t, p, '{', MembersText(show, members, false), '}');
    Dispatch(lib, t, p, left);
    ObjectReads(lib, show, t, p + 1, members, left);
  }

  /**
   The serializer's text of a value reads back as that value, and ends where the text ends, exactly
   when the nesting allowed is at least the nesting there is.
   */
  lemma {:induction false} ValueReads(lib: Library, show: Show, t: string, p: nat, v: Json, left: int)
    requires p <= |t| && Printable(lib, show, v) && At(t, p, Text(show, v)) && Stop(t, p + |Text(show, v)|)
    ensures ReadValue(lib, t, p, left) == if Height(v) <= left then Some((v, p + |Text(show, v)|)) else None
    decreases v, 0
  {
    match v
    case Arr(items) => ArrayValueReads(lib, show, t, p, items, left);
    case Obj(members) => ObjectValueReads(lib, show, t, p, members, left);
    case _ => ScalarValueReads(lib, show, t, p, v, left);
  }

  /** The round trip, and just when it holds: no more than 64 levels below the top. */
  lemma ParseOfText(lib: Library, show: Show, v: Json)
    requires Printable(lib, show, v)
    ensures Parse(lib, Text(show, v)) == if Height(v) <= MAX_DEPTH then Some(v) else None
  {
    var t := Text(show, v);
    AtMeans(t, 0, t);
    assert t[0..|t|] == t;
    ValueReads(lib, show, t, 0, v, MAX_DEPTH);
  }

  /** Two values with one text are one value, however deep. */
  lemma TextInjective(lib: Library, show: Show, v: Json, w: Json)
    requires Printable(lib, show, v) && Printable(lib, show, w) && Text(show, v) == Text(show, w)
    ensures v == w
  {
    var t, left := Text(show, v), Height(v) + Height(w);
    AtMeans(t, 0, t);
    assert t[0..|t|] == t;
    ValueReads(lib, show, t, 0, v, left);
    ValueReads(lib, show, t, 0, w, left);
  }

  /** So looking for a value among others by its text finds it exactly when it is there. */
  lemma TextMembership(lib: Library, show: Show, v: Json, values: seq<Json>)
    requires Printable(lib, show, v) && forall w :: w in values ==> Printable(lib, show, w)
    ensures (exists w :: w in values && Text(show, w) == Text(show, v)) <==> v in values
  {
    if w :| w in values && Text(show, w) == Text(show, v) { TextInjective(lib, show, v, w); }
  }
}
