/** The parser and the serializer of tools/axiom_aliced_json.h as they run: a moving position, and an output string. */
module JsonParser {
  import opened Common
  import opened Decimal
  import opened Json
  import opened JsonStrings
  import opened JsonNumbers
  import opened JsonText

  /** A parse step's outcome agrees with what the text holds. */
  ghost predicate Agrees<T>(expected: Option<(T, nat)>, ok: bool, value: T, p: nat) {
    if ok then expected == Some((value, p)) else expected == None
  }

  /** Comparing a slice with a word is comparing their characters. */
  lemma LiteralSlices(t: string, p: nat)
    requires p <= |t|
    ensures p + 4 <= |t| ==>
              && (t[p..p + 4] == "true" <==> t[p] == 't' && t[p + 1] == 'r' && t[p + 2] == 'u' && t[p + 3] == 'e')
              && (t[p..p + 4] == "null" <==> t[p] == 'n' && t[p + 1] == 'u' && t[p + 2] == 'l' && t[p + 3] == 'l')
    ensures p + 5 <= |t| ==>
              (t[p..p + 5] == "false" <==> t[p] == 'f' && t[p + 1] == 'a' && t[p + 2] == 'l' && t[p + 3] == 's' && t[p + 4] == 'e')
  {
    if p + 4 <= |t| {
      var w := t[p..p + 4];
      assert w[0] == t[p] && w[1] == t[p + 1] && w[2] == t[p + 2] && w[3] == t[p + 3];
    }
    if p + 5 <= |t| {
      var w := t[p..p + 5];
      assert w[0] == t[p] && w[1] == t[p + 1] && w[2] == t[p + 2] && w[3] == t[p + 3] && w[4] == t[p + 4];
    }
  }

  /** One turn of the member loop. */
  lemma MembersLoop(lib: Library, t: string, p: nat, left: int, sofar: Members)
    requires p <= |t|
    ensures ReadMembers(lib, t, p, left, sofar) ==
            match ReadMember(lib, t, p, left)
            case None => None
            case Some((m, q)) =>
              if Holds(t, Space(t, q), ',') then ReadMembers(lib, t, Space(t, q) + 1, left, SetMember(sofar, m.0, m.1))
              else if Holds(t, Space(t, q), '}') then Some((SetMember(sofar, m.0, m.1), Space(t, q) + 1))
              else None
  {
  }

  class Parser {
    const t: string
    const lib: Library
    var p: nat

    ghost predicate Valid()
      reads this
    {
      p <= |t|
    }

    constructor (text: string, library: Library)
      ensures Valid() && t == text && lib == library && p == 0
    {
      t, lib, p := text, library, 0;
    }

    method SkipSpace()
      requires Valid()
      modifies this
      ensures Valid() && p == Space(t, old(p))
    {
      while p < |t| && IsSpace(t[p])
        invariant Valid() && Space(t, p) == Space(t, old(p))
        decreases |t| - p
      {
        p := p + 1;
      }
    }

    method ParseHex() returns (ok: bool, v: nat)
      requires Valid()
      modifies this
      ensures Valid() && ok == HexFour(t, old(p)).Some?
      ensures ok ==> v == HexFour(t, old(p)).value && p == old(p) + 4
    {
      v := 0;
      if |t| - p < 4 { return false, 0; }
      for n := 0 to 4
        invariant p == old(p) && ReadHex(t, p, 4, 0) == ReadHex(t, p + n, 4 - n, v)
      {
        var d := HexValue(t[p + n]);
        if d.None? { return false, 0; }
        v := v * 16 + d.value;
      }
      p := p + 4;
      ok := true;
    }

    /** After a backslash and a `u`. */
    method ParseUnicode() returns (ok: bool, bytes: string)
      requires Valid()
      modifies this
      ensures Valid() && Agrees(ReadUnicode(t, old(p)), ok, bytes, p)
    {
      bytes := "";
      var cp, low;
      ok, cp := ParseHex();
      if !ok { return; }
      if High(cp) && |t| - p >= 6 && t[p] == '\\' && t[p + 1] == 'u' {
        var save := p;
        p := p + 2;
        ok, low := ParseHex();
        if !ok { return; }
        if Low(low) { return true, Utf8(Paired(cp, low)); }
        p := save;
      }
      return true, Utf8(cp);
    }

    method ParseEscape() returns (ok: bool, bytes: string)
      requires Valid()
      modifies this
      ensures Valid() && Agrees(ReadEscape(t, old(p)), ok, bytes, p)
    {
      if p >= |t| { return false, ""; }
      var e := t[p];
      p := p + 1;
      match LetterValue(e)
      case Some(c) => return true, [c];
      case None =>
        if e != 'u' { return false, ""; }
        ok, bytes := ParseUnicode();
    }

    method ParseString() returns (ok: bool, out: string)
      requires Valid()
      modifies this
      ensures Valid() && Agrees(ReadString(t, old(p)), ok, out, p)
    {
      out := "";
      if p >= |t| || t[p] != '"' { return false, out; }
      p := p + 1;
      while p < |t|
        invariant Valid() && ReadChars(t, p, out) == ReadString(t, old(p))
        decreases |t| - p
      {
        if t[p] == '"' { p := p + 1; return true, out; }
        if t[p] == '\\' {
          p := p + 1;
          var done, bytes := ParseEscape();
          if !done { return false, out; }
          out := out + bytes;
        } else {
          if t[p] < ' ' { return false, out; }
          out := out + [t[p]];
          p := p + 1;
        }
      }
      ok := false;
    }

    method SkipDigits()
      requires Valid()
      modifies this
      ensures Valid() && p == EndOfDigits(t, old(p))
    {
      while p < |t| && IsDigit(t[p])
        invariant Valid() && EndOfDigits(t, p) == EndOfDigits(t, old(p))
        decreases |t| - p
      {
        p := p + 1;
      }
    }

    method SkipFraction() returns (ok: bool)
      requires Valid()
      modifies this
      ensures Valid() && ok == AfterFraction(t, old(p)).Some?
      ensures ok ==> p == AfterFraction(t, old(p)).value
    {
      ok := true;
      if p < |t| && t[p] == '.' {
        p := p + 1;
        if p >= |t| || !IsDigit(t[p]) { return false; }
        SkipDigits();
      }
    }

    method SkipExponent() returns (ok: bool)
      requires Valid()
      modifies this
      ensures Valid() && ok == AfterExponent(t, old(p)).Some?
      ensures ok ==> p == AfterExponent(t, old(p)).value
    {
      ok := true;
      if p < |t| && (t[p] == 'e' || t[p] == 'E') {
        p := p + 1;
        if p < |t| && (t[p] == '+' || t[p] == '-') { p := p + 1; }
        if p >= |t| || !IsDigit(t[p]) { return false; }
        SkipDigits();
      }
    }

    method SkipNumber() returns (ok: bool, whole: bool)
      requires Valid()
      modifies this
      ensures Valid() && Agrees(NumberSpan(t, old(p)), ok, whole, p)
    {
      whole := true;
      if p < |t| && t[p] == '-' { p := p + 1; }
      if p >= |t| || !IsDigit(t[p]) { return false, whole; }
      if t[p] == '0' { p := p + 1; } else { SkipDigits(); }
      var end := p;
      ok := SkipFraction();
      if !ok { return; }
      ok := SkipExponent();
      whole := p == end;
    }

    method ParseNumber() returns (ok: bool, v: Json)
      requires Valid()
      modifies this
      ensures Valid() && Agrees(ReadNumeral(lib, t, old(p)), ok, v, p)
    {
      v := Null;
      var start, whole := p, true;
      ok, whole := SkipNumber();
      if !ok { return; }
      var lexeme := t[start..p];
      if whole {
        WholeIsInt(t, start);
        var i := IntOf(lexeme).value;
        if Fits(i) { return true, Int(i); }
      }
      match lib(lexeme)
      case None => ok := false;
      case Some(d) => v := Num(d);
    }

    method ParseLiteral() returns (ok: bool, v: Json)
      requires Valid() && p < |t|
      modifies this
      ensures Valid() && Agrees(ReadLiteral(t, old(p)), ok, v, p)
    {
      LiteralSlices(t, p);
      if |t| - p >= 4 && t[p..p + 4] == "true" {
        p := p + 4;
        return true, Bool(true);
      } else if |t| - p >= 5 && t[p..p + 5] == "false" {
        p := p + 5;
        return true, Bool(false);
      } else if |t| - p >= 4 && t[p..p + 4] == "null" {
        p := p + 4;
        return true, Null;
      }
      return false, Null;
    }

    method ParseScalar() returns (ok: bool, v: Json)
      requires Valid() && p < |t|
      modifies this
      ensures Valid() && Agrees(ReadScalar(lib, t, old(p)), ok, v, p)
    {
      if t[p] == '"' {
        var s;
        ok, s := ParseString();
        v := Str(s);
      } else if t[p] == '-' || IsDigit(t[p]) {
        ok, v := ParseNumber();
      } else {
        ok, v := ParseLiteral();
      }
    }

    method ParseValue(depth: nat) returns (ok: bool, v: Json)
      requires Valid()
      modifies this
      ensures Valid() && Agrees(ReadValue(lib, t, old(p), MAX_DEPTH - depth), ok, v, p)
      decreases |t| - p, 2
    {
      if depth > MAX_DEPTH { return false, Null; }
      SkipSpace();
      if p >= |t| { return false, Null; }
      if t[p] == '{' {
        p := p + 1;
        ok, v := ParseObject(depth);
      } else if t[p] == '[' {
        p := p + 1;
        ok, v := ParseArray(depth);
      } else {
        ok, v := ParseScalar();
      }
    }

    method ParseArray(depth: nat) returns (ok: bool, v: Json)
      requires Valid()
      modifies this
      ensures Valid() && Agrees(ReadArray(lib, t, old(p), MAX_DEPTH - depth), ok, v, p)
      decreases |t| - p, 5
    {
      SkipSpace();
      if Holds(t, p, ']') { p := p + 1; return true, Arr([]); }
      var items;
      ok, items := ParseItems(depth + 1);
      v := Arr(items);
    }

    method ParseItems(depth: nat) returns (ok: bool, items: seq<Json>)
      requires Valid()
      modifies this
      ensures Valid() && Agrees(ReadItems(lib, t, old(p), MAX_DEPTH - depth, []), ok, items, p)
      decreases |t| - p, 4
    {
      items := [];
      while true
        invariant Valid() && old(p) <= p
        invariant ReadItems(lib, t, p, MAX_DEPTH - depth, items) == ReadItems(lib, t, old(p), MAX_DEPTH - depth, [])
        decreases |t| - p
      {
        var done, item := ParseValue(depth);
        if !done { return false, items; }
        items := items + [item];
        SkipSpace();
        if Holds(t, p, ',') {
          p := p + 1;
        } else {
          ok := Holds(t, p, ']');
          if ok { p := p + 1; }
          return;
        }
      }
    }

    method ParseObject(depth: nat) returns (ok: bool, v: Json)
      requires Valid()
      modifies this
      ensures Valid() && Agrees(ReadObject(lib, t, old(p), MAX_DEPTH - depth), ok, v, p)
      decreases |t| - p, 5
    {
      SkipSpace();
      if Holds(t, p, '}') { p := p + 1; return true, Obj([]); }
      var members;
      ok, members := ParseMembers(depth + 1);
      v := Obj(members);
    }

    method ParseMembers(depth: nat) returns (ok: bool, members: Members)
      requires Valid()
      modifies this
      ensures Valid() && Agrees(ReadMembers(lib, t, old(p), MAX_DEPTH - depth, []), ok, members, p)
      decreases |t| - p, 4
    {
      members := [];
      while true
        invariant Valid() && old(p) <= p
        invariant ReadMembers(lib, t, p, MAX_DEPTH - depth, members) == ReadMembers(lib, t, old(p), MAX_DEPTH - depth, [])
        decreases |t| - p
      {
        MembersLoop(lib, t, p, MAX_DEPTH - depth, members);
        var done, m := ParseMember(depth);
        if !done { return false, members; }
        members := SetMember(members, m.0, m.1);
        SkipSpace();
        if Holds(t, p, ',') {
          p := p + 1;
        } else {
          ok := Holds(t, p, '}');
          if ok { p := p + 1; }
          return;
        }
      }
    }

    method ParseMember(depth: nat) returns (ok: bool, m: (string, Json))
      requires Valid()
      modifies this
      ensures Valid() && Agrees(ReadMember(lib, t, old(p), MAX_DEPTH - depth), ok, m, p)
      decreases |t| - p, 3
    {
      var key, v;
      SkipSpace();
      ok, key := ParseString();
      if !ok { return false, ("", Null); }
      SkipSpace();
      if !Holds(t, p, ':') { return false, ("", Null); }
      p := p + 1;
      ok, v := ParseValue(depth);
      m := (key, v);
    }

    /** ajson_parse. */
    method ParseAll() returns (r: Option<Json>)
      requires p == 0
      modifies this
      ensures r == Parse(lib, t)
    {
      var ok, v := ParseValue(0);
      if !ok { return None; }
      SkipSpace();
      r := if p == |t| then Some(v) else None;
    }
  }

  /** NumberEnd with its parts in the order the parser gives them. */
  ghost function NumberSpan(t: string, p: nat): Option<(bool, nat)> {
    match NumberEnd(t, p)
    case None => None
    case Some((end, whole)) => Some((whole, end))
  }

  // -------------------------------------------------------------------- serializer

  lemma Regroup(a: string, b: string, c: string)
    ensures a + (b + c) == a + b + c
  {
  }

  lemma EscapedStep(s: string, n: nat)
    requires n < |s|
    ensures EscapedAll(s[n..]) == Escaped(s[n]) + EscapedAll(s[n + 1..])
  {
    assert s[n..][1..] == s[n + 1..];
  }

  lemma ItemsFrom(show: Show, items: seq<Json>, n: nat)
    requires n < |items|
    ensures ItemsText(show, items[n..], n > 0) == Comma(n > 0) + ItemText(show, items[n]) + ItemsText(show, items[n + 1..], true)
  {
    assert items[n..][1..] == items[n + 1..];
  }

  lemma MembersFrom(show: Show, members: Members, n: nat)
    requires n < |members|
    ensures MembersText(show, members[n..], n > 0) == Comma(n > 0) + MemberText(show, members[n]) + MembersText(show, members[n + 1..], true)
  {
    assert members[n..][1..] == members[n + 1..];
  }

  class Writer {
    var out: string
    const show: Show

    constructor (format: Show)
      ensures out == "" && show == format
    {
      out, show := "", format;
    }

    method WriteEscaped(c: char)
      modifies this
      ensures out == old(out) + Escaped(c)
    {
      match LetterFor(c)
      case Some(e) => out := out + ['\\', e];
      case None =>
        if c < ' ' {
          out := out + "\\u00";
          out := out + [HexChar(c as int / 16)];
          out := out + [HexChar(c as int % 16)];
        } else {
          out := out + [c];
        }
    }

    method WriteString(s: string)
      modifies this
      ensures out == old(out) + StringText(s)
    {
      out := out + "\"";
      for n := 0 to |s|
        invariant out + EscapedAll(s[n..]) == old(out) + "\"" + EscapedAll(s)
      {
        EscapedStep(s, n);
        Regroup(out, Escaped(s[n]), EscapedAll(s[n + 1..]));
        WriteEscaped(s[n]);
      }
      assert out == old(out) + "\"" + EscapedAll(s) by { assert s[|s|..] == []; }
      out := out + "\"";
      Regroup(old(out), "\"" + EscapedAll(s), "\"");
    }

    method WriteItems(items: seq<Json>)
      modifies this
      ensures out == old(out) + ItemsText(show, items, false)
      decreases items, 2
    {
      for n := 0 to |items|
        invariant out + ItemsText(show, items[n..], n > 0) == old(out) + ItemsText(show, items, false)
      {
        ItemsFrom(show, items, n);
        Regroup(out, Comma(n > 0) + ItemText(show, items[n]), ItemsText(show, items[n + 1..], true));
        Regroup(out, Comma(n > 0), ItemText(show, items[n]));
        if n > 0 { out := out + ","; }
        Write(items[n]);
      }
    }

    method WriteMember(m: (string, Json))
      modifies this
      ensures out == old(out) + MemberText(show, m)
      decreases m, 1
    {
      WriteString(m.0);
      out := out + ":";
      Write(m.1);
    }

    method WriteMembers(members: Members)
      modifies this
      ensures out == old(out) + MembersText(show, members, false)
      decreases members, 2
    {
      for n := 0 to |members|
        invariant out + MembersText(show, members[n..], n > 0) == old(out) + MembersText(show, members, false)
      {
        MembersFrom(show, members, n);
        Regroup(out, Comma(n > 0) + MemberText(show, members[n]), MembersText(show, members[n + 1..], true));
        Regroup(out, Comma(n > 0), MemberText(show, members[n]));
        if n > 0 { out := out + ","; }
        WriteMember(members[n]);
      }
    }

    /** ajson_dump. */
    method Write(v: Json)
      modifies this
      ensures out == old(out) + Text(show, v)
      decreases v, 0
    {
      match v
      case Null => out := out + "null";
      case Bool(b) => out := out + if b then "true" else "false";
      case Int(i) => out := out + IntText(i);
      case Num(d) => out := out + show(d);
      case Str(s) => WriteString(s);
      case Arr(items) =>
        out := out + "[";
        WriteItems(items);
        out := out + "]";
      case Obj(members) =>
        out := out + "{";
        WriteMembers(members);
        out := out + "}";
    }
  }
}
