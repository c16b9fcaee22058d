/** JSON strings of tools/axiom_aliced_json.h: escapes, surrogate pairs and UTF-8. */
module JsonStrings {
  import opened Common
  import opened Decimal

  /** The text `t` holds `s` from position `p` on. */
  predicate At(t: string, p: nat, s: string)
    decreases |s|
  {
    p <= |t| && (s == [] || (p < |t| && t[p] == s[0] && At(t, p + 1, s[1..])))
  }

  lemma {:induction false} AtJoin(t: string, p: nat, a: string, b: string)
    ensures At(t, p, a + b) <==> At(t, p, a) && At(t, p + |a|, b)
    decreases |a|
  {
    if a == [] {
      assert a + b == b;
    } else {
      assert (a + b)[1..] == a[1..] + b;
      AtJoin(t, p + 1, a[1..], b);
    }
  }

  /** The same, said with a slice. */
  lemma {:induction false} AtMeans(t: string, p: nat, s: string)
    ensures At(t, p, s) <==> p + |s| <= |t| && t[p..p + |s|] == s
    decreases |s|
  {
    if s != [] {
      AtMeans(t, p + 1, s[1..]);
      if p + |s| <= |t| {
        assert t[p..p + |s|] == [t[p]] + t[p + 1..p + |s|];
        assert s == [s[0]] + s[1..];
        assert t[p..p + |s|][1..] == t[p + 1..p + 1 + |s[1..]|];
      }
    }
  }

  // ---------------------------------------------------------------------- UTF-8

  function Byte(n: nat): char
    requires n < 256
  {
    n as char
  }

  /** utf8_append; lone surrogates are encoded like any other code point. */
  function Utf8(cp: nat): string
    requires cp < 0x110000
  {
    if cp < 0x80 then [Byte(cp)]
    else if cp < 0x800 then [Byte(0xC0 + cp / 64), Byte(0x80 + cp % 64)]
    else if cp < 0x10000 then [Byte(0xE0 + cp / 4096), Byte(0x80 + cp / 64 % 64), Byte(0x80 + cp % 64)]
    else [Byte(0xF0 + cp / 262144), Byte(0x80 + cp / 4096 % 64), Byte(0x80 + cp / 64 % 64), Byte(0x80 + cp % 64)]
  }

  function Tail(c: char): int { c as int - 0x80 }

  /** The code point whose encoding the bytes are, by the length the first byte announces. */
  function CodePoint(s: string): int {
    if |s| == 1 then s[0] as int
    else if |s| == 2 then (s[0] as int - 0xC0) * 64 + Tail(s[1])
    else if |s| == 3 then (s[0] as int - 0xE0) * 4096 + Tail(s[1]) * 64 + Tail(s[2])
    else if |s| == 4 then (s[0] as int - 0xF0) * 262144 + Tail(s[1]) * 4096 + Tail(s[2]) * 64 + Tail(s[3])
    else -1
  }

  lemma Sixes(cp: nat)
    ensures cp == cp / 64 * 64 + cp % 64
    ensures cp / 64 == cp / 4096 * 64 + cp / 64 % 64
    ensures cp / 4096 == cp / 262144 * 64 + cp / 4096 % 64
  {
    assert cp / 64 / 64 == cp / 4096;
    assert cp / 4096 / 64 == cp / 262144;
  }

  /** Encoding loses nothing, and the first byte announces the length. */
  lemma CodePointOfUtf8(cp: nat)
    requires cp < 0x110000
    ensures CodePoint(Utf8(cp)) == cp
    ensures var first := Utf8(cp)[0] as int;
            |Utf8(cp)| == if first < 0x80 then 1 else if first < 0xE0 then 2 else if first < 0xF0 then 3 else 4
  {
    Sixes(cp);
  }

  // ------------------------------------------------------------- unicode escapes

  /** The value `n` more hexadecimal digits give to `value`. */
  function ReadHex(t: string, p: nat, n: nat, value: nat): (r: Option<nat>)
    requires p + n <= |t|
    decreases n
  {
    if n == 0 then Some(value)
    else match HexValue(t[p])
      case None => None
      case Some(d) => ReadHex(t, p + 1, n - 1, value * 16 + d)
  }

  lemma {:induction false} ReadHexBounded(t: string, p: nat, n: nat, value: nat, bound: nat)
    requires p + n <= |t| && value < bound && ReadHex(t, p, n, value).Some?
    ensures ReadHex(t, p, n, value).value < Shifted(bound, n)
    decreases n
  {
    if n > 0 {
      HexValueBounded(t[p]);
      ReadHexBounded(t, p + 1, n - 1, value * 16 + HexValue(t[p]).value, bound * 16);
    }
  }

  function Shifted(bound: nat, n: nat): nat
    decreases n
  {
    if n == 0 then bound else Shifted(bound * 16, n - 1)
  }

  /** The value of four hexadecimal digits. */
  function HexFour(t: string, p: nat): (r: Option<nat>)
    ensures r.Some? ==> r.value < 0x10000 && p + 4 <= |t|
  {
    if p + 4 > |t| then None
    else
      var r := ReadHex(t, p, 4, 0);
      assert r.Some? ==> r.value < 0x10000 by {
        if r.Some? {
          ReadHexBounded(t, p, 4, 0, 1);
          assert Shifted(1, 4) == Shifted(16, 3) == Shifted(256, 2) == Shifted(4096, 1);
        }
      }
      r
  }

  predicate High(cp: nat) { 0xD800 <= cp <= 0xDBFF }

  predicate Low(cp: nat) { 0xDC00 <= cp <= 0xDFFF }

  function Paired(high: nat, low: nat): (cp: nat)
    requires High(high) && Low(low)
    ensures 0x10000 <= cp < 0x110000
  {
    0x10000 + (high - 0xD800) * 1024 + (low - 0xDC00)
  }

  /** What follows a backslash and a `u`: the bytes it stands for and where it ends. */
  function ReadUnicode(t: string, p: nat): (r: Option<(string, nat)>)
    ensures r.Some? ==> p < r.value.1 <= |t|
  {
    match HexFour(t, p)
    case None => None
    case Some(cp) =>
      if High(cp) && p + 10 <= |t| && t[p + 4] == '\\' && t[p + 5] == 'u' then
        match HexFour(t, p + 6)
        case None => None
        case Some(low) => if Low(low) then Some((Utf8(Paired(cp, low)), p + 10)) else Some((Utf8(cp), p + 4))
      else Some((Utf8(cp), p + 4))
  }

  function HexText(n: nat): string
    requires n < 0x10000
  {
    [HexChar(n / 4096), HexChar(n / 256 % 16), HexChar(n / 16 % 16), HexChar(n % 16)]
  }

  lemma HexFourOfText(t: string, p: nat, n: nat)
    requires n < 0x10000 && At(t, p, HexText(n))
    ensures HexFour(t, p) == Some(n)
  {
    var s := HexText(n);
    assert s[1..][1..] == s[2..] && s[2..][1..] == s[3..];
    assert At(t, p + 1, s[1..]) && At(t, p + 2, s[2..]) && At(t, p + 3, s[3..]);
    var a, b, c, d := n / 4096, n / 256 % 16, n / 16 % 16, n % 16;
    assert n / 16 == n / 256 * 16 + c by { assert n / 16 / 16 == n / 256; }
    assert n / 256 == a * 16 + b by { assert n / 256 / 16 == a; }
    assert ReadHex(t, p, 4, 0) == ReadHex(t, p + 1, 3, a) == ReadHex(t, p + 2, 2, n / 256);
    assert ReadHex(t, p + 2, 2, n / 256) == ReadHex(t, p + 3, 1, n / 16) == ReadHex(t, p + 4, 0, n);
  }

  /** How a writer that keeps to ASCII spells a code point: one escape, or a surrogate pair. */
  function AsciiEscape(cp: nat): string
    requires cp < 0x110000
  {
    if cp < 0x10000 then "\\u" + HexText(cp)
    else "\\u" + HexText(0xD800 + (cp - 0x10000) / 1024) + "\\u" + HexText(0xDC00 + (cp - 0x10000) % 1024)
  }

  /** Another escape of four characters follows, whatever they are. */
  predicate EscapeFollows(t: string, q: nat) {
    q + 6 <= |t| && t[q] == '\\' && t[q + 1] == 'u'
  }

  /** The escape at `q` is a low surrogate. */
  predicate LowFollows(t: string, q: nat) {
    EscapeFollows(t, q) && HexFour(t, q + 2).Some? && Low(HexFour(t, q + 2).value)
  }

  /** Such an escape reads as the UTF-8 of the code point and ends where it ends, unless it is a high surrogate right
      before another escape: then it is joined if and only if that one is a low surrogate, and refused if and only
      if that one has a character that is no hexadecimal digit. */
  lemma AsciiEscapeReads(t: string, p: nat, cp: nat)
    requires cp < 0x110000 && At(t, p, AsciiEscape(cp))
    ensures var q, r := p + |AsciiEscape(cp)|, ReadUnicode(t, p + 2);
            && (r.None? <==> High(cp) && EscapeFollows(t, q) && HexFour(t, q + 2).None?)
            && (r == Some((Utf8(cp), q)) <==> !(High(cp) && (LowFollows(t, q) || r.None?)))
            && (High(cp) && LowFollows(t, q) ==> r == Some((Utf8(Paired(cp, HexFour(t, q + 2).value)), q + 6)))
  {
    if cp < 0x10000 {
      AtJoin(t, p, "\\u", HexText(cp));
      HexFourOfText(t, p + 2, cp);
    } else {
      var high, low := 0xD800 + (cp - 0x10000) / 1024, 0xDC00 + (cp - 0x10000) % 1024;
      AtJoin(t, p, "\\u" + HexText(high) + "\\u", HexText(low));
      AtJoin(t, p, "\\u" + HexText(high), "\\u");
      AtJoin(t, p, "\\u", HexText(high));
      HexFourOfText(t, p + 2, high);
      HexFourOfText(t, p + 8, low);
      assert t[p + 6..p + 8][0] == t[p + 6] && t[p + 6..p + 8][1] == t[p + 7];
      assert Paired(high, low) == cp;
    }
  }

  // ---------------------------------------------------------------------- strings

  /** The byte a one-letter escape stands for. */
  function LetterValue(e: char): Option<char> {
    if e == '"' || e == '\\' || e == '/' then Some(e)
    else if e == 'b' then Some(Byte(8)) else if e == 'f' then Some(Byte(12))
    else if e == 'n' then Some('\n') else if e == 'r' then Some('\r') else if e == 't' then Some('\t')
    else None
  }

  /** The bytes written with a one-letter escape. */
  function LetterFor(c: char): (r: Option<char>)
    ensures r.Some? ==> LetterValue(r.value) == Some(c)
    ensures r.None? ==> c != '"' && c != '\\'
  {
    if c == '"' || c == '\\' then Some(c)
    else if c == Byte(8) then Some('b') else if c == Byte(12) then Some('f')
    else if c == '\n' then Some('n') else if c == '\r' then Some('r') else if c == '\t' then Some('t')
    else None
  }

  /** What follows a backslash. */
  function ReadEscape(t: string, p: nat): (r: Option<(string, nat)>)
    ensures r.Some? ==> p < r.value.1 <= |t|
  {
    if p >= |t| then None
    else match LetterValue(t[p])
      case Some(c) => Some(([c], p + 1))
      case None => if t[p] == 'u' then ReadUnicode(t, p + 1) else None
  }

  /** One character of a string, escaped or not. */
  function ReadOne(t: string, p: nat): (r: Option<(string, nat)>)
    requires p < |t|
    ensures r.Some? ==> p < r.value.1 <= |t|
  {
    if t[p] == '\\' then ReadEscape(t, p + 1)
    else if t[p] < ' ' then None
    else Some(([t[p]], p + 1))
  }

  /** The rest of a string that has begun with `sofar`, up to and over its closing quote. */
  function ReadChars(t: string, p: nat, sofar: string): (r: Option<(string, nat)>)
    ensures r.Some? ==> p < r.value.1 <= |t|
    decreases |t| - p
  {
    if p >= |t| then None
    else if t[p] == '"' then Some((sofar, p + 1))
    else match ReadOne(t, p)
      case None => None
      case Some((bytes, q)) => ReadChars(t, q, sofar + bytes)
  }

  function ReadString(t: string, p: nat): (r: Option<(string, nat)>)
    ensures r.Some? ==> p < r.value.1 <= |t|
  {
    if p >= |t| || t[p] != '"' then None else ReadChars(t, p + 1, "")
  }

  /** How one byte is written. */
  function Escaped(c: char): (s: string)
    ensures s != []
  {
    match LetterFor(c)
    case Some(e) => ['\\', e]
    case None => if c < ' ' then "\\u" + HexText(c as int) else [c]
  }

  function EscapedAll(s: string): string {
    if s == [] then "" else Escaped(s[0]) + EscapedAll(s[1..])
  }

  function StringText(s: string): string { "\"" + EscapedAll(s) + "\"" }

  lemma EscapedReads(t: string, p: nat, c: char)
    requires At(t, p, Escaped(c))
    ensures p < |t| && t[p] != '"' && ReadOne(t, p) == Some(([c], p + |Escaped(c)|))
  {
    var s := Escaped(c);
    if LetterFor(c).None? && c < ' ' {
      AtJoin(t, p, "\\u", HexText(c as int));
      HexFourOfText(t, p + 2, c as int);
    }
  }

  /** A quote stands at `p`. */
  predicate Quote(t: string, p: nat) { p < |t| && t[p] == '"' }

  lemma CharsStep(t: string, p: nat, s: string, sofar: string) returns (q: nat)
    requires At(t, p, EscapedAll(s)) && s != []
    ensures At(t, q, EscapedAll(s[1..])) && q + |EscapedAll(s[1..])| == p + |EscapedAll(s)|
    ensures ReadChars(t, p, sofar) == ReadChars(t, q, sofar + [s[0]])
  {
    AtJoin(t, p, Escaped(s[0]), EscapedAll(s[1..]));
    EscapedReads(t, p, s[0]);
    q := p + |Escaped(s[0])|;
  }

  lemma {:induction false} CharsRead(t: string, p: nat, s: string, sofar: string)
    requires At(t, p, EscapedAll(s)) && Quote(t, p + |EscapedAll(s)|)
    ensures ReadChars(t, p, sofar) == Some((sofar + s, p + |EscapedAll(s)| + 1))
    decreases |s|
  {
    if s == [] {
      assert sofar + s == sofar;
    } else {
      var q := CharsStep(t, p, s, sofar);
      CharsRead(t, q, s[1..], sofar + [s[0]]);
      assert sofar + [s[0]] + s[1..] == sofar + s;
    }
  }

  /** A written string reads back, whatever its bytes. */
  lemma StringReads(t: string, p: nat, s: string)
    requires At(t, p, StringText(s))
    ensures ReadString(t, p) == Some((s, p + |StringText(s)|))
  {
    StringParts(t, p, s);
    CharsRead(t, p + 1, s, "");
    assert "" + s == s;
  }

  lemma StringParts(t: string, p: nat, s: string)
    requires At(t, p, StringText(s))
    ensures Quote(t, p) && At(t, p + 1, EscapedAll(s)) && Quote(t, p + 1 + |EscapedAll(s)|)
  {
    AtJoin(t, p, "\"" + EscapedAll(s), "\"");
    AtJoin(t, p, "\"", EscapedAll(s));
  }
}
