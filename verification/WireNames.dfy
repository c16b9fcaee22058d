/**
 Reversible wire names for tools, tools/axiom_codex_provider.h.  A char stands for one byte.
 */
module WireNames {
  import opened Common
  import opened Decimal

  predicate Bytes(s: string) {
    forall i | 0 <= i < |s| :: s[i] as int < 256
  }

  // ----------------------------------------------------------- canonical names

  predicate WordChar(c: char) { 'a' <= c <= 'z' || IsDigit(c) || c == '_' }

  /** Word characters only, and never two underscores in a row. */
  predicate Tidy(s: string) {
    && (forall i | 0 <= i < |s| :: WordChar(s[i]))
    && (forall i | 0 <= i < |s| - 1 :: s[i] != '_' || s[i + 1] != '_')
  }

  predicate IsCanonical(s: string) {
    0 < |s| <= 64 && 'a' <= s[0] <= 'z' && s[|s| - 1] != '_' && Tidy(s)
  }

  /** canonical: one pass that remembers whether the last character was a separator. */
  method Canonical(s: string) returns (r: bool)
    ensures r == IsCanonical(s)
  {
    if |s| == 0 || |s| > 64 || s[0] < 'a' || s[0] > 'z' || s[|s| - 1] == '_' { return false; }
    var separator := false;
    for i := 0 to |s|
      invariant Tidy(s[..i]) && (separator <==> i > 0 && s[i - 1] == '_')
    {
      TidyExtend(s, i);
      var c := s[i];
      if 'a' <= c <= 'z' || IsDigit(c) {
        separator := false;
      } else if c == '_' && !separator {
        separator := true;
      } else {
        return false;
      }
    }
    assert s[..|s|] == s;
    return true;
  }

  lemma TidyExtend(s: string, i: nat)
    requires i < |s|
    ensures Tidy(s[..i + 1]) <==> Tidy(s[..i]) && WordChar(s[i]) && !(i > 0 && s[i - 1] == '_' && s[i] == '_')
    ensures Tidy(s) ==> Tidy(s[..i + 1])
  {
    var a, b := s[..i], s[..i + 1];
    assert forall j :: 0 <= j < i ==> a[j] == b[j];
    if Tidy(a) && WordChar(s[i]) && !(i > 0 && s[i - 1] == '_' && s[i] == '_') {
      forall j | 0 <= j < |b| - 1 ensures b[j] != '_' || b[j + 1] != '_' {
        if j < i - 1 { assert a[j] != '_' || a[j + 1] != '_'; }
      }
    }
    if Tidy(b) {
      forall j | 0 <= j < |a| - 1 ensures a[j] != '_' || a[j + 1] != '_' { assert b[j] != '_' || b[j + 1] != '_'; }
      if i > 0 { assert b[i - 1] != '_' || b[i - 1 + 1] != '_'; }
    }
  }

  lemma TidyConcat(a: string, b: string)
    requires Tidy(a) && Tidy(b) && (a == [] || b == [] || a[|a| - 1] != '_' || b[0] != '_')
    ensures Tidy(a + b)
  {
    var s := a + b;
    forall i | 0 <= i < |s| - 1 ensures s[i] != '_' || s[i + 1] != '_' {
      if i + 1 < |a| {
        assert a[i] != '_' || a[i + 1] != '_';
      } else if i >= |a| {
        assert b[i - |a|] != '_' || b[i - |a| + 1] != '_';
      }
    }
  }

  lemma TidyPrefix(s: string, n: nat)
    requires Tidy(s) && n <= |s|
    ensures Tidy(s[..n])
  {
    forall i | 0 <= i < n - 1 ensures s[..n][i] != '_' || s[..n][i + 1] != '_' {
      assert s[i] != '_' || s[i + 1] != '_';
    }
  }

  lemma DecTidy(n: nat)
    ensures Tidy(Dec(n)) && Dec(n)[0] != '_' && Dec(n)[|Dec(n)| - 1] != '_'
  {
  }

  // -------------------------------------------------------------- the byte escape

  /** An underscore that may stay: something other than an underscore on both sides. */
  predicate Interior(prev: Option<char>, s: string)
    requires s != []
  {
    s[0] == '_' && prev.Some? && prev.value != '_' && |s| > 1 && s[1] != '_'
  }

  /** The escape of the first byte of `s`, which follows `prev`. */
  function Piece(prev: Option<char>, s: string): (r: string)
    requires s != [] && s[0] as int < 256
    ensures |r| > 0
  {
    var c := s[0];
    if c == 'z' then "zz"
    else if 'a' <= c <= 'y' || IsDigit(c) || Interior(prev, s) then [c]
    else ['z', HexChar(c as int / 16), HexChar(c as int % 16)]
  }

  function EscapeAfter(prev: Option<char>, s: string): string
    requires Bytes(s)
    decreases |s|
  {
    if s == [] then [] else Piece(prev, s) + EscapeAfter(Some(s[0]), s[1..])
  }

  /** wire_component. */
  function Escape(value: string): string
    requires Bytes(value)
  {
    EscapeAfter(None, value)
  }

  function Previous(value: string, i: nat): Option<char>
    requires i <= |value|
  {
    if i == 0 then None else Some(value[i - 1])
  }

  method EscapeByte(value: string, i: nat) returns (piece: string)
    requires Bytes(value) && i < |value|
    ensures piece == Piece(Previous(value, i), value[i..])
  {
    var c := value[i];
    assert value[i..][0] == c && (i + 1 < |value| ==> value[i..][1] == value[i + 1]);
    if c == 'z' {
      piece := "zz";
    } else if 'a' <= c <= 'y' || IsDigit(c)
              || (c == '_' && i > 0 && i + 1 < |value| && value[i - 1] != '_' && value[i + 1] != '_') {
      piece := [c];
    } else {
      piece := ['z', HexChar(c as int / 16), HexChar(c as int % 16)];
    }
  }

  lemma EscapeStep(value: string, i: nat, out: string)
    requires Bytes(value) && i < |value|
    ensures out + EscapeAfter(Previous(value, i), value[i..]) ==
            (out + Piece(Previous(value, i), value[i..])) + EscapeAfter(Previous(value, i + 1), value[i + 1..])
  {
    assert value[i..][1..] == value[i + 1..];
  }

  method WireComponent(value: string) returns (out: string)
    requires Bytes(value)
    ensures out == Escape(value)
  {
    out := [];
    assert value[0..] == value;
    for i := 0 to |value|
      invariant out + EscapeAfter(Previous(value, i), value[i..]) == Escape(value)
    {
      EscapeStep(value, i, out);
      var piece := EscapeByte(value, i);
      out := out + piece;
    }
  }

  /** Reads an escaped component back. */
  function Unescape(s: string): Option<string> {
    if s == [] then Some([])
    else if s[0] != 'z' then Prepend(s[0], Unescape(s[1..]))
    else if |s| >= 2 && s[1] == 'z' then Prepend('z', Unescape(s[2..]))
    else if |s| >= 3 && HexValue(s[1]).Some? && HexValue(s[2]).Some? then
      HexValueBounded(s[1]);
      HexValueBounded(s[2]);
      Prepend((16 * HexValue(s[1]).value + HexValue(s[2]).value) as char, Unescape(s[3..]))
    else None
  }

  function Prepend(c: char, r: Option<string>): Option<string> {
    match r
    case Some(s) => Some([c] + s)
    case None => None
  }

  lemma UnescapePiece(prev: Option<char>, s: string, rest: string)
    requires s != [] && s[0] as int < 256
    ensures Unescape(Piece(prev, s) + rest) == Prepend(s[0], Unescape(rest))
  {
    var p := Piece(prev, s);
    assert (p + rest)[|p|..] == rest;
    assert |p| == 1 ==> p + rest == [s[0]] + rest;
  }

  /** The escape has a left inverse, so it is injective. */
  lemma {:induction false} UnescapeEscape(prev: Option<char>, s: string)
    requires Bytes(s)
    ensures Unescape(EscapeAfter(prev, s)) == Some(s)
    decreases |s|
  {
    if s != [] {
      UnescapePiece(prev, s, EscapeAfter(Some(s[0]), s[1..]));
      UnescapeEscape(Some(s[0]), s[1..]);
      assert [s[0]] + s[1..] == s;
    }
  }

  lemma PieceTidy(prev: Option<char>, s: string)
    requires s != [] && s[0] as int < 256
    ensures var p := Piece(prev, s);
            && Tidy(p) && (p[0] == '_' <==> Interior(prev, s)) && (p[|p| - 1] == '_' <==> Interior(prev, s))
  {
  }

  /** Escaped components are tidy, and underscores are only inside. */
  lemma {:induction false} EscapeTidy(prev: Option<char>, s: string)
    requires Bytes(s) && s != []
    ensures var e := EscapeAfter(prev, s);
            && e != [] && Tidy(e) && (e[0] == '_' <==> Interior(prev, s)) && e[|e| - 1] != '_'
    decreases |s|
  {
    PieceTidy(prev, s);
    var p := Piece(prev, s);
    if |s| > 1 {
      EscapeTidy(Some(s[0]), s[1..]);
      TidyConcat(p, EscapeAfter(Some(s[0]), s[1..]));
    } else {
      assert p + EscapeAfter(Some(s[0]), s[1..]) == p;
    }
  }

  // ------------------------------------------------------------------ wire names

  datatype Identity = Identity(name: string, scope: string, variant: string)

  function StripPrefix(prefix: string, s: string): Option<string> {
    if |prefix| <= |s| && s[..|prefix|] == prefix then Some(s[|prefix|..]) else None
  }

  lemma StripConcat(prefix: string, s: string)
    ensures StripPrefix(prefix, prefix + s) == Some(s)
  {
  }

  /** A component preceded by its length, with a separator when it is not empty. */
  function Sized(component: string): string {
    Dec(|component|) + if component == [] then "" else "_" + component
  }

  /** The readable wire form of two escaped components. */
  function Readable(n: string, s: string): string {
    "codex_n" + Dec(|n|) + "_" + n + "_s" + Sized(s)
  }

  /** Reads a sized component that ends the string. */
  function ParseSized(s: string): Option<string> {
    match ReadNumber(s)
    case None => None
    case Some((length, rest)) =>
      if rest == [] then (if length == 0 then Some([]) else None)
      else if rest[0] == '_' && |rest| - 1 == length then Some(rest[1..]) else None
  }

  lemma ParseSizedBack(component: string)
    ensures ParseSized(Sized(component)) == Some(component)
  {
    var rest := if component == [] then "" else "_" + component;
    ReadDec(|component|, rest);
  }

  /** Reads the two components of a readable wire name. */
  function ParseReadable(w: string): Option<(string, string)> {
    match StripPrefix("codex_n", w)
    case None => None
    case Some(afterTag) =>
      match ReadNumber(afterTag)
      case None => None
      case Some((length, rest)) =>
        if |rest| < 1 + length || rest[0] != '_' then None
        else match StripPrefix("_s", rest[1 + length..])
          case None => None
          case Some(sized) =>
            match ParseSized(sized)
            case None => None
            case Some(s) => Some((rest[1..1 + length], s))
  }

  lemma ParseReadableBack(n: string, s: string)
    ensures ParseReadable(Readable(n, s)) == Some((n, s))
  {
    var sized := Sized(s);
    var tail := "_s" + sized;
    var rest := "_" + n + tail;
    var afterTag := Dec(|n|) + rest;
    assert Readable(n, s) == "codex_n" + afterTag;
    StripConcat("codex_n", afterTag);
    ReadDec(|n|, rest);
    assert rest[1 + |n|..] == tail && rest[1..1 + |n|] == n;
    StripConcat("_s", sized);
    ParseSizedBack(s);
  }

  /** The readable form of an identity determines its name and its scope. */
  lemma ReadableInjective(name: string, scope: string, name': string, scope': string)
    requires Bytes(name) && Bytes(scope) && Bytes(name') && Bytes(scope')
    requires Readable(Escape(name), Escape(scope)) == Readable(Escape(name'), Escape(scope'))
    ensures name == name' && scope == scope'
  {
    ParseReadableBack(Escape(name), Escape(scope));
    ParseReadableBack(Escape(name'), Escape(scope'));
    UnescapeEscape(None, name);
    UnescapeEscape(None, scope);
    UnescapeEscape(None, name');
    UnescapeEscape(None, scope');
  }

  // ------------------------------------------------------------- the digested form

  /** A length-prefixed field. */
  function Field(s: string): string { Dec(|s|) + ":" + s }

  /** What the digest is taken of. */
  function Key(id: Identity): string {
    Field(id.scope) + Field(id.name) + Field(id.variant)
  }

  function ReadField(s: string): Option<(string, string)> {
    match ReadNumber(s)
    case None => None
    case Some((length, rest)) =>
      if |rest| < 1 + length || rest[0] != ':' then None else Some((rest[1..1 + length], rest[1 + length..]))
  }

  lemma ReadFieldBack(s: string, rest: string)
    ensures ReadField(Field(s) + rest) == Some((s, rest))
  {
    var after := ":" + s + rest;
    assert Field(s) + rest == Dec(|s|) + after;
    ReadDec(|s|, after);
    assert after[1..1 + |s|] == s && after[1 + |s|..] == rest;
  }

  /** Different identities are digested from different keys. */
  lemma KeyInjective(a: Identity, b: Identity)
    requires Key(a) == Key(b)
    ensures a == b
  {
    KeyReads(a);
    KeyReads(b);
  }

  lemma KeyReads(id: Identity)
    ensures ReadField(Key(id)) == Some((id.scope, Field(id.name) + Field(id.variant)))
    ensures ReadField(Field(id.name) + Field(id.variant)) == Some((id.name, Field(id.variant)))
    ensures ReadField(Field(id.variant)) == Some((id.variant, ""))
  {
    assert Key(id) == Field(id.scope) + (Field(id.name) + Field(id.variant));
    ReadFieldBack(id.scope, Field(id.name) + Field(id.variant));
    ReadFieldBack(id.name, Field(id.variant));
    assert Field(id.variant) + "" == Field(id.variant);
    ReadFieldBack(id.variant, "");
  }

  /** At most 22 characters of the component, without trailing underscores. */
  function Stem(n: string): string {
    DropUnderscores(if |n| <= 22 then n else n[..22])
  }

  function DropUnderscores(s: string): string {
    if s != [] && s[|s| - 1] == '_' then DropUnderscores(s[..|s| - 1]) else s
  }

  lemma {:induction false} DropUnderscoresTidy(s: string)
    requires Tidy(s)
    ensures var r := DropUnderscores(s);
            Tidy(r) && |r| <= |s| && (r == [] || r[|r| - 1] != '_') && (r != [] ==> r[0] == s[0])
    ensures s != [] && s[0] != '_' ==> DropUnderscores(s) != []
    decreases |s|
  {
    if s != [] && s[|s| - 1] == '_' {
      TidyPrefix(s, |s| - 1);
      DropUnderscoresTidy(s[..|s| - 1]);
    }
  }

  type Byte = x: int | 0 <= x < 256

  function Hex(bytes: seq<Byte>): (r: string)
    ensures |r| == 2 * |bytes| && Tidy(r) && (forall i :: 0 <= i < |r| ==> r[i] != '_')
  {
    if bytes == [] then []
    else
      var r := [HexChar(bytes[0] / 16), HexChar(bytes[0] % 16)] + Hex(bytes[1..]);
      r
  }

  function Digested(n: string, digest: seq<Byte>): string
    requires |digest| == 16
  {
    "codex_h_" + Stem(n) + "_" + Hex(digest)
  }

  // ---------------------------------------------------------- what bind produces

  predicate Plain(id: Identity) {
    id.variant == "" && id.scope == "" && IsCanonical(id.name) && StripPrefix("codex_", id.name).None?
  }

  predicate UsesDigest(id: Identity)
    requires Bytes(id.name) && Bytes(id.scope)
  {
    !Plain(id) && (id.variant != "" || |Readable(Escape(id.name), Escape(id.scope))| > 64)
  }

  function WireOf(digest: string -> seq<Byte>, id: Identity): string
    requires Bytes(id.name) && Bytes(id.scope) && |digest(Key(id))| == 32
  {
    if Plain(id) then id.name
    else if UsesDigest(id) then Digested(Escape(id.name), digest(Key(id))[..16])
    else Readable(Escape(id.name), Escape(id.scope))
  }

  /** A component that can stand between separators. */
  predicate Inner(s: string) {
    s != [] && Tidy(s) && s[0] != '_' && s[|s| - 1] != '_'
  }

  lemma EscapeInner(value: string)
    requires Bytes(value) && value != []
    ensures Inner(Escape(value))
  {
    EscapeTidy(None, value);
  }

  /** Joining inner components with one separator gives an inner component. */
  lemma InnerJoin(a: string, b: string)
    requires Inner(a) && Inner(b)
    ensures Inner(a + "_" + b)
  {
    assert Tidy("_");
    TidyConcat(a, "_");
    TidyConcat(a + "_", b);
  }

  lemma InnerConcat(a: string, b: string)
    requires Inner(a) && Inner(b)
    ensures Inner(a + b)
  {
    TidyConcat(a, b);
  }

  lemma SizedInner(s: string)
    requires s == [] || Inner(s)
    ensures Inner(Sized(s))
  {
    DecTidy(|s|);
    if s != [] {
      InnerJoin(Dec(|s|), s);
      assert Sized(s) == Dec(|s|) + "_" + s;
    } else {
      assert Sized(s) == Dec(0);
    }
  }

  lemma TagsInner()
    ensures Inner("codex_n") && Inner("codex_h") && Inner("s")
  {
  }

  lemma ReadableInner(n: string, s: string)
    requires Inner(n) && (s == [] || Inner(s))
    ensures Inner(Readable(n, s)) && Readable(n, s)[0] == 'c'
  {
    TagsInner();
    DecTidy(|n|);
    SizedInner(s);
    InnerConcat("codex_n", Dec(|n|));
    InnerJoin("codex_n" + Dec(|n|), n);
    InnerConcat("s", Sized(s));
    InnerJoin("codex_n" + Dec(|n|) + "_" + n, "s" + Sized(s));
    assert Readable(n, s) == "codex_n" + Dec(|n|) + "_" + n + "_" + ("s" + Sized(s));
  }

  lemma DigestedCanonical(n: string, digest: seq<Byte>)
    requires Inner(n) && |digest| == 16
    ensures IsCanonical(Digested(n, digest)) && |Digested(n, digest)| <= 63
  {
    TagsInner();
    var cut := if |n| <= 22 then n else n[..22];
    TidyPrefix(n, |cut|);
    assert n[..|n|] == n;
    DropUnderscoresTidy(cut);
    InnerJoin("codex_h", Stem(n));
    InnerJoin("codex_h" + "_" + Stem(n), Hex(digest));
    assert Digested(n, digest) == "codex_h" + "_" + Stem(n) + "_" + Hex(digest);
  }

  /** Every wire name is canonical. */
  lemma WireIsCanonical(digest: string -> seq<Byte>, id: Identity)
    requires Bytes(id.name) && Bytes(id.scope) && |digest(Key(id))| == 32 && id.name != ""
    ensures IsCanonical(WireOf(digest, id))
  {
    if !Plain(id) {
      EscapeInner(id.name);
      if id.scope != [] { EscapeInner(id.scope); }
      if UsesDigest(id) {
        DigestedCanonical(Escape(id.name), digest(Key(id))[..16]);
      } else {
        ReadableInner(Escape(id.name), Escape(id.scope));
      }
    }
  }

  lemma ReadableTag(n: string, s: string)
    ensures StripPrefix("codex_", Readable(n, s)).Some? && |Readable(n, s)| > 6 && Readable(n, s)[6] == 'n'
  {
    var rest := Dec(|n|) + "_" + n + "_s" + Sized(s);
    assert Readable(n, s) == "codex_" + ("n" + rest);
    StripConcat("codex_", "n" + rest);
  }

  lemma DigestedTag(n: string, digest: seq<Byte>)
    requires |digest| == 16
    ensures StripPrefix("codex_", Digested(n, digest)).Some? && |Digested(n, digest)| > 6 && Digested(n, digest)[6] == 'h'
  {
    var rest := Stem(n) + "_" + Hex(digest);
    assert Digested(n, digest) == "codex_" + ("h_" + rest);
    StripConcat("codex_", "h_" + rest);
  }

  /** Plain, readable and digested names never meet: only two digests can collide. */
  lemma OnlyDigestsCollide(digest: string -> seq<Byte>, a: Identity, b: Identity)
    requires Bytes(a.name) && Bytes(a.scope) && |digest(Key(a))| == 32
    requires Bytes(b.name) && Bytes(b.scope) && |digest(Key(b))| == 32
    requires WireOf(digest, a) == WireOf(digest, b) && a != b
    ensures UsesDigest(a) && UsesDigest(b)
  {
    ReadableTag(Escape(a.name), Escape(a.scope));
    ReadableTag(Escape(b.name), Escape(b.scope));
    DigestedTag(Escape(a.name), digest(Key(a))[..16]);
    DigestedTag(Escape(b.name), digest(Key(b))[..16]);
    if !Plain(a) && !Plain(b) && !UsesDigest(a) && !UsesDigest(b) {
      ReadableInjective(a.name, a.scope, b.name, b.scope);
    }
  }

  // ----------------------------------------------------------------- the wire map

  predicate ByteIdentity(id: Identity) {
    Bytes(id.name) && Bytes(id.scope)
  }

  /** A function call as the model or the client names it. */
  datatype Call = Call(name: string, space: string)

  datatype Restored = SearchCall | Named(call: Call)

  /** The client's name, and its namespace if it has one. */
  function Original(c: Call, id: Identity): Call {
    Call(id.name, if id.scope != "" then id.scope else c.space)
  }

  class ToolWireMap {
    /** SHA-256, as a function of the key; None when the library call fails. */
    const sha256: string -> Option<seq<Byte>>
    var reverse: map<string, Identity>
    /** The wire name of the client's own tool search, empty while it has none. */
    var searchWire: string

    constructor (sha256: string -> Option<seq<Byte>>)
      ensures Valid() && reverse == map[] && searchWire == "" && this.sha256 == sha256
    {
      this.sha256, reverse, searchWire := sha256, map[], "";
    }

    function Digest(key: string): seq<Byte> {
      match sha256(key)
      case Some(d) => if |d| == 32 then d else seq(32, i => 0)
      case None => seq(32, i => 0)
    }

    /** Every bound name is the wire name of its identity. */
    ghost predicate Valid()
      reads this
    {
      forall w :: w in reverse ==> ByteIdentity(reverse[w]) && w == WireOf(k => Digest(k), reverse[w])
    }

    /** The stem of the digested form. */
    method MakeStem(n: string) returns (stem: string)
      ensures stem == Stem(n)
    {
      stem := if |n| <= 22 then n else n[..22];
      while stem != [] && stem[|stem| - 1] == '_'
        invariant DropUnderscores(stem) == Stem(n)
        decreases |stem|
      {
        stem := stem[..|stem| - 1];
      }
    }

    /** The wire name of an identity; None when the digest it needs fails. */
    method MakeWire(id: Identity) returns (wire: Option<string>)
      requires ByteIdentity(id) && id.name != ""
      ensures wire.None? <==> UsesDigest(id) && sha256(Key(id)).None?
      ensures wire.Some? ==> wire.value == WireOf(k => Digest(k), id) && IsCanonical(wire.value)
    {
      WireIsCanonical(k => Digest(k), id);
      var canonical := Canonical(id.name);
      if id.variant == "" && id.scope == "" && canonical && StripPrefix("codex_", id.name).None? { return Some(id.name); }
      var n := WireComponent(id.name);
      var s := WireComponent(id.scope);
      var readable := Readable(n, s);
      if id.variant == "" && |readable| <= 64 { return Some(readable); }
      if sha256(Key(id)).None? { return None; }
      var stem := MakeStem(n);
      return Some("codex_h_" + stem + "_" + Hex(Digest(Key(id))[..16]));
    }

    predicate IsSearch(name: string)
      reads this
    {
      searchWire != "" && name == searchWire
    }

    /** The name part of restore: a call of the client's tool search loses its name, a call under another bound name
        gets back the client's name and namespace, any other stays as it is. */
    function Restore(c: Call): (r: Restored)
      reads this
      requires Valid()
      ensures r == SearchCall <==> IsSearch(c.name)
      ensures r.Named? && r.call != c ==>
                exists id :: ByteIdentity(id) && c.name == WireOf(k => Digest(k), id) && r.call == Original(c, id)
      ensures r.Named? && c.name !in reverse ==> r.call == c
    {
      if IsSearch(c.name) then SearchCall
      else Named(if c.name in reverse then Original(c, reverse[c.name]) else c)
    }

    /** A call under the wire name of an identity without digest comes back as that identity, or untouched if it was
        never bound. */
    lemma RestoresOwn(id: Identity)
      requires Valid() && ByteIdentity(id) && !UsesDigest(id)
      ensures var c := Call(WireOf(k => Digest(k), id), "");
              Restore(c) == if IsSearch(c.name) then SearchCall else Named(if c.name in reverse then Call(id.name, id.scope) else c)
    {
      var w := WireOf(k => Digest(k), id);
      if w in reverse && reverse[w] != id { OnlyDigestsCollide(k => Digest(k), id, reverse[w]); }
    }

    /** The name is empty, its digest fails, or another identity holds the wire name. */
    predicate Refuses(id: Identity)
      reads this
      requires ByteIdentity(id)
    {
      || id.name == "" || (UsesDigest(id) && sha256(Key(id)).None?)
      || (var w := WireOf(k => Digest(k), id); w in reverse && reverse[w] != id)
    }

    /** bind: a name is bound once; a second identity under the same name is refused. */
    method Bind(id: Identity) returns (wire: Option<string>)
      requires Valid() && ByteIdentity(id)
      modifies this`reverse
      ensures Valid()
      ensures wire.None? ==> reverse == old(reverse)
      ensures wire.Some? ==> wire.value == WireOf(k => Digest(k), id)
      ensures wire.Some? ==> IsCanonical(wire.value) && reverse == old(reverse)[wire.value := id]
      ensures wire.Some? ==> wire.value in old(reverse) ==> old(reverse)[wire.value] == id
      ensures wire.None? <==> old(Refuses(id))
      ensures wire.None? ==> Refuses(id)
    {
      if id.name == "" { return None; }
      wire := MakeWire(id);
      if wire.None? { return; }
      if wire.value in reverse && reverse[wire.value] != id { return None; }
      reverse := reverse[wire.value := id];
    }

    /** A call under the new name comes back as the identity that was bound. */
    method BindAndRestore(id: Identity, space: string) returns (r: Option<Restored>)
      requires Valid() && ByteIdentity(id)
      modifies this`reverse
      ensures Valid() && (r.None? <==> old(Refuses(id)))
      ensures r.Some? ==> r.value == if IsSearch(WireOf(k => Digest(k), id)) then SearchCall
                                     else Named(Call(id.name, if id.scope != "" then id.scope else space))
    {
      var wire := Bind(id);
      r := match wire case Some(w) => Some(Restore(Call(w, space))) case None => None;
    }

    /** The client's tool search is bound like any other tool; calls under its name are search calls from then on. */
    method BindSearch(id: Identity) returns (wire: Option<string>)
      requires Valid() && ByteIdentity(id)
      modifies this
      ensures Valid() && (wire.None? <==> old(Refuses(id)))
      ensures wire.None? ==> reverse == old(reverse) && searchWire == old(searchWire)
      ensures wire.Some? ==> searchWire == wire.value && forall c: Call :: Restore(c) == SearchCall <==> c.name == wire.value
    {
      wire := Bind(id);
      if wire.Some? { searchWire := wire.value; }
    }

    ghost predicate Bound(ids: seq<Identity>, wires: seq<string>)
      reads this
    {
      |wires| <= |ids| && forall i :: 0 <= i < |wires| ==> wires[i] in reverse && reverse[wires[i]] == ids[i]
    }

    /** A call under the wire name is restored to the identity, or is a search call. */
    ghost predicate RestoresTo(wire: string, id: Identity)
      reads this
      requires Valid()
    {
      Restore(Call(wire, "")) == if IsSearch(wire) then SearchCall else Named(Call(id.name, id.scope))
    }

    lemma BoundRestores(ids: seq<Identity>, wires: seq<string>, i: nat)
      requires Valid() && Bound(ids, wires) && i < |wires|
      ensures Restore(Call(wires[i], "")) == if IsSearch(wires[i]) then SearchCall else Named(Call(ids[i].name, ids[i].scope))
    {
    }

    /** Names bound one after the other all restore to their own identities; only a refused one ends the run. */
    method BindAll(ids: seq<Identity>) returns (wires: seq<string>)
      requires Valid() && forall i :: 0 <= i < |ids| ==> ByteIdentity(ids[i])
      modifies this`reverse
      ensures Valid() && |wires| <= |ids| && (|wires| < |ids| ==> Refuses(ids[|wires|]))
      ensures forall i :: 0 <= i < |wires| ==> wires[i] in reverse && RestoresTo(wires[i], ids[i])
      ensures forall i, j :: 0 <= i < |wires| && 0 <= j < |wires| && wires[i] == wires[j] ==> ids[i] == ids[j]
    {
      wires := BindEach(ids);
      forall i | 0 <= i < |wires| ensures RestoresTo(wires[i], ids[i]) {
        BoundRestores(ids, wires, i);
      }
    }

    lemma BoundNext(before: map<string, Identity>, after: map<string, Identity>, ids: seq<Identity>, wires: seq<string>, w: string)
      requires |wires| < |ids| && forall i :: 0 <= i < |wires| ==> wires[i] in before && before[wires[i]] == ids[i]
      requires after == before[w := ids[|wires|]] && (w in before ==> before[w] == ids[|wires|])
      ensures var all := wires + [w]; forall i :: 0 <= i < |all| ==> all[i] in after && after[all[i]] == ids[i]
    {
    }

    method BindNext(ids: seq<Identity>, wires: seq<string>) returns (wire: Option<string>)
      requires Valid() && Bound(ids, wires) && |wires| < |ids| && ByteIdentity(ids[|wires|])
      modifies this`reverse
      ensures Valid() && Bound(ids, if wire.Some? then wires + [wire.value] else wires)
      ensures wire.None? ==> Refuses(ids[|wires|])
    {
      ghost var before := reverse;
      wire := Bind(ids[|wires|]);
      if wire.Some? { BoundNext(before, reverse, ids, wires, wire.value); }
    }

    method BindEach(ids: seq<Identity>) returns (wires: seq<string>)
      requires Valid() && forall i :: 0 <= i < |ids| ==> ByteIdentity(ids[i])
      modifies this`reverse
      ensures Valid() && Bound(ids, wires) && (|wires| < |ids| ==> Refuses(ids[|wires|]))
    {
      wires := [];
      for i := 0 to |ids|
        invariant Valid() && |wires| == i && Bound(ids, wires)
      {
        var wire := BindNext(ids, wires);
        if wire.None? { return; }
        wires := wires + [wire.value];
      }
    }
  }
}
