/** JSON numbers: the grammar of parse_number, 64-bit integers, and doubles left to the C library. */
module JsonNumbers {
  import opened Common
  import opened Decimal
  import opened Json
  import opened JsonStrings

  const INT64_MIN: int := -0x8000_0000_0000_0000
  const INT64_MAX: int := 0x7FFF_FFFF_FFFF_FFFF

  predicate Fits(i: int) { INT64_MIN <= i <= INT64_MAX }

  predicate DigitAt(t: string, p: nat) { p < |t| && IsDigit(t[p]) }

  function EndOfDigits(t: string, p: nat): (q: nat)
    requires p <= |t|
    ensures p <= q <= |t| && !DigitAt(t, q) && (DigitAt(t, p) ==> p < q)
    decreases |t| - p
  {
    if DigitAt(t, p) then EndOfDigits(t, p + 1) else p
  }

  lemma {:induction false} DigitsUpTo(t: string, p: nat)
    requires p <= |t|
    ensures AllDigits(t[p..EndOfDigits(t, p)])
    decreases |t| - p
  {
    if DigitAt(t, p) {
      DigitsUpTo(t, p + 1);
      var q := EndOfDigits(t, p + 1);
      assert t[p..q] == [t[p]] + t[p + 1..q];
    }
  }

  function AfterSign(t: string, p: nat): (q: nat)
    ensures p <= q <= p + 1 && (p <= |t| ==> q <= |t|)
  {
    if p < |t| && t[p] == '-' then p + 1 else p
  }

  /** The integer part: a lone zero or a run of digits. */
  function AfterWhole(t: string, p: nat): (r: Option<nat>)
    ensures r.Some? ==> p < r.value <= |t|
  {
    if !DigitAt(t, p) then None else if t[p] == '0' then Some(p + 1) else Some(EndOfDigits(t, p))
  }

  function AfterFraction(t: string, p: nat): (r: Option<nat>)
    requires p <= |t|
    ensures r.Some? ==> p <= r.value <= |t|
  {
    if p == |t| || t[p] != '.' then Some(p)
    else if !DigitAt(t, p + 1) then None
    else Some(EndOfDigits(t, p + 1))
  }

  function AfterExponent(t: string, p: nat): (r: Option<nat>)
    requires p <= |t|
    ensures r.Some? ==> p <= r.value <= |t|
  {
    if p == |t| || (t[p] != 'e' && t[p] != 'E') then Some(p)
    else
      var q := if p + 1 < |t| && (t[p + 1] == '+' || t[p + 1] == '-') then p + 2 else p + 1;
      if !DigitAt(t, q) then None else Some(EndOfDigits(t, q))
  }

  /** Where the number at `p` ends, and whether it has neither a fraction nor an exponent. */
  function NumberEnd(t: string, p: nat): (r: Option<(nat, bool)>)
    ensures r.Some? ==> p < r.value.0 <= |t|
  {
    match AfterWhole(t, AfterSign(t, p))
    case None => None
    case Some(whole) =>
      match AfterFraction(t, whole)
      case None => None
      case Some(fraction) =>
        match AfterExponent(t, fraction)
        case None => None
        case Some(end) => Some((end, end == whole))
  }

  /** What a lexeme without fraction and exponent denotes. */
  function IntOf(lexeme: string): Option<int> {
    var digits := lexeme[AfterSign(lexeme, 0)..];
    if !AllDigits(digits) then None
    else
      var n: int := Value(digits);
      Some(if digits == lexeme then n else -n)
  }

  /** strtod: the finite double nearest to a lexeme, if there is one. */
  type Library = string -> Option<real>

  /** What a complete lexeme denotes; integers beyond 64 bits become doubles. */
  function Numeral(lib: Library, lexeme: string, whole: bool): Option<Json> {
    if whole && IntOf(lexeme).Some? && Fits(IntOf(lexeme).value) then Some(Int(IntOf(lexeme).value))
    else match lib(lexeme)
      case None => None
      case Some(d) => Some(Num(d))
  }

  function ReadNumeral(lib: Library, t: string, p: nat): (r: Option<(Json, nat)>)
    ensures r.Some? ==> p < r.value.1 <= |t|
  {
    match NumberEnd(t, p)
    case None => None
    case Some((end, whole)) =>
      match Numeral(lib, t[p..end], whole)
      case None => None
      case Some(v) => Some((v, end))
  }

  /** Every lexeme without fraction and exponent is an integer numeral. */
  lemma WholeIsInt(t: string, p: nat)
    requires NumberEnd(t, p).Some? && NumberEnd(t, p).value.1
    ensures IntOf(t[p..NumberEnd(t, p).value.0]).Some?
  {
    var q, end := AfterSign(t, p), NumberEnd(t, p).value.0;
    DigitsUpTo(t, q);
    assert AllDigits(t[q..end]) by { if t[q] == '0' { assert t[q..end] == [t[q]]; } }
    var lexeme := t[p..end];
    assert lexeme[AfterSign(lexeme, 0)..] == t[q..end];
  }

  // ---------------------------------------------------------------------- writing

  function IntText(i: int): string { if i < 0 then "-" + Dec(-i) else Dec(i) }

  /** Nothing that could go on a number stands at `p`. */
  predicate Stop(t: string, p: nat) {
    p >= |t| || !(IsDigit(t[p]) || t[p] == '.' || t[p] == 'e' || t[p] == 'E')
  }

  lemma {:induction false} DigitsEnd(t: string, p: nat, digits: string)
    requires At(t, p, digits) && AllDigits(digits) && !DigitAt(t, p + |digits|)
    ensures EndOfDigits(t, p) == p + |digits|
    decreases |digits|
  {
    if digits != [] { DigitsEnd(t, p + 1, digits[1..]); }
  }

  lemma WholeEnd(t: string, p: nat, n: nat)
    requires At(t, p, Dec(n)) && Stop(t, p + |Dec(n)|)
    ensures AfterWhole(t, p) == Some(p + |Dec(n)|)
  {
    DecHasNoLeadingZero(n);
    DigitsEnd(t, p, Dec(n));
  }

  lemma IntEnd(t: string, p: nat, i: int)
    requires At(t, p, IntText(i)) && Stop(t, p + |IntText(i)|)
    ensures NumberEnd(t, p) == Some((p + |IntText(i)|, true))
  {
    if i < 0 {
      AtJoin(t, p, "-", Dec(-i));
      WholeEnd(t, p + 1, -i);
    } else {
      WholeEnd(t, p, i);
    }
  }

  lemma IntOfDigits(digits: string)
    requires AllDigits(digits) && digits != []
    ensures IntOf(digits) == Some(Value(digits) as int) && IntOf("-" + digits) == Some(-(Value(digits) as int))
  {
    assert IsDigit(digits[0]) && digits[0..] == digits;
    assert ("-" + digits)[1..] == digits && |"-" + digits| == |digits| + 1;
  }

  lemma IntOfText(i: int)
    ensures IntOf(IntText(i)) == Some(i)
  {
    var n := if i < 0 then -i else i;
    IntOfDigits(Dec(n));
    ValueOfDec(n);
  }

  /** A written integer reads back as the same integer, and not as a double. */
  lemma IntReads(lib: Library, t: string, p: nat, i: int)
    requires At(t, p, IntText(i)) && Stop(t, p + |IntText(i)|) && Fits(i)
    ensures ReadNumeral(lib, t, p) == Some((Int(i), p + |IntText(i)|))
  {
    IntEnd(t, p, i);
    IntOfText(i);
    AtMeans(t, p, IntText(i));
  }

  /** The text of a double is a complete numeral with a fraction or an exponent that the library reads as `d`. */
  predicate Spells(lib: Library, s: string, d: real) {
    NumberEnd(s, 0) == Some((|s|, false)) && lib(s) == Some(d)
  }

  lemma {:induction false} AtIndex(t: string, p: nat, s: string, k: nat)
    requires At(t, p, s) && k < |s|
    ensures p + k < |t| && t[p + k] == s[k]
    decreases k
  {
    if k > 0 { AtIndex(t, p + 1, s[1..], k - 1); }
  }

  /** From any place, the numeral looks the same inside the text as alone. */
  ghost predicate Inside(t: string, p: nat, s: string) {
    p + |s| <= |t| && Stop(t, p + |s|) && forall k :: 0 <= k < |s| ==> t[p + k] == s[k]
  }

  lemma {:induction false} EndInside(t: string, p: nat, s: string, k: nat)
    requires Inside(t, p, s) && k <= |s|
    ensures EndOfDigits(t, p + k) == p + EndOfDigits(s, k)
    decreases |s| - k
  {
    if DigitAt(s, k) { EndInside(t, p, s, k + 1); }
  }

  function Moved(r: Option<nat>, p: nat): Option<nat> {
    match r case None => None case Some(q) => Some(p + q)
  }

  lemma WholeInside(t: string, p: nat, s: string, k: nat)
    requires Inside(t, p, s) && k <= |s|
    ensures AfterWhole(t, p + k) == Moved(AfterWhole(s, k), p)
  {
    EndInside(t, p, s, k);
  }

  lemma FractionInside(t: string, p: nat, s: string, k: nat)
    requires Inside(t, p, s) && k <= |s|
    ensures AfterFraction(s, k).Some? ==> AfterFraction(t, p + k) == Moved(AfterFraction(s, k), p)
  {
    if k < |s| { EndInside(t, p, s, k + 1); }
  }

  lemma ExponentInside(t: string, p: nat, s: string, k: nat)
    requires Inside(t, p, s) && k <= |s|
    ensures AfterExponent(s, k).Some? ==> AfterExponent(t, p + k) == Moved(AfterExponent(s, k), p)
  {
    if k < |s| { EndInside(t, p, s, k + 1); }
    if k + 1 < |s| { EndInside(t, p, s, k + 2); }
  }

  lemma NumberInside(t: string, p: nat, s: string)
    requires Inside(t, p, s) && NumberEnd(s, 0).Some? && s != []
    ensures NumberEnd(t, p) == Some((p + NumberEnd(s, 0).value.0, NumberEnd(s, 0).value.1))
  {
    assert t[p + 0] == s[0];
    var sign := AfterSign(s, 0);
    WholeInside(t, p, s, sign);
    var whole := AfterWhole(s, sign).value;
    FractionInside(t, p, s, whole);
    ExponentInside(t, p, s, AfterFraction(s, whole).value);
  }

  lemma AtInside(t: string, p: nat, s: string)
    requires At(t, p, s) && Stop(t, p + |s|)
    ensures Inside(t, p, s) && t[p..p + |s|] == s
  {
    AtMeans(t, p, s);
    forall k | 0 <= k < |s| ensures t[p + k] == s[k] { AtIndex(t, p, s, k); }
  }

  /** A written double reads back as the same double, and not as an integer. */
  lemma DoubleReads(lib: Library, t: string, p: nat, s: string, d: real)
    requires At(t, p, s) && Stop(t, p + |s|) && Spells(lib, s, d)
    ensures ReadNumeral(lib, t, p) == Some((Num(d), p + |s|))
  {
    AtInside(t, p, s);
    NumberInside(t, p, s);
  }
}
