/**
 The names garbage collection goes by, src/axiom_qwen38_session_store.cpp: session directories,
 tombstones and generation files.
 */
module SessionNames {
  import opened Common
  import opened Decimal

  const U64: nat := 0x1_0000_0000_0000_0000

  predicate LowerHex(c: char) { IsDigit(c) || 'a' <= c <= 'f' }

  /** is_lower_hex_32. */
  predicate IsLowerHex32(s: string) {
    |s| == 32 && forall i | 0 <= i < |s| :: LowerHex(s[i])
  }

  // ----------------------------------------------- positive decimal components

  /** Digits read after a value already accumulated. */
  function Accumulated(value: nat, digits: string): nat
    requires AllDigits(digits)
    decreases |digits|
  {
    if digits == [] then value else Accumulated(value * 10 + DigitValue(digits[0]), digits[1..])
  }

  lemma {:induction false} AccumulatedGrows(value: nat, digits: string)
    requires AllDigits(digits)
    ensures Accumulated(value, digits) >= value
    decreases |digits|
  {
    if digits != [] { AccumulatedGrows(value * 10 + DigitValue(digits[0]), digits[1..]); }
  }

  lemma {:induction false} AccumulatedAppend(value: nat, digits: string, c: char)
    requires AllDigits(digits) && IsDigit(c)
    ensures Accumulated(value, digits + [c]) == Accumulated(value, digits) * 10 + DigitValue(c)
    decreases |digits|
  {
    if digits == [] {
      assert [] + [c] == [c] && [c][1..] == [];
    } else {
      assert (digits + [c])[1..] == digits[1..] + [c];
      AccumulatedAppend(value * 10 + DigitValue(digits[0]), digits[1..], c);
    }
  }

  lemma {:induction false} AccumulatedIsValue(digits: string)
    requires AllDigits(digits)
    ensures Accumulated(0, digits) == Value(digits)
  {
    if digits != [] {
      var n := |digits| - 1;
      AccumulatedIsValue(digits[..n]);
      AccumulatedAppend(0, digits[..n], digits[n]);
      assert digits[..n] + [digits[n]] == digits;
    }
  }

  /** The automaton of exact_positive_decimal_components with `left` components to go. */
  predicate Accepts(s: string, left: nat, value: nat, haveDigit: bool)
    decreases |s|
  {
    if s == [] then left == 1 && haveDigit && value != 0
    else if IsDigit(s[0]) then
      && !(!haveDigit && s[0] == '0')
      && value * 10 + DigitValue(s[0]) < U64
      && Accepts(s[1..], left, value * 10 + DigitValue(s[0]), true)
    else s[0] == '.' && haveDigit && value != 0 && left > 1 && Accepts(s[1..], left - 1, 0, false)
  }

  lemma {:induction false} LastDotRefused(s: string, left: nat, value: nat, haveDigit: bool)
    requires s != [] && s[|s| - 1] == '.'
    ensures !Accepts(s, left, value, haveDigit)
    decreases |s|
  {
    if |s| > 1 {
      if IsDigit(s[0]) {
        LastDotRefused(s[1..], left, value * 10 + DigitValue(s[0]), true);
      } else if left > 1 {
        LastDotRefused(s[1..], left - 1, 0, false);
      }
    }
  }

  /** exact_positive_decimal_components. */
  method ExactComponents(text: string, expected: nat) returns (r: bool)
    ensures r == Accepts(text, expected, 0, false)
  {
    if |text| == 0 { return false; }
    if expected == 0 || text[0] == '.' {
      NoneLeft(text, 0, false);
      return false;
    }
    if text[|text| - 1] == '.' {
      LastDotRefused(text, expected, 0, false);
      return false;
    }
    var components, value, haveDigit := 1, 0, false;
    assert text[0..] == text;
    for i := 0 to |text|
      invariant 1 <= components <= expected && 0 <= value < U64
      invariant Accepts(text, expected, 0, false) == Accepts(text[i..], expected - components + 1, value, haveDigit)
    {
      var c := text[i];
      assert text[i..][0] == c && text[i..][1..] == text[i + 1..];
      if IsDigit(c) {
        if !haveDigit && c == '0' { return false; }
        var digit := DigitValue(c);
        if value > (U64 - 1 - digit) / 10 { return false; }
        value, haveDigit := value * 10 + digit, true;
      } else {
        if c != '.' || !haveDigit || value == 0 || components >= expected { return false; }
        components, value, haveDigit := components + 1, 0, false;
      }
    }
    r := components == expected && haveDigit && value != 0;
  }

  lemma {:induction false} NoneLeft(s: string, value: nat, haveDigit: bool)
    ensures !Accepts(s, 0, value, haveDigit)
    decreases |s|
  {
    if s != [] && IsDigit(s[0]) { NoneLeft(s[1..], value * 10 + DigitValue(s[0]), true); }
  }

  /** A run of digits, as the automaton sees it. */
  lemma {:induction false} AcceptsDigits(digits: string, rest: string, left: nat, value: nat, haveDigit: bool)
    requires AllDigits(digits) && digits != [] && (haveDigit || digits[0] != '0')
    ensures Accepts(digits + rest, left, value, haveDigit) <==>
            Accumulated(value, digits) < U64 && Accepts(rest, left, Accumulated(value, digits), true)
    decreases |digits|
  {
    var next := value * 10 + DigitValue(digits[0]);
    assert (digits + rest)[1..] == digits[1..] + rest;
    AccumulatedGrows(next, digits[1..]);
    if |digits| > 1 {
      AcceptsDigits(digits[1..], rest, left, next, true);
    } else {
      assert digits[1..] + rest == rest;
    }
  }

  /** Positive numbers below 2^64. */
  predicate Positive(n: nat) { 0 < n < U64 }

  lemma AcceptsNumber(n: nat, rest: string, left: nat)
    requires rest == [] || rest[0] == '.'
    ensures Accepts(Dec(n) + rest, left, 0, false) <==>
            Positive(n) && (if rest == [] then left == 1 else left > 1 && Accepts(rest[1..], left - 1, 0, false))
  {
    DecHasNoLeadingZero(n);
    ValueOfDec(n);
    AccumulatedIsValue(Dec(n));
    if n > 0 {
      AcceptsDigits(Dec(n), rest, left, 0, false);
    }
  }

  /** What is accepted is a number, and then either the end or a dot and the rest. */
  lemma AcceptsReads(s: string, left: nat) returns (n: nat, rest: string)
    requires Accepts(s, left, 0, false)
    ensures Positive(n) && s == Dec(n) + rest && (rest == [] || rest[0] == '.')
    ensures if rest == [] then left == 1 else left > 1 && Accepts(rest[1..], left - 1, 0, false)
  {
    var run := DigitRun(s);
    var digits := s[..run];
    rest := s[run..];
    n := Value(digits);
    assert s == digits + rest;
    DecOfValue(digits);
    AccumulatedIsValue(digits);
    AcceptsDigits(digits, rest, left, 0, false);
  }

  // ------------------------------------------------------------------ tombstones

  function Counters(pid: nat, now: nat, sequence: nat): string {
    Dec(pid) + "." + Dec(now) + "." + Dec(sequence)
  }

  function TombstoneName(id: string, pid: nat, now: nat, sequence: nat): string {
    ".gc." + id + "." + Counters(pid, now, sequence)
  }

  /** parse_gc_tombstone: the namespace a directory name is the tombstone of. */
  function ParseTombstone(name: string): Option<string> {
    if |name| <= 37 || name[..4] != ".gc." then None
    else if IsLowerHex32(name[4..36]) && name[36] == '.' && Accepts(name[37..], 3, 0, false) then Some(name[4..36])
    else None
  }

  lemma CountersAccepted(pid: nat, now: nat, sequence: nat)
    ensures Accepts(Counters(pid, now, sequence), 3, 0, false) <==> Positive(pid) && Positive(now) && Positive(sequence)
  {
    var last := "." + Dec(sequence);
    var two := "." + Dec(now) + last;
    assert Counters(pid, now, sequence) == Dec(pid) + two;
    AcceptsNumber(pid, two, 3);
    assert two[1..] == Dec(now) + last;
    AcceptsNumber(now, last, 2);
    assert last[1..] == Dec(sequence) + "";
    AcceptsNumber(sequence, "", 1);
  }

  /** Every generated tombstone is recognised, and as the tombstone of its own namespace. */
  lemma TombstoneRecognised(id: string, pid: nat, now: nat, sequence: nat)
    requires |id| == 32
    ensures ParseTombstone(TombstoneName(id, pid, now, sequence)) ==
            if IsLowerHex32(id) && Positive(pid) && Positive(now) && Positive(sequence) then Some(id) else None
  {
    var name, counters := TombstoneName(id, pid, now, sequence), Counters(pid, now, sequence);
    CountersAccepted(pid, now, sequence);
    assert name[..4] == ".gc." && name[4..36] == id && name[36] == '.' && name[37..] == counters;
  }

  lemma AcceptedAreCounters(s: string) returns (pid: nat, now: nat, sequence: nat)
    requires Accepts(s, 3, 0, false)
    ensures Positive(pid) && Positive(now) && Positive(sequence) && s == Counters(pid, now, sequence)
  {
    var first, second, third;
    pid, first := AcceptsReads(s, 3);
    now, second := AcceptsReads(first[1..], 2);
    sequence, third := AcceptsReads(second[1..], 1);
    assert first == "." + first[1..] && second == "." + second[1..];
    assert second[1..] == Dec(sequence);
  }

  /** Nothing else is. */
  lemma RecognisedIsTombstone(name: string) returns (pid: nat, now: nat, sequence: nat)
    requires ParseTombstone(name).Some?
    ensures Positive(pid) && Positive(now) && Positive(sequence)
    ensures name == TombstoneName(ParseTombstone(name).value, pid, now, sequence)
  {
    pid, now, sequence := AcceptedAreCounters(name[37..]);
    assert name == name[..4] + name[4..36] + [name[36]] + name[37..];
  }

  /** A live directory name is never a tombstone's. */
  lemma LiveIsNotTombstone(name: string)
    requires IsLowerHex32(name)
    ensures ParseTombstone(name).None?
  {
  }

  // ------------------------------------------------------------ generation files

  predicate EndsWith(s: string, suffix: string) {
    |s| > |suffix| && s[|s| - |suffix|..] == suffix
  }

  function SuffixSize(name: string): nat {
    if EndsWith(name, ".kv") then 3
    else if EndsWith(name, ".kv.txn") then 7
    else if EndsWith(name, ".kv.txn.tmp") then 11
    else 0
  }

  predicate IsSuffix(s: string) { s == ".kv" || s == ".kv.txn" || s == ".kv.txn.tmp" }

  function GenerationName(stem: string, generation: nat, suffix: string): string {
    stem + ".g" + Dec(generation) + suffix
  }

  /** parse_generation_filename. */
  function ParseGeneration(name: string, stem: string): Option<nat> {
    var prefix, size := stem + ".g", SuffixSize(name);
    if size == 0 || |name| <= |prefix| + size || name[..|prefix|] != prefix || name[|prefix|] == '0' then None
    else
      var digits := name[|prefix|..|name| - size];
      if AllDigits(digits) && Value(digits) < U64 && Value(digits) > 0 then Some(Value(digits)) else None
  }

  /** The digit loop of parse_generation_filename refuses just what does not fit 64 bits. */
  method ReadGeneration(digits: string) returns (r: Option<nat>)
    ensures r == if AllDigits(digits) && Value(digits) < U64 then Some(Value(digits)) else None
  {
    var value := 0;
    for i := 0 to |digits|
      invariant AllDigits(digits[..i]) && value == Value(digits[..i]) && 0 <= value < U64
    {
      assert digits[..i + 1][..i] == digits[..i];
      if !IsDigit(digits[i]) { return None; }
      var digit := DigitValue(digits[i]);
      if value > (U64 - 1 - digit) / 10 {
        if AllDigits(digits) { ValueGrows(digits, i + 1); }
        return None;
      }
      value := value * 10 + digit;
    }
    assert digits[..|digits|] == digits;
    return Some(value);
  }

  lemma {:induction false} ValueGrows(digits: string, n: nat)
    requires AllDigits(digits) && n <= |digits|
    ensures Value(digits[..n]) <= Value(digits)
    decreases |digits|
  {
    if n < |digits| {
      ValueGrows(digits[..|digits| - 1], n);
      assert digits[..|digits| - 1][..n] == digits[..n];
    } else {
      assert digits[..n] == digits;
    }
  }

  lemma SuffixOf(body: string, suffix: string)
    requires IsSuffix(suffix) && body != []
    ensures SuffixSize(body + suffix) == |suffix|
  {
    var name := body + suffix;
    assert name[|name| - 1] == suffix[|suffix| - 1];
    assert name[|name| - |suffix|..] == suffix;
    if suffix != ".kv" {
      assert name[|name| - 3..] == suffix[|suffix| - 3..];
      if suffix == ".kv.txn.tmp" { assert name[|name| - 7..] == suffix[4..]; }
    }
  }

  /** A generation file is read back as its own generation. */
  lemma GenerationRecognised(stem: string, generation: nat, suffix: string)
    requires IsSuffix(suffix)
    ensures ParseGeneration(GenerationName(stem, generation, suffix), stem) == if Positive(generation) then Some(generation) else None
  {
    var prefix, digits := stem + ".g", Dec(generation);
    var name := GenerationName(stem, generation, suffix);
    assert name == (prefix + digits) + suffix;
    SuffixOf(prefix + digits, suffix);
    assert name[..|prefix|] == prefix && name[|prefix|..|name| - |suffix|] == digits && name[|prefix|] == digits[0];
    DecHasNoLeadingZero(generation);
    ValueOfDec(generation);
  }

  /** And nothing else is read as one. */
  lemma RecognisedIsGeneration(name: string, stem: string) returns (suffix: string)
    requires ParseGeneration(name, stem).Some?
    ensures IsSuffix(suffix) && Positive(ParseGeneration(name, stem).value)
    ensures name == GenerationName(stem, ParseGeneration(name, stem).value, suffix)
  {
    var prefix, size := stem + ".g", SuffixSize(name);
    var digits := name[|prefix|..|name| - size];
    suffix := name[|name| - size..];
    assert digits[0] == name[|prefix|];
    DecOfValue(digits);
    assert name == name[..|prefix|] + digits + suffix;
  }
}