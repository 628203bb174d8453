/**
 parseJSNumber of internal/core/pow_extract.go, and the promise that the base in
 which an integer is written does not change its value.
 */
module JsNumber {
  import opened Wrappers
  import opened JsToken
  import opened JsPrinted

  /** strconv.ParseFloat followed by the conversion to int64; None is its error. */
  type FloatReader = string -> Option<int>

  function DropUnderscores(s: string): (r: string) {
    if s == "" then ""
    else (if s[0] == '_' then "" else [s[0]]) + DropUnderscores(s[1..])
  }

  function Digit(c: char): (d: int)
    ensures -1 <= d < 36
  {
    if '0' <= c <= '9' then (c - '0') as int
    else if 'a' <= c <= 'z' then (c - 'a') as int + 10
    else if 'A' <= c <= 'Z' then (c - 'A') as int + 10
    else -1
  }

  predicate AllDigits(s: string, base: nat) {
    forall c | c in s :: 0 <= Digit(c) < base
  }

  function DigitsValue(s: string, base: nat): nat
    requires AllDigits(s, base)
  {
    if s == "" then 0 else DigitsValue(s[..|s| - 1], base) * base + Digit(s[|s| - 1])
  }

  const LIMIT: nat := 0x8000_0000_0000_0000

  /** strconv.ParseInt(s, base, 64). */
  function ParseInt(s: string, base: nat): Option<int> {
    var signed := s != "" && (s[0] == '+' || s[0] == '-');
    var digits := if signed then s[1..] else s;
    if digits == "" || !AllDigits(digits, base) then None
    else
      var v: int := DigitsValue(digits, base);
      if signed && s[0] == '-' then (if v > LIMIT then None else Some(-v))
      else (if v >= LIMIT then None else Some(v))
  }

  predicate HasPrefix(s: string, p: string)
    ensures HasPrefix(s, p) ==> |p| <= |s|
  {
    p <= s
  }

  predicate HasSuffix(s: string, p: string)
    ensures HasSuffix(s, p) ==> |p| <= |s|
  {
    |p| <= |s| && s[|s| - |p|..] == p
  }

  /** The value of a number token that has neither underscores nor sign nor suffix. */
  function Magnitude(s: string, floats: FloatReader): Option<int> {
    if HasPrefix(s, "0x") || HasPrefix(s, "0X") then ParseInt(s[2..], 16)
    else if HasPrefix(s, "0o") || HasPrefix(s, "0O") then ParseInt(s[2..], 8)
    else if HasPrefix(s, "0b") || HasPrefix(s, "0B") then ParseInt(s[2..], 2)
    else if '.' in s || 'e' in s || 'E' in s then floats(s)
    else ParseInt(s, 10)
  }

  function JSNumber(s: string, floats: FloatReader): Option<int> {
    var a := DropUnderscores(s);
    var b := if HasSuffix(a, "n") || HasSuffix(a, "N") then a[..|a| - 1] else a;
    if HasPrefix(b, "-") then
      var m := Magnitude(b[1..], floats);
      if m.Some? then Some(Int64(-m.value)) else None
    else Magnitude(b, floats)
  }

  method ParseJSNumber(text: string, floats: FloatReader) returns (r: Option<int>)
    ensures r == JSNumber(text, floats)
  {
    hide Magnitude, DropUnderscores, Int64, HasSuffix, HasPrefix;
    var s := DropUnderscores(text);
    if HasSuffix(s, "n") || HasSuffix(s, "N") {
      s := s[..|s| - 1];
    }
    var neg := false;
    if HasPrefix(s, "-") {
      neg := true;
      s := s[1..];
    }
    var v := Magnitude(s, floats);
    if v.None? {
      return None;
    }
    return if neg then Some(Int64(-v.value)) else v;
  }

  // ---- Integer numerals ----

  function Base(n: Numeral): nat {
    match n
    case Radix(letter, _, _) =>
      if letter == 'x' || letter == 'X' then 16 else if letter == 'o' || letter == 'O' then 8 else 2
    case Decimal(_, _, _, _) => 10
  }

  function IntegerDigits(n: Numeral): string {
    match n
    case Radix(_, digits, _) => DropUnderscores(digits)
    case Decimal(whole, _, _, _) => DropUnderscores(whole)
  }

  /** A well-formed numeral of a whole number in any base, with any case, underscores and suffix. */
  ghost predicate IsInteger(n: Numeral) {
    && ValidNumeral(n)
    && (n.Decimal? ==> n.fraction.None? && n.exponent.None?)
    && IntegerDigits(n) != ""
  }

  ghost function IntegerValue(n: Numeral): nat
    requires IsInteger(n)
  {
    Positional(IntegerDigits(n), Base(n))
  }

  function Power(b: nat, k: nat): nat { if k == 0 then 1 else b * Power(b, k - 1) }

  function Worth(c: char): nat { if HexChar(c) then HexDigit16(c) else 0 }

  /** The value of a digit string: each digit times the power of the base for its place. */
  function Positional(s: string, base: nat): nat {
    if s == "" then 0 else Worth(s[0]) * Power(base, |s| - 1) + Positional(s[1..], base)
  }

  lemma {:induction false} PositionalSnoc(s: string, c: char, base: nat)
    ensures Positional(s + [c], base) == Positional(s, base) * base + Worth(c)
    decreases |s|
  {
    hide Worth;
    var t := s + [c];
    if s == "" {
      assert t == [c] && t[1..] == "";
    } else {
      assert t[1..] == s[1..] + [c];
      PositionalSnoc(s[1..], c, base);
      Distribute(Worth(s[0]), Power(base, |s| - 1), Positional(s[1..], base), base);
    }
  }

  lemma Distribute(w: nat, p: nat, rest: nat, base: nat)
    ensures (w * p + rest) * base == w * (base * p) + rest * base
  {
    assert (w * p + rest) * base == w * p * base + rest * base;
    assert w * p * base == w * (p * base) == w * (base * p);
  }

  lemma {:induction false} DigitsArePositional(s: string, base: nat)
    requires AllDigits(s, base) && base <= 16
    ensures DigitsValue(s, base) == Positional(s, base)
    decreases |s|
  {
    if s != "" {
      var n := |s| - 1;
      assert s == s[..n] + [s[n]] && s[n] in s;
      DigitWorth(s[n]);
      DigitsArePositional(s[..n], base);
      PositionalSnoc(s[..n], s[n], base);
    }
  }

  lemma DigitWorth(c: char)
    requires 0 <= Digit(c) < 16
    ensures Digit(c) == Worth(c)
  {
  }

  lemma {:induction false} DropIn(s: string, cls: CharClass, base: nat)
    requires AllIn(s, cls)
    requires (cls == HexRun && base == 16) || (cls == OctRun && base == 8) || (cls == BinRun && base == 2)
             || (cls == DecRun && base == 10)
    ensures AllDigits(DropUnderscores(s), base)
    ensures forall c | c in DropUnderscores(s) :: c in s && c != '_'
    decreases |s|
  {
    if s != "" {
      assert s[0] in s;
      DropIn(s[1..], cls, base);
    }
  }

  lemma DigitsAreDigits(n: Numeral)
    requires IsInteger(n)
    ensures AllDigits(IntegerDigits(n), Base(n))
    ensures n.Decimal? ==> AllIn(n.whole, DecRun) && forall c | c in IntegerDigits(n) :: IsDec(c)
  {
    match n
    case Radix(letter, digits, _) => DropIn(digits, RadixClass(letter).value, Base(n));
    case Decimal(whole, _, _, _) => DropIn(whole, DecRun, 10);
  }

  lemma {:induction false} DropConcat(a: string, b: string)
    ensures DropUnderscores(a + b) == DropUnderscores(a) + DropUnderscores(b)
    decreases |a|
  {
    if a == "" {
      assert a + b == b;
    } else {
      assert (a + b)[1..] == a[1..] + b;
      DropConcat(a[1..], b);
    }
  }

  /** The text of an integer numeral once its underscores are gone. */
  ghost function CleanText(n: Numeral): string
    requires IsInteger(n)
  {
    (if n.Radix? then ['0', n.letter] else "") + IntegerDigits(n)
  }

  lemma DropNumeral(n: Numeral)
    requires IsInteger(n)
    ensures DropUnderscores(NumeralText(n)) == CleanText(n) + n.suffix
  {
    hide DropUnderscores, ValidNumeral, AllIn;
    IntegerParts(n);
    DropSuffix(n.suffix);
    match n
    case Radix(letter, digits, suffix) =>
      DropRadix(letter, digits, suffix);
    case Decimal(whole, _, _, suffix) =>
      DropConcat(whole, suffix);
  }

  lemma IntegerParts(n: Numeral)
    requires IsInteger(n)
    ensures n.suffix in {"", "n", "N"}
    ensures n.Radix? ==> n.letter != '_' && NumeralText(n) == ['0', n.letter] + n.digits + n.suffix
    ensures n.Decimal? ==> NumeralText(n) == n.whole + n.suffix
  {
    hide AllIn;
    if n.Decimal? {
      assert n.whole + "" + "" == n.whole;
    }
  }

  lemma DropRadix(letter: char, digits: string, suffix: string)
    requires letter != '_'
    ensures DropUnderscores(['0', letter] + digits + suffix) ==
            ['0', letter] + DropUnderscores(digits) + DropUnderscores(suffix)
  {
    hide DropUnderscores;
    DropConcat(['0', letter] + digits, suffix);
    DropConcat(['0', letter], digits);
    DropPrefix(letter);
  }

  lemma DropSuffix(suffix: string)
    requires suffix in {"", "n", "N"}
    ensures DropUnderscores(suffix) == suffix
  {
    assert suffix != "" ==> suffix[1..] == "";
  }

  lemma DropPrefix(letter: char)
    requires letter != '_'
    ensures DropUnderscores(['0', letter]) == ['0', letter]
  {
    assert ['0', letter][1..] == [letter] && [letter][1..] == "";
    assert DropUnderscores([letter]) == [letter];
  }

  lemma CleanTextEnds(n: Numeral)
    requires IsInteger(n)
    ensures var t := CleanText(n); t != "" && t[0] != '-' && t[|t| - 1] != 'n' && t[|t| - 1] != 'N'
  {
    DigitsAreDigits(n);
    var t, d := CleanText(n), IntegerDigits(n);
    assert t[|t| - 1] == d[|d| - 1] && d[|d| - 1] in d;
    assert d[0] in d;
  }

  lemma MagnitudeOfRadix(letter: char, d: string, floats: FloatReader)
    requires RadixClass(letter).Some?
    ensures Magnitude(['0', letter] + d, floats) == ParseInt(d, Base(Radix(letter, d, "")))
  {
    hide ParseInt;
    var t := ['0', letter] + d;
    assert t[2..] == d;
    TwoCharPrefixes(t);
  }

  lemma TwoCharPrefixes(t: string)
    requires |t| >= 2 && t[0] == '0'
    ensures HasPrefix(t, "0x") <==> t[1] == 'x'
    ensures HasPrefix(t, "0X") <==> t[1] == 'X'
    ensures HasPrefix(t, "0o") <==> t[1] == 'o'
    ensures HasPrefix(t, "0O") <==> t[1] == 'O'
    ensures HasPrefix(t, "0b") <==> t[1] == 'b'
    ensures HasPrefix(t, "0B") <==> t[1] == 'B'
  {
  }

  lemma MagnitudeOfDecimal(d: string, floats: FloatReader)
    requires forall c | c in d :: IsDec(c)
    ensures Magnitude(d, floats) == ParseInt(d, 10)
  {
    hide ParseInt;
    assert |d| > 1 ==> d[1] in d;
  }

  lemma MagnitudeOfClean(n: Numeral, floats: FloatReader)
    requires IsInteger(n)
    ensures Magnitude(CleanText(n), floats) == ParseInt(IntegerDigits(n), Base(n))
  {
    hide Magnitude, ParseInt, IntegerDigits;
    if n.Radix? {
      MagnitudeOfRadix(n.letter, IntegerDigits(n), floats);
    } else {
      DigitsAreDigits(n);
      MagnitudeOfDecimal(IntegerDigits(n), floats);
      assert CleanText(n) == IntegerDigits(n);
    }
  }

  /**
   Every way of writing an integer below 2^63 is read as that integer: decimal, hexadecimal,
   octal or binary, with any underscores, leading zeros and BigInt suffix.
   */
  lemma IntegerSpelling(n: Numeral, floats: FloatReader)
    requires IsInteger(n)
    ensures JSNumber(NumeralText(n), floats) ==
            if IntegerValue(n) < 0x8000_0000_0000_0000 then Some(IntegerValue(n)) else None
  {
    SmallBase(n);
    hide DropUnderscores, CleanText, IntegerDigits, Base, Magnitude;
    DigitsAreDigits(n);
    DigitsArePositional(IntegerDigits(n), Base(n));
    DropNumeral(n);
    CleanTextEnds(n);
    MagnitudeOfClean(n, floats);
    var t := CleanText(n);
    assert (t + n.suffix)[..|t|] == t;
    assert n.suffix == "" ==> t + n.suffix == t;
    ParseDigits(IntegerDigits(n), Base(n));
    assert n.suffix != "" ==> HasSuffix(t + n.suffix, n.suffix);
  }

  lemma SmallBase(n: Numeral)
    ensures Base(n) <= 16
  {
  }

  /** With a minus sign in front it is read as the negative integer. */
  lemma NegativeSpelling(n: Numeral, floats: FloatReader)
    requires IsInteger(n) && IntegerValue(n) < 0x8000_0000_0000_0000
    ensures JSNumber("-" + NumeralText(n), floats) == Some(0 - IntegerValue(n))
  {
    SmallBase(n);
    hide DropUnderscores, CleanText, IntegerDigits, Base, Magnitude, NumeralText;
    DigitsAreDigits(n);
    DigitsArePositional(IntegerDigits(n), Base(n));
    DropNumeral(n);
    CleanTextEnds(n);
    MagnitudeOfClean(n, floats);
    var t := CleanText(n);
    DropMinus();
    DropConcat("-", NumeralText(n));
    var m := "-" + t;
    MinusParts(t, n.suffix);
    ParseDigits(IntegerDigits(n), Base(n));
    assert n.suffix != "" ==> HasSuffix(m + n.suffix, n.suffix);
  }

  lemma MinusParts(t: string, suffix: string)
    requires t != ""
    ensures var m := "-" + t;
            && "-" + (t + suffix) == m + suffix && (m + suffix)[..|m|] == m && m[1..] == t
            && m[|m| - 1] == t[|t| - 1] && (suffix == "" ==> m + suffix == m)
  {
  }

  lemma DropMinus()
    ensures DropUnderscores("-") == "-"
  {
    assert "-"[1..] == "";
  }

  // ---- Numerals with a fraction or an exponent ----

  /** The bytes of a decimal numeral. */
  predicate DecimalByte(c: char) { DigitChar(c) || c in {'.', 'e', 'E', '+', '-'} }

  lemma {:induction false} DropKeeps(s: string)
    ensures forall c | c in DropUnderscores(s) :: c in s && c != '_'
    ensures s != "" && s[0] != '_' ==> DropUnderscores(s) != "" && DropUnderscores(s)[0] == s[0]
    ensures forall c | c in s && c != '_' :: c in DropUnderscores(s)
    decreases |s|
  {
    if s != "" {
      DropKeeps(s[1..]);
    }
  }

  /** A numeral with a fraction or an exponent goes to the float reader, without its underscores. */
  lemma FloatSpelling(n: Numeral, floats: FloatReader)
    requires ValidNumeral(n) && n.Decimal? && (n.fraction.Some? || n.exponent.Some?) && n.suffix == ""
    ensures JSNumber(NumeralText(n), floats) == floats(DropUnderscores(NumeralText(n)))
  {
    hide DropUnderscores, ValidNumeral, NumeralText;
    var s := NumeralText(n);
    var t := DropUnderscores(s);
    DecimalBytes(n);
    DropKeeps(s);
    forall c | c in t
      ensures DecimalByte(c)
    {
      assert c in s;
    }
    assert t[|t| - 1] in t;
    assert |t| > 1 ==> t[1] in t;
    NotRadix(t);
  }

  lemma NotRadix(t: string)
    requires t != "" && t[0] != '-' && (|t| > 1 ==> DecimalByte(t[1])) && DecimalByte(t[|t| - 1])
    ensures !HasPrefix(t, "-") && !HasSuffix(t, "n") && !HasSuffix(t, "N")
    ensures forall p | p in {"0x", "0X", "0o", "0O", "0b", "0B"} :: !HasPrefix(t, p)
  {
  }

  lemma DecimalBytes(n: Numeral)
    requires ValidNumeral(n) && n.Decimal? && (n.fraction.Some? || n.exponent.Some?) && n.suffix == ""
    ensures var s := NumeralText(n);
            && s != "" && s[0] != '_' && s[0] != '-' && (forall c | c in s :: DecimalByte(c) || c == '_')
            && ('.' in s || 'e' in s || 'E' in s)
  {
    var s, f, e := NumeralText(n), FractionText(n.fraction), ExponentText(n.exponent);
    assert s == n.whole + f + e;
    assert (forall c | c in n.whole :: Among(c, DecRun)) && forall c | c in f :: c == '.' || Among(c, DecRun);
    assert forall c | c in e :: c in {'e', 'E', '+', '-'} || Among(c, DecDigit);
    if n.fraction.Some? {
      assert f[0] == '.' && '.' in f;
    } else {
      assert e[0] == n.exponent.value.letter && e[0] in e;
    }
    if n.whole == "" {
      assert s[0] == f[0];
    } else {
      assert s[0] == n.whole[0];
    }
  }

  lemma ParseDigits(d: string, base: nat)
    requires d != "" && AllDigits(d, base)
    ensures ParseInt(d, base) == if DigitsValue(d, base) < LIMIT then Some(DigitsValue(d, base)) else None
  {
    assert d[0] in d;
  }

  /** Two spellings of the same value are read alike whatever their bases. */
  lemma BaseDoesNotMatter(m: Numeral, n: Numeral, floats: FloatReader)
    requires IsInteger(m) && IsInteger(n)
    requires IntegerValue(m) < LIMIT && IntegerValue(n) < LIMIT
    ensures JSNumber(NumeralText(m), floats) == JSNumber(NumeralText(n), floats) <==> IntegerValue(m) == IntegerValue(n)
  {
    IntegerSpelling(m, floats);
    IntegerSpelling(n, floats);
  }
}
