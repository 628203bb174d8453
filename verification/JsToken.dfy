/**
 The JavaScript lexer of internal/core/jstoken.go.

 A Go byte string is modelled by a Dafny string whose every char stands for one
 byte.  LexJS is the loop of the source; the functions beside it say, one scan at
 a time, what each of its loops computes, and the other modules prove what the
 source promises about them.
 */
module JsToken {
  import opened Wrappers

  datatype Kind = String | Number | Ident | Punct | Template | Regex

  datatype Token = Token(kind: Kind, val: string, pos: nat)

  // The multi-character operators, in the order in which they are tried.
  function Ops4(): seq<string> { [">>>="] }

  function Ops3(): seq<string> { ["...", "===", "!==", "**=", "<<=", ">>=", ">>>", "&&=", "||=", "??="] }

  function Ops2(): seq<string> { Ops2Tests() + Ops2Others() }

  function Ops2Tests(): seq<string> { ["=>", "==", "!=", "<=", ">=", "&&", "||", "??", "?."] }

  function Ops2Others(): seq<string> { ["++", "--", "+=", "-=", "*=", "/=", "%=", "&=", "|=", "^=", "<<", ">>"] }

  function Ops(): seq<string> { Ops4() + Ops3() + Ops2() }

  const REGEX_KEYWORDS: set<string> :=
    {"return", "typeof", "instanceof", "in", "of", "new", "delete", "void", "case",
     "do", "else", "throw", "yield", "await"}

  // ---- Characters ----

  predicate IsSpace(c: char) {
    c == ' ' || c == '\t' || c == '\n' || c == '\r' || c == '\U{B}' || c == '\U{C}'
  }

  predicate IsDec(c: char) { '0' <= c <= '9' }

  predicate IsHex(c: char) { IsDec(c) || 'a' <= c <= 'f' || 'A' <= c <= 'F' }

  predicate IsIdentStart(c: char) { 'a' <= c <= 'z' || 'A' <= c <= 'Z' || c == '_' || c == '$' }

  predicate IsIdentPart(c: char) { IsIdentStart(c) || IsDec(c) }

  /** The byte sets over which the lexer runs a "while in the set" loop. */
  datatype CharClass = DecRun | HexRun | OctRun | BinRun | DecDigit | HexDigit | IdentByte | IdentPart | LineRest

  predicate In(c: char, cls: CharClass) {
    match cls
    case DecRun => IsDec(c) || c == '_'
    case HexRun => IsHex(c) || c == '_'
    case OctRun => '0' <= c <= '7' || c == '_'
    case BinRun => c == '0' || c == '1' || c == '_'
    case DecDigit => IsDec(c)
    case HexDigit => IsHex(c)
    case IdentByte => c >= '\U{80}' || IsIdentPart(c)
    case IdentPart => IsIdentPart(c)
    case LineRest => c != '\n'
  }

  function HexVal(c: char): (v: nat)
    requires IsHex(c)
    ensures v < 16
  {
    if IsDec(c) then (c - '0') as int else if 'a' <= c then (c - 'a') as int + 10 else (c - 'A') as int + 10
  }

  function Int64(v: int): int { (v + 0x8000_0000_0000_0000) % 0x1_0000_0000_0000_0000 - 0x8000_0000_0000_0000 }

  function Int32(v: int): int { (v + 0x8000_0000) % 0x1_0000_0000 - 0x8000_0000 }

  /** The UTF-8 bytes Go's string(rune) yields; an invalid rune becomes U+FFFD. */
  function RuneBytes(r: int): string {
    if r < 0 || r > 0x10FFFF || 0xD800 <= r < 0xE000 then ['\U{EF}', '\U{BF}', '\U{BD}']
    else if r < 0x80 then [r as char]
    else if r < 0x800 then [(0xC0 + r / 64) as char, (0x80 + r % 64) as char]
    else if r < 0x10000 then
      [(0xE0 + r / 4096) as char, (0x80 + r / 64 % 64) as char, (0x80 + r % 64) as char]
    else
      [(0xF0 + r / 262144) as char, (0x80 + r / 4096 % 64) as char, (0x80 + r / 64 % 64) as char,
       (0x80 + r % 64) as char]
  }

  // ---- Scans ----

  /** A scanned value and the index just past it. */
  datatype Chunk = Chunk(text: string, end: nat)

  function Prepend(head: string, c: Chunk): Chunk { Chunk(head + c.text, c.end) }

  lemma PrependTwice(a: string, b: string, c: Chunk)
    ensures Prepend(a, Prepend(b, c)) == Prepend(a + b, c)
  {
    assert a + (b + c.text) == a + b + c.text;
  }

  lemma PrependNothing(c: Chunk)
    ensures Prepend("", c) == c
    ensures c.text == "" ==> forall b :: Prepend(b, c) == Chunk(b, c.end)
  {
    assert "" + c.text == c.text;
    assert forall b: string :: b + "" == b;
  }

  /** The end of the maximal run of cls bytes that starts at i. */
  function RunEnd(src: string, i: nat, cls: CharClass): (j: nat)
    requires i <= |src|
    ensures i <= j <= |src|
    ensures forall k | i <= k < j :: In(src[k], cls)
    ensures j < |src| ==> !In(src[j], cls)
    decreases |src| - i
  {
    if i < |src| && In(src[i], cls) then RunEnd(src, i + 1, cls) else i
  }

  method ScanRun(src: string, i: nat, cls: CharClass) returns (j: nat)
    requires i <= |src|
    ensures j == RunEnd(src, i, cls)
  {
    j := i;
    while j < |src| && In(src[j], cls)
      invariant i <= j <= |src|
      invariant RunEnd(src, i, cls) == RunEnd(src, j, cls)
    {
      j := j + 1;
    }
  }

  /** Past the block comment whose text starts at i. */
  function BlockCommentEnd(src: string, i: nat): (j: nat)
    requires i <= |src|
    ensures i <= j <= |src|
    decreases |src| - i
  {
    if i + 1 >= |src| then |src|
    else if src[i] == '*' && src[i + 1] == '/' then i + 2
    else BlockCommentEnd(src, i + 1)
  }

  method ScanBlockComment(src: string, start: nat) returns (i: nat)
    requires start <= |src|
    ensures i == BlockCommentEnd(src, start)
  {
    i := start;
    while i + 1 < |src| && !(src[i] == '*' && src[i + 1] == '/')
      invariant start <= i <= |src|
      invariant BlockCommentEnd(src, start) == BlockCommentEnd(src, i)
    {
      i := i + 1;
    }
    if i + 1 < |src| {
      i := i + 2;
    } else {
      i := |src|;
    }
  }

  /** Hexadecimal value of src[i..j] in a 64-bit int, started from acc. */
  function HexValue(src: string, i: nat, j: nat, acc: int): int
    requires i <= j <= |src|
    requires forall k | i <= k < j :: IsHex(src[k])
    decreases j - i
  {
    if i == j then acc else HexValue(src, i + 1, j, Int64(acc * 16 + HexVal(src[i])))
  }

  /** What the escape whose letter stands at src[i] denotes. */
  function Escape(src: string, i: nat): (r: Chunk)
    requires i < |src|
    ensures i < r.end <= |src|
  {
    match src[i]
    case 'n' => Chunk("\n", i + 1)
    case 't' => Chunk("\t", i + 1)
    case 'r' => Chunk("\r", i + 1)
    case 'b' => Chunk(['\U{8}'], i + 1)
    case 'f' => Chunk(['\U{C}'], i + 1)
    case 'v' => Chunk(['\U{B}'], i + 1)
    case '0' => Chunk(['\0'], i + 1)
    case 'x' =>
      if i + 2 < |src| && IsHex(src[i + 1]) && IsHex(src[i + 2])
      then Chunk([(HexVal(src[i + 1]) * 16 + HexVal(src[i + 2])) as char], i + 3)
      else Chunk("x", i + 1)
    case 'u' => UnicodeEscape(src, i)
    case '\n' => Chunk("", i + 1)
    case esc => Chunk([esc], i + 1)
  }

  function UnicodeEscape(src: string, i: nat): (r: Chunk)
    requires i < |src|
    ensures i < r.end <= |src|
  {
    if i + 4 < |src| && IsHex(src[i + 1]) && IsHex(src[i + 2]) && IsHex(src[i + 3]) && IsHex(src[i + 4])
    then Chunk(RuneBytes(HexValue(src, i + 1, i + 5, 0)), i + 5)
    else if i + 1 < |src| && src[i + 1] == '{' then
      var j := RunEnd(src, i + 2, HexDigit);
      var v := HexValue(src, i + 2, j, 0);
      if j < |src| && src[j] == '}' && v < 0x110000 then Chunk(RuneBytes(Int32(v)), j + 1) else Chunk("u", i + 1)
    else Chunk("u", i + 1)
  }

  method ScanHexValue(src: string, i: nat, limit: nat) returns (j: nat, v: int)
    requires i <= limit <= |src|
    ensures i <= j <= limit
    ensures forall k | i <= k < j :: IsHex(src[k])
    ensures j < limit ==> !IsHex(src[j])
    ensures v == HexValue(src, i, j, 0)
  {
    j, v := i, 0;
    while j < limit && IsHex(src[j])
      invariant i <= j <= limit
      invariant forall k | i <= k < j :: IsHex(src[k])
      invariant v == HexValue(src, i, j, 0)
    {
      HexValueSnoc(src, i, j, 0);
      v := Int64(v * 16 + HexVal(src[j]));
      j := j + 1;
    }
  }

  lemma HexValueSnoc(src: string, i: nat, j: nat, acc: int)
    requires i <= j < |src|
    requires forall k | i <= k <= j :: IsHex(src[k])
    ensures HexValue(src, i, j + 1, acc) == Int64(HexValue(src, i, j, acc) * 16 + HexVal(src[j]))
    decreases j - i
  {
    if i < j {
      HexValueSnoc(src, i + 1, j, Int64(acc * 16 + HexVal(src[i])));
    }
  }

  method ScanUnicodeEscape(src: string, i: nat) returns (r: Chunk)
    requires i < |src|
    ensures r == UnicodeEscape(src, i)
  {
    if i + 4 < |src| && IsHex(src[i + 1]) && IsHex(src[i + 2]) && IsHex(src[i + 3]) && IsHex(src[i + 4]) {
      var j, v := ScanHexValue(src, i + 1, i + 5);
      return Chunk(RuneBytes(v), i + 5);
    }
    if i + 1 < |src| && src[i + 1] == '{' {
      var j, v := ScanHexValue(src, i + 2, |src|);
      RunEndIs(src, i + 2, j, HexDigit);
      if j < |src| && src[j] == '}' && v < 0x110000 {
        return Chunk(RuneBytes(Int32(v)), j + 1);
      }
    }
    return Chunk("u", i + 1);
  }

  method ScanEscape(src: string, i: nat) returns (r: Chunk)
    requires i < |src|
    ensures r == Escape(src, i)
  {
    var b: string;
    var end := i + 1;
    match src[i] {
      case 'n' => b := "\n";
      case 't' => b := "\t";
      case 'r' => b := "\r";
      case 'b' => b := ['\U{8}'];
      case 'f' => b := ['\U{C}'];
      case 'v' => b := ['\U{B}'];
      case '0' => b := ['\0'];
      case 'x' =>
        b := "x";
        if i + 2 < |src| {
          var hi, lo := src[i + 1], src[i + 2];
          if IsHex(hi) && IsHex(lo) {
            b, end := [(HexVal(hi) * 16 + HexVal(lo)) as char], i + 3;
          }
        }
      case 'u' =>
        r := ScanUnicodeEscape(src, i);
        return;
      case '\n' => b := "";
      case esc => b := [esc];
    }
    r := Chunk(b, end);
  }

  /** RunEnd is the only index with the properties its contract states. */
  lemma {:induction false} RunEndIs(src: string, i: nat, j: nat, cls: CharClass)
    requires i <= j <= |src|
    requires forall k | i <= k < j :: In(src[k], cls)
    requires j < |src| ==> !In(src[j], cls)
    ensures RunEnd(src, i, cls) == j
    decreases j - i
  {
    if i < j {
      RunEndIs(src, i + 1, j, cls);
    }
  }

  /** The text of a string literal from index i up to its closing quote. */
  function StringBody(src: string, i: nat, quote: char): (r: Chunk)
    requires i <= |src|
    ensures i <= r.end <= |src|
    decreases |src| - i
  {
    if i == |src| then Chunk("", i)
    else if src[i] == quote then Chunk("", i + 1)
    else if src[i] == '\\' && i + 1 < |src| then
      var e := Escape(src, i + 1);
      Prepend(e.text, StringBody(src, e.end, quote))
    else if src[i] == '\n' then Chunk("", i)
    else
      Prepend([src[i]], StringBody(src, i + 1, quote))
  }

  method ScanString(src: string, start: nat, quote: char) returns (r: Chunk)
    requires start <= |src|
    ensures r == StringBody(src, start, quote)
  {
    hide Escape, Prepend;
    PrependNothing(StringBody(src, start, quote));
    var i, b := start, "";
    while i < |src|
      invariant start <= i <= |src|
      invariant StringBody(src, start, quote) == Prepend(b, StringBody(src, i, quote))
      decreases |src| - i
    {
      var ch := src[i];
      if ch == quote {
        PrependNothing(Chunk("", i + 1));
        return Chunk(b, i + 1);
      }
      if ch == '\\' && i + 1 < |src| {
        var e := ScanEscape(src, i + 1);
        PrependTwice(b, e.text, StringBody(src, e.end, quote));
        b, i := b + e.text, e.end;
      } else if ch == '\n' {
        PrependNothing(Chunk("", i));
        return Chunk(b, i);
      } else {
        PrependTwice(b, [ch], StringBody(src, i + 1, quote));
        b, i := b + [ch], i + 1;
      }
    }
    PrependNothing(Chunk("", i));
    return Chunk(b, i);
  }

  function BraceDepth(depth: nat, ch: char): nat {
    if depth > 0 && ch == '{' then depth + 1 else if depth > 0 && ch == '}' then depth - 1 else depth
  }

  /** The text a template literal keeps from index i on, at substitution depth depth. */
  function TemplateBody(src: string, i: nat, depth: nat): (r: Chunk)
    requires i <= |src|
    ensures i <= r.end <= |src|
    decreases |src| - i
  {
    if i == |src| then Chunk("", i)
    else if src[i] == '\\' && i + 1 < |src| then
      Prepend(if depth == 0 && src[i + 1] != '`' then [src[i + 1]] else "", TemplateBody(src, i + 2, depth))
    else if depth == 0 && src[i] == '`' then Chunk("", i + 1)
    else if src[i] == '$' && i + 1 < |src| && src[i + 1] == '{' then TemplateBody(src, i + 2, depth + 1)
    else
      var d := BraceDepth(depth, src[i]);
      Prepend(if d == 0 then [src[i]] else "", TemplateBody(src, i + 1, d))
  }

  method ScanTemplate(src: string, start: nat) returns (r: Chunk)
    requires start <= |src|
    ensures r == TemplateBody(src, start, 0)
  {
    hide Prepend, BraceDepth;
    PrependNothing(TemplateBody(src, start, 0));
    var i, depth: nat, b := start, 0, "";
    while i < |src|
      invariant start <= i <= |src|
      invariant TemplateBody(src, start, 0) == Prepend(b, TemplateBody(src, i, depth))
    {
      var ch := src[i];
      if ch == '\\' && i + 1 < |src| {
        var kept := if depth == 0 && src[i + 1] != '`' then [src[i + 1]] else "";
        PrependTwice(b, kept, TemplateBody(src, i + 2, depth));
        b, i := b + kept, i + 2;
        continue;
      }
      if depth == 0 && ch == '`' {
        PrependNothing(Chunk("", i + 1));
        return Chunk(b, i + 1);
      }
      if ch == '$' && i + 1 < |src| && src[i + 1] == '{' {
        depth, i := depth + 1, i + 2;
        continue;
      }
      depth := BraceDepth(depth, ch);
      var kept := if depth == 0 then [ch] else "";
      PrependTwice(b, kept, TemplateBody(src, i + 1, depth));
      b, i := b + kept, i + 1;
    }
    PrependNothing(Chunk("", i));
    return Chunk(b, i);
  }

  /** The digits a radix letter after a leading 0 announces. */
  function RadixClass(c: char): Option<CharClass> {
    if c == 'x' || c == 'X' then Some(HexRun)
    else if c == 'o' || c == 'O' then Some(OctRun)
    else if c == 'b' || c == 'B' then Some(BinRun)
    else None
  }

  function ExponentEnd(src: string, j: nat): (r: nat)
    requires j <= |src|
    ensures j <= r <= |src|
  {
    if j < |src| && (src[j] == 'e' || src[j] == 'E') then
      var k := if j + 1 < |src| && (src[j + 1] == '+' || src[j + 1] == '-') then j + 2 else j + 1;
      if k < |src| && IsDec(src[k]) then RunEnd(src, k, DecDigit) else j
    else j
  }

  function DecimalEnd(src: string, i: nat): (j: nat)
    requires i <= |src|
    ensures RunEnd(src, i, DecRun) <= j <= |src|
    ensures RunEnd(src, i, DecRun) < |src| && src[RunEnd(src, i, DecRun)] == '.' ==> RunEnd(src, i, DecRun) < j
  {
    var a := RunEnd(src, i, DecRun);
    ExponentEnd(src, if a < |src| && src[a] == '.' then RunEnd(src, a + 1, DecRun) else a)
  }

  predicate NumberStarts(src: string, i: nat)
    requires i < |src|
  {
    IsDec(src[i]) || (src[i] == '.' && i + 1 < |src| && IsDec(src[i + 1]))
  }

  /** The end of the number literal that starts at i. */
  function NumberEnd(src: string, i: nat): (j: nat)
    requires i < |src| && NumberStarts(src, i)
    ensures i < j <= |src|
  {
    var j :=
      if src[i] == '0' && i + 1 < |src| && RadixClass(src[i + 1]).Some?
      then RunEnd(src, i + 2, RadixClass(src[i + 1]).value)
      else DecimalEnd(src, i);
    if j < |src| && (src[j] == 'n' || src[j] == 'N') then j + 1 else j
  }

  method ScanExponent(src: string, i: nat) returns (j: nat)
    requires i <= |src|
    ensures j == ExponentEnd(src, i)
  {
    j := i;
    if j < |src| && (src[j] == 'e' || src[j] == 'E') {
      var k := j + 1;
      if k < |src| && (src[k] == '+' || src[k] == '-') {
        k := k + 1;
      }
      if k < |src| && IsDec(src[k]) {
        j := ScanRun(src, k, DecDigit);
      }
    }
  }

  method ScanDecimal(src: string, i: nat) returns (j: nat)
    requires i <= |src|
    ensures j == DecimalEnd(src, i)
  {
    j := ScanRun(src, i, DecRun);
    if j < |src| && src[j] == '.' {
      j := ScanRun(src, j + 1, DecRun);
    }
    j := ScanExponent(src, j);
  }

  method ScanNumber(src: string, i: nat) returns (j: nat)
    requires i < |src| && NumberStarts(src, i)
    ensures j == NumberEnd(src, i)
  {
    j := i;
    if src[i] == '0' && i + 1 < |src| {
      var radix := RadixClass(src[i + 1]);
      if radix.Some? {
        j := ScanRun(src, i + 2, radix.value);
      }
    }
    if j == i {
      j := ScanDecimal(src, i);
    }
    if j < |src| && (src[j] == 'n' || src[j] == 'N') {
      j := j + 1;
    }
  }

  /** The end of the regex literal whose body continues at j, if it is one. */
  function RegexEnd(src: string, j: nat, inClass: bool): (r: Option<nat>)
    requires j <= |src|
    ensures r.Some? ==> j < r.value <= |src|
    decreases |src| - j
  {
    if j == |src| then None
    else if src[j] == '\\' && j + 1 < |src| then RegexEnd(src, j + 2, inClass)
    else if src[j] == '\n' then None
    else if inClass then RegexEnd(src, j + 1, src[j] != ']')
    else if src[j] == '/' then Some(RunEnd(src, j + 1, IdentPart))
    else RegexEnd(src, j + 1, src[j] == '[')
  }

  method ScanRegex(src: string, start: nat) returns (r: Option<nat>)
    requires start <= |src|
    ensures r == RegexEnd(src, start, false)
  {
    var j, inClass := start, false;
    while j < |src|
      invariant start <= j <= |src|
      invariant RegexEnd(src, start, false) == RegexEnd(src, j, inClass)
      decreases |src| - j
    {
      var ch := src[j];
      if ch == '\\' && j + 1 < |src| {
        j := j + 2;
        continue;
      }
      if ch == '\n' {
        return None;
      }
      if inClass {
        if ch == ']' {
          inClass := false;
        }
      } else if ch == '[' {
        inClass := true;
      } else if ch == '/' {
        j := ScanRun(src, j + 1, IdentPart);
        return Some(j);
      }
      j := j + 1;
    }
    return None;
  }

  /** Does s occur in src at index i? */
  predicate At(src: string, i: nat, s: string) {
    i + |s| <= |src| && src[i..i + |s|] == s
  }

  /** The first operator of the list that occurs at i. */
  function FirstOp(src: string, i: nat, ops: seq<string>): (r: Option<string>)
    ensures r.Some? ==> r.value in ops && At(src, i, r.value)
    ensures r.None? ==> forall op | op in ops :: !At(src, i, op)
  {
    if ops == [] then None
    else if At(src, i, ops[0]) then Some(ops[0])
    else FirstOp(src, i, ops[1..])
  }

  method MatchOp(src: string, i: nat) returns (r: Option<string>)
    ensures r == FirstOp(src, i, Ops())
  {
    hide Ops, At;
    var ops := Ops();
    for k := 0 to |ops|
      invariant FirstOp(src, i, ops) == FirstOp(src, i, ops[k..])
    {
      assert ops[k..][1..] == ops[k + 1..];
      if At(src, i, ops[k]) {
        return Some(ops[k]);
      }
    }
    return None;
  }

  // ---- The lexer ----

  /** May a '/' after these tokens start a regex literal? */
  predicate RegexPosition(toks: seq<Token>) {
    toks == [] ||
    var last := toks[|toks| - 1];
    match last.kind
    case Ident => last.val in REGEX_KEYWORDS
    case Punct => last.val !in {")", "]", "}", "++", "--"}
    case _ => false
  }

  datatype Step = Skip(next: nat) | Emit(kind: Kind, val: string, next: nat)

  /** One round of the main loop at index i. */
  function StepAt(src: string, i: nat, regexOk: bool): (s: Step)
    requires i < |src|
    ensures i < s.next <= |src|
  {
    var c := src[i];
    if IsSpace(c) then Skip(i + 1)
    else if c == '/' && i + 1 < |src| && src[i + 1] == '/' then Skip(RunEnd(src, i + 2, LineRest))
    else if c == '/' && i + 1 < |src| && src[i + 1] == '*' then Skip(BlockCommentEnd(src, i + 2))
    else if c == '\'' || c == '"' then
      var r := StringBody(src, i + 1, c);
      Emit(String, r.text, r.end)
    else if c == '`' then
      var r := TemplateBody(src, i + 1, 0);
      Emit(Template, r.text, r.end)
    else if NumberStarts(src, i) then
      var j := NumberEnd(src, i);
      Emit(Number, src[i..j], j)
    else if IsIdentStart(c) || c >= '\U{80}' then
      var j := RunEnd(src, i + 1, IdentByte);
      Emit(Ident, src[i..j], j)
    else if c == '/' then SlashStep(src, i, regexOk)
    else OperatorStep(src, i)
  }

  function SlashStep(src: string, i: nat, regexOk: bool): (s: Step)
    requires i < |src|
    ensures i < s.next <= |src|
  {
    var r := if regexOk then RegexEnd(src, i + 1, false) else None;
    if r.Some? then Emit(Regex, src[i..r.value], r.value) else Emit(Punct, "/", i + 1)
  }

  function OperatorStep(src: string, i: nat): (s: Step)
    requires i < |src|
    ensures i < s.next <= |src|
  {
    OpsNonEmpty();
    var op := FirstOp(src, i, Ops());
    if op.Some? then Emit(Punct, op.value, i + |op.value|) else Emit(Punct, [src[i]], i + 1)
  }

  lemma OpsNonEmpty()
    ensures forall op | op in Ops() :: 2 <= |op| <= 4
  {
  }

  /** The tokens of src when the main loop stands at i having produced toks. */
  function Lex(src: string, i: nat, toks: seq<Token>): seq<Token>
    requires i <= |src|
    decreases |src| - i
  {
    if i == |src| then toks
    else
      var s := StepAt(src, i, RegexPosition(toks));
      Lex(src, s.next, if s.Skip? then toks else toks + [Token(s.kind, s.val, i)])
  }

  method ScanSlash(src: string, i: nat, regexOk: bool) returns (s: Step)
    requires i < |src|
    ensures s == SlashStep(src, i, regexOk)
  {
    if regexOk {
      var r := ScanRegex(src, i + 1);
      if r.Some? {
        return Emit(Regex, src[i..r.value], r.value);
      }
    }
    return Emit(Punct, "/", i + 1);
  }

  method ScanOperator(src: string, i: nat) returns (s: Step)
    requires i < |src|
    ensures s == OperatorStep(src, i)
  {
    var op := MatchOp(src, i);
    if op.Some? {
      return Emit(Punct, op.value, i + |op.value|);
    }
    return Emit(Punct, [src[i]], i + 1);
  }

  method Round(src: string, i: nat, regexOk: bool) returns (s: Step)
    requires i < |src|
    ensures s == StepAt(src, i, regexOk)
  {
    var n, c := |src|, src[i];
    if IsSpace(c) {
      return Skip(i + 1);
    }
    if c == '/' && i + 1 < n {
      if src[i + 1] == '/' {
        var j := ScanRun(src, i + 2, LineRest);
        return Skip(j);
      }
      if src[i + 1] == '*' {
        var j := ScanBlockComment(src, i + 2);
        return Skip(j);
      }
    }
    if c == '\'' || c == '"' {
      var r := ScanString(src, i + 1, c);
      return Emit(String, r.text, r.end);
    }
    if c == '`' {
      var r := ScanTemplate(src, i + 1);
      return Emit(Template, r.text, r.end);
    }
    if NumberStarts(src, i) {
      var j := ScanNumber(src, i);
      return Emit(Number, src[i..j], j);
    }
    if IsIdentStart(c) || c >= '\U{80}' {
      var j := ScanRun(src, i + 1, IdentByte);
      return Emit(Ident, src[i..j], j);
    }
    if c == '/' {
      s := ScanSlash(src, i, regexOk);
    } else {
      s := ScanOperator(src, i);
    }
  }

  method LexJS(src: string) returns (toks: seq<Token>)
    ensures toks == Lex(src, 0, [])
  {
    toks := [];
    var i := 0;
    while i < |src|
      invariant 0 <= i <= |src|
      invariant Lex(src, 0, []) == Lex(src, i, toks)
    {
      var s := Round(src, i, RegexPosition(toks));
      if s.Emit? {
        toks := toks + [Token(s.kind, s.val, i)];
      }
      i := s.next;
    }
  }
}
