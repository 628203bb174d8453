/**
 What lexJS promises about representation: a token list is recovered from every
 way of writing it down, and on arbitrary input the tokens are slices of the
 source at strictly increasing positions.
 */
module JsPrinted {
  import opened Wrappers
  import opened JsToken

  // ---- The bytes of JavaScript text, written out ----

  /** Space, tab, line feed, carriage return, vertical tab and form feed. */
  predicate SpaceChar(c: char)
    ensures SpaceChar(c) <==> IsSpace(c)
  {
    c in {' ', '\t', '\n', '\r', '\U{B}', '\U{C}'}
  }

  predicate DigitChar(c: char)
    ensures DigitChar(c) <==> IsDec(c)
  {
    c in {'0', '1', '2', '3', '4', '5', '6', '7', '8', '9'}
  }

  predicate HexChar(c: char)
    ensures HexChar(c) <==> IsHex(c)
  {
    DigitChar(c) || c in {'a', 'b', 'c', 'd', 'e', 'f', 'A', 'B', 'C', 'D', 'E', 'F'}
  }

  /** Letters, underscore and dollar. */
  predicate NameStart(c: char)
    ensures NameStart(c) <==> IsIdentStart(c)
  {
    'a' <= c <= 'z' || 'A' <= c <= 'Z' || c in {'_', '$'}
  }

  predicate NameChar(c: char)
    ensures NameChar(c) <==> IsIdentPart(c)
  {
    NameStart(c) || DigitChar(c)
  }

  function HexDigit16(c: char): (v: nat)
    requires HexChar(c)
    ensures v == HexVal(c)
  {
    match c
    case '0' => 0 case '1' => 1 case '2' => 2 case '3' => 3 case '4' => 4
    case '5' => 5 case '6' => 6 case '7' => 7 case '8' => 8 case '9' => 9
    case 'a' => 10 case 'b' => 11 case 'c' => 12 case 'd' => 13 case 'e' => 14 case 'f' => 15
    case 'A' => 10 case 'B' => 11 case 'C' => 12 case 'D' => 13 case 'E' => 14 case _ => 15
  }

  /** The bytes a scan of each kind goes on over. */
  predicate Among(c: char, cls: CharClass)
    ensures Among(c, cls) <==> In(c, cls)
  {
    match cls
    case DecRun => DigitChar(c) || c == '_'
    case HexRun => HexChar(c) || c == '_'
    case OctRun => c in {'0', '1', '2', '3', '4', '5', '6', '7', '_'}
    case BinRun => c in {'0', '1', '_'}
    case DecDigit => DigitChar(c)
    case HexDigit => HexChar(c)
    case IdentByte => NameChar(c) || c >= '\U{80}'
    case IdentPart => NameChar(c)
    case LineRest => c != '\n'
  }

  /** What may follow the zero of a numeral in another base. */
  function RadixDigits(letter: char): (r: Option<CharClass>)
    ensures r == RadixClass(letter)
  {
    match letter
    case 'x' => Some(HexRun) case 'X' => Some(HexRun)
    case 'o' => Some(OctRun) case 'O' => Some(OctRun)
    case 'b' => Some(BinRun) case 'B' => Some(BinRun)
    case _ => None
  }

  // ---- Ways of writing a token ----

  /** One unit of a string literal: a byte itself, or one of the escapes. */
  datatype Piece =
    | Plain(c: char)
    | Backslash(c: char)
    | HexPair(hi: char, lo: char)
    | Code4(digits: string)
    | CodeBraced(digits: string)

  function HexNat(digits: string): nat
    requires forall d | d in digits :: HexChar(d)
  {
    if digits == "" then 0 else HexNat(digits[..|digits| - 1]) * 16 + HexDigit16(digits[|digits| - 1])
  }

  ghost predicate ValidPiece(p: Piece, quote: char) {
    match p
    case Plain(c) => c != quote && c != '\\' && c != '\n'
    case Backslash(c) => c != 'x' && c != 'u'
    case HexPair(hi, lo) => HexChar(hi) && HexChar(lo)
    case Code4(digits) => |digits| == 4 && forall d | d in digits :: HexChar(d)
    case CodeBraced(digits) => (forall d | d in digits :: HexChar(d)) && HexNat(digits) < 0x110000
  }

  function PieceText(p: Piece): (t: string) {
    match p
    case Plain(c) => [c]
    case Backslash(c) => ['\\', c]
    case HexPair(hi, lo) => ['\\', 'x', hi, lo]
    case Code4(digits) => ['\\', 'u'] + digits
    case CodeBraced(digits) => ['\\', 'u', '{'] + digits + ['}']
  }

  /** The bytes a backslash and a letter stand for; a line continuation stands for none. */
  function BackslashValue(c: char): string {
    match c
    case 'n' => "\n"
    case 't' => "\t"
    case 'r' => "\r"
    case 'b' => ['\U{8}']
    case 'f' => ['\U{C}']
    case 'v' => ['\U{B}']
    case '0' => ['\0']
    case '\n' => ""
    case _ => [c]
  }

  ghost function PieceValue(p: Piece, quote: char): string
    requires ValidPiece(p, quote)
  {
    match p
    case Plain(c) => [c]
    case Backslash(c) => BackslashValue(c)
    case HexPair(hi, lo) => [(HexDigit16(hi) * 16 + HexDigit16(lo)) as char]
    case Code4(digits) => RuneBytes(HexNat(digits))
    case CodeBraced(digits) => RuneBytes(HexNat(digits))
  }

  ghost predicate ValidPieces(ps: seq<Piece>, quote: char) {
    forall p | p in ps :: ValidPiece(p, quote)
  }

  ghost function PiecesText(ps: seq<Piece>): string {
    if ps == [] then "" else PieceText(ps[0]) + PiecesText(ps[1..])
  }

  ghost function PiecesValue(ps: seq<Piece>, quote: char): string
    requires ValidPieces(ps, quote)
  {
    if ps == [] then "" else PieceValue(ps[0], quote) + PiecesValue(ps[1..], quote)
  }

  /** Template text is written plainly or with a backslash before the byte; '$' needs one. */
  ghost predicate ValidTemplatePiece(p: Piece) {
    match p
    case Plain(c) => c != '`' && c != '\\' && c != '$'
    case Backslash(c) => c != '`'
    case _ => false
  }

  ghost predicate ValidTemplatePieces(ps: seq<Piece>) {
    forall p | p in ps :: ValidTemplatePiece(p)
  }

  ghost function TemplateValue(ps: seq<Piece>): string
    requires ValidTemplatePieces(ps)
  {
    if ps == [] then "" else (assert ValidTemplatePiece(ps[0]); [ps[0].c] + TemplateValue(ps[1..]))
  }

  datatype Exponent = Exponent(letter: char, sign: string, digits: string)

  datatype Numeral =
    | Radix(letter: char, digits: string, suffix: string)
    | Decimal(whole: string, fraction: Option<string>, exponent: Option<Exponent>, suffix: string)

  predicate AllIn(s: string, cls: CharClass) {
    forall c | c in s :: Among(c, cls)
  }

  ghost predicate ValidNumeral(n: Numeral) {
    n.suffix in {"", "n", "N"} &&
    match n
    case Radix(letter, digits, _) => RadixDigits(letter).Some? && AllIn(digits, RadixDigits(letter).value)
    case Decimal(whole, fraction, exponent, _) =>
      && AllIn(whole, DecRun)
      && (fraction.Some? ==> AllIn(fraction.value, DecRun))
      && (if whole != "" then DigitChar(whole[0])
          else fraction.Some? && fraction.value != "" && DigitChar(fraction.value[0]))
      && (exponent.Some? ==>
            && exponent.value.letter in {'e', 'E'}
            && exponent.value.sign in {"", "+", "-"}
            && exponent.value.digits != ""
            && AllIn(exponent.value.digits, DecDigit))
  }

  ghost function FractionText(f: Option<string>): string { if f.Some? then "." + f.value else "" }

  ghost function ExponentText(e: Option<Exponent>): string {
    if e.Some? then [e.value.letter] + e.value.sign + e.value.digits else ""
  }

  ghost function NumeralText(n: Numeral): string {
    match n
    case Radix(letter, digits, suffix) => ['0', letter] + digits + suffix
    case Decimal(whole, fraction, exponent, suffix) =>
      whole + FractionText(fraction) + ExponentText(exponent) + suffix
  }

  datatype Spelling =
    | StringLit(quote: char, pieces: seq<Piece>)
    | TemplateLit(pieces: seq<Piece>)
    | NumberLit(numeral: Numeral)
    | Name(name: string)
    | Operator(op: string)

  /** The single bytes that reach the last branch of the lexer. */
  predicate OperatorChar(c: char) {
    && c < '\U{80}' && !SpaceChar(c) && !DigitChar(c) && !NameStart(c)
    && c != '\'' && c != '"' && c != '`' && c != '/'
  }

  ghost predicate ValidSpelling(s: Spelling) {
    match s
    case StringLit(quote, pieces) => (quote == '\'' || quote == '"') && ValidPieces(pieces, quote)
    case TemplateLit(pieces) => ValidTemplatePieces(pieces)
    case NumberLit(numeral) => ValidNumeral(numeral)
    case Name(name) => name != "" && !DigitChar(name[0]) && AllIn(name, IdentByte)
    case Operator(op) => (op in Ops() && op[0] != '/') || (|op| == 1 && OperatorChar(op[0]))
  }

  ghost function SpellingText(s: Spelling): string {
    match s
    case StringLit(quote, pieces) => [quote] + PiecesText(pieces) + [quote]
    case TemplateLit(pieces) => "`" + PiecesText(pieces) + "`"
    case NumberLit(numeral) => NumeralText(numeral)
    case Name(name) => name
    case Operator(op) => op
  }

  ghost function SpellingToken(s: Spelling, pos: nat): (t: Token)
    requires ValidSpelling(s)
    ensures t.pos == pos
  {
    match s
    case StringLit(quote, pieces) => Token(String, PiecesValue(pieces, quote), pos)
    case TemplateLit(pieces) => Token(Template, TemplateValue(pieces), pos)
    case NumberLit(numeral) => Token(Number, NumeralText(numeral), pos)
    case Name(name) => Token(Ident, name, pos)
    case Operator(op) => Token(Punct, op, pos)
  }

  /** May the byte c follow the token directly, without fusing with it? */
  ghost predicate Separable(s: Spelling, c: char) {
    match s
    case StringLit(_, _) => true
    case TemplateLit(_) => true
    case NumberLit(_) => !NameChar(c) && c != '.'
    case Name(_) => !Among(c, IdentByte)
    case Operator(op) => (forall o | o in Ops() :: !(op + [c] <= o)) && (op == "." ==> !DigitChar(c))
  }

  // ---- Gaps ----

  datatype Blank = Space(c: char) | LineComment(body: string) | BlockComment(body: string)

  ghost predicate ValidBlank(b: Blank) {
    match b
    case Space(c) => SpaceChar(c)
    case LineComment(body) => AllIn(body, LineRest)
    case BlockComment(body) => forall k | 0 <= k < |body| - 1 :: !(body[k] == '*' && body[k + 1] == '/')
  }

  ghost function BlankText(b: Blank): string {
    match b
    case Space(c) => [c]
    case LineComment(body) => "//" + body + "\n"
    case BlockComment(body) => "/*" + body + "*/"
  }

  ghost function GapText(gap: seq<Blank>): string {
    if gap == [] then "" else BlankText(gap[0]) + GapText(gap[1..])
  }

  ghost predicate ValidGap(gap: seq<Blank>) { forall b | b in gap :: ValidBlank(b) }

  // ---- Printed token lists ----

  datatype Item = Item(gap: seq<Blank>, spelling: Spelling)

  ghost function Printed(items: seq<Item>): string {
    if items == [] then "" else GapText(items[0].gap) + SpellingText(items[0].spelling) + Printed(items[1..])
  }

  /** Every part is well formed and no token fuses with what follows; after comes behind the list. */
  ghost predicate WellPrinted(items: seq<Item>, after: string) {
    items != [] ==>
      && ValidGap(items[0].gap)
      && ValidSpelling(items[0].spelling)
      && (var next := Printed(items[1..]) + after; next != "" ==> Separable(items[0].spelling, next[0]))
      && WellPrinted(items[1..], after)
  }

  ghost predicate AllValid(items: seq<Item>) { forall it | it in items :: ValidSpelling(it.spelling) }

  /** The tokens written by items when the text starts at index i. */
  ghost function Tokens(items: seq<Item>, i: nat): seq<Token>
    requires AllValid(items)
  {
    if items == [] then []
    else
      var pos := i + |GapText(items[0].gap)|;
      [SpellingToken(items[0].spelling, pos)] + Tokens(items[1..], pos + |SpellingText(items[0].spelling)|)
  }

  lemma WellPrintedValid(items: seq<Item>, after: string)
    requires WellPrinted(items, after)
    ensures AllValid(items)
  {
    if items != [] {
      WellPrintedValid(items[1..], after);
    }
  }

  // ---- Occurrence ----

  lemma AtParts(src: string, i: nat, a: string, b: string)
    ensures At(src, i, a + b) <==> At(src, i, a) && At(src, i + |a|, b)
  {
    if At(src, i, a + b) {
      assert src[i..i + |a + b|][..|a|] == a;
      assert src[i..i + |a + b|][|a|..] == b;
    }
    if At(src, i, a) && At(src, i + |a|, b) {
      assert src[i..i + |a + b|] == src[i..i + |a|] + src[i + |a|..i + |a| + |b|];
    }
  }

  lemma AtChar(src: string, i: nat, s: string, k: nat)
    requires At(src, i, s) && k < |s|
    ensures i + k < |src| && src[i + k] == s[k]
  {
    assert src[i..i + |s|][k] == s[k];
  }

  // ---- Gaps are skipped ----

  lemma {:induction false} BlockCommentBody(src: string, i: nat, body: string)
    requires ValidBlank(BlockComment(body)) && At(src, i, body + "*/")
    ensures BlockCommentEnd(src, i) == i + |body| + 2
    decreases |body|
  {
    AtChar(src, i, body + "*/", 0);
    AtChar(src, i, body + "*/", 1);
    if body != "" {
      assert body + "*/" == [body[0]] + (body[1..] + "*/");
      AtParts(src, i, [body[0]], body[1..] + "*/");
      BlockCommentBody(src, i + 1, body[1..]);
    }
  }

  lemma StepLineComment(src: string, i: nat, body: string, regexOk: bool)
    requires ValidBlank(LineComment(body)) && At(src, i, "//" + body + "\n")
    ensures i < |src| && StepAt(src, i, regexOk) == Skip(i + 2 + |body|)
    ensures i + 2 + |body| < |src| && StepAt(src, i + 2 + |body|, regexOk) == Skip(i + 3 + |body|)
  {
    hide StringBody, TemplateBody, NumberEnd, NumberStarts, SlashStep, OperatorStep;
    AtParts(src, i, "//" + body, "\n");
    AtParts(src, i, "//", body);
    AtChar(src, i, "//", 0);
    AtChar(src, i, "//", 1);
    AtChar(src, i + 2 + |body|, "\n", 0);
    RunOver(src, i + 2, body, LineRest);
  }

  lemma StepBlockComment(src: string, i: nat, body: string, regexOk: bool)
    requires ValidBlank(BlockComment(body)) && At(src, i, "/*" + body + "*/")
    ensures i < |src| && StepAt(src, i, regexOk) == Skip(i + 4 + |body|)
  {
    hide StringBody, TemplateBody, NumberEnd, NumberStarts, SlashStep, OperatorStep;
    assert "/*" + body + "*/" == "/*" + (body + "*/");
    AtParts(src, i, "/*", body + "*/");
    AtChar(src, i, "/*", 0);
    AtChar(src, i, "/*", 1);
    BlockCommentBody(src, i + 2, body);
  }

  /** One round of Lex. */
  lemma LexRound(src: string, i: nat, toks: seq<Token>)
    requires i < |src|
    ensures var s := StepAt(src, i, RegexPosition(toks));
            Lex(src, i, toks) == Lex(src, s.next, if s.Skip? then toks else toks + [Token(s.kind, s.val, i)])
  {
    hide StepAt, RegexPosition;
  }

  lemma LexEnd(src: string, toks: seq<Token>)
    ensures Lex(src, |src|, toks) == toks
  {
    hide StepAt;
  }

  lemma LexBlank(src: string, i: nat, toks: seq<Token>, b: Blank)
    requires ValidBlank(b) && At(src, i, BlankText(b))
    ensures Lex(src, i, toks) == Lex(src, i + |BlankText(b)|, toks)
  {
    hide Lex, NumberStarts, NumberEnd, SlashStep, OperatorStep, StringBody, TemplateBody, BlockCommentEnd, RunEnd;
    AtChar(src, i, BlankText(b), 0);
    LexRound(src, i, toks);
    match b
    case Space(c) =>
    case LineComment(body) =>
      StepLineComment(src, i, body, RegexPosition(toks));
      LexRound(src, i + 2 + |body|, toks);
    case BlockComment(body) =>
      StepBlockComment(src, i, body, RegexPosition(toks));
  }

  lemma {:induction false} LexGap(src: string, i: nat, toks: seq<Token>, gap: seq<Blank>)
    requires ValidGap(gap) && At(src, i, GapText(gap))
    ensures Lex(src, i, toks) == Lex(src, i + |GapText(gap)|, toks)
    decreases |gap|
  {
    hide Lex, BlankText, ValidBlank;
    if gap != [] {
      AtParts(src, i, BlankText(gap[0]), GapText(gap[1..]));
      LexBlank(src, i, toks, gap[0]);
      LexGap(src, i + |BlankText(gap[0])|, toks, gap[1..]);
    }
  }

  // ---- String and template literals ----

  lemma HexAt(src: string, i: nat, digits: string)
    requires At(src, i, digits) && forall d | d in digits :: IsHex(d)
    ensures i + |digits| <= |src| && forall k | i <= k < i + |digits| :: IsHex(src[k])
  {
    hide IsHex;
    forall k | i <= k < i + |digits|
      ensures IsHex(src[k])
    {
      AtChar(src, i, digits, k - i);
      assert digits[k - i] in digits;
    }
  }

  lemma {:induction false} HexValueIsHexNat(src: string, i: nat, digits: string)
    requires forall d | d in digits :: IsHex(d)
    requires At(src, i, digits) && HexNat(digits) < 0x8000_0000_0000_0000
    ensures forall k | i <= k < i + |digits| :: IsHex(src[k])
    ensures HexValue(src, i, i + |digits|, 0) == HexNat(digits)
    decreases |digits|
  {
    hide At, HexVal, IsHex;
    HexAt(src, i, digits);
    if digits != "" {
      HexNatSnoc(digits);
      hide HexNat;
      var n := |digits| - 1;
      assert digits == digits[..n] + digits[n..];
      AtParts(src, i, digits[..n], digits[n..]);
      AtChar(src, i, digits, n);
      HexValueIsHexNat(src, i, digits[..n]);
      hide HexValue;
      HexValueSnoc(src, i, i + n, 0);
      FitsInt64(HexNat(digits[..n]) * 16 + HexVal(digits[n]));
    }
  }

  lemma HexNatSnoc(digits: string)
    requires digits != "" && forall d | d in digits :: IsHex(d)
    ensures var n := |digits| - 1;
            && (forall d | d in digits[..n] :: IsHex(d))
            && IsHex(digits[n]) && HexNat(digits) == HexNat(digits[..n]) * 16 + HexVal(digits[n])
  {
    hide IsHex, HexVal;
    assert digits[|digits| - 1] in digits;
  }

  lemma FitsInt64(v: nat)
    requires v < 0x8000_0000_0000_0000
    ensures Int64(v) == v
  {
  }

  lemma HexNatBound4(digits: string)
    requires |digits| == 4 && forall d | d in digits :: IsHex(d)
    ensures HexNat(digits) < 0x10000
  {
    var d3 := digits[..3];
    var d2 := d3[..2];
    var d1 := d2[..1];
    assert d1[..0] == "" && HexNat(d1) == HexVal(d1[0]);
    assert HexNat(d2) == HexNat(d1) * 16 + HexVal(d2[1]);
    assert HexNat(d3) == HexNat(d2) * 16 + HexVal(d3[2]);
  }

  lemma UnicodeEscape4(src: string, i: nat, digits: string)
    requires i < |src| && |digits| == 4 && (forall d | d in digits :: IsHex(d))
    requires At(src, i + 1, digits)
    ensures UnicodeEscape(src, i) == Chunk(RuneBytes(HexNat(digits)), i + 5)
  {
    hide RuneBytes;
    HexNatBound4(digits);
    HexValueIsHexNat(src, i + 1, digits);
  }

  lemma UnicodeEscapeBraced(src: string, i: nat, digits: string)
    requires (forall d | d in digits :: IsHex(d)) && HexNat(digits) < 0x110000
    requires At(src, i, ['u', '{'] + digits + ['}'])
    ensures i < |src| && UnicodeEscape(src, i) == Chunk(RuneBytes(HexNat(digits)), i + 3 + |digits|)
  {
    hide RuneBytes, HexNat, HexValue, HexVal, At;
    assert HexNat(digits) >= 0 && Int32(HexNat(digits)) == HexNat(digits);
    assert ['u', '{'] + digits + ['}'] == ['u', '{'] + (digits + ['}']);
    AtParts(src, i, ['u', '{'], digits + ['}']);
    AtChar(src, i, ['u', '{'], 1);
    AtParts(src, i + 2, digits, ['}']);
    HexValueIsHexNat(src, i + 2, digits);
    AtChar(src, i + 2 + |digits|, ['}'], 0);
    RunEndIs(src, i + 2, i + 2 + |digits|, HexDigit);
  }

  /** An escape of more than one letter is resolved to the piece's value. */
  lemma EscapePiece(src: string, i: nat, p: Piece, quote: char)
    requires !p.Plain? && ValidPiece(p, quote)
    requires At(src, i, PieceText(p)) && i + |PieceText(p)| < |src|
    ensures src[i] == '\\' && i + 1 < |src|
    ensures Escape(src, i + 1) == Chunk(PieceValue(p, quote), i + |PieceText(p)|)
  {
    hide HexNat, HexValue, HexVal, RuneBytes, UnicodeEscape;
    var text := PieceText(p);
    AtChar(src, i, text, 0);
    AtChar(src, i, text, 1);
    match p
    case Backslash(c) =>
    case HexPair(hi, lo) =>
      AtChar(src, i, text, 2);
      AtChar(src, i, text, 3);
    case Code4(digits) =>
      AtParts(src, i, ['\\', 'u'], digits);
      UnicodeEscape4(src, i + 1, digits);
    case CodeBraced(digits) =>
      assert text == ['\\'] + (['u', '{'] + digits + ['}']);
      AtParts(src, i, ['\\'], ['u', '{'] + digits + ['}']);
      UnicodeEscapeBraced(src, i + 1, digits);
  }

  lemma StringBodyPiece(src: string, i: nat, p: Piece, quote: char)
    requires ValidPiece(p, quote) && quote != '\\'
    requires At(src, i, PieceText(p)) && i + |PieceText(p)| < |src|
    ensures StringBody(src, i, quote) == Prepend(PieceValue(p, quote), StringBody(src, i + |PieceText(p)|, quote))
  {
    hide Escape, HexNat, RuneBytes, BackslashValue;
    if p.Plain? {
      AtChar(src, i, PieceText(p), 0);
    } else {
      EscapePiece(src, i, p, quote);
    }
  }

  lemma StringBodyQuote(src: string, i: nat, quote: char)
    requires At(src, i, "" + [quote])
    ensures i < |src| && StringBody(src, i, quote) == Chunk("", i + 1)
  {
    AtChar(src, i, "" + [quote], 0);
  }

  lemma {:induction false} StringBodyPieces(src: string, i: nat, ps: seq<Piece>, quote: char)
    requires ValidPieces(ps, quote) && quote != '\\'
    requires At(src, i, PiecesText(ps) + [quote])
    ensures StringBody(src, i, quote) == Chunk(PiecesValue(ps, quote), i + |PiecesText(ps)| + 1)
    decreases |ps|
  {
    hide At, StringBody, PieceText, PieceValue, ValidPiece;
    if ps == [] {
      StringBodyQuote(src, i, quote);
    } else {
      var p, rest := ps[0], ps[1..];
      assert PiecesText(ps) + [quote] == PieceText(p) + (PiecesText(rest) + [quote]);
      AtParts(src, i, PieceText(p), PiecesText(rest) + [quote]);
      AtChar(src, i + |PieceText(p)|, PiecesText(rest) + [quote], 0);
      StringBodyPiece(src, i, p, quote);
      StringBodyPieces(src, i + |PieceText(p)|, rest, quote);
    }
  }

  lemma TemplateBodyPiece(src: string, i: nat, p: Piece)
    requires ValidTemplatePiece(p) && At(src, i, PieceText(p)) && i + |PieceText(p)| < |src|
    ensures TemplateBody(src, i, 0) == Prepend([p.c], TemplateBody(src, i + |PieceText(p)|, 0))
  {
    AtChar(src, i, PieceText(p), 0);
    if p.Backslash? {
      AtChar(src, i, PieceText(p), 1);
    }
  }

  lemma TemplateBodyQuote(src: string, i: nat)
    requires At(src, i, "" + "`")
    ensures i < |src| && TemplateBody(src, i, 0) == Chunk("", i + 1)
  {
    AtChar(src, i, "" + "`", 0);
  }

  lemma {:induction false} TemplateBodyPieces(src: string, i: nat, ps: seq<Piece>)
    requires ValidTemplatePieces(ps)
    requires At(src, i, PiecesText(ps) + "`")
    ensures TemplateBody(src, i, 0) == Chunk(TemplateValue(ps), i + |PiecesText(ps)| + 1)
    decreases |ps|
  {
    hide At, TemplateBody, PieceText, ValidTemplatePiece;
    if ps == [] {
      TemplateBodyQuote(src, i);
    } else {
      var p, rest := ps[0], ps[1..];
      assert PiecesText(ps) + "`" == PieceText(p) + (PiecesText(rest) + "`");
      AtParts(src, i, PieceText(p), PiecesText(rest) + "`");
      AtChar(src, i + |PieceText(p)|, PiecesText(rest) + "`", 0);
      TemplateBodyPiece(src, i, p);
      TemplateBodyPieces(src, i + |PieceText(p)|, rest);
    }
  }

  // ---- Numbers ----

  lemma RunOver(src: string, i: nat, s: string, cls: CharClass)
    requires At(src, i, s) && AllIn(s, cls)
    requires i + |s| < |src| ==> !In(src[i + |s|], cls)
    ensures RunEnd(src, i, cls) == i + |s|
  {
    forall k | i <= k < i + |s|
      ensures In(src[k], cls)
    {
      hide In, Among;
      assert Among(s[k - i], cls);
      AtChar(src, i, s, k - i);
    }
    RunEndIs(src, i, i + |s|, cls);
  }

  ghost predicate NumberStop(src: string, j: nat) {
    j < |src| ==> !IsIdentPart(src[j]) && src[j] != '.'
  }

  /** After the digits of a number only its BigInt suffix is left before the stop. */
  ghost predicate SuffixThenStop(src: string, j: nat, suffix: string) {
    suffix in {"", "n", "N"} && At(src, j, suffix) && NumberStop(src, j + |suffix|)
  }

  lemma SuffixFollows(src: string, j: nat, suffix: string)
    requires suffix in {"", "n", "N"} && At(src, j, suffix) && NumberStop(src, j + |suffix|)
    ensures SuffixThenStop(src, j, suffix)
  {
  }

  lemma SuffixChar(src: string, j: nat, suffix: string)
    requires SuffixThenStop(src, j, suffix)
    ensures j < |src| ==>
              && !IsDec(src[j]) && !IsHex(src[j]) && src[j] != '_' && src[j] != '.'
              && src[j] !in {'e', 'E', 'x', 'X', 'o', 'O', 'b', 'B'}
    ensures suffix != "" <==> j < |src| && (src[j] == 'n' || src[j] == 'N')
  {
    if suffix != "" {
      AtChar(src, j, suffix, 0);
    }
  }

  lemma RadixNumber(src: string, i: nat, n: Numeral)
    requires n.Radix? && ValidNumeral(n) && At(src, i, NumeralText(n)) && NumberStop(src, i + |NumeralText(n)|)
    ensures i < |src| && NumberStarts(src, i) && NumberEnd(src, i) == i + |NumeralText(n)|
  {
    var head := ['0', n.letter] + n.digits;
    AtParts(src, i, head, n.suffix);
    AtParts(src, i, ['0', n.letter], n.digits);
    AtChar(src, i, ['0', n.letter], 0);
    AtChar(src, i, ['0', n.letter], 1);
    SuffixChar(src, i + |head|, n.suffix);
    RunOver(src, i + 2, n.digits, RadixClass(n.letter).value);
  }

  lemma ExponentRun(src: string, j: nat, e: Option<Exponent>, suffix: string)
    requires e.Some? ==>
               && e.value.letter in {'e', 'E'} && e.value.sign in {"", "+", "-"}
               && e.value.digits != "" && AllIn(e.value.digits, DecDigit)
    requires At(src, j, ExponentText(e)) && SuffixThenStop(src, j + |ExponentText(e)|, suffix)
    ensures ExponentEnd(src, j) == j + |ExponentText(e)|
  {
    hide At, AllIn, SuffixThenStop;
    SuffixChar(src, j + |ExponentText(e)|, suffix);
    if e.Some? {
      hide RunEnd;
      var x := e.value;
      AtParts(src, j, [x.letter] + x.sign, x.digits);
      AtParts(src, j, [x.letter], x.sign);
      AtChar(src, j, [x.letter], 0);
      AtChar(src, j + 1 + |x.sign|, x.digits, 0);
      if x.sign != "" {
        AtChar(src, j + 1, x.sign, 0);
      }
      RunOver(src, j + 1 + |x.sign|, x.digits, DecDigit);
    }
  }

  /** The byte after the whole or fraction digits does not continue them. */
  lemma AfterDigits(src: string, j: nat, e: Option<Exponent>, suffix: string)
    requires e.Some? ==> e.value.letter in {'e', 'E'}
    requires At(src, j, ExponentText(e)) && SuffixThenStop(src, j + |ExponentText(e)|, suffix)
    ensures j < |src| ==> !In(src[j], DecRun) && src[j] != '.' && RadixClass(src[j]).None?
  {
    SuffixChar(src, j + |ExponentText(e)|, suffix);
    if e.Some? {
      AtChar(src, j, ExponentText(e), 0);
    }
  }

  lemma DecimalParts(src: string, i: nat, n: Numeral)
    requires n.Decimal? && ValidNumeral(n) && At(src, i, NumeralText(n)) && NumberStop(src, i + |NumeralText(n)|)
    ensures var a := i + |n.whole|; var b := a + |FractionText(n.fraction)|; var c := b + |ExponentText(n.exponent)|;
            && At(src, i, n.whole) && At(src, a, FractionText(n.fraction)) && At(src, b, ExponentText(n.exponent))
            && SuffixThenStop(src, c, n.suffix)
  {
    hide At, ExponentText, FractionText, NumberStop, SuffixThenStop;
    var frac, exp := FractionText(n.fraction), ExponentText(n.exponent);
    AtParts(src, i, n.whole + frac + exp, n.suffix);
    AtParts(src, i, n.whole + frac, exp);
    AtParts(src, i, n.whole, frac);
    SuffixFollows(src, i + |n.whole + frac + exp|, n.suffix);
  }

  lemma DecimalRuns(src: string, i: nat, n: Numeral)
    requires n.Decimal? && ValidNumeral(n) && At(src, i, NumeralText(n)) && NumberStop(src, i + |NumeralText(n)|)
    ensures At(src, i, n.whole) && At(src, i + |n.whole|, FractionText(n.fraction))
    ensures RunEnd(src, i, DecRun) == i + |n.whole|
    ensures var j := i + |n.whole| + |FractionText(n.fraction)| + |ExponentText(n.exponent)|;
            SuffixThenStop(src, j, n.suffix) && DecimalEnd(src, i) == j
    ensures var b := i + |n.whole| + |FractionText(n.fraction)|; b < |src| ==> RadixClass(src[b]).None?
  {
    hide At, ExponentText, ExponentEnd, AllIn, RadixClass, SuffixThenStop, NumberStop, NumeralText, DecimalEnd,
         ValidNumeral, RunEnd, In;
    DecimalParts(src, i, n);
    NumeralParts(n);
    var a := i + |n.whole|;
    var b := a + |FractionText(n.fraction)|;
    ExponentRun(src, b, n.exponent, n.suffix);
    AfterDigits(src, b, n.exponent, n.suffix);
    FractionRun(src, a, n.fraction);
    RunOver(src, i, n.whole, DecRun);
    DecimalEndIs(src, i, n.fraction);
  }

  lemma NumeralParts(n: Numeral)
    requires n.Decimal? && ValidNumeral(n)
    ensures AllIn(n.whole, DecRun) && (n.fraction.Some? ==> AllIn(n.fraction.value, DecRun))
    ensures n.exponent.Some? ==>
              var e := n.exponent.value;
              e.letter in {'e', 'E'} && e.sign in {"", "+", "-"} && e.digits != "" && AllIn(e.digits, DecDigit)
  {
  }

  lemma DecimalEndIs(src: string, i: nat, fraction: Option<string>)
    requires i <= |src|
    requires var a := RunEnd(src, i, DecRun);
             && (a < |src| ==> (src[a] == '.' <==> fraction.Some?))
             && (fraction.Some? ==> a < |src| && RunEnd(src, a + 1, DecRun) == a + |FractionText(fraction)|)
    ensures var b := RunEnd(src, i, DecRun) + |FractionText(fraction)|;
            b <= |src| && DecimalEnd(src, i) == ExponentEnd(src, b)
  {
    hide ExponentEnd;
  }

  lemma FractionRun(src: string, a: nat, fraction: Option<string>)
    requires fraction.Some? ==> AllIn(fraction.value, DecRun)
    requires At(src, a, FractionText(fraction))
    requires var b := a + |FractionText(fraction)|; b < |src| ==> !In(src[b], DecRun) && src[b] != '.'
    ensures a < |src| ==> !In(src[a], DecRun) && (src[a] == '.' <==> fraction.Some?)
    ensures fraction.Some? ==> a < |src| && RunEnd(src, a + 1, DecRun) == a + |FractionText(fraction)|
  {
    if fraction.Some? {
      AtParts(src, a, ".", fraction.value);
      AtChar(src, a, ".", 0);
      RunOver(src, a + 1, fraction.value, DecRun);
    }
  }

  lemma DecimalNumber(src: string, i: nat, n: Numeral)
    requires n.Decimal? && ValidNumeral(n) && At(src, i, NumeralText(n)) && NumberStop(src, i + |NumeralText(n)|)
    ensures i < |src| && NumberStarts(src, i) && NumberEnd(src, i) == i + |NumeralText(n)|
  {
    hide At, DecimalEnd, ExponentText, FractionText, ValidNumeral, RunEnd;
    DecimalRuns(src, i, n);
    DecimalStart(src, i, n);
    SuffixChar(src, DecimalEnd(src, i), n.suffix);
  }

  lemma DecimalStart(src: string, i: nat, n: Numeral)
    requires n.Decimal? && ValidNumeral(n) && At(src, i, n.whole) && At(src, i + |n.whole|, FractionText(n.fraction))
    requires RunEnd(src, i, DecRun) == i + |n.whole|
    requires var b := i + |n.whole| + |FractionText(n.fraction)|; b < |src| ==> RadixClass(src[b]).None?
    ensures i < |src| && NumberStarts(src, i)
    ensures src[i] == '0' && i + 1 < |src| ==> RadixClass(src[i + 1]).None?
  {
    if n.whole == "" {
      AtParts(src, i, ".", n.fraction.value);
      AtChar(src, i, ".", 0);
      AtChar(src, i + 1, n.fraction.value, 0);
    } else {
      AtChar(src, i, n.whole, 0);
      if |n.whole| > 1 {
        AtChar(src, i, n.whole, 1);
      } else if n.fraction.Some? {
        AtChar(src, i + 1, FractionText(n.fraction), 0);
      }
    }
  }

  // ---- Operators ----

  lemma OpLengths4()
    ensures forall op | op in Ops4() :: |op| == 4
  {
  }

  lemma OpLengths3()
    ensures forall op | op in Ops3() :: |op| == 3
  {
  }

  lemma OpLengths2()
    ensures forall op | op in Ops2() :: |op| == 2
  {
  }

  lemma {:induction false} FirstOpConcat(src: string, i: nat, a: seq<string>, b: seq<string>)
    ensures FirstOp(src, i, a + b) == if FirstOp(src, i, a).Some? then FirstOp(src, i, a) else FirstOp(src, i, b)
    decreases |a|
  {
    if a == [] {
      assert a + b == b;
    } else {
      assert (a + b)[1..] == a[1..] + b;
      FirstOpConcat(src, i, a[1..], b);
    }
  }

  /** The operator order of the list makes first match mean longest match. */
  lemma LongestOperator(src: string, i: nat)
    ensures var r := FirstOp(src, i, Ops());
            r.Some? ==> forall op | op in Ops() && At(src, i, op) :: |op| <= |r.value|
  {
    FirstOpConcat(src, i, Ops4() + Ops3(), Ops2());
    FirstOpConcat(src, i, Ops4(), Ops3());
    OpLengths4();
    OpLengths3();
    OpLengths2();
  }

  lemma LongerOpStarts(src: string, i: nat, a: string, b: string)
    requires At(src, i, a) && At(src, i, b) && |a| <= |b|
    ensures a == b || (i + |a| < |src| && a + [src[i + |a|]] <= b)
  {
    assert src[i..i + |b|][..|a|] == src[i..i + |a|];
    if |a| < |b| {
      assert b[..|a| + 1] == a + [b[|a|]];
      AtChar(src, i, b, |a|);
    }
  }

  lemma OperatorRun(src: string, i: nat, op: string)
    requires ValidSpelling(Operator(op)) && At(src, i, op)
    requires i + |op| < |src| ==> Separable(Operator(op), src[i + |op|])
    ensures i < |src| && OperatorStep(src, i) == Emit(Punct, op, i + |op|)
  {
    hide FirstOp, At, Ops;
    OpsNonEmpty();
    AtChar(src, i, op, 0);
    LongestOperator(src, i);
    var r := FirstOp(src, i, Ops());
    if r.Some? {
      LongerOpStarts(src, i, op, r.value);
    }
  }

  ghost predicate OperatorStarts(op: string) {
    op != "" && (op[0] == '/' || OperatorChar(op[0])) && (op[0] == '.' ==> op == "...")
  }

  lemma OpsFirstChars4()
    ensures forall op | op in Ops4() :: OperatorStarts(op)
  {
  }

  lemma OpsFirstChars3()
    ensures forall op | op in Ops3() :: OperatorStarts(op)
  {
  }

  lemma OpsFirstChars2Tests()
    ensures forall op | op in Ops2Tests() :: OperatorStarts(op)
  {
  }

  lemma OpsFirstChars2Others()
    ensures forall op | op in Ops2Others() :: OperatorStarts(op)
  {
  }

  lemma OpsFirstChars()
    ensures forall op | op in Ops() :: OperatorStarts(op)
  {
    hide Ops4, Ops3, Ops2Tests, Ops2Others, OperatorStarts;
    OpsFirstChars4();
    OpsFirstChars3();
    OpsFirstChars2Tests();
    OpsFirstChars2Others();
  }

  // ---- One token ----

  lemma StepSpelling(src: string, i: nat, s: Spelling, regexOk: bool)
    requires ValidSpelling(s) && At(src, i, SpellingText(s))
    requires var j := i + |SpellingText(s)|; j < |src| ==> Separable(s, src[j])
    ensures i < |src|
    ensures StepAt(src, i, regexOk) == (var t := SpellingToken(s, i); Emit(t.kind, t.val, i + |SpellingText(s)|))
  {
    hide Ops, StepAt, NumeralText, PiecesText, PiecesValue, TemplateValue, ValidPieces, ValidTemplatePieces,
         ValidNumeral, At;
    match s
    case StringLit(quote, pieces) =>
      StepString(src, i, quote, pieces, regexOk);
    case TemplateLit(pieces) =>
      StepTemplate(src, i, pieces, regexOk);
    case NumberLit(n) =>
      StepNumber(src, i, n, regexOk);
    case Name(name) =>
      StepName(src, i, name, regexOk);
    case Operator(op) =>
      StepOperator(src, i, op, regexOk);
  }

  lemma StepString(src: string, i: nat, quote: char, pieces: seq<Piece>, regexOk: bool)
    requires (quote == '\'' || quote == '"') && ValidPieces(pieces, quote)
    requires At(src, i, [quote] + PiecesText(pieces) + [quote])
    ensures i < |src|
    ensures StepAt(src, i, regexOk) == Emit(String, PiecesValue(pieces, quote), i + |PiecesText(pieces)| + 2)
  {
    hide NumberStarts, NumberEnd, SlashStep, OperatorStep, StringBody, TemplateBody, BlockCommentEnd, RunEnd, At;
    assert [quote] + PiecesText(pieces) + [quote] == [quote] + (PiecesText(pieces) + [quote]);
    AtParts(src, i, [quote], PiecesText(pieces) + [quote]);
    AtChar(src, i, [quote], 0);
    StringBodyPieces(src, i + 1, pieces, quote);
  }

  lemma StepTemplate(src: string, i: nat, pieces: seq<Piece>, regexOk: bool)
    requires ValidTemplatePieces(pieces) && At(src, i, "`" + PiecesText(pieces) + "`")
    ensures i < |src|
    ensures StepAt(src, i, regexOk) == Emit(Template, TemplateValue(pieces), i + |PiecesText(pieces)| + 2)
  {
    hide NumberStarts, NumberEnd, SlashStep, OperatorStep, StringBody, TemplateBody, BlockCommentEnd, RunEnd, At;
    assert "`" + PiecesText(pieces) + "`" == "`" + (PiecesText(pieces) + "`");
    AtParts(src, i, "`", PiecesText(pieces) + "`");
    AtChar(src, i, "`", 0);
    TemplateBodyPieces(src, i + 1, pieces);
  }

  lemma StepName(src: string, i: nat, name: string, regexOk: bool)
    requires ValidSpelling(Name(name)) && At(src, i, name)
    requires i + |name| < |src| ==> !In(src[i + |name|], IdentByte)
    ensures i < |src| && StepAt(src, i, regexOk) == Emit(Ident, name, i + |name|)
  {
    hide NumberEnd, SlashStep, OperatorStep, StringBody, TemplateBody, BlockCommentEnd;
    AtChar(src, i, name, 0);
    assert name[0] in name;
    RunOver(src, i, name, IdentByte);
  }

  lemma StepNumber(src: string, i: nat, n: Numeral, regexOk: bool)
    requires ValidNumeral(n) && At(src, i, NumeralText(n)) && NumberStop(src, i + |NumeralText(n)|)
    ensures i < |src|
    ensures StepAt(src, i, regexOk) == Emit(Number, NumeralText(n), i + |NumeralText(n)|)
  {
    if n.Radix? {
      RadixNumber(src, i, n);
    } else {
      DecimalNumber(src, i, n);
    }
  }

  lemma StepOperator(src: string, i: nat, op: string, regexOk: bool)
    requires ValidSpelling(Operator(op)) && At(src, i, op)
    requires i + |op| < |src| ==> Separable(Operator(op), src[i + |op|])
    ensures i < |src|
    ensures StepAt(src, i, regexOk) == Emit(Punct, op, i + |op|)
  {
    hide Ops, At, OperatorStep, StringBody, TemplateBody, NumberEnd, RunEnd, BlockCommentEnd;
    OpsNonEmpty();
    OpsFirstChars();
    OperatorRun(src, i, op);
    AtChar(src, i, op, 0);
    if op == "..." {
      AtChar(src, i, op, 1);
    }
    assert !NumberStarts(src, i);
  }

  // ---- The round trip ----

  lemma LexItem(src: string, i: nat, toks: seq<Token>, it: Item)
    requires ValidGap(it.gap) && ValidSpelling(it.spelling)
    requires At(src, i, GapText(it.gap))
    requires At(src, i + |GapText(it.gap)|, SpellingText(it.spelling))
    requires var j := i + |GapText(it.gap)| + |SpellingText(it.spelling)|;
             j < |src| ==> Separable(it.spelling, src[j])
    ensures var pos := i + |GapText(it.gap)|;
            Lex(src, i, toks) == Lex(src, pos + |SpellingText(it.spelling)|, toks + [SpellingToken(it.spelling, pos)])
  {
    hide Lex, StepAt, GapText, ValidGap, SpellingText, ValidSpelling, SpellingToken, Separable, RegexPosition;
    var pos := i + |GapText(it.gap)|;
    LexGap(src, i, toks, it.gap);
    StepSpelling(src, pos, it.spelling, RegexPosition(toks));
    LexRound(src, pos, toks);
  }

  lemma TextEmpty(i: nat)
    ensures Printed([]) == "" && Tokens([], i) == []
  {
  }

  lemma TextCons(items: seq<Item>, after: string)
    requires items != []
    ensures var gap, s := GapText(items[0].gap), SpellingText(items[0].spelling);
            && Printed(items) + after == gap + (s + (Printed(items[1..]) + after))
            && |Printed(items)| == |gap| + |s| + |Printed(items[1..])|
  {
    hide GapText, SpellingText;
    var gap, s, rest := GapText(items[0].gap), SpellingText(items[0].spelling), Printed(items[1..]);
    assert Printed(items) == gap + s + rest;
    hide Printed;
    Nested(gap, s, rest, after);
  }

  lemma Nested(a: string, b: string, c: string, d: string)
    ensures a + b + c + d == a + (b + (c + d))
  {
  }

  lemma TokensCons(items: seq<Item>, i: nat, toks: seq<Token>)
    requires items != [] && AllValid(items)
    ensures var pos := i + |GapText(items[0].gap)|; var s := items[0].spelling;
            toks + Tokens(items, i) == toks + [SpellingToken(s, pos)] + Tokens(items[1..], pos + |SpellingText(s)|)
  {
    hide ValidSpelling, GapText, SpellingText, SpellingToken;
  }

  /** Wherever the lexer stands before a printed list, it produces that list's tokens. */
  lemma {:induction false} LexPrinted(src: string, i: nat, toks: seq<Token>, items: seq<Item>, after: string)
    requires WellPrinted(items, after)
    requires At(src, i, Printed(items) + after) && i + |Printed(items)| + |after| == |src|
    ensures AllValid(items)
    ensures i + |Printed(items)| <= |src|
    ensures Lex(src, i, toks) == Lex(src, i + |Printed(items)|, toks + Tokens(items, i))
    decreases |items|
  {
    hide Lex, At, GapText, ValidGap, SpellingText, ValidSpelling, SpellingToken, Separable, Printed, Tokens;
    WellPrintedValid(items, after);
    if items == [] {
      TextEmpty(i);
      assert toks + [] == toks;
    } else {
      var gap, s, rest := GapText(items[0].gap), items[0].spelling, items[1..];
      var text := SpellingText(s);
      var next := Printed(rest) + after;
      TextCons(items, after);
      AtParts(src, i, gap, text + next);
      AtParts(src, i + |gap|, text, next);
      var pos := i + |gap|;
      if next != "" {
        AtChar(src, pos + |text|, next, 0);
      }
      LexItem(src, i, toks, items[0]);
      var t := SpellingToken(s, pos);
      LexPrinted(src, pos + |text|, toks + [t], rest, after);
      TokensCons(items, i, toks);
    }
  }

  /** The lexer recovers exactly the tokens that were printed. */
  lemma RoundTrip(items: seq<Item>, trailing: seq<Blank>)
    requires ValidGap(trailing) && WellPrinted(items, GapText(trailing))
    ensures AllValid(items)
    ensures Lex(Printed(items) + GapText(trailing), 0, []) == Tokens(items, 0)
  {
    hide Lex, GapText, Printed, Tokens, WellPrinted, ValidSpelling;
    var src := Printed(items) + GapText(trailing);
    assert src[0..|src|] == src;
    LexPrinted(src, 0, [], items, GapText(trailing));
    AtParts(src, 0, Printed(items), GapText(trailing));
    LexGap(src, |Printed(items)|, [] + Tokens(items, 0), trailing);
    LexEnd(src, [] + Tokens(items, 0));
  }

  lemma NotPrefix(a: string, c: char, o: string)
    requires |a| < |o| ==> o[|a|] != c
    ensures !(a + [c] <= o)
  {
    assert (a + [c])[|a|] == c;
  }

  /** A gap, or the end of the text, always keeps a token from fusing. */
  lemma GapSeparates(s: Spelling, c: char)
    requires ValidSpelling(s) && (IsSpace(c) || c == '/')
    ensures Separable(s, c)
  {
    hide Ops, ValidPieces, ValidTemplatePieces, ValidNumeral;
    if s.Operator? {
      forall o | o in Ops()
        ensures !(s.op + [c] <= o)
      {
        OpsNonEmpty();
        OpBytes(o);
        NotPrefix(s.op, c, o);
      }
    }
  }

  /** No operator goes on with a slash or white space. */
  ghost predicate CleanTail(o: string) { forall k | 0 < k < |o| :: o[k] != '/' && !IsSpace(o[k]) }

  lemma OpBytes43(o: string)
    requires o in Ops4() + Ops3()
    ensures CleanTail(o)
  {
  }

  lemma OpBytes2Tests(o: string)
    requires o in Ops2Tests()
    ensures CleanTail(o)
  {
  }

  lemma OpBytes2Others(o: string)
    requires o in Ops2Others()
    ensures CleanTail(o)
  {
  }

  lemma OpBytes(o: string)
    requires o in Ops()
    ensures CleanTail(o)
  {
    hide Ops4, Ops3, Ops2Tests, Ops2Others, CleanTail;
    if o in Ops4() + Ops3() {
      OpBytes43(o);
    } else if o in Ops2Tests() {
      OpBytes2Tests(o);
    } else {
      OpBytes2Others(o);
    }
  }

  /** Valid spellings, with white space or a comment in front of every one but the first. */
  ghost predicate Spaced(items: seq<Item>) {
    forall k | 0 <= k < |items| ::
      ValidSpelling(items[k].spelling) && ValidGap(items[k].gap) && (k > 0 ==> items[k].gap != [])
  }

  /** Nothing, or something that starts with white space or a slash. */
  ghost predicate StartsBlank(text: string) { text == "" || IsSpace(text[0]) || text[0] == '/' }

  lemma BlankStarts(b: Blank)
    requires ValidBlank(b)
    ensures var t := BlankText(b); t != "" && (IsSpace(t[0]) || t[0] == '/')
  {
  }

  lemma GapStarts(gap: seq<Blank>, rest: string)
    requires ValidGap(gap) && gap != []
    ensures StartsBlank(GapText(gap) + rest)
  {
    hide BlankText, ValidBlank, IsSpace;
    assert ValidBlank(gap[0]);
    BlankStarts(gap[0]);
    var t := BlankText(gap[0]);
    assert GapText(gap)[0] == t[0] && (GapText(gap) + rest)[0] == t[0];
  }

  /** Where every token but the first has a gap in front, no token fuses with the next. */
  lemma {:induction false} SpacedIsWellPrinted(items: seq<Item>, after: string)
    requires Spaced(items) && StartsBlank(after)
    ensures WellPrinted(items, after)
    decreases |items|
  {
    hide Separable, ValidSpelling, GapText, SpellingText, ValidGap;
    if items != [] {
      SpacedIsWellPrinted(items[1..], after);
      NextStartsBlank(items[1..], after);
      var next := Printed(items[1..]) + after;
      if next != "" {
        GapSeparates(items[0].spelling, next[0]);
      }
    }
  }

  lemma NextStartsBlank(items: seq<Item>, after: string)
    requires (items != [] ==> ValidGap(items[0].gap) && items[0].gap != []) && StartsBlank(after)
    ensures StartsBlank(Printed(items) + after)
  {
    if items != [] {
      hide ValidGap, GapText, SpellingText, StartsBlank;
      var gap, text, rest := GapText(items[0].gap), SpellingText(items[0].spelling), Printed(items[1..]);
      assert Printed(items) == gap + text + rest;
      hide Printed;
      GapStarts(items[0].gap, text + rest + after);
      Regroup(gap, text, rest, after);
    } else {
      assert Printed(items) + after == after;
    }
  }

  lemma Regroup(a: string, b: string, c: string, d: string)
    ensures a + b + c + d == a + (b + c + d)
  {
  }

  /** Any list of tokens with white space or a comment between them is recovered. */
  lemma SpacedRoundTrip(items: seq<Item>, trailing: seq<Blank>)
    requires Spaced(items) && ValidGap(trailing)
    ensures AllValid(items)
    ensures Lex(Printed(items) + GapText(trailing), 0, []) == Tokens(items, 0)
  {
    hide Spaced, Lex, Printed, Tokens, AllValid, WellPrinted;
    TrailingStartsBlank(trailing);
    SpacedIsWellPrinted(items, GapText(trailing));
    RoundTrip(items, trailing);
  }

  lemma TrailingStartsBlank(trailing: seq<Blank>)
    requires ValidGap(trailing)
    ensures StartsBlank(GapText(trailing))
  {
    if trailing != [] {
      GapStarts(trailing, "");
      assert GapText(trailing) + "" == GapText(trailing);
    }
  }

  /** Any string has a spelling in either quote: escape quote, backslash and newline. */
  function Escaped(val: string, quote: char): (ps: seq<Piece>)
    requires quote == '\'' || quote == '"'
  {
    if val == "" then []
    else
      var p := if val[0] == quote || val[0] == '\\' then Backslash(val[0])
               else if val[0] == '\n' then Backslash('n') else Plain(val[0]);
      [p] + Escaped(val[1..], quote)
  }

  lemma {:induction false} EscapedDenotes(val: string, quote: char)
    requires quote == '\'' || quote == '"'
    ensures ValidPieces(Escaped(val, quote), quote) && PiecesValue(Escaped(val, quote), quote) == val
  {
    if val != "" {
      var p, rest := Escaped(val, quote)[0], Escaped(val[1..], quote);
      assert Escaped(val, quote) == [p] + rest && PieceValue(p, quote) == [val[0]];
      hide Escaped, ValidPiece, PieceValue;
      EscapedDenotes(val[1..], quote);
      PiecesCons(p, rest, quote);
      assert val == [val[0]] + val[1..];
    }
  }

  lemma PiecesCons(p: Piece, rest: seq<Piece>, quote: char)
    requires ValidPiece(p, quote) && ValidPieces(rest, quote)
    ensures ValidPieces([p] + rest, quote)
    ensures PiecesValue([p] + rest, quote) == PieceValue(p, quote) + PiecesValue(rest, quote)
  {
    hide ValidPiece, PieceValue;
    assert ([p] + rest)[1..] == rest;
  }

  /** And from it the lexer reads the string back. */
  lemma EscapedReadBack(val: string, quote: char)
    requires quote == '\'' || quote == '"'
    ensures Lex([quote] + PiecesText(Escaped(val, quote)) + [quote], 0, []) == [Token(String, val, 0)]
  {
    hide Lex, Escaped, PiecesText, PiecesValue, ValidPieces;
    EscapedDenotes(val, quote);
    var sp := StringLit(quote, Escaped(val, quote));
    var items := [Item([], sp)];
    assert items[1..] == [] && GapText([]) == "";
    var text := SpellingText(sp);
    assert Printed(items) == "" + text + "" == text;
    assert text + "" == text;
    SpacedRoundTrip(items, []);
    assert Tokens(items, 0) == [SpellingToken(sp, 0)];
  }

  // ---- Arbitrary input ----

  /** Tokens lie one after the other in src[..i]; all but literals with escapes are the source text. */
  ghost predicate Placed(src: string, toks: seq<Token>, i: nat) {
    && (forall k | 0 <= k < |toks| :: toks[k].pos < i)
    && (forall k | 0 <= k < |toks| - 1 :: toks[k].pos < toks[k + 1].pos)
    && (forall k | 0 <= k < |toks| :: IsSource(src, toks, k, i))
  }

  ghost predicate IsSource(src: string, toks: seq<Token>, k: int, i: nat)
    requires 0 <= k < |toks|
  {
    var t := toks[k];
    t.kind != String && t.kind != Template ==>
      t.val != "" && At(src, t.pos, t.val) && t.pos + |t.val| <= if k + 1 < |toks| then toks[k + 1].pos else i
  }

  lemma StepIsSlice(src: string, i: nat, regexOk: bool)
    requires i < |src|
    ensures var s := StepAt(src, i, regexOk);
            s.Emit? && s.kind != String && s.kind != Template ==>
              s.val != "" && At(src, i, s.val) && i + |s.val| == s.next
  {
    hide NumberEnd, NumberStarts, StringBody, TemplateBody, BlockCommentEnd, RunEnd, FirstOp, RegexEnd, Ops;
    OpsNonEmpty();
  }

  lemma {:induction false} LexPlaced(src: string, i: nat, toks: seq<Token>)
    requires i <= |src| && Placed(src, toks, i)
    ensures Placed(src, Lex(src, i, toks), |src|)
    decreases |src| - i
  {
    hide StepAt, RegexPosition, At, Lex, Placed;
    if i == |src| {
      LexEnd(src, toks);
    } else {
      var s := StepAt(src, i, RegexPosition(toks));
      LexRound(src, i, toks);
      if s.Skip? {
        PlacedSkip(src, toks, i, s.next);
        LexPlaced(src, s.next, toks);
      } else {
        StepIsSlice(src, i, RegexPosition(toks));
        PlacedEmit(src, toks, Token(s.kind, s.val, i), s.next);
        LexPlaced(src, s.next, toks + [Token(s.kind, s.val, i)]);
      }
    }
  }

  lemma PlacedSkip(src: string, toks: seq<Token>, i: nat, j: nat)
    requires Placed(src, toks, i) && i <= j
    ensures Placed(src, toks, j)
  {
    hide At;
    forall k | 0 <= k < |toks|
      ensures IsSource(src, toks, k, j)
    {
      assert IsSource(src, toks, k, i);
    }
  }

  lemma PlacedEmit(src: string, toks: seq<Token>, t: Token, j: nat)
    requires Placed(src, toks, t.pos) && t.pos < j
    requires t.kind != String && t.kind != Template ==> t.val != "" && At(src, t.pos, t.val) && t.pos + |t.val| <= j
    ensures Placed(src, toks + [t], j)
  {
    hide At;
    var more := toks + [t];
    forall k | 0 <= k < |more|
      ensures IsSource(src, more, k, j)
    {
      assert k < |toks| ==> IsSource(src, toks, k, t.pos);
    }
  }

  /** On every input the positions increase strictly and token text is source text. */
  lemma TokensArePlaced(src: string)
    ensures Placed(src, Lex(src, 0, []), |src|)
  {
    hide Lex, At;
    assert Placed(src, [], 0);
    LexPlaced(src, 0, []);
  }

  // ---- Substitutions ----

  /** A template that is inside a substitution at i keeps a '}' if a byte is kept after it. */
  lemma {:induction false} SubstitutionLeavesBrace(src: string, i: nat, depth: nat)
    requires i <= |src| && depth > 0
    ensures var r := TemplateBody(src, i, depth); '}' in r.text || (r.text == "" && r.end == |src|)
    decreases |src| - i
  {
    if i == |src| {
    } else if src[i] == '\\' && i + 1 < |src| {
      SubstitutionLeavesBrace(src, i + 2, depth);
    } else if src[i] == '$' && i + 1 < |src| && src[i + 1] == '{' {
      SubstitutionLeavesBrace(src, i + 2, depth + 1);
    } else if BraceDepth(depth, src[i]) > 0 {
      SubstitutionLeavesBrace(src, i + 1, BraceDepth(depth, src[i]));
    } else {
      assert src[i] == '}' && TemplateBody(src, i, depth).text[0] == '}';
    }
  }
}
