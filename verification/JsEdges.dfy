/**
 The rest of what lexJS of internal/core/jstoken.go does: regular expression literals, templates
 with substitutions, UTF-8, and text that is not well formed.
 */
module JsEdges {
  import opened Wrappers
  import opened JsToken
  import opened JsPrinted

  // ---- UTF-8 ----

  predicate Continues(c: char) { '\U{80}' <= c < '\U{C0}' }

  /** The code point of one UTF-8 sequence (RFC 3629 section 3), if it is one. */
  function CodePoint(b: string): Option<int> {
    if |b| == 1 && b[0] < '\U{80}' then Some(b[0] as int)
    else if |b| == 2 && '\U{C0}' <= b[0] < '\U{E0}' && Continues(b[1])
    then Some((b[0] as int - 0xC0) * 64 + (b[1] as int - 0x80))
    else if |b| == 3 && '\U{E0}' <= b[0] < '\U{F0}' && Continues(b[1]) && Continues(b[2])
    then Some((b[0] as int - 0xE0) * 4096 + (b[1] as int - 0x80) * 64 + (b[2] as int - 0x80))
    else if |b| == 4 && '\U{F0}' <= b[0] < '\U{F8}' && Continues(b[1]) && Continues(b[2]) && Continues(b[3])
    then Some((b[0] as int - 0xF0) * 262144 + (b[1] as int - 0x80) * 4096 + (b[2] as int - 0x80) * 64
               + (b[3] as int - 0x80))
    else None
  }

  predicate Scalar(r: int) { 0 <= r < 0xD800 || 0xE000 <= r < 0x110000 }

  /** An escape gives the shortest UTF-8 sequence of its code point, and that of U+FFFD where there is none. */
  lemma RuneReadBack(r: int)
    ensures CodePoint(RuneBytes(r)) == Some(if Scalar(r) then r else 0xFFFD)
    ensures Scalar(r) ==>
              |RuneBytes(r)| == if r < 0x80 then 1 else if r < 0x800 then 2 else if r < 0x10000 then 3 else 4
  {
    if Scalar(r) {
      if 0x80 <= r < 0x800 {
        Digits64(r);
      } else if 0x800 <= r < 0x10000 {
        Digits64(r);
        Digits64(r / 64);
      } else if 0x10000 <= r {
        Digits64(r);
        Digits64(r / 64);
        Digits64(r / 4096);
      }
    }
  }

  lemma Digits64(r: nat)
    ensures r == r / 64 * 64 + r % 64 && r / 4096 == r / 64 / 64 && r / 262144 == r / 4096 / 64
  {
  }

  // ---- Escapes that are not well formed ----

  /** An \x or \u without its digits stands for the letter. */
  lemma EscapeWithoutDigits(src: string, i: nat)
    requires i < |src|
    ensures src[i] == 'x' && !(i + 2 < |src| && HexChar(src[i + 1]) && HexChar(src[i + 2])) ==>
              Escape(src, i) == Chunk("x", i + 1)
    ensures src[i] == 'u' && !(i + 1 < |src| && (HexChar(src[i + 1]) || src[i + 1] == '{')) ==>
              Escape(src, i) == Chunk("u", i + 1)
  {
  }

  /** So does a \u with digits in braces that are not closed, or that denote no code point. */
  lemma BracesWithoutCodePoint(src: string, i: nat, digits: string)
    requires i < |src| && src[i] == 'u' && At(src, i + 1, "{" + digits) && forall d | d in digits :: HexChar(d)
    requires var j := i + 2 + |digits|;
             if j < |src| && src[j] == '}' then 0x110000 <= HexNat(digits) < 0x8000_0000_0000_0000
             else j < |src| ==> !HexChar(src[j])
    ensures Escape(src, i) == Chunk("u", i + 1)
  {
    hide At, HexNat, HexValue, RuneBytes, HexChar, IsHex, RunEnd;
    BracesAreNoHex();
    var j := i + 2 + |digits|;
    AtParts(src, i + 1, "{", digits);
    AtChar(src, i + 1, "{", 0);
    HexRunEnds(src, i + 2, digits);
    if j < |src| && src[j] == '}' {
      HexValueIsHexNat(src, i + 2, digits);
    }
  }

  lemma BracesAreNoHex()
    ensures !IsHex('{') && !HexChar('}')
  {
  }

  lemma HexRunEnds(src: string, i: nat, digits: string)
    requires At(src, i, digits) && (forall d | d in digits :: HexChar(d))
    requires i + |digits| < |src| ==> !HexChar(src[i + |digits|])
    ensures i + |digits| <= |src| && (forall d | d in digits :: IsHex(d))
    ensures RunEnd(src, i, CharClass.HexDigit) == i + |digits|
  {
    forall k | i <= k < i + |digits|
      ensures In(src[k], CharClass.HexDigit)
    {
      AtChar(src, i, digits, k - i);
      assert digits[k - i] in digits;
    }
    RunEndIs(src, i, i + |digits|, CharClass.HexDigit);
  }

  /** A string that meets a line end stops there and keeps what it has. */
  lemma {:induction false} OpenString(src: string, i: nat, ps: seq<Piece>, quote: char)
    requires ValidPieces(ps, quote) && quote != '\\' && quote != '\n' && At(src, i, PiecesText(ps) + "\n")
    ensures StringBody(src, i, quote) == Chunk(PiecesValue(ps, quote), i + |PiecesText(ps)|)
    decreases |ps|
  {
    hide At, StringBody, PieceText, PieceValue, ValidPiece;
    if ps == [] {
      LineEnds(src, i, quote);
    } else {
      var p, rest := ps[0], ps[1..];
      assert PiecesText(ps) + "\n" == PieceText(p) + (PiecesText(rest) + "\n");
      AtParts(src, i, PieceText(p), PiecesText(rest) + "\n");
      AtChar(src, i + |PieceText(p)|, PiecesText(rest) + "\n", 0);
      StringBodyPiece(src, i, p, quote);
      OpenString(src, i + |PieceText(p)|, rest, quote);
    }
  }

  lemma LineEnds(src: string, i: nat, quote: char)
    requires At(src, i, "" + "\n") && quote != '\n'
    ensures i < |src| && StringBody(src, i, quote) == Chunk("", i)
  {
    AtChar(src, i, "" + "\n", 0);
  }

  /** A comment that is never closed takes the rest of the text. */
  lemma {:induction false} OpenComment(src: string, i: nat)
    requires i <= |src| && forall k | i <= k < |src| - 1 :: !(src[k] == '*' && src[k + 1] == '/')
    ensures BlockCommentEnd(src, i) == |src|
    decreases |src| - i
  {
    if i + 1 < |src| {
      OpenComment(src, i + 1);
    }
  }

  // ---- Regular expressions ----

  /** In a class a slash is a byte like others. */
  datatype ClassPart = InClass(c: char) | EscapedInClass(c: char)

  datatype RegexPart = Literal(c: char) | EscapedChar(c: char) | Class(parts: seq<ClassPart>)

  ghost predicate ValidClassPart(p: ClassPart) { p.InClass? ==> p.c !in {']', '\\', '\n'} }

  ghost predicate ValidRegexPart(p: RegexPart) {
    match p
    case Literal(c) => c !in {'/', '[', '\\', '\n'}
    case EscapedChar(_) => true
    case Class(parts) => forall q | q in parts :: ValidClassPart(q)
  }

  function ClassText(parts: seq<ClassPart>): string {
    if parts == [] then ""
    else (if parts[0].InClass? then [parts[0].c] else ['\\', parts[0].c]) + ClassText(parts[1..])
  }

  function RegexPartText(p: RegexPart): (t: string)
    ensures t != ""
  {
    match p
    case Literal(c) => [c]
    case EscapedChar(c) => ['\\', c]
    case Class(parts) => "[" + ClassText(parts) + "]"
  }

  function RegexText(parts: seq<RegexPart>): string {
    if parts == [] then "" else RegexPartText(parts[0]) + RegexText(parts[1..])
  }

  lemma {:induction false} ClassRead(src: string, i: nat, parts: seq<ClassPart>)
    requires (forall q | q in parts :: ValidClassPart(q)) && At(src, i, ClassText(parts) + "]")
    ensures i + |ClassText(parts)| < |src| && RegexEnd(src, i, true) == RegexEnd(src, i + |ClassText(parts)| + 1, false)
    decreases |parts|
  {
    if parts == [] {
      AtChar(src, i, "" + "]", 0);
    } else {
      var q, rest := parts[0], parts[1..];
      var head := if q.InClass? then [q.c] else ['\\', q.c];
      assert ValidClassPart(q) && ClassText(parts) + "]" == head + (ClassText(rest) + "]");
      AtParts(src, i, head, ClassText(rest) + "]");
      AtChar(src, i, head, 0);
      if q.EscapedInClass? {
        AtChar(src, i, head, 1);
      }
      ClassRead(src, i + |head|, rest);
    }
  }

  lemma RegexPartRead(src: string, i: nat, p: RegexPart)
    requires ValidRegexPart(p) && At(src, i, RegexPartText(p))
    ensures i + |RegexPartText(p)| <= |src| && RegexEnd(src, i, false) == RegexEnd(src, i + |RegexPartText(p)|, false)
  {
    AtChar(src, i, RegexPartText(p), 0);
    match p
    case Literal(c) =>
    case EscapedChar(c) => AtChar(src, i, RegexPartText(p), 1);
    case Class(parts) =>
      assert RegexPartText(p) == "[" + (ClassText(parts) + "]");
      AtParts(src, i, "[", ClassText(parts) + "]");
      ClassRead(src, i + 1, parts);
  }

  /** A regular expression ends at the first slash that is neither escaped nor in a class, and takes its flags. */
  lemma {:induction false} RegexRead(src: string, i: nat, parts: seq<RegexPart>, flags: string)
    requires (forall p | p in parts :: ValidRegexPart(p)) && (forall c | c in flags :: NameChar(c))
    requires At(src, i, RegexText(parts) + ("/" + flags))
    requires var j := i + |RegexText(parts)| + 1 + |flags|; j < |src| ==> !NameChar(src[j])
    ensures RegexEnd(src, i, false) == Some(i + |RegexText(parts)| + 1 + |flags|)
    decreases |parts|
  {
    hide At, RegexPartText, ValidRegexPart, RegexEnd, RunEnd;
    if parts == [] {
      FlagsRead(src, i, flags);
    } else {
      var p, rest := parts[0], parts[1..];
      assert RegexText(parts) + ("/" + flags) == RegexPartText(p) + (RegexText(rest) + ("/" + flags));
      AtParts(src, i, RegexPartText(p), RegexText(rest) + ("/" + flags));
      RegexPartRead(src, i, p);
      RegexRead(src, i + |RegexPartText(p)|, rest, flags);
    }
  }

  /** One that meets a line end or the end of the text is none. */
  lemma {:induction false} OpenRegex(src: string, i: nat, parts: seq<RegexPart>)
    requires (forall p | p in parts :: ValidRegexPart(p)) && At(src, i, RegexText(parts))
    requires var j := i + |RegexText(parts)|; j < |src| ==> src[j] == '\n'
    ensures RegexEnd(src, i, false) == None
    decreases |parts|
  {
    hide At, RegexPartText, ValidRegexPart;
    if parts == [] {
      NothingAt(src, i);
    } else {
      var p, rest := parts[0], parts[1..];
      AtParts(src, i, RegexPartText(p), RegexText(rest));
      RegexPartRead(src, i, p);
      OpenRegex(src, i + |RegexPartText(p)|, rest);
    }
  }

  lemma NothingAt(src: string, i: nat)
    requires At(src, i, "")
    ensures i <= |src|
  {
  }

  lemma FlagsRead(src: string, i: nat, flags: string)
    requires (forall c | c in flags :: NameChar(c)) && At(src, i, "" + ("/" + flags))
    requires var j := i + 1 + |flags|; j < |src| ==> !NameChar(src[j])
    ensures RegexEnd(src, i, false) == Some(i + 1 + |flags|)
  {
    assert "" + ("/" + flags) == "/" + flags;
    AtParts(src, i, "/", flags);
    AtChar(src, i, "/", 0);
    RunOver(src, i + 1, flags, IdentPart);
  }

  /** After tokens that allow one it is one token; after others its first slash is a division. */
  lemma RegexToken(src: string, i: nat, parts: seq<RegexPart>, flags: string)
    requires (forall p | p in parts :: ValidRegexPart(p)) && (forall c | c in flags :: NameChar(c))
    requires parts != [] && parts[0] != Literal('*') && At(src, i, "/" + (RegexText(parts) + ("/" + flags)))
    requires var j := i + |RegexText(parts)| + 2 + |flags|; j < |src| ==> !NameChar(src[j])
    ensures i < |src|
    ensures var text := "/" + (RegexText(parts) + ("/" + flags));
            StepAt(src, i, true) == Emit(Regex, text, i + |text|) && StepAt(src, i, false) == Emit(Punct, "/", i + 1)
  {
    hide At, RegexEnd, RunEnd, StringBody, TemplateBody, NumberEnd, BlockCommentEnd, OperatorStep, RegexText;
    var body := RegexText(parts) + ("/" + flags);
    AtParts(src, i, "/", body);
    AtChar(src, i, "/", 0);
    FirstRegexByte(parts);
    AtChar(src, i + 1, body, 0);
    RegexRead(src, i + 1, parts, flags);
    Whole(src, i, "/" + body);
  }

  lemma Whole(src: string, i: nat, s: string)
    requires At(src, i, s)
    ensures i + |s| <= |src| && src[i..i + |s|] == s
  {
  }

  lemma FirstRegexByte(parts: seq<RegexPart>)
    requires parts != [] && ValidRegexPart(parts[0]) && parts[0] != Literal('*')
    ensures RegexText(parts) != "" && RegexText(parts)[0] != '/' && RegexText(parts)[0] != '*'
  {
  }

  /** The operators of more than one character. */
  ghost predicate LongOperator(op: string) {
    || op in {"==", "===", "!=", "!==", "<=", ">=", "=>", "&&", "||", "??", "?.", "...", "++", "--", "<<", ">>", ">>>"}
    || op in {"+=", "-=", "*=", "/=", "%=", "&=", "|=", "^=", "**=", "<<=", ">>=", ">>>=", "&&=", "||=", "??="}
  }

  lemma LongOperators(op: string)
    ensures LongOperator(op) <==> op in Ops()
  {
  }

  /** Punctuation is the longest operator that stands there, or one byte. */
  lemma PunctExactly(src: string, i: nat)
    requires i < |src|
    ensures var s := OperatorStep(src, i);
            && s.Emit? && s.kind == Punct && s.next == i + |s.val| && At(src, i, s.val)
            && (LongOperator(s.val) || |s.val| == 1)
            && forall op | LongOperator(op) && At(src, i, op) :: |op| <= |s.val|
  {
    hide Ops, LongOperator;
    LongestOperator(src, i);
    OpsNonEmpty();
    forall op: string
      ensures LongOperator(op) <==> op in Ops()
    {
      LongOperators(op);
    }
  }

  /** What a slash may follow to start a regular expression. */
  lemma RegexAfter(toks: seq<Token>, t: Token)
    ensures RegexPosition([])
    ensures t.kind in {String, Number, Template, Regex} ==> !RegexPosition(toks + [t])
    ensures t.kind == Punct ==> (RegexPosition(toks + [t]) <==> t.val !in {")", "]", "}", "++", "--"})
    ensures t.kind == Ident ==>
              (RegexPosition(toks + [t]) <==>
               t.val in {"return", "typeof", "instanceof", "in", "of", "new", "delete", "void", "case", "do", "else",
                         "throw", "yield", "await"})
  {
  }

  // ---- Numbers ----

  /** An exponent needs a digit, otherwise the number ends before its letter. */
  lemma ExponentNeedsDigit(src: string, j: nat)
    requires j < |src| && src[j] in {'e', 'E'}
    ensures var k := if j + 1 < |src| && src[j + 1] in {'+', '-'} then j + 2 else j + 1;
            ExponentEnd(src, j) == j <==> !(k < |src| && DigitChar(src[k]))
  {
  }

  /** A base letter needs none. */
  lemma BaseWithoutDigits(src: string, i: nat)
    requires i + 1 < |src| && src[i] == '0' && src[i + 1] in {'x', 'X', 'o', 'O', 'b', 'B'}
    requires i + 2 < |src| ==> !NameChar(src[i + 2])
    ensures NumberStarts(src, i) && NumberEnd(src, i) == i + 2
  {
  }

  // ---- Templates with substitutions ----

  datatype TemplatePart = TextPart(p: Piece) | Hole(code: string)

  /** Code up to the brace that closes its substitution, d braces deep: balanced, what a backslash escapes aside. */
  ghost predicate ClosesHole(code: string, d: int)
    decreases |code|
  {
    if code == "" then d == 1
    else if code[0] == '\\' then |code| >= 2 && ClosesHole(code[2..], d)
    else
      var e := if code[0] == '{' then d + 1 else if code[0] == '}' then d - 1 else d;
      e >= 1 && ClosesHole(code[1..], e)
  }

  ghost predicate ValidTemplatePart(t: TemplatePart) {
    match t
    case TextPart(p) => ValidTemplatePiece(p)
    case Hole(code) => ClosesHole(code, 1)
  }

  ghost function TemplatePartText(t: TemplatePart): string {
    match t
    case TextPart(p) => PieceText(p)
    case Hole(code) => "${" + code + "}"
  }

  /** Of a substitution the closing brace is kept. */
  ghost function TemplatePartValue(t: TemplatePart): string
    requires ValidTemplatePart(t)
  {
    match t
    case TextPart(p) => [p.c]
    case Hole(_) => "}"
  }

  ghost function TemplateText(ts: seq<TemplatePart>): string {
    if ts == [] then "" else TemplatePartText(ts[0]) + TemplateText(ts[1..])
  }

  ghost function KeptText(ts: seq<TemplatePart>): string
    requires forall t | t in ts :: ValidTemplatePart(t)
  {
    if ts == [] then "" else TemplatePartValue(ts[0]) + KeptText(ts[1..])
  }

  lemma {:induction false} HoleRead(src: string, i: nat, code: string, d: nat)
    requires d >= 1 && ClosesHole(code, d) && At(src, i, code + "}")
    ensures i + |code| < |src| && TemplateBody(src, i, d) == Prepend("}", TemplateBody(src, i + |code| + 1, 0))
    decreases |code|
  {
    hide Prepend, TemplateBody, At, ClosesHole;
    if code == "" {
      HoleCloses(src, i, d);
    } else {
      var n, e := HoleStep(src, i, code, d);
      HoleRead(src, i + n, code[n..], e);
    }
  }

  lemma HoleCloses(src: string, i: nat, d: nat)
    requires ClosesHole("", d) && At(src, i, "" + "}")
    ensures i < |src| && TemplateBody(src, i, d) == Prepend("}", TemplateBody(src, i + 1, 0))
  {
    hide Prepend;
    AtChar(src, i, "" + "}", 0);
  }

  /** One round within a substitution, over n bytes and to depth e: nothing is kept. */
  lemma HoleStep(src: string, i: nat, code: string, d: nat) returns (n: nat, e: nat)
    requires d >= 1 && code != "" && ClosesHole(code, d) && At(src, i, code + "}")
    ensures 1 <= n <= |code| && e >= 1 && ClosesHole(code[n..], e) && At(src, i + n, code[n..] + "}")
    ensures i + n <= |src| && TemplateBody(src, i, d) == TemplateBody(src, i + n, e)
  {
    hide Prepend, At;
    var c := code[0];
    AtChar(src, i, code + "}", 0);
    AtChar(src, i, code + "}", 1);
    if c == '\\' {
      n, e := 2, d;
      NothingKept(TemplateBody(src, i + 2, d));
    } else if c == '$' && src[i + 1] == '{' {
      assert |code| >= 2 && code[1] == '{';
      n, e := 2, d + 1;
      assert code[1..][1..] == code[2..];
    } else {
      n, e := 1, if c == '{' then d + 1 else if c == '}' then d - 1 else d;
      NothingKept(TemplateBody(src, i + 1, e));
    }
    assert code + "}" == code[..n] + (code[n..] + "}");
    AtParts(src, i, code[..n], code[n..] + "}");
  }

  lemma NothingKept(c: Chunk)
    ensures Prepend("", c) == c
  {
  }

  lemma HoleStarts(src: string, i: nat, code: string)
    requires ClosesHole(code, 1) && At(src, i, "${" + code + "}")
    ensures i + |code| + 2 < |src| && TemplateBody(src, i, 0) == Prepend("}", TemplateBody(src, i + |code| + 3, 0))
  {
    assert "${" + code + "}" == "${" + (code + "}");
    AtParts(src, i, "${", code + "}");
    AtChar(src, i, "${", 0);
    AtChar(src, i, "${", 1);
    HoleRead(src, i + 2, code, 1);
  }

  /** A template keeps its text and, of each substitution, the closing brace. */
  lemma {:induction false} TemplateRead(src: string, i: nat, ts: seq<TemplatePart>)
    requires (forall t | t in ts :: ValidTemplatePart(t)) && At(src, i, TemplateText(ts) + "`")
    ensures TemplateBody(src, i, 0) == Chunk(KeptText(ts), i + |TemplateText(ts)| + 1)
    decreases |ts|
  {
    hide At, TemplateBody, PieceText, ValidTemplatePiece, ClosesHole;
    if ts == [] {
      TemplateBodyQuote(src, i);
    } else {
      var t, rest := ts[0], ts[1..];
      assert ValidTemplatePart(t);
      assert TemplateText(ts) + "`" == TemplatePartText(t) + (TemplateText(rest) + "`");
      AtParts(src, i, TemplatePartText(t), TemplateText(rest) + "`");
      AtChar(src, i + |TemplatePartText(t)|, TemplateText(rest) + "`", 0);
      TemplateRead(src, i + |TemplatePartText(t)|, rest);
      match t
      case TextPart(p) => TemplateBodyPiece(src, i, p);
      case Hole(code) => HoleStarts(src, i, code);
    }
  }
}
