/**
 The promise at the level of script text: how a call is spelled - quotes, escapes,
 spacing, comments, number bases, order of the arguments - does not change what
 ExtractPowFromBodies returns for it.
 */
module PowText {
  import opened Wrappers
  import opened JsToken
  import opened CallArgs
  import opened JsPrinted
  import opened JsNumber
  import opened PowExtract
  import opened PowInvariance

  /** One way of writing a call's parentheses, arguments and commas. */
  datatype CallSpelling = CallSpelling(open: Item, parts: seq<seq<Item>>, commas: seq<Item>, close: Item)

  ghost function JoinItems(parts: seq<seq<Item>>, commas: seq<Item>): seq<Item>
    requires |commas| + 1 == |parts|
  {
    if |parts| == 1 then parts[0]
    else JoinItems(parts[..|parts| - 1], commas[..|commas| - 1]) + [commas[|commas| - 1]] + parts[|parts| - 1]
  }

  ghost function CallItems(s: CallSpelling): seq<Item>
    requires |s.commas| + 1 == |s.parts|
  {
    [s.open] + JoinItems(s.parts, s.commas) + [s.close]
  }

  /** The spelling is one of a call with these arguments. */
  ghost predicate SpellsCall(s: CallSpelling, args: seq<Arg>) {
    && |s.parts| == |args| == |s.commas| + 1
    && s.open.spelling == Operator("(") && s.close.spelling == Operator(")")
    && (forall m | 0 <= m < |s.commas| :: s.commas[m].spelling == Operator(","))
    && (forall m | 0 <= m < |args| :: SpellsArg(s.parts[m], args[m]))
  }

  lemma ConsTokens(items: seq<Item>, i: nat)
    requires items != [] && AllValid(items)
    ensures AllValid(items[1..]) && ValidSpelling(items[0].spelling)
    ensures var gap, text := |GapText(items[0].gap)|, |SpellingText(items[0].spelling)|;
            && Tokens(items, i) == [SpellingToken(items[0].spelling, i + gap)] + Tokens(items[1..], i + gap + text)
            && |Printed(items)| == gap + text + |Printed(items[1..])|
  {
    hide ValidSpelling, SpellingToken, SpellingText, GapText;
  }

  lemma {:induction false} TokensConcat(a: seq<Item>, b: seq<Item>, i: nat)
    requires AllValid(a + b)
    ensures AllValid(a) && AllValid(b)
    ensures Tokens(a + b, i) == Tokens(a, i) + Tokens(b, i + |Printed(a)|)
    decreases |a|
  {
    hide AllValid, ValidSpelling, Tokens, Printed, SpellingToken, SpellingText, GapText;
    AllValidParts(a, b);
    if a == [] {
      assert a + b == b;
      TextEmpty(i);
      assert [] + Tokens(b, i) == Tokens(b, i);
    } else {
      var j := i + |GapText(a[0].gap)| + |SpellingText(a[0].spelling)|;
      ConsTokens(a, i);
      ConsTokens(a + b, i);
      assert (a + b)[1..] == a[1..] + b;
      TokensConcat(a[1..], b, j);
      Regroup([Tokens(a, i)[0]], Tokens(a[1..], j), Tokens(b, j + |Printed(a[1..])|));
    }
  }

  lemma Regroup(a: seq<Token>, b: seq<Token>, c: seq<Token>)
    ensures a + (b + c) == a + b + c
  {
  }

  lemma AllValidParts(a: seq<Item>, b: seq<Item>)
    requires AllValid(a + b)
    ensures AllValid(a) && AllValid(b)
  {
    hide ValidSpelling;
    assert forall it | it in a :: it in a + b;
    assert forall it | it in b :: it in a + b;
  }

  lemma TokensOfOne(it: Item, i: nat)
    requires ValidSpelling(it.spelling)
    ensures |Tokens([it], i)| == 1 && Tokens([it], i)[0] == SpellingToken(it.spelling, i + |GapText(it.gap)|)
  {
    hide ValidSpelling, SpellingToken, SpellingText, GapText;
    assert Tokens([it][1..], i + |GapText(it.gap)| + |SpellingText(it.spelling)|) == [];
  }

  lemma OperatorItem(it: Item, op: string, i: nat)
    requires it.spelling == Operator(op) && ValidSpelling(it.spelling)
    ensures |Tokens([it], i)| == 1 && IsPunct(Tokens([it], i)[0], op)
  {
    hide ValidSpelling, Tokens;
    TokensOfOne(it, i);
  }

  ghost predicate TokensOf(part: seq<Item>, t: seq<Token>) {
    AllValid(part) && exists p: nat :: t == Tokens(part, p)
  }

  lemma TokensOfAt(part: seq<Item>, p: nat)
    requires AllValid(part)
    ensures TokensOf(part, Tokens(part, p))
  {
    hide AllValid, Tokens;
  }

  lemma JoinItemsSnoc(parts: seq<seq<Item>>, commas: seq<Item>)
    requires |commas| + 1 == |parts| > 1
    ensures var n := |parts| - 1;
            JoinItems(parts, commas) == JoinItems(parts[..n], commas[..n - 1]) + [commas[n - 1]] + parts[n]
  {
  }

  /** The tokens of joined parts are the joined tokens of the parts. */
  lemma {:induction false} JoinTokens(parts: seq<seq<Item>>, commas: seq<Item>, i: nat)
    returns (args: seq<seq<Token>>, seps: seq<Token>)
    requires |commas| + 1 == |parts| && AllValid(JoinItems(parts, commas))
    requires forall m | 0 <= m < |commas| :: commas[m].spelling == Operator(",")
    ensures |args| == |parts| && |seps| == |commas|
    ensures Tokens(JoinItems(parts, commas), i) == Join(args, seps)
    ensures forall m | 0 <= m < |args| :: TokensOf(parts[m], args[m])
    ensures forall t | t in seps :: IsPunct(t, ",")
    decreases |parts|
  {
    if |parts| == 1 {
      hide AllValid, Tokens, TokensOf;
      args, seps := [Tokens(parts[0], i)], [];
      TokensOfAt(parts[0], i);
    } else {
      hide AllValid, Tokens, TokensOf, Join, JoinItems, IsPunct;
      var n := |parts| - 1;
      JoinItemsSnoc(parts, commas);
      var front, comma, last := JoinItems(parts[..n], commas[..n - 1]), commas[n - 1], parts[n];
      var sep, tail := SnocTokens(front, comma, last, i);
      args, seps := JoinTokens(parts[..n], commas[..n - 1], i);
      JoinSnoc(args, seps, sep, tail);
      args, seps := args + [tail], seps + [sep];
      assert forall m | 0 <= m < n :: parts[..n][m] == parts[m];
    }
  }

  lemma SnocTokens(front: seq<Item>, comma: Item, last: seq<Item>, i: nat) returns (sep: Token, tail: seq<Token>)
    requires AllValid(front + [comma] + last) && comma.spelling == Operator(",")
    ensures AllValid(front) && TokensOf(last, tail) && IsPunct(sep, ",")
    ensures Tokens(front + [comma] + last, i) == Tokens(front, i) + [sep] + tail
  {
    hide AllValid, Tokens, TokensOf, Printed, IsPunct;
    TokensConcat(front + [comma], last, i);
    TokensConcat(front, [comma], i);
    var p, q := i + |Printed(front)|, i + |Printed(front + [comma])|;
    CommaValid(comma);
    OperatorItem(comma, ",", p);
    TokensOfAt(last, q);
    sep, tail := Tokens([comma], p)[0], Tokens(last, q);
    assert Tokens([comma], p) == [sep];
  }

  lemma CommaValid(comma: Item)
    requires AllValid([comma])
    ensures ValidSpelling(comma.spelling)
  {
    assert comma in [comma];
  }

  lemma JoinSnoc(args: seq<seq<Token>>, seps: seq<Token>, sep: Token, last: seq<Token>)
    requires args != [] && |seps| == |args| - 1
    ensures Join(args + [last], seps + [sep]) == Join(args, seps) + [sep] + last
  {
    var a, b := args + [last], seps + [sep];
    assert a[..|a| - 1] == args && b[..|b| - 1] == seps;
  }

  lemma {:induction false} LexExtends(src: string, i: nat, toks: seq<Token>)
    requires i <= |src|
    ensures toks <= Lex(src, i, toks)
    decreases |src| - i
  {
    hide StepAt, RegexPosition;
    if i < |src| {
      var s := StepAt(src, i, RegexPosition(toks));
      LexExtends(src, s.next, if s.Skip? then toks else toks + [Token(s.kind, s.val, i)]);
    }
  }

  predicate EndsInCallee(toks: seq<Token>) {
    toks != [] && (var t := toks[|toks| - 1]; IsPunct(t, ")") || IsPunct(t, "}") || t.kind == Ident)
  }

  /**
   A script in which the lexer, having read the tokens pre, stands before a spelling of a
   call with the given arguments; whatever follows is in after.
   */
  ghost predicate CallStandsAt(src: string, at: nat, pre: seq<Token>, s: CallSpelling, args: seq<Arg>, after: string) {
    && at <= |src|
    && Lex(src, 0, []) == Lex(src, at, pre)
    && EndsInCallee(pre)
    && SpellsCall(s, args)
    && WellPrinted(CallItems(s), after)
    && src[at..] == Printed(CallItems(s)) + after
  }

  lemma CallTokens(src: string, at: nat, pre: seq<Token>, s: CallSpelling, args: seq<Arg>, after: string)
    requires CallStandsAt(src, at, pre, s, args, after)
    ensures AllValid(CallItems(s))
    ensures pre + Tokens(CallItems(s), at) <= Lex(src, 0, [])
  {
    hide Lex, Tokens, WellPrinted, CallItems, Printed, SpellsArg;
    var items := CallItems(s);
    assert src[at..] == src[at..at + |Printed(items) + after|];
    LexPrinted(src, at, pre, items, after);
    LexExtends(src, at + |Printed(items)|, pre + Tokens(items, at));
  }

  lemma CallItemTokens(s: CallSpelling, args: seq<Arg>, at: nat, floats: FloatReader)
    returns (parts: seq<seq<Token>>, seps: seq<Token>)
    requires SpellsCall(s, args) && AllValid(CallItems(s))
    ensures |parts| == |args| && |seps| == |args| - 1 && (forall t | t in seps :: IsPunct(t, ","))
    ensures forall m | 0 <= m < |args| :: SimpleArg(parts[m]) && ShapeOf(parts[m], floats) == args[m]
    ensures var t, n := Tokens(CallItems(s), at), |Join(parts, seps)|;
            |t| == n + 2 && IsPunct(t[0], "(") && t[1..n + 1] == Join(parts, seps) && IsPunct(t[n + 1], ")")
  {
    hide Tokens, ValidSpelling, SpellsArg, SimpleArg, ShapeOf, Join, Printed;
    var joined := JoinItems(s.parts, s.commas);
    TokensConcat([s.open] + joined, [s.close], at);
    TokensConcat([s.open], joined, at);
    var p, q := at + |Printed([s.open])|, at + |Printed([s.open] + joined)|;
    parts, seps := JoinTokens(s.parts, s.commas, p);
    CommaValid(s.open);
    CommaValid(s.close);
    OperatorItem(s.open, "(", at);
    OperatorItem(s.close, ")", q);
    forall m | 0 <= m < |args|
      ensures SimpleArg(parts[m]) && ShapeOf(parts[m], floats) == args[m]
    {
      assert TokensOf(s.parts[m], parts[m]);
      var i: nat :| parts[m] == Tokens(s.parts[m], i);
      ArgTokens(s.parts[m], args[m], i, floats);
    }
  }

  lemma ShapesAre(parts: seq<seq<Token>>, args: seq<Arg>, floats: FloatReader)
    requires |parts| == |args| && forall m | 0 <= m < |args| :: ShapeOf(parts[m], floats) == args[m]
    ensures Shapes(parts, floats) == args
  {
  }

  /** The spelled call is a call of literals in the token stream, and its shapes are its arguments. */
  lemma SpelledCallIsCall(src: string, at: nat, pre: seq<Token>, s: CallSpelling, args: seq<Arg>, after: string,
                          floats: FloatReader)
    returns (c: nat)
    requires CallStandsAt(src, at, pre, s, args, after)
    ensures var toks := Lex(src, 0, []);
            && pre <= toks
            && SimpleCall(toks, |pre|, c)
            && c == |pre| + |CallItems(s)| - 1
            && Shapes(ArgList(Split(toks, |pre| + 1, c)), floats) == args
  {
    hide Lex, Closes, Split, ShapeOf, SimpleArg, Join, CallStandsAt, CallItems, IsPunct, Shapes;
    var toks, o := Lex(src, 0, []), |pre|;
    var parts, seps := CallLocated(src, at, pre, s, args, after, floats);
    c := o + |Join(parts, seps)| + 1;
    RecoverSimple(toks, o, parts, seps);
    ShapesAre(parts, args, floats);
  }

  lemma CallLocated(src: string, at: nat, pre: seq<Token>, s: CallSpelling, args: seq<Arg>, after: string,
                    floats: FloatReader)
    returns (parts: seq<seq<Token>>, seps: seq<Token>)
    requires CallStandsAt(src, at, pre, s, args, after)
    ensures |parts| == |args| > 0 && |seps| == |parts| - 1 && (forall t | t in seps :: IsPunct(t, ","))
    ensures forall m | 0 <= m < |args| :: SimpleArg(parts[m]) && ShapeOf(parts[m], floats) == args[m]
    ensures var toks, o := Lex(src, 0, []), |pre|; var c := o + 1 + |Join(parts, seps)|;
            && pre <= toks && c < |toks| && IsPunct(toks[o], "(") && IsPunct(toks[c], ")")
            && toks[o + 1..c] == Join(parts, seps)
            && CalleeBefore(toks, o)
    ensures |CallItems(s)| == |Join(parts, seps)| + 2
  {
    hide Lex, Tokens, ShapeOf, SimpleArg, Join, WellPrinted, SpellsArg, CallItems, IsPunct;
    var toks := Lex(src, 0, []);
    CallTokens(src, at, pre, s, args, after);
    TokensAt(CallItems(s), at);
    parts, seps := CallItemTokens(s, args, at, floats);
    CallInside(toks, pre, Tokens(CallItems(s), at), |Join(parts, seps)|);
    CalleeIs(toks, pre);
  }

  lemma CalleeIs(toks: seq<Token>, pre: seq<Token>)
    requires pre < toks && EndsInCallee(pre)
    ensures CalleeBefore(toks, |pre|)
  {
    assert toks[..|pre|][|pre| - 1] == pre[|pre| - 1];
  }

  lemma RecoverSimple(toks: seq<Token>, o: nat, parts: seq<seq<Token>>, seps: seq<Token>)
    requires parts != [] && |seps| == |parts| - 1
    requires (forall a | a in parts :: SimpleArg(a)) && (forall t | t in seps :: IsPunct(t, ","))
    requires var c := o + 1 + |Join(parts, seps)|;
             && c < |toks| && IsPunct(toks[o], "(") && IsPunct(toks[c], ")") && toks[o + 1..c] == Join(parts, seps)
    ensures var c := o + 1 + |Join(parts, seps)|;
            && Closes(toks, o, c) && ArgList(Split(toks, o + 1, c)) == parts
  {
    hide Closes, Split, SimpleArg, Join, PlainArg, IsPunct;
    forall a | a in parts
      ensures PlainArg(a)
    {
      SimpleIsPlain(a);
    }
    NotOneEmpty(parts);
    PlainArgsRecovered(toks, o, parts, seps);
  }

  lemma NotOneEmpty(parts: seq<seq<Token>>)
    requires forall a | a in parts :: SimpleArg(a)
    ensures parts != [[]]
  {
    if |parts| == 1 {
      assert SimpleArg(parts[0]);
    }
  }

  lemma CallInside(toks: seq<Token>, pre: seq<Token>, call: seq<Token>, n: nat)
    requires pre + call <= toks && |call| == n + 2
    ensures pre <= toks && |pre| + n + 1 < |toks|
    ensures toks[|pre|] == call[0] && toks[|pre| + n + 1] == call[n + 1]
    ensures toks[|pre| + 1..|pre| + n + 1] == call[1..n + 1]
    ensures pre != [] ==> toks[|pre| - 1] == pre[|pre| - 1]
  {
    var t := pre + call;
    assert toks[..|t|] == t;
    assert pre == t[..|pre|];
    forall k | 0 <= k < |t|
      ensures toks[k] == t[k]
    {
      assert toks[..|t|][k] == t[k];
    }
  }

  // ---- The main results ----

  /**
   Marker layer.  Whatever came before, as long as it is passed over, and whatever follows: a call
   that carries the marker and qualifies yields the verdict on its arguments, a value in which no
   detail of the spelling occurs.
   */
  lemma MarkerCallExtracted(src: string, at: nat, pre: seq<Token>, s: CallSpelling, args: seq<Arg>, after: string,
                            floats: FloatReader)
    requires CallStandsAt(src, at, pre, s, args, after) && PrefixPassedOver(Lex(src, 0, []), |pre|, floats)
    requires Text(MARKER) in args && Judge(args, true).Some?
    ensures Extract([src], floats) == Judge(args, true)
  {
    hide Lex, Judge, Closes, Split, CallStandsAt, PassedOver, FirstFrom, Shapes;
    var toks := Lex(src, 0, []);
    var c := SpelledCallIsCall(src, at, pre, s, args, after, floats);
    MarkerCallFound(toks, |pre|, c, floats);
    ExtractOne(src, floats);
  }

  ghost predicate PrefixPassedOver(toks: seq<Token>, n: nat, floats: FloatReader) {
    forall i | 0 <= i < n && i < |toks| :: PassedOver(toks, i, floats)
  }

  lemma ExtractOne(src: string, floats: FloatReader)
    ensures Extract([src], floats) == ExtractTokens(Lex(src, 0, []), floats)
  {
    hide ExtractTokens, Lex;
    assert Extract([src][1..], floats) == None;
  }

  /** Two spellings of calls with the same arguments in any order yield the same seed and difficulty. */
  lemma RepresentationIndependent(
      src1: string, at1: nat, pre1: seq<Token>, s1: CallSpelling, args1: seq<Arg>, after1: string,
      src2: string, at2: nat, pre2: seq<Token>, s2: CallSpelling, args2: seq<Arg>, after2: string, floats: FloatReader)
    requires CallStandsAt(src1, at1, pre1, s1, args1, after1) && CallStandsAt(src2, at2, pre2, s2, args2, after2)
    requires PrefixPassedOver(Lex(src1, 0, []), |pre1|, floats) && PrefixPassedOver(Lex(src2, 0, []), |pre2|, floats)
    requires multiset(args1) == multiset(args2) && OneNumber(args1)
    requires Text(MARKER) in args1 && Judge(args1, true).Some?
    ensures Extract([src1], floats).Some? && Extract([src2], floats).Some?
    ensures Extract([src1], floats).value.powInput == Extract([src2], floats).value.powInput
    ensures Extract([src1], floats).value.difficulty == Extract([src2], floats).value.difficulty
  {
    hide Extract, Judge, CallStandsAt, PrefixPassedOver, OneNumber, Lex;
    OrderDoesNotMatter(args1, args2, true);
    assert Text(MARKER) in multiset(args2);
    MarkerCallExtracted(src1, at1, pre1, s1, args1, after1, floats);
    MarkerCallExtracted(src2, at2, pre2, s2, args2, after2, floats);
  }

  /** All tokens of the script but those of the call that stands at index n are passed over. */
  ghost predicate OnlyCall(toks: seq<Token>, n: nat, s: CallSpelling, floats: FloatReader) {
    && |s.commas| + 1 == |s.parts|
    && forall i | 0 <= i < |toks| && !(n <= i < n + |CallItems(s)|) :: PassedOver(toks, i, floats)
  }

  /** The only call of a script: the verdict of the marker layer if it is there, else of the structure layer. */
  lemma OneCallExtracted(src: string, at: nat, pre: seq<Token>, s: CallSpelling, args: seq<Arg>, after: string,
                         floats: FloatReader)
    requires CallStandsAt(src, at, pre, s, args, after) && OnlyCall(Lex(src, 0, []), |pre|, s, floats)
    ensures Extract([src], floats) ==
            if Text(MARKER) in args && Judge(args, true).Some? then Judge(args, true) else Judge(args, false)
  {
    hide Lex, Judge, Closes, Split, CallStandsAt, PassedOver, FirstFrom, Shapes, CallItems;
    var toks := Lex(src, 0, []);
    var c := SpelledCallIsCall(src, at, pre, s, args, after, floats);
    OneCallScript(toks, |pre|, c, floats);
    ExtractOne(src, floats);
  }

  /** With or without the marker: two scripts whose only calls have the same arguments yield the same seed and
      difficulty. */
  lemma OneCallIndependent(
      src1: string, at1: nat, pre1: seq<Token>, s1: CallSpelling, args1: seq<Arg>, after1: string,
      src2: string, at2: nat, pre2: seq<Token>, s2: CallSpelling, args2: seq<Arg>, after2: string, floats: FloatReader)
    requires CallStandsAt(src1, at1, pre1, s1, args1, after1) && OnlyCall(Lex(src1, 0, []), |pre1|, s1, floats)
    requires CallStandsAt(src2, at2, pre2, s2, args2, after2) && OnlyCall(Lex(src2, 0, []), |pre2|, s2, floats)
    requires multiset(args1) == multiset(args2) && OneNumber(args1)
    ensures var r1, r2 := Extract([src1], floats), Extract([src2], floats);
            && (r1.Some? <==> r2.Some?)
            && (r1.Some? ==> r1.value.powInput == r2.value.powInput && r1.value.difficulty == r2.value.difficulty)
  {
    hide Extract, Judge, CallStandsAt, OnlyCall, OneNumber, Lex;
    OneCallExtracted(src1, at1, pre1, s1, args1, after1, floats);
    OneCallExtracted(src2, at2, pre2, s2, args2, after2, floats);
    OrderDoesNotMatter(args1, args2, true);
    OrderDoesNotMatter(args1, args2, false);
    assert Text(MARKER) in args1 <==> Text(MARKER) in multiset(args1);
    assert Text(MARKER) in args2 <==> Text(MARKER) in multiset(args2);
  }

  // ---- The call the source expects: a seed, a difficulty, a marker and an array ----

  /** The four arguments, in any order. */
  ghost predicate SeedCall(args: seq<Arg>, seed: string, d: int, marker: string, elems: seq<string>) {
    multiset(args) == multiset([Text(seed), Numeric(Some(d)), Text(marker), Strings(elems)])
  }

  /** A number outside 1..16 is not taken, and 0 stands for none. */
  function DifficultyOf(d: int): int { if 1 <= d <= 16 then d else 0 }

  predicate IsSeed(s: string) { SeedShape(s) && !MarkerLike(s) }

  lemma MarkerIsMarkerLike()
    ensures MarkerLike(MARKER) && !IsSeed(MARKER)
  {
    LowerAscii(MARKER);
    assert At(Lower(MARKER), 0, "pow") by {
      assert Lower(MARKER)[0..3] == "pow";
    }
  }

  lemma SeedCallVerdict(args: seq<Arg>, seed: string, d: int, marker: string, elems: seq<string>, markerMode: bool)
    requires SeedCall(args, seed, d, marker, elems)
    ensures Judge(args, markerMode).Some? <==> IsSeed(seed) != IsSeed(marker) && (markerMode || KnownCount(elems) >= 4)
    ensures Judge(args, markerMode).Some? ==>
              && Judge(args, markerMode).value.powInput == (if IsSeed(seed) then seed else marker)
              && Judge(args, markerMode).value.difficulty == DifficultyOf(d)
  {
    hide MarkerLike, SeedShape, KnownCount, Pick, Plays;
    var canonical := [Text(seed), Numeric(Some(d)), Text(marker), Strings(elems)];
    CanonicalVerdict(seed, d, marker, elems, markerMode);
    OrderDoesNotMatter(canonical, args, markerMode);
    CanonicalOneNumber(seed, d, marker, elems);
  }

  lemma CanonicalOneNumber(seed: string, d: int, marker: string, elems: seq<string>)
    ensures OneNumber([Text(seed), Numeric(Some(d)), Text(marker), Strings(elems)])
  {
  }

  lemma CanonicalPicks(seed: string, d: int, marker: string, elems: seq<string>, role: Role)
    ensures var a, b, c, e := Text(seed), Numeric(Some(d)), Text(marker), Strings(elems);
            Pick([a, b, c, e], role) ==
            (if Plays(a, role) then [a] else []) + (if Plays(b, role) then [b] else [])
            + (if Plays(c, role) then [c] else []) + (if Plays(e, role) then [e] else [])
  {
    FourPicks(Text(seed), Numeric(Some(d)), Text(marker), Strings(elems), role);
  }

  lemma FourPicks(a: Arg, b: Arg, c: Arg, e: Arg, role: Role)
    ensures Pick([a, b, c, e], role) ==
            (if Plays(a, role) then [a] else []) + (if Plays(b, role) then [b] else [])
            + (if Plays(c, role) then [c] else []) + (if Plays(e, role) then [e] else [])
  {
    hide Plays, Pick;
    PickNothing();
    PickAppend([], a, role);
    PickAppend([a], b, role);
    PickAppend([a, b], c, role);
    PickAppend([a, b, c], e, role);
    assert [] + [a] == [a] && [a] + [b] == [a, b] && [a, b] + [c] == [a, b, c] && [a, b, c] + [e] == [a, b, c, e];
  }

  lemma PickAppend(args: seq<Arg>, x: Arg, role: Role)
    ensures Pick(args + [x], role) == Pick(args, role) + if Plays(x, role) then [x] else []
  {
    assert (args + [x])[..|args|] == args;
  }

  lemma CanonicalVerdict(seed: string, d: int, marker: string, elems: seq<string>, markerMode: bool)
    ensures var args := [Text(seed), Numeric(Some(d)), Text(marker), Strings(elems)];
            && (Judge(args, markerMode).Some?
                <==> IsSeed(seed) != IsSeed(marker) && (markerMode || KnownCount(elems) >= 4))
            && (Judge(args, markerMode).Some? ==>
                  && Judge(args, markerMode).value.powInput == (if IsSeed(seed) then seed else marker)
                  && Judge(args, markerMode).value.difficulty == DifficultyOf(d))
  {
    hide MarkerLike, SeedShape, KnownCount, Pick;
    CanonicalPicks(seed, d, marker, elems, Foreign);
    CanonicalPicks(seed, d, marker, elems, ArrayArg);
    CanonicalPicks(seed, d, marker, elems, SeedText);
    CanonicalPicks(seed, d, marker, elems, SmallNumber);
  }

  /**
   Exactly when the seed is found in a script whose only call this is.  A marker call is
   lost precisely when its seed is not seed-shaped or its own text contains "pow",
   "timeout" or "seed" in any case; a renamed marker further needs four known components
   and a marker that could not itself be the seed.
   */
  lemma SeedFoundExactly(src: string, at: nat, pre: seq<Token>, s: CallSpelling, args: seq<Arg>, after: string,
                         seed: string, d: int, marker: string, elems: seq<string>, floats: FloatReader)
    requires CallStandsAt(src, at, pre, s, args, after) && OnlyCall(Lex(src, 0, []), |pre|, s, floats)
    requires SeedCall(args, seed, d, marker, elems)
    ensures (var r := Extract([src], floats);
             r.Some? && r.value.powInput == seed && r.value.difficulty == DifficultyOf(d))
            <==> IsSeed(seed) && (marker == "pow_timeout" || (!IsSeed(marker) && KnownCount(elems) >= 4))
    ensures IsSeed(seed) == IsSeed(marker) ==> Extract([src], floats) == None
  {
    hide Judge, Extract, CallStandsAt, OnlyCall, Lex, SeedShape, MarkerLike, KnownCount;
    OneCallExtracted(src, at, pre, s, args, after, floats);
    SeedCallVerdict(args, seed, d, marker, elems, true);
    SeedCallVerdict(args, seed, d, marker, elems, false);
    MarkerIsMarkerLike();
    if Text(MARKER) in args {
      assert Text(MARKER) in multiset(args);
    }
    var canonical := [Text(seed), Numeric(Some(d)), Text(marker), Strings(elems)];
    assert Text(marker) == canonical[2] && Text(marker) in multiset(canonical);
    assert Text(marker) in multiset(args);
  }

  const LOST_SEED: string := "aPoWc5d9"

  /** A seed of the right shape that is nevertheless taken for a marker. */
  lemma SeedTakenForMarker()
    ensures SeedShape(LOST_SEED) && MarkerLike(LOST_SEED) && !IsSeed(LOST_SEED)
  {
    LowerAscii(LOST_SEED);
    assert At(Lower(LOST_SEED), 1, "pow") by {
      assert Lower(LOST_SEED)[1..4] == "pow";
    }
  }

  /** Strings without p, t and s are never taken for a marker. */
  lemma NoWordNoMarker(s: string)
    requires forall i | 0 <= i < |s| :: s[i] < '\U{80}' && s[i] !in {'p', 'P', 't', 'T', 's', 'S'}
    ensures !MarkerLike(s)
  {
    LowerAscii(s);
    var low := Lower(s);
    forall i | 0 <= i <= |low|
      ensures !At(low, i, "pow") && !At(low, i, "timeout") && !At(low, i, "seed")
    {
      if i < |low| {
        FirstCharDiffers(low, i, "pow");
        FirstCharDiffers(low, i, "timeout");
        FirstCharDiffers(low, i, "seed");
      }
    }
  }

  lemma FirstCharDiffers(s: string, i: nat, word: string)
    requires i < |s| && word != "" && s[i] != word[0]
    ensures !At(s, i, word)
  {
    if i + |word| <= |s| {
      assert s[i..i + |word|][0] == s[i];
    }
  }

  // ---- An accepted call whose difficulty depends on the order ----

  const GOOD_SEED: string := "0a1b2c"

  lemma GoodSeedIsSeed()
    ensures IsSeed(GOOD_SEED)
  {
    NoWordNoMarker(GOOD_SEED);
  }

  /** Two numbers in range: the first one is the difficulty. */
  lemma TwoNumbers(first: int, second: int)
    requires 1 <= first <= 16 && 1 <= second <= 16
    ensures var r := Judge([Text(GOOD_SEED), Numeric(Some(first)), Numeric(Some(second)), Text(MARKER)], true);
            r.Some? && r.value.powInput == GOOD_SEED && r.value.difficulty == first
  {
    hide MarkerLike, SeedShape, KnownCount, Pick;
    GoodSeedIsSeed();
    MarkerIsMarkerLike();
    var a, b, c, e := Text(GOOD_SEED), Numeric(Some(first)), Numeric(Some(second)), Text(MARKER);
    forall role
      ensures Pick([a, b, c, e], role) == (if Plays(a, role) then [a] else []) + (if Plays(b, role) then [b] else [])
              + (if Plays(c, role) then [c] else []) + (if Plays(e, role) then [e] else [])
    {
      FourPicks(a, b, c, e, role);
    }
  }

  /** So the same arguments in another order give another difficulty. */
  lemma OrderChangesDifficulty()
    ensures var a := [Text(GOOD_SEED), Numeric(Some(2)), Numeric(Some(3)), Text(MARKER)];
            var b := [Text(GOOD_SEED), Numeric(Some(3)), Numeric(Some(2)), Text(MARKER)];
            && multiset(a) == multiset(b) && Judge(a, true).Some? && Judge(b, true).Some?
            && Judge(a, true).value.difficulty == 2 && Judge(b, true).value.difficulty == 3
  {
    hide Judge;
    TwoNumbers(2, 3);
    TwoNumbers(3, 2);
  }
}
