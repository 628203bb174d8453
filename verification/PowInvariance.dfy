/**
 The promise of internal/core/jstoken.go and pow_extract.go: what is extracted depends
 on the arguments of the call and not on how they are spelled, spaced or ordered.
 */
module PowInvariance {
  import opened Wrappers
  import opened JsToken
  import opened CallArgs
  import opened JsPrinted
  import opened JsNumber
  import opened PowExtract

  // ---- Order ----

  lemma {:induction false} PickCount(args: seq<Arg>, role: Role)
    ensures forall a :: multiset(Pick(args, role))[a] == if Plays(a, role) then multiset(args)[a] else 0
    decreases |args|
  {
    if args != [] {
      var n := |args| - 1;
      assert args == args[..n] + [args[n]];
      PickCount(args[..n], role);
    }
  }

  lemma SamePicks(a: seq<Arg>, b: seq<Arg>, role: Role)
    requires multiset(a) == multiset(b)
    ensures multiset(Pick(a, role)) == multiset(Pick(b, role))
    ensures |Pick(a, role)| == |Pick(b, role)|
    ensures Pick(a, role) == [] <==> Pick(b, role) == []
    ensures |Pick(a, role)| == 1 ==> Pick(a, role) == Pick(b, role)
  {
    hide Pick, Plays;
    PickCount(a, role);
    PickCount(b, role);
    var p, q := Pick(a, role), Pick(b, role);
    assert |multiset(p)| == |p| && |multiset(q)| == |q|;
    if |p| == 1 {
      assert q[0] in multiset(p);
    }
  }

  /** All numbers that could be the difficulty agree. */
  ghost predicate OneNumber(args: seq<Arg>) {
    forall x, y | x in args && y in args && Plays(x, SmallNumber) && Plays(y, SmallNumber) :: x == y
  }

  lemma PickedIsThere(args: seq<Arg>, role: Role)
    requires Pick(args, role) != []
    ensures Pick(args, role)[0] in args && Plays(Pick(args, role)[0], role)
  {
    var x := Pick(args, role)[0];
    PickCount(args, role);
    assert x in multiset(Pick(args, role));
    assert x in multiset(args);
  }

  /** Reordering the arguments changes neither the verdict nor the seed, nor the difficulty if it is unambiguous. */
  lemma OrderDoesNotMatter(a: seq<Arg>, b: seq<Arg>, markerMode: bool)
    requires multiset(a) == multiset(b)
    ensures Judge(a, markerMode).Some? <==> Judge(b, markerMode).Some?
    ensures Judge(a, markerMode).Some? ==>
              && Judge(a, markerMode).value.powInput == Judge(b, markerMode).value.powInput
              && (OneNumber(a) ==> Judge(a, markerMode).value.difficulty == Judge(b, markerMode).value.difficulty)
  {
    hide Pick, Plays, KnownCount;
    SamePicks(a, b, Foreign);
    SamePicks(a, b, ArrayArg);
    SamePicks(a, b, SeedText);
    SamePicks(a, b, SmallNumber);
    assert |a| == |multiset(a)| == |multiset(b)| == |b|;
    if Pick(a, SmallNumber) != [] {
      PickedIsThere(a, SmallNumber);
      PickedIsThere(b, SmallNumber);
      assert Pick(b, SmallNumber)[0] in multiset(a);
    }
  }

  /** x moved to the front. */
  function ToFront(args: seq<Arg>, i: nat): seq<Arg>
    requires i < |args|
  {
    [args[i]] + args[..i] + args[i + 1..]
  }

  lemma {:induction false} PickFront(x: Arg, rest: seq<Arg>, role: Role)
    requires Plays(x, role)
    ensures Pick([x] + rest, role) != [] && Pick([x] + rest, role)[0] == x
    decreases |rest|
  {
    if rest == [] {
      assert [x] + rest == [x] && [x][..0] == [];
    } else {
      var n := |rest| - 1;
      assert ([x] + rest)[..n + 1] == [x] + rest[..n];
      PickFront(x, rest[..n], role);
    }
  }

  /**
   The difficulty is independent of the order exactly when all candidate numbers are
   equal: with two different ones in range, moving the other one first changes it.
   */
  lemma DifficultyOrderExact(a: seq<Arg>, markerMode: bool)
    requires Judge(a, markerMode).Some?
    ensures OneNumber(a) <==>
            forall b | multiset(b) == multiset(a) && Judge(b, markerMode).Some? ::
              Judge(b, markerMode).value.difficulty == Judge(a, markerMode).value.difficulty
  {
    hide Pick, Qualifies, Plays;
    if OneNumber(a) {
      forall b | multiset(b) == multiset(a) && Judge(b, markerMode).Some?
        ensures Judge(b, markerMode).value.difficulty == Judge(a, markerMode).value.difficulty
      {
        OrderDoesNotMatter(a, b, markerMode);
      }
    } else {
      var b := OtherNumberFirst(a);
      OrderDoesNotMatter(a, b, markerMode);
    }
  }

  lemma OtherNumberFirst(a: seq<Arg>) returns (b: seq<Arg>)
    requires !OneNumber(a)
    ensures multiset(b) == multiset(a) && FirstNumber(b) != FirstNumber(a)
  {
    var x, y :| x in a && y in a && Plays(x, SmallNumber) && Plays(y, SmallNumber) && x != y;
    var z := if x.value.value == FirstNumber(a) then y else x;
    var i :| 0 <= i < |a| && a[i] == z;
    b := ToFront(a, i);
    ToFrontPermutes(a, i);
    hide Pick, Plays;
    assert b == [z] + (a[..i] + a[i + 1..]);
    PickFront(z, a[..i] + a[i + 1..], SmallNumber);
  }

  lemma ToFrontPermutes(a: seq<Arg>, i: nat)
    requires i < |a|
    ensures multiset(ToFront(a, i)) == multiset(a)
  {
    assert a == a[..i] + [a[i]] + a[i + 1..];
  }

  // ---- Spelled arguments ----

  ghost predicate SpellsText(sp: Spelling, s: string) {
    ValidSpelling(sp) &&
    match sp
    case StringLit(quote, pieces) => PiecesValue(pieces, quote) == s
    case TemplateLit(pieces) => TemplateValue(pieces) == s && s != ""
    case _ => false
  }

  /** A spelling in an array that neither is a text nor opens or closes anything: a comma, a number, a name. */
  ghost predicate SpellsNoText(sp: Spelling) {
    && ValidSpelling(sp) && !sp.StringLit?
    && (sp.TemplateLit? ==> TemplateValue(sp.pieces) == "")
    && (sp.Operator? ==> sp.op !in {"(", "[", "{", ")", "]", "}"})
  }

  /** The texts among the items are these, in order. */
  ghost predicate SpellsElems(part: seq<Item>, elems: seq<string>) {
    if part == [] then elems == []
    else if SpellsNoText(part[0].spelling) then SpellsElems(part[1..], elems)
    else elems != [] && SpellsText(part[0].spelling, elems[0]) && SpellsElems(part[1..], elems[1..])
  }

  /** The items are one way of writing the argument. */
  ghost predicate SpellsArg(part: seq<Item>, a: Arg) {
    match a
    case Text(s) => |part| == 1 && SpellsText(part[0].spelling, s)
    case Numeric(v) =>
      && |part| == 1 && part[0].spelling.NumberLit?
      && var n := part[0].spelling.numeral;
         IsInteger(n) && IntegerValue(n) < 0x8000_0000_0000_0000 && v == Some(IntegerValue(n))
    case Strings(elems) =>
      && |part| >= 2
      && part[0].spelling == Operator("[") && part[|part| - 1].spelling == Operator("]")
      && SpellsElems(part[1..|part| - 1], elems)
    case Other => false
  }

  /** A literal, or brackets around tokens that are not brackets. */
  ghost predicate SimpleArg(t: seq<Token>) {
    if |t| == 1 then t[0].kind == String || t[0].kind == Template || t[0].kind == Number
    else
      && |t| >= 2 && IsPunct(t[0], "[") && IsPunct(t[|t| - 1], "]")
      && forall k | 1 <= k < |t| - 1 :: !IsOpen(t[k]) && !IsClose(t[k])
  }

  lemma SpellingTokenPos(sp: Spelling, pos: nat)
    requires ValidSpelling(sp)
    ensures SpellingToken(sp, pos) == SpellingToken(sp, 0).(pos := pos)
  {
  }

  lemma OperatorToken(op: string)
    requires ValidSpelling(Operator(op))
    ensures SpellingToken(Operator(op), 0) == Token(Punct, op, 0)
  {
  }

  lemma {:induction false} TokensAt(items: seq<Item>, i: nat)
    requires AllValid(items)
    ensures |Tokens(items, i)| == |items|
    ensures forall k | 0 <= k < |items| ::
              && Tokens(items, i)[k].kind == SpellingToken(items[k].spelling, 0).kind
              && Tokens(items, i)[k].val == SpellingToken(items[k].spelling, 0).val
    decreases |items|
  {
    hide SpellingText, GapText, SpellingToken, ValidSpelling;
    if items != [] {
      SpellingTokenPos(items[0].spelling, i + |GapText(items[0].gap)|);
      TokensAt(items[1..], i + |GapText(items[0].gap)| + |SpellingText(items[0].spelling)|);
    }
  }

  lemma TextToken(t: Token, sp: Spelling, s: string)
    requires SpellsText(sp, s)
    requires t.kind == SpellingToken(sp, 0).kind && t.val == SpellingToken(sp, 0).val
    ensures LiteralText(t) == Some(s)
    ensures t.kind == String || t.kind == Template
  {
  }

  lemma {:induction false} ElemTokens(part: seq<Item>, elems: seq<string>, t: seq<Token>)
    requires SpellsElems(part, elems)
    requires AllValid(part)
    requires |t| == |part|
    requires forall k | 0 <= k < |t| ::
               && t[k].kind == SpellingToken(part[k].spelling, 0).kind
               && t[k].val == SpellingToken(part[k].spelling, 0).val
    ensures Literals(t) == elems
    ensures forall k | 0 <= k < |t| :: !IsOpen(t[k]) && !IsClose(t[k])
    decreases |part|
  {
    hide SpellsText, SpellsNoText, SpellingToken, ValidSpelling, LiteralText;
    if part != [] {
      var first := part[0].spelling;
      if SpellsNoText(first) {
        NoTextToken(t[0], first);
        ElemTokens(part[1..], elems, t[1..]);
      } else {
        TextToken(t[0], first, elems[0]);
        ElemTokens(part[1..], elems[1..], t[1..]);
      }
      forall k | 0 <= k < |t|
        ensures !IsOpen(t[k]) && !IsClose(t[k])
      {
        assert k >= 1 ==> t[k] == t[1..][k - 1];
      }
    }
  }

  lemma NoTextToken(t: Token, sp: Spelling)
    requires SpellsNoText(sp) && t.kind == SpellingToken(sp, 0).kind && t.val == SpellingToken(sp, 0).val
    ensures LiteralText(t) == None && !IsOpen(t) && !IsClose(t)
  {
  }

  /** The tokens of a spelled argument are classified as that argument. */
  lemma ArgTokens(part: seq<Item>, a: Arg, i: nat, floats: FloatReader)
    requires SpellsArg(part, a)
    requires AllValid(part)
    ensures ShapeOf(Tokens(part, i), floats) == a && SimpleArg(Tokens(part, i))
  {
    hide SpellsText, SpellsElems, JSNumber, Literals, Tokens, ValidSpelling, IsInteger, IntegerValue;
    TokensAt(part, i);
    var t := Tokens(part, i);
    match a
    case Text(s) => TextToken(t[0], part[0].spelling, s);
    case Numeric(v) => IntegerSpelling(part[0].spelling.numeral, floats);
    case Strings(elems) =>
      assert ValidSpelling(part[0].spelling) && ValidSpelling(part[|part| - 1].spelling);
      OperatorToken("[");
      OperatorToken("]");
      ElemTokens(part[1..|part| - 1], elems, t[1..|t| - 1]);
  }

  // ---- Calls of simple arguments ----

  lemma {:induction false} ArrayDepth(t: seq<Token>, j: nat)
    requires SimpleArg(t) && |t| >= 2 && 1 <= j < |t|
    ensures Depth(t, 0, j) == 1
    decreases j
  {
    if j == 1 {
      assert Depth(t, 0, 0) == 0;
    } else {
      ArrayDepth(t, j - 1);
    }
  }

  lemma SimpleIsPlain(t: seq<Token>)
    requires SimpleArg(t)
    ensures PlainArg(t)
  {
    assert Depth(t, 0, 0) == 0;
    if |t| == 1 {
      assert Depth(t, 0, 1) == 0;
    } else {
      forall j | 1 <= j < |t|
        ensures Depth(t, 0, j) == 1
      {
        ArrayDepth(t, j);
      }
      assert Depth(t, 0, |t|) == Depth(t, 0, |t| - 1) - 1;
    }
  }

  /** The argument under construction is what was read since the last top-level comma. */
  lemma {:induction false} CurIsSlice(toks: seq<Token>, s: nat, i: nat)
    requires s <= i <= |toks|
    ensures var cur := Split(toks, s, i).cur; s + |cur| <= i && cur == toks[i - |cur|..i]
    decreases i
  {
    if s < i {
      CurIsSlice(toks, s, i - 1);
    }
  }

  ghost predicate SimpleCall(toks: seq<Token>, o: nat, c: nat) {
    && Closes(toks, o, c)
    && CalleeBefore(toks, o)
    && forall a | a in ArgList(Split(toks, o + 1, c)) :: SimpleArg(a)
  }

  lemma {:induction false} FlatBalance(toks: seq<Token>, p: nat, j: nat, k: nat)
    requires p <= j <= k <= |toks|
    requires forall i | p <= i < k :: !IsOpen(toks[i]) && !IsClose(toks[i])
    ensures Depth(toks, j, k) == 0
    decreases k
  {
    if j < k {
      FlatBalance(toks, p, j, k - 1);
    }
  }

  /** The tokens of a script have different positions. */
  lemma {:induction false} PlacedIncreases(src: string, toks: seq<Token>, n: nat, i: nat, j: nat)
    requires Placed(src, toks, n) && i < j < |toks|
    ensures toks[i].pos < toks[j].pos
    decreases j
  {
    if i < j - 1 {
      PlacedIncreases(src, toks, n, i, j - 1);
    }
  }

  /** In a script the two scans agree on the token, its argument and its place there, and no other place holds it. */
  lemma ScansAgreeOnScript(src: string, o: nat, k: nat, c: nat)
    requires var toks := Lex(src, 0, []);
             && Closes(toks, o, c) && CalleeBefore(toks, o)
             && k < |toks| && toks[k].kind != Punct && EnclosingCall(toks, k) == o
    ensures var toks := Lex(src, 0, []); var args := ArgList(Split(toks, o + 1, c));
            exists m, j :: 0 <= m < |args| && 0 <= j < |args[m]| && args[m][j] == toks[k]
              && forall m', j' | 0 <= m' < |args| && 0 <= j' < |args[m']| && args[m'][j'] == toks[k] ::
                   m' == m && j' == j
  {
    hide Lex, Closes, EnclosingCall, Split, ArgList, Placed, ArgOf, IndexOf;
    var toks := Lex(src, 0, []);
    TokensArePlaced(src);
    forall i, j | 0 <= i < j < |toks|
      ensures toks[i] != toks[j]
    {
      PlacedIncreases(src, toks, |src|, i, j);
    }
    ScansAgree(toks, o, k, c);
  }

  /** A literal inside the array at p is enclosed by that array and by no call. */
  lemma ArrayEncloses(toks: seq<Token>, p: nat, k: nat)
    requires p < k <= |toks| && IsPunct(toks[p], "[")
    requires forall i | p < i < k :: !IsOpen(toks[i]) && !IsClose(toks[i])
    ensures EnclosingCall(toks, k) == -1
  {
    forall j | p < j <= k
      ensures Depth(toks, j, k) == 0
    {
      FlatBalance(toks, p + 1, j, k);
    }
    assert Encloses(toks, p, k);
    EnclosingCallNone(toks, p, k);
  }

  /** A literal of a simple call is a direct argument of it, or belongs to no call at all. */
  lemma LiteralInCall(toks: seq<Token>, o: nat, c: nat, k: nat)
    requires SimpleCall(toks, o, c) && o < k < c && LiteralText(toks[k]).Some?
    ensures EnclosingCall(toks, k) == if TopLevel(toks, o + 1, k) then o else -1
  {
    hide Closes, Encloses, PlainArg;
    ClosesBounds(toks, o, c);
    var s := o + 1;
    var args := ArgList(Split(toks, s, c));
    var m, j := ArgOf(toks, s, k), IndexOf(toks, s, k);
    ScansAgree(toks, o, k, c);
    TokenPlace(toks, s, k, c);
    SplitGrows(toks, s, k, c);
    CurIsSlice(toks, s, k);
    CurEmpty(toks, s, k);
    var a := args[m];
    assert SimpleArg(a);
    EmptyScan(toks, s);
    if k > s && TopComma(toks, s, k - 1) {
      TopAfterComma(toks, s, k);
    }
    if !TopLevel(toks, s, k) {
      var p := k - j;
      forall i | p <= i < k
        ensures toks[i] == a[i - p]
      {
        assert toks[p..k][i - p] == a[i - p];
      }
      ArrayEncloses(toks, p, k);
    }
  }

  lemma ClosesBounds(toks: seq<Token>, o: nat, c: nat)
    requires Closes(toks, o, c)
    ensures o < c < |toks| && IsPunct(toks[o], "(") && IsPunct(toks[c], ")") && TopLevel(toks, o + 1, c)
  {
  }

  lemma TopAfterComma(toks: seq<Token>, s: nat, k: nat)
    requires s < k <= |toks| && TopComma(toks, s, k - 1)
    ensures TopLevel(toks, s, k)
  {
  }

  // ---- Passes over the tokens ----

  /** The token at i is no candidate of either pass, or its call is not accepted. */
  ghost predicate PassedOver(toks: seq<Token>, i: nat, floats: FloatReader)
    requires i < |toks|
  {
    forall markerMode | Candidate(toks[i], markerMode) :: Classify(toks, i, markerMode, floats) == None
  }

  lemma {:induction false} FirstIs(toks: seq<Token>, j: nat, k: nat, markerMode: bool, r: Option<Seed>,
                                   floats: FloatReader)
    requires j <= k < |toks|
    requires forall i | j <= i < k && Candidate(toks[i], markerMode) ::
               Classify(toks, i, markerMode, floats) in {None, r}
    requires Candidate(toks[k], markerMode) && Classify(toks, k, markerMode, floats) == r && r.Some?
    ensures FirstFrom(toks, j, markerMode, floats) == r
    decreases k - j
  {
    hide Classify;
    if j < k {
      FirstIs(toks, j + 1, k, markerMode, r, floats);
    }
  }

  lemma {:induction false} FirstNone(toks: seq<Token>, j: nat, markerMode: bool, floats: FloatReader)
    requires j <= |toks|
    requires forall i | j <= i < |toks| && Candidate(toks[i], markerMode) ::
               Classify(toks, i, markerMode, floats) == None
    ensures FirstFrom(toks, j, markerMode, floats) == None
    decreases |toks| - j
  {
    hide Classify;
    if j < |toks| {
      FirstNone(toks, j + 1, markerMode, floats);
    }
  }

  /** Every marker literal of a simple call leads to that call's verdict or to none. */
  lemma MarkerVerdict(toks: seq<Token>, o: nat, c: nat, k: nat, floats: FloatReader)
    requires SimpleCall(toks, o, c) && o < k < c && Candidate(toks[k], true)
    ensures Classify(toks, k, true, floats) ==
            if TopLevel(toks, o + 1, k) then Judge(Shapes(ArgList(Split(toks, o + 1, c)), floats), true) else None
  {
    hide Judge, Shapes, Split, EnclosingCall, CallAt, ArgList;
    LiteralInCall(toks, o, c, k);
    CallAtIs(toks, o, c);
  }

  /** An argument that is the marker is a candidate directly in the call. */
  lemma MarkerPosition(toks: seq<Token>, o: nat, c: nat, floats: FloatReader) returns (k: nat)
    requires SimpleCall(toks, o, c)
    requires Text(MARKER) in Shapes(ArgList(Split(toks, o + 1, c)), floats)
    ensures o < k < c && Candidate(toks[k], true) && TopLevel(toks, o + 1, k)
  {
    hide Closes, SimpleArg;
    ClosesBounds(toks, o, c);
    var s := o + 1;
    var args := ArgList(Split(toks, s, c));
    var m :| 0 <= m < |args| && Shapes(args, floats)[m] == Text(MARKER);
    k := PlaceToken(toks, s, c, m, 0);
    TokenPlace(toks, s, k, c);
    CurEmpty(toks, s, k);
    EmptyScan(toks, s);
    if k > s {
      TopAfterComma(toks, s, k);
    }
  }

  /**
   Marker pass: in any script whose tokens before the call are passed over, a call of
   literals that carries the marker and qualifies gives the verdict on its arguments.
   */
  lemma MarkerCallFound(toks: seq<Token>, o: nat, c: nat, floats: FloatReader)
    requires SimpleCall(toks, o, c)
    requires forall i | 0 <= i < o :: PassedOver(toks, i, floats)
    requires var args := Shapes(ArgList(Split(toks, o + 1, c)), floats);
             Text(MARKER) in args && Judge(args, true).Some?
    ensures ExtractTokens(toks, floats) == Judge(Shapes(ArgList(Split(toks, o + 1, c)), floats), true)
  {
    hide Judge, Shapes, Split, Classify, FirstFrom;
    var r := Judge(Shapes(ArgList(Split(toks, o + 1, c)), floats), true);
    var k := MarkerPosition(toks, o, c, floats);
    ClosesBounds(toks, o, c);
    forall i | 0 <= i <= k && Candidate(toks[i], true)
      ensures Classify(toks, i, true, floats) in {None, r}
    {
      if i < o {
        assert PassedOver(toks, i, floats);
      } else if i > o {
        MarkerVerdict(toks, o, c, i, floats);
      }
    }
    MarkerVerdict(toks, o, c, k, floats);
    FirstIs(toks, 0, k, true, r, floats);
  }

  lemma NoOpenerInside(toks: seq<Token>, o: nat, c: nat, k: nat)
    requires SimpleCall(toks, o, c) && o < k < c
    ensures !IsPunct(toks[k], "(")
  {
    hide Closes;
    ClosesBounds(toks, o, c);
    var s := o + 1;
    if !TopComma(toks, s, k) {
      TokenPlace(toks, s, k, c);
      assert SimpleArg(ArgList(Split(toks, s, c))[ArgOf(toks, s, k)]);
    }
  }

  /** A script in which all tokens but those of one call of literals are passed over: both passes, exactly. */
  lemma OneCallScript(toks: seq<Token>, o: nat, c: nat, floats: FloatReader)
    requires SimpleCall(toks, o, c)
    requires forall i | 0 <= i < |toks| && !(o <= i <= c) :: PassedOver(toks, i, floats)
    ensures var args := Shapes(ArgList(Split(toks, o + 1, c)), floats);
            ExtractTokens(toks, floats) ==
            if Text(MARKER) in args && Judge(args, true).Some? then Judge(args, true) else Judge(args, false)
  {
    hide Judge, Shapes, Split, Classify, FirstFrom, ArgList;
    var args := Shapes(ArgList(Split(toks, o + 1, c)), floats);
    ClosesBounds(toks, o, c);
    if Text(MARKER) in args && Judge(args, true).Some? {
      MarkerCallFound(toks, o, c, floats);
    } else {
      forall i | 0 <= i < |toks| && Candidate(toks[i], true)
        ensures Classify(toks, i, true, floats) == None
      {
        if o < i < c {
          MarkerVerdict(toks, o, c, i, floats);
          if TopLevel(toks, o + 1, i) {
            TopMarkerIsArgument(toks, o, c, i, floats);
          }
        } else if !(o <= i <= c) {
          assert PassedOver(toks, i, floats);
        }
      }
      FirstNone(toks, 0, true, floats);
      StructurePass(toks, o, c, floats);
    }
  }

  lemma TopMarkerIsArgument(toks: seq<Token>, o: nat, c: nat, k: nat, floats: FloatReader)
    requires SimpleCall(toks, o, c) && o < k < c && Candidate(toks[k], true) && TopLevel(toks, o + 1, k)
    ensures Text(MARKER) in Shapes(ArgList(Split(toks, o + 1, c)), floats)
  {
    hide Closes;
    ClosesBounds(toks, o, c);
    var s := o + 1;
    var args := ArgList(Split(toks, s, c));
    var m := ArgOf(toks, s, k);
    TokenPlace(toks, s, k, c);
    SplitGrows(toks, s, k, c);
    assert SimpleArg(args[m]);
    TopIsArgStart(toks, s, c, k, args[m]);
    assert Shapes(args, floats)[m] == ShapeOf(args[m], floats);
  }

  lemma InArrayDepth(toks: seq<Token>, p: nat, k: nat)
    requires p < k <= |toks| && IsPunct(toks[p], "[")
    requires forall i | p < i < k :: !IsOpen(toks[i]) && !IsClose(toks[i])
    ensures Depth(toks, p, k) == 1
  {
    FlatBalance(toks, p + 1, p + 1, k);
    DepthSplit(toks, p, p + 1, k);
    assert Depth(toks, p, p) == 0;
  }

  /** A literal at top level is an argument by itself: inside an array it would be at depth 1. */
  lemma TopIsArgStart(toks: seq<Token>, s: nat, c: nat, k: nat, a: seq<Token>)
    requires s <= k < c <= |toks| && TopLevel(toks, s, k) && LiteralText(toks[k]).Some?
    requires SimpleArg(a) && Split(toks, s, k).cur <= a && IndexOf(toks, s, k) < |a|
             && a[IndexOf(toks, s, k)] == toks[k]
    ensures |a| == 1
  {
    hide Split;
    CurIsSlice(toks, s, k);
    CurStartsTop(toks, s, k);
    var j := IndexOf(toks, s, k);
    var p := k - j;
    forall i | p <= i < k
      ensures toks[i] == a[i - p]
    {
      assert toks[p..k][i - p] == a[i - p];
    }
    DepthSplit(toks, s, p, k);
    if |a| > 1 && p < k {
      InArrayDepth(toks, p, k);
    }
  }

  lemma {:induction false} CurStartsTop(toks: seq<Token>, s: nat, k: nat)
    requires s <= k <= |toks|
    ensures var p := k - |Split(toks, s, k).cur|; s <= p <= k && TopLevel(toks, s, p)
    decreases k
  {
    if s < k {
      CurStartsTop(toks, s, k - 1);
    }
  }

  lemma StructurePass(toks: seq<Token>, o: nat, c: nat, floats: FloatReader)
    requires SimpleCall(toks, o, c)
    requires forall i | 0 <= i < |toks| && !(o <= i <= c) :: PassedOver(toks, i, floats)
    ensures FirstFrom(toks, 0, false, floats) == Judge(Shapes(ArgList(Split(toks, o + 1, c)), floats), false)
  {
    hide Judge, Shapes, Split, FirstFrom, ArgList, CallAt;
    ClosesBounds(toks, o, c);
    CallAtIs(toks, o, c);
    var r := Judge(Shapes(ArgList(Split(toks, o + 1, c)), floats), false);
    assert Classify(toks, o, false, floats) == r;
    forall i | 0 <= i < |toks| && i != o && Candidate(toks[i], false)
      ensures Classify(toks, i, false, floats) == None
    {
      if o < i < c {
        NoOpenerInside(toks, o, c, i);
      } else if i != c {
        assert PassedOver(toks, i, floats);
      }
    }
    if r.Some? {
      FirstIs(toks, 0, o, false, r, floats);
    } else {
      FirstNone(toks, 0, false, floats);
    }
  }
}
