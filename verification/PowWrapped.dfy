/**
 The script the extraction is written for: the call of a wrapped function expression,
 (function(a, b) { ... })(arguments), from its text to the seed.
 */
module PowWrapped {
  import opened Wrappers
  import opened JsToken
  import opened CallArgs
  import opened JsPrinted
  import opened JsNumber
  import opened PowExtract
  import opened PowInvariance
  import opened PowText

  // ---- Parentheses that are passed over ----

  lemma {:induction false} NoCommaOneArgument(toks: seq<Token>, s: nat, c: nat)
    requires s <= c <= |toks| && forall i | s <= i < c :: !TopComma(toks, s, i)
    ensures Split(toks, s, c).done == []
    decreases c
  {
    hide TopComma;
    if s < c {
      NoCommaOneArgument(toks, s, c - 1);
    }
  }

  /** A list that closes no later than e, where the depth goes below 0. */
  lemma ClosesBy(toks: seq<Token>, o: nat, c: nat, e: nat)
    requires Closes(toks, o, c) && o < e < |toks| && Depth(toks, o + 1, e + 1) < 0
    ensures o < c <= e
  {
  }

  /** A parenthesis around fewer than three arguments. */
  lemma OneArgumentPassed(toks: seq<Token>, o: nat, s: nat, e: nat, floats: FloatReader)
    requires s == o + 1 <= e < |toks| && IsPunct(toks[o], "(") && Depth(toks, s, e + 1) < 0
    requires forall i | s <= i < e :: !TopComma(toks, s, i)
    ensures PassedOver(toks, o, floats)
  {
    hide Closes, TopComma, Split, Judge, Depth;
    if c: nat :| Closes(toks, o, c) {
      ClosesBy(toks, o, c, e);
      NoCommaOneArgument(toks, s, c);
      CallAtIs(toks, o, c);
      TooFew(ArgList(Split(toks, o + 1, c)), floats);
    }
  }

  lemma TooFew(args: seq<seq<Token>>, floats: FloatReader)
    requires |args| < 3
    ensures Judge(Shapes(args, floats), false) == None
  {
  }

  /** A parameter list: names and commas. */
  ghost predicate NamesBetween(toks: seq<Token>, p: nat, q: nat) {
    && p < q < |toks| && IsPunct(toks[p], "(") && IsPunct(toks[q], ")")
    && forall i | p < i < q :: toks[i].kind == Ident || IsPunct(toks[i], ",")
  }

  lemma NamesPassed(toks: seq<Token>, p: nat, q: nat, floats: FloatReader)
    requires NamesBetween(toks, p, q)
    ensures PassedOver(toks, p, floats)
  {
    hide Closes, Split, Judge, Shapes, Depth;
    if c: nat :| Closes(toks, p, c) {
      FlatBalance(toks, p + 1, p + 1, q);
      DepthNext(toks, p + 1, q);
      ClosesBy(toks, p, c, q);
      CallAtIs(toks, p, c);
      var args := ArgList(Split(toks, p + 1, c));
      if args == [] {
        TooFew(args, floats);
      } else {
        NamesAreForeign(toks, p, c, floats);
        ForeignRejected(args, floats);
      }
    }
  }

  lemma DepthNext(toks: seq<Token>, s: nat, i: nat)
    requires s <= i < |toks|
    ensures Depth(toks, s, i + 1) == Depth(toks, s, i) + Delta(toks[i])
  {
  }

  lemma NamesAreForeign(toks: seq<Token>, p: nat, c: nat, floats: FloatReader)
    requires p < c < |toks| && forall i | p < i < c :: toks[i].kind == Ident || IsPunct(toks[i], ",")
    requires ArgList(Split(toks, p + 1, c)) != []
    ensures ShapeOf(ArgList(Split(toks, p + 1, c))[0], floats) == Other
  {
    hide Split, TopComma;
    var a := ArgList(Split(toks, p + 1, c))[0];
    if a != [] {
      var k := PlaceToken(toks, p + 1, c, 0, 0);
      TokenPlace(toks, p + 1, k, c);
    }
  }

  lemma ForeignRejected(args: seq<seq<Token>>, floats: FloatReader)
    requires args != [] && ShapeOf(args[0], floats) == Other
    ensures Judge(Shapes(args, floats), false) == None
  {
    hide ShapeOf;
    var shapes := Shapes(args, floats);
    assert shapes == [shapes[0]] + shapes[1..];
    PickFront(shapes[0], shapes[1..], Foreign);
  }

  // ---- The head of a wrapped function expression ----

  /** Tokens n to b + 1: a parenthesis around a function with parameters from p to q and a body up to b. */
  ghost predicate WrappedFunction(toks: seq<Token>, n: nat, p: nat, q: nat, b: nat) {
    && n + 2 <= p <= n + 3 && p < |toks| && IsPunct(toks[n], "(") && (forall i | n < i < p :: toks[i].kind == Ident)
    && NamesBetween(toks, p, q)
    && q + 1 < b && b + 1 < |toks| && IsPunct(toks[q + 1], "{")
    && BalancedFrom(toks, q + 2, b) && Depth(toks, q + 2, b) == 0
    && IsPunct(toks[b], "}") && IsPunct(toks[b + 1], ")")
  }

  /** Bracket depth inside the outer parenthesis. */
  lemma HeadDepth(toks: seq<Token>, n: nat, s: nat, p: nat, q: nat, b: nat)
    requires s == n + 1 && WrappedFunction(toks, n, p, q, b)
    ensures forall i | n < i <= p :: Depth(toks, s, i) == 0
    ensures forall i | p < i <= q :: Depth(toks, s, i) == 1
    ensures Depth(toks, s, q + 1) == 0
    ensures forall i | q + 2 <= i <= b :: Depth(toks, s, i) >= 1
    ensures Depth(toks, s, b + 1) == 0 && Depth(toks, s, b + 2) == -1
  {
    hide Depth, BalancedFrom;
    forall i | n < i <= p
      ensures Depth(toks, s, i) == 0
    {
      FlatBalance(toks, s, s, i);
    }
    DepthNext(toks, s, p);
    forall i | p < i <= q
      ensures Depth(toks, s, i) == 1
    {
      DepthSplit(toks, s, p + 1, i);
      FlatBalance(toks, p + 1, p + 1, i);
    }
    DepthNext(toks, s, q);
    DepthNext(toks, s, q + 1);
    forall i | q + 2 <= i <= b
      ensures Depth(toks, s, i) >= 1
    {
      DepthSplit(toks, s, q + 2, i);
      BalancedAt(toks, q + 2, b, i);
    }
    DepthSplit(toks, s, q + 2, b);
    DepthNext(toks, s, b);
    DepthNext(toks, s, b + 1);
  }

  lemma BalancedAt(toks: seq<Token>, s: nat, k: nat, i: nat)
    requires s <= i <= k <= |toks| && BalancedFrom(toks, s, k)
    ensures Depth(toks, s, i) >= 0
  {
  }

  /** Neither parenthesis of the head is taken for the seed call. */
  lemma HeadPassed(toks: seq<Token>, n: nat, p: nat, q: nat, b: nat, floats: FloatReader)
    requires WrappedFunction(toks, n, p, q, b)
    ensures PassedOver(toks, n, floats) && PassedOver(toks, p, floats)
  {
    hide Depth, BalancedFrom, PassedOver;
    NamesPassed(toks, p, q, floats);
    var s := n + 1;
    HeadDepth(toks, n, s, p, q, b);
    forall i | s <= i < b + 1
      ensures !TopComma(toks, s, i)
    {
      assert i == q + 1 || i <= p || p < i <= q || q + 2 <= i <= b;
    }
    OneArgumentPassed(toks, n, s, b + 1, floats);
  }

  lemma NoCandidate(toks: seq<Token>, i: nat, floats: FloatReader)
    requires i < |toks| && LiteralText(toks[i]) != Some(MARKER) && !IsPunct(toks[i], "(")
    ensures PassedOver(toks, i, floats)
  {
  }

  /** All of the head is passed over if its body is. */
  lemma WholeHeadPassed(toks: seq<Token>, n: nat, p: nat, q: nat, b: nat, i: nat, floats: FloatReader)
    requires WrappedFunction(toks, n, p, q, b) && n <= i <= b + 1
    requires q + 2 <= i < b ==> PassedOver(toks, i, floats)
    ensures PassedOver(toks, i, floats)
  {
    hide PassedOver, Depth, BalancedFrom;
    if i == n || i == p {
      HeadPassed(toks, n, p, q, b, floats);
    } else if !(q + 2 <= i < b) {
      NoCandidate(toks, i, floats);
    }
  }

  // ---- Its text ----

  datatype Head = Head(open: Item, names: seq<Item>, paramsOpen: Item, params: seq<Item>, paramsClose: Item,
                       bodyOpen: Item, body: seq<Item>, bodyClose: Item, close: Item)

  ghost function HeadItems(h: Head): seq<Item> {
    [h.open] + h.names + [h.paramsOpen] + h.params + [h.paramsClose, h.bodyOpen] + h.body + [h.bodyClose, h.close]
  }

  ghost function ItemDelta(it: Item): int {
    if !it.spelling.Operator? then 0
    else if it.spelling.op in {"(", "[", "{"} then 1
    else if it.spelling.op in {")", "]", "}"} then -1
    else 0
  }

  /** Brackets opened less brackets closed. */
  ghost function Level(items: seq<Item>): int {
    if items == [] then 0 else Level(items[..|items| - 1]) + ItemDelta(items[|items| - 1])
  }

  ghost predicate BalancedItems(items: seq<Item>) {
    Level(items) == 0 && forall k | 0 <= k <= |items| :: Level(items[..k]) >= 0
  }

  /** One or two names (the keyword and perhaps the function's name), parameters, and a balanced body. */
  ghost predicate SpellsHead(h: Head) {
    && h.open.spelling == Operator("(")
    && 1 <= |h.names| <= 2 && (forall it | it in h.names :: it.spelling.Name?)
    && h.paramsOpen.spelling == Operator("(")
    && (forall it | it in h.params :: it.spelling.Name? || it.spelling == Operator(","))
    && h.paramsClose.spelling == Operator(")") && h.bodyOpen.spelling == Operator("{")
    && BalancedItems(h.body)
    && h.bodyClose.spelling == Operator("}") && h.close.spelling == Operator(")")
  }

  /** The tokens from s on are those of the items, up to their positions. */
  ghost predicate Reads(toks: seq<Token>, s: nat, items: seq<Item>) {
    && s + |items| <= |toks| && AllValid(items)
    && forall k | 0 <= k < |items| :: ReadsItem(toks[s + k], items[k])
  }

  ghost predicate ReadsItem(t: Token, it: Item) {
    && ValidSpelling(it.spelling)
    && t.kind == SpellingToken(it.spelling, 0).kind && t.val == SpellingToken(it.spelling, 0).val
  }

  lemma ItemToken(t: Token, it: Item)
    requires ReadsItem(t, it)
    ensures Delta(t) == ItemDelta(it)
    ensures it.spelling.Name? ==> t.kind == Ident
    ensures it.spelling.Operator? ==> IsPunct(t, it.spelling.op)
  {
  }

  lemma {:induction false} DepthIsLevel(toks: seq<Token>, s: nat, items: seq<Item>, k: nat)
    requires Reads(toks, s, items) && k <= |items|
    ensures Depth(toks, s, s + k) == Level(items[..k])
    decreases k
  {
    hide ReadsItem, AllValid, Delta, ItemDelta;
    if k > 0 {
      DepthIsLevel(toks, s, items, k - 1);
      ItemToken(toks[s + (k - 1)], items[k - 1]);
      assert items[..k][..k - 1] == items[..k - 1];
    }
  }

  lemma ReadsPart(toks: seq<Token>, s: nat, a: seq<Item>, b: seq<Item>, c: seq<Item>)
    requires Reads(toks, s, a + b + c)
    ensures Reads(toks, s + |a|, b)
  {
    hide ReadsItem, ValidSpelling;
    var all := a + b + c;
    forall k | 0 <= k < |b|
      ensures ReadsItem(toks[s + |a| + k], b[k])
    {
      assert b[k] == all[|a| + k];
      assert ReadsItem(toks[s + (|a| + k)], all[|a| + k]);
    }
    forall it | it in b
      ensures ValidSpelling(it.spelling)
    {
      assert it in all;
    }
  }

  /** Where a spelled head is read, its tokens are those of a wrapped function expression. */
  lemma HeadIsWrapped(toks: seq<Token>, n: nat, h: Head) returns (p: nat, q: nat, b: nat)
    requires SpellsHead(h) && Reads(toks, n, HeadItems(h))
    ensures p == n + 1 + |h.names| && q == p + 1 + |h.params| && b == q + 2 + |h.body|
    ensures b + 2 == n + |HeadItems(h)| && WrappedFunction(toks, n, p, q, b)
  {
    hide ReadsItem, ValidSpelling, Delta, Depth, IsPunct, AllValid, Level, ItemDelta;
    p := n + 1 + |h.names|;
    q := p + 1 + |h.params|;
    b := q + 2 + |h.body|;
    var items := HeadItems(h);
    ItemToken(toks[n + 0], items[0]);
    forall i | n < i < p
      ensures toks[i].kind == Ident
    {
      assert items[i - n] == h.names[i - n - 1] && h.names[i - n - 1] in h.names;
      ItemToken(toks[n + (i - n)], items[i - n]);
    }
    ItemToken(toks[n + (p - n)], items[p - n]);
    forall i | p < i < q
      ensures toks[i].kind == Ident || IsPunct(toks[i], ",")
    {
      assert items[i - n] == h.params[i - p - 1] && h.params[i - p - 1] in h.params;
      ItemToken(toks[n + (i - n)], items[i - n]);
    }
    ItemToken(toks[n + (q - n)], items[q - n]);
    ItemToken(toks[n + (q + 1 - n)], items[q + 1 - n]);
    ItemToken(toks[n + (b - n)], items[b - n]);
    ItemToken(toks[n + (b + 1 - n)], items[b + 1 - n]);
    var front := [h.open] + h.names + [h.paramsOpen] + h.params + [h.paramsClose, h.bodyOpen];
    ReadsPart(toks, n, front, h.body, [h.bodyClose, h.close]);
    BodyBalanced(toks, q + 2, h.body);
  }

  lemma BodyBalanced(toks: seq<Token>, s: nat, body: seq<Item>)
    requires Reads(toks, s, body) && BalancedItems(body)
    ensures BalancedFrom(toks, s, s + |body|) && Depth(toks, s, s + |body|) == 0
  {
    hide Depth, Level, ReadsItem;
    forall j | s <= j <= s + |body|
      ensures Depth(toks, s, j) == Level(body[..j - s])
    {
      DepthIsLevel(toks, s, body, j - s);
    }
    assert body[..|body|] == body;
  }

  // ---- From text to a call that stands in it ----

  lemma {:induction false} PrintedParts(a: seq<Item>, b: seq<Item>)
    ensures Printed(a + b) == Printed(a) + Printed(b)
    decreases |a|
  {
    hide GapText, SpellingText;
    if a == [] {
      assert a + b == b;
    } else {
      assert (a + b)[1..] == a[1..] + b;
      PrintedParts(a[1..], b);
    }
  }

  lemma {:induction false} WellPrintedParts(a: seq<Item>, b: seq<Item>, after: string)
    requires WellPrinted(a + b, after)
    ensures WellPrinted(a, Printed(b) + after) && WellPrinted(b, after)
    decreases |a|
  {
    hide Separable, ValidSpelling, GapText, SpellingText, ValidGap, Printed;
    if a == [] {
      assert a + b == b;
    } else {
      assert (a + b)[1..] == a[1..] + b;
      WellPrintedParts(a[1..], b, after);
      PrintedParts(a[1..], b);
      assert Printed(a[1..]) + Printed(b) + after == Printed(a[1..]) + (Printed(b) + after);
    }
  }

  ghost predicate CalleeItem(it: Item) {
    it.spelling.Name? || it.spelling == Operator(")") || it.spelling == Operator("}")
  }

  ghost function CallText(pre: seq<Item>, s: CallSpelling, after: string): string
    requires |s.commas| + 1 == |s.parts|
  {
    Printed(pre) + (Printed(CallItems(s)) + after)
  }

  /** In a text that prints some items, a call behind them and anything more, the call stands where it was printed. */
  lemma PrintedCallStands(pre: seq<Item>, s: CallSpelling, args: seq<Arg>, after: string)
    requires pre != [] && CalleeItem(pre[|pre| - 1]) && SpellsCall(s, args) && WellPrinted(pre + CallItems(s), after)
    ensures AllValid(pre) && |Tokens(pre, 0)| == |pre|
    ensures CallStandsAt(CallText(pre, s, after), |Printed(pre)|, Tokens(pre, 0), s, args, after)
    ensures Reads(Lex(CallText(pre, s, after), 0, []), 0, pre)
  {
    hide Lex, Printed, Tokens, WellPrinted, ValidSpelling, AllValid, SpellsArg, CallItems;
    var src, rest := CallText(pre, s, after), Printed(CallItems(s)) + after;
    WellPrintedParts(pre, CallItems(s), after);
    assert src[0..|src|] == src;
    LexPrinted(src, 0, [], pre, rest);
    assert [] + Tokens(pre, 0) == Tokens(pre, 0);
    TokensAt(pre, 0);
    LastItem(pre);
    assert src[|Printed(pre)|..] == rest;
    LexExtends(src, |Printed(pre)|, Tokens(pre, 0));
    PrefixReads(Lex(src, 0, []), pre);
  }

  lemma LastItem(pre: seq<Item>)
    requires pre != [] && AllValid(pre) && CalleeItem(pre[|pre| - 1])
    ensures EndsInCallee(Tokens(pre, 0))
  {
    hide Tokens, ValidSpelling;
    TokensAt(pre, 0);
    ItemToken(Tokens(pre, 0)[|pre| - 1], pre[|pre| - 1]);
  }

  lemma PrefixReads(toks: seq<Token>, pre: seq<Item>)
    requires AllValid(pre) && Tokens(pre, 0) <= toks
    ensures Reads(toks, 0, pre)
  {
    hide Tokens, ValidSpelling, SpellingToken;
    TokensAt(pre, 0);
    forall k | 0 <= k < |pre|
      ensures ReadsItem(toks[0 + k], pre[k])
    {
      assert toks[k] == toks[..|pre|][k] == Tokens(pre, 0)[k];
      assert pre[k] in pre;
    }
  }

  // ---- The main results ----

  /** Where nothing but the head of the function and its call needs to be passed over. */
  ghost predicate RestPassed(toks: seq<Token>, lead: seq<Item>, h: Head, s: CallSpelling, floats: FloatReader) {
    var body, call := |lead| + 4 + |h.names| + |h.params|, |lead| + |HeadItems(h)|;
    && |s.commas| + 1 == |s.parts|
    && forall i | 0 <= i < |toks| && (i < |lead| || body <= i < body + |h.body| || call + |CallItems(s)| <= i) ::
         PassedOver(toks, i, floats)
  }

  /** The call of a wrapped function expression is the only call of its script, whatever is spelled around it. */
  lemma WrappedOnlyCall(lead: seq<Item>, h: Head, s: CallSpelling, args: seq<Arg>, after: string, floats: FloatReader)
    requires SpellsHead(h) && SpellsCall(s, args) && WellPrinted(lead + HeadItems(h) + CallItems(s), after)
    requires RestPassed(Lex(CallText(lead + HeadItems(h), s, after), 0, []), lead, h, s, floats)
    ensures var pre := lead + HeadItems(h); var src := CallText(pre, s, after);
            && AllValid(pre) && |Tokens(pre, 0)| == |pre|
            && CallStandsAt(src, |Printed(pre)|, Tokens(pre, 0), s, args, after)
            && OnlyCall(Lex(src, 0, []), |pre|, s, floats)
  {
    hide Lex, Printed, Tokens, WellPrinted, ValidSpelling, AllValid, CallItems, PassedOver, CallStandsAt, BalancedItems,
      WrappedFunction, CallText, ReadsItem;
    var pre := lead + HeadItems(h);
    PrintedCallStands(pre, s, args, after);
    var toks := Lex(CallText(pre, s, after), 0, []);
    assert pre == lead + HeadItems(h) + [];
    ReadsPart(toks, 0, lead, HeadItems(h), []);
    var p, q, b := HeadIsWrapped(toks, |lead|, h);
    forall i | 0 <= i < |toks| && !(|pre| <= i < |pre| + |CallItems(s)|)
      ensures PassedOver(toks, i, floats)
    {
      if |lead| <= i <= b + 1 {
        WholeHeadPassed(toks, |lead|, p, q, b, i, floats);
      }
    }
  }

  /** The script the source describes: exactly when its seed is found. */
  lemma WrappedSeedFoundExactly(lead: seq<Item>, h: Head, s: CallSpelling, args: seq<Arg>, after: string,
                                seed: string, d: int, marker: string, elems: seq<string>, floats: FloatReader)
    requires SpellsHead(h) && SpellsCall(s, args) && WellPrinted(lead + HeadItems(h) + CallItems(s), after)
    requires RestPassed(Lex(CallText(lead + HeadItems(h), s, after), 0, []), lead, h, s, floats)
    requires SeedCall(args, seed, d, marker, elems)
    ensures (var r := Extract([CallText(lead + HeadItems(h), s, after)], floats);
             r.Some? && r.value.powInput == seed && r.value.difficulty == DifficultyOf(d))
            <==> IsSeed(seed) && (marker == "pow_timeout" || (!IsSeed(marker) && KnownCount(elems) >= 4))
  {
    hide Lex, Printed, Tokens, WellPrinted, AllValid, CallItems, CallStandsAt, OnlyCall, SpellsHead, SpellsCall,
         RestPassed, Extract, SeedCall, IsSeed, HeadItems, CallText;
    var pre := lead + HeadItems(h);
    SpelledParts(s, args);
    WrappedOnlyCall(lead, h, s, args, after, floats);
    SeedFoundExactly(CallText(pre, s, after), |Printed(pre)|, Tokens(pre, 0), s, args, after,
                     seed, d, marker, elems, floats);
  }

  /** Items with no parenthesis and no marker literal. */
  ghost predicate Quiet(items: seq<Item>) {
    forall it | it in items :: it.spelling != Operator("(") && !SpellsText(it.spelling, MARKER)
  }

  lemma QuietPassed(toks: seq<Token>, s: nat, items: seq<Item>, k: nat, floats: FloatReader)
    requires Reads(toks, s, items) && Quiet(items) && k < |items|
    ensures PassedOver(toks, s + k, floats)
  {
    hide Classify, AllValid;
    assert ReadsItem(toks[s + k], items[k]) && items[k] in items;
    QuietToken(toks[s + k], items[k]);
    NoCandidate(toks, s + k, floats);
  }

  lemma QuietToken(t: Token, it: Item)
    requires ReadsItem(t, it) && it.spelling != Operator("(") && !SpellsText(it.spelling, MARKER)
    ensures LiteralText(t) != Some(MARKER) && !IsPunct(t, "(")
  {
  }

  lemma LexWhole(pre: seq<Item>, s: CallSpelling, trailing: seq<Blank>)
    requires |s.commas| + 1 == |s.parts| && ValidGap(trailing) && WellPrinted(pre + CallItems(s), GapText(trailing))
    ensures |Lex(CallText(pre, s, GapText(trailing)), 0, [])| == |pre| + |CallItems(s)|
  {
    hide Lex, Printed, Tokens, WellPrinted, ValidSpelling, AllValid, CallItems, GapText;
    var all := pre + CallItems(s);
    RoundTrip(all, trailing);
    TokensAt(all, 0);
    PrintedParts(pre, CallItems(s));
    assert Printed(pre) + Printed(CallItems(s)) + GapText(trailing) == CallText(pre, s, GapText(trailing));
  }

  /**
   By spelling alone: a wrapped function expression with a quiet body, called with the four arguments in any order,
   with any quotes, escapes, number bases and any white space and comments between the tokens.
   */
  lemma SeedScriptExactly(h: Head, s: CallSpelling, args: seq<Arg>, trailing: seq<Blank>,
                          seed: string, d: int, marker: string, elems: seq<string>, floats: FloatReader)
    requires SpellsHead(h) && Quiet(h.body) && SpellsCall(s, args) && SeedCall(args, seed, d, marker, elems)
    requires Spaced(HeadItems(h) + CallItems(s)) && ValidGap(trailing)
    ensures (var r := Extract([CallText(HeadItems(h), s, GapText(trailing))], floats);
             r.Some? && r.value.powInput == seed && r.value.difficulty == DifficultyOf(d))
            <==> IsSeed(seed) && (marker == "pow_timeout" || (!IsSeed(marker) && KnownCount(elems) >= 4))
  {
    hide Lex, WellPrinted, AllValid, CallItems, SpellsCall, Extract, SeedCall, IsSeed, GapText, Spaced, CallText, Quiet,
      PassedOver, SpellsHead, HeadItems, StartsBlank, RestPassed;
    var after, pre := GapText(trailing), HeadItems(h);
    SpelledParts(s, args);
    TrailingStartsBlank(trailing);
    SpacedIsWellPrinted(pre + CallItems(s), after);
    assert [] + pre == pre;
    QuietRest(h, s, args, trailing, floats);
    WrappedSeedFoundExactly([], h, s, args, after, seed, d, marker, elems, floats);
  }

  lemma QuietRest(h: Head, s: CallSpelling, args: seq<Arg>, trailing: seq<Blank>, floats: FloatReader)
    requires SpellsHead(h) && Quiet(h.body) && SpellsCall(s, args)
    requires ValidGap(trailing) && WellPrinted(HeadItems(h) + CallItems(s), GapText(trailing))
    ensures RestPassed(Lex(CallText(HeadItems(h), s, GapText(trailing)), 0, []), [], h, s, floats)
  {
    hide Lex, WellPrinted, AllValid, CallItems, GapText, CallText, Quiet, PassedOver, BalancedItems, Reads;
    var after, pre := GapText(trailing), HeadItems(h);
    PrintedCallStands(pre, s, args, after);
    LexWhole(pre, s, trailing);
    var toks := Lex(CallText(pre, s, after), 0, []);
    BodyPassed(toks, h, floats);
  }

  lemma BodyPassed(toks: seq<Token>, h: Head, floats: FloatReader)
    requires Reads(toks, 0, HeadItems(h)) && Quiet(h.body)
    ensures var body := 4 + |h.names| + |h.params|;
            forall i | body <= i < body + |h.body| :: i < |toks| && PassedOver(toks, i, floats)
  {
    hide ReadsItem, AllValid, Quiet, PassedOver;
    var front := [h.open] + h.names + [h.paramsOpen] + h.params + [h.paramsClose, h.bodyOpen];
    ReadsPart(toks, 0, front, h.body, [h.bodyClose, h.close]);
    forall i | |front| <= i < |front| + |h.body|
      ensures PassedOver(toks, i, floats)
    {
      QuietPassed(toks, |front|, h.body, i - |front|, floats);
    }
  }

  lemma SpelledParts(s: CallSpelling, args: seq<Arg>)
    requires SpellsCall(s, args)
    ensures |s.commas| + 1 == |s.parts|
  {
  }

  /** Two such scripts with the same arguments, whatever their order, spelling and functions, give the same seed
      and difficulty. */
  lemma SeedScriptsAgree(h1: Head, s1: CallSpelling, args1: seq<Arg>, trailing1: seq<Blank>,
                         h2: Head, s2: CallSpelling, args2: seq<Arg>, trailing2: seq<Blank>, floats: FloatReader)
    requires SpellsHead(h1) && Quiet(h1.body) && SpellsCall(s1, args1)
    requires Spaced(HeadItems(h1) + CallItems(s1)) && ValidGap(trailing1)
    requires SpellsHead(h2) && Quiet(h2.body) && SpellsCall(s2, args2)
    requires Spaced(HeadItems(h2) + CallItems(s2)) && ValidGap(trailing2)
    requires multiset(args1) == multiset(args2) && OneNumber(args1)
    ensures var r1 := Extract([CallText(HeadItems(h1), s1, GapText(trailing1))], floats);
            var r2 := Extract([CallText(HeadItems(h2), s2, GapText(trailing2))], floats);
            && (r1.Some? <==> r2.Some?)
            && (r1.Some? ==> r1.value.powInput == r2.value.powInput && r1.value.difficulty == r2.value.difficulty)
  {
    hide Lex, Printed, Tokens, CallItems, CallStandsAt, OnlyCall, SpellsCall, Extract, GapText, Spaced, CallText, Quiet,
      SpellsHead, HeadItems, OneNumber, AllValid, ValidGap;
    SpelledParts(s1, args1);
    SpelledParts(s2, args2);
    ScriptOnlyCall(h1, s1, args1, trailing1, floats);
    ScriptOnlyCall(h2, s2, args2, trailing2, floats);
    var p1, p2 := HeadItems(h1), HeadItems(h2);
    OneCallIndependent(
      CallText(p1, s1, GapText(trailing1)), |Printed(p1)|, Tokens(p1, 0), s1, args1, GapText(trailing1),
      CallText(p2, s2, GapText(trailing2)), |Printed(p2)|, Tokens(p2, 0), s2, args2, GapText(trailing2), floats);
  }

  lemma ScriptOnlyCall(h: Head, s: CallSpelling, args: seq<Arg>, trailing: seq<Blank>, floats: FloatReader)
    requires SpellsHead(h) && Quiet(h.body) && SpellsCall(s, args)
    requires Spaced(HeadItems(h) + CallItems(s)) && ValidGap(trailing)
    ensures var pre, after := HeadItems(h), GapText(trailing);
            && AllValid(pre) && |Tokens(pre, 0)| == |pre|
            && CallStandsAt(CallText(pre, s, after), |Printed(pre)|, Tokens(pre, 0), s, args, after)
            && OnlyCall(Lex(CallText(pre, s, after), 0, []), |Tokens(pre, 0)|, s, floats)
  {
    hide Lex, Printed, Tokens, WellPrinted, AllValid, CallItems, CallStandsAt, OnlyCall, SpellsHead, SpellsCall,
         GapText, Spaced, CallText, Quiet, HeadItems, StartsBlank, RestPassed;
    var after, pre := GapText(trailing), HeadItems(h);
    SpelledParts(s, args);
    TrailingStartsBlank(trailing);
    SpacedIsWellPrinted(pre + CallItems(s), after);
    assert [] + pre == pre;
    QuietRest(h, s, args, trailing, floats);
    WrappedOnlyCall([], h, s, args, after, floats);
  }

  // ---- A plain script ----

  ghost function Spelled(sp: Spelling): Item { Item([Space(' ')], sp) }

  ghost function Quoted(text: string): Spelling { StringLit('"', Escaped(text, '"')) }

  /** f ( "seed" , 3 , "pow_timeout" , [ ] ) */
  ghost function PlainCall(seed: string): CallSpelling {
    var comma := Spelled(Operator(","));
    CallSpelling(Spelled(Operator("(")),
                 [[Spelled(Quoted(seed))], [Spelled(THREE)], [Spelled(Quoted(MARKER))],
                  [Spelled(Operator("[")), Spelled(Operator("]"))]],
                 [comma, comma, comma], Spelled(Operator(")")))
  }

  ghost function PlainArgs(seed: string): seq<Arg> { [Text(seed), Numeric(Some(3)), Text(MARKER), Strings([])] }

  ghost function PlainScript(seed: string): string { CallText([Item([], Name("f"))], PlainCall(seed), "") }

  lemma QuotedSpells(text: string)
    ensures SpellsText(Quoted(text), text)
  {
    hide Escaped;
    EscapedDenotes(text, '"');
  }

  lemma PlainCallSpells(seed: string)
    ensures SpellsCall(PlainCall(seed), PlainArgs(seed))
  {
    hide Quoted;
    QuotedSpells(seed);
    QuotedSpells(MARKER);
    assert IntegerValue(THREE.numeral) == 3 by {
      assert ['3'][..0] == [];
    }
  }

  lemma {:induction false} JoinMembers(parts: seq<seq<Item>>, commas: seq<Item>, it: Item)
    requires |commas| + 1 == |parts| && it in JoinItems(parts, commas)
    ensures it in commas || exists m | 0 <= m < |parts| :: it in parts[m]
    decreases |parts|
  {
    if |parts| > 1 {
      var n := |parts| - 1;
      if it in JoinItems(parts[..n], commas[..n - 1]) {
        JoinMembers(parts[..n], commas[..n - 1], it);
      }
    }
  }

  ghost const THREE: Spelling := NumberLit(Decimal("3", None, None, ""))

  lemma PlainSpellings(seed: string)
    ensures ValidSpelling(Quoted(seed)) && ValidSpelling(Quoted(MARKER)) && ValidSpelling(THREE)
            && ValidSpelling(Name("f"))
    ensures forall op | op in {"(", ")", "[", "]", ","} :: ValidSpelling(Operator(op))
  {
    hide Quoted;
    QuotedSpells(seed);
    QuotedSpells(MARKER);
  }

  lemma PlainItem(seed: string, it: Item)
    requires it in CallItems(PlainCall(seed))
    ensures ValidSpelling(it.spelling) && it.gap == [Space(' ')]
  {
    hide Quoted, JoinItems, ValidSpelling;
    PlainSpellings(seed);
    var s := PlainCall(seed);
    if it != s.open && it != s.close {
      JoinMembers(s.parts, s.commas, it);
    }
  }

  lemma SpacedAfter(first: Item, rest: seq<Item>)
    requires ValidSpelling(first.spelling) && first.gap == []
    requires forall it | it in rest :: ValidSpelling(it.spelling) && it.gap == [Space(' ')]
    ensures Spaced([first] + rest)
  {
    hide ValidSpelling;
    var items := [first] + rest;
    forall k | 0 <= k < |items|
      ensures ValidSpelling(items[k].spelling) && ValidGap(items[k].gap) && (k > 0 ==> items[k].gap != [])
    {
      assert k > 0 ==> items[k] == rest[k - 1] && rest[k - 1] in rest;
    }
  }

  lemma PlainCallSpaced(seed: string)
    ensures Spaced([Item([], Name("f"))] + CallItems(PlainCall(seed)))
  {
    hide CallItems, ValidSpelling, Spaced, Spelled, Quoted, JoinItems;
    PlainSpellings(seed);
    var rest := CallItems(PlainCall(seed));
    forall it | it in rest
      ensures ValidSpelling(it.spelling) && it.gap == [Space(' ')]
    {
      PlainItem(seed, it);
    }
    SpacedAfter(Item([], Name("f")), rest);
  }

  /** What is extracted from the plain script of one marker call. */
  lemma PlainScriptExtracted(seed: string, floats: FloatReader)
    ensures IsSeed(seed) ==>
              var r := Extract([PlainScript(seed)], floats);
              r.Some? && r.value.powInput == seed && r.value.difficulty == 3
    ensures !IsSeed(seed) ==> Extract([PlainScript(seed)], floats) == None
  {
    hide Lex, Printed, Tokens, WellPrinted, AllValid, CallItems, Extract, Spaced, CallStandsAt, PassedOver, SeedShape,
         MarkerLike, PlainCall, ReadsItem, GapText;
    var pre, s := [Item([], Name("f"))], PlainCall(seed);
    PlainCallSpells(seed);
    PlainCallSpaced(seed);
    SpelledParts(s, PlainArgs(seed));
    NoTrailing();
    SpacedIsWellPrinted(pre + CallItems(s), "");
    PrintedCallStands(pre, s, PlainArgs(seed), "");
    LexWhole(pre, s, []);
    var toks := Lex(PlainScript(seed), 0, []);
    assert ReadsItem(toks[0 + 0], pre[0]);
    ItemToken(toks[0], pre[0]);
    NoCandidate(toks, 0, floats);
    MarkerIsMarkerLike();
    SeedFoundExactly(PlainScript(seed), |Printed(pre)|, Tokens(pre, 0), s, PlainArgs(seed), "",
                     seed, 3, MARKER, [], floats);
  }

  /** A script of one marker call, of which nothing is extracted: its seed contains "pow" and is taken for a marker. */
  lemma SeedLost(floats: FloatReader)
    ensures SeedShape(LOST_SEED) && Extract([PlainScript(LOST_SEED)], floats) == None
  {
    hide Extract, PlainScript, SeedShape, MarkerLike;
    SeedTakenForMarker();
    PlainScriptExtracted(LOST_SEED, floats);
  }

  lemma NoTrailing()
    ensures GapText([]) == ""
  {
  }
}
