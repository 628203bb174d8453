/**
 The two token scans of internal/core/pow_extract.go: backward from a token to the
 parenthesis of its call, and forward from a parenthesis over the arguments.
 Both are specified by bracket depth alone, which is what makes them agree.
 */
module CallArgs {
  import opened JsToken

  const STATEMENT_KEYWORDS: set<string> :=
    {"return", "var", "let", "const", "if", "for", "while", "do", "switch", "try", "typeof", "new",
     "delete", "void", "class", "import", "export", "yield", "await", "throw", "else", "case"}

  predicate IsPunct(t: Token, s: string) { t.kind == Punct && t.val == s }

  predicate IsOpen(t: Token) { t.kind == Punct && t.val in {"(", "[", "{"} }

  predicate IsClose(t: Token) { t.kind == Punct && t.val in {")", "]", "}"} }

  function Delta(t: Token): int { if IsOpen(t) then 1 else if IsClose(t) then -1 else 0 }

  /** Openers minus closers in toks[a..b]. */
  ghost function Depth(toks: seq<Token>, a: nat, b: nat): int
    requires a <= b <= |toks|
    decreases b
  {
    if a == b then 0 else Depth(toks, a, b - 1) + Delta(toks[b - 1])
  }

  lemma {:induction false} DepthSplit(toks: seq<Token>, a: nat, m: nat, b: nat)
    requires a <= m <= b <= |toks|
    ensures Depth(toks, a, b) == Depth(toks, a, m) + Depth(toks, m, b)
    decreases b
  {
    if m < b {
      DepthSplit(toks, a, m, b - 1);
    }
  }

  // ---- Backward ----

  /** The bracket at o is the innermost one still open just before index k. */
  ghost predicate Encloses(toks: seq<Token>, o: nat, k: nat) {
    && o < k <= |toks|
    && IsOpen(toks[o])
    && Depth(toks, o + 1, k) == 0
    && BalancedTo(toks, o + 1, k)
  }

  predicate CalleeBefore(toks: seq<Token>, o: nat)
    requires o < |toks|
  {
    o > 0 && (IsPunct(toks[o - 1], ")") || IsPunct(toks[o - 1], "}") || toks[o - 1].kind == Ident)
  }

  /** The parenthesis at o opens the call of which index k is a direct argument position. */
  ghost predicate CallOpener(toks: seq<Token>, o: nat, k: nat) {
    Encloses(toks, o, k) && IsPunct(toks[o], "(") && CalleeBefore(toks, o)
  }

  lemma OpenerCounts(toks: seq<Token>, o: nat, k: nat)
    requires Encloses(toks, o, k)
    ensures Depth(toks, o, k) == 1
  {
    DepthSplit(toks, o, o + 1, k);
  }

  lemma EnclosesUnique(toks: seq<Token>, o: nat, p: nat, k: nat)
    requires Encloses(toks, o, k) && Encloses(toks, p, k)
    ensures o == p
  {
    OpenerCounts(toks, o, k);
    OpenerCounts(toks, p, k);
  }

  /** The result of the backward scan, -1 for none. */
  ghost function EnclosingCall(toks: seq<Token>, k: nat): int {
    if o: nat :| CallOpener(toks, o, k) then o else -1
  }

  lemma EnclosingCallIs(toks: seq<Token>, o: nat, k: nat)
    requires CallOpener(toks, o, k)
    ensures EnclosingCall(toks, k) == o
  {
    EnclosesUnique(toks, EnclosingCall(toks, k), o, k);
  }

  lemma EnclosingCallNone(toks: seq<Token>, o: nat, k: nat)
    requires Encloses(toks, o, k) && !CallOpener(toks, o, k)
    ensures EnclosingCall(toks, k) == -1
  {
    forall p: nat | Encloses(toks, p, k)
      ensures p == o
    {
      EnclosesUnique(toks, p, o, k);
    }
  }

  /** Of all brackets around k, the innermost decides: a parenthesis behind a name, a parenthesis or a brace. */
  lemma EnclosingCallExactly(toks: seq<Token>, o: nat, k: nat)
    requires Encloses(toks, o, k)
    ensures var call := && toks[o].val == "(" && o > 0
                        && (toks[o - 1].kind == Ident || (toks[o - 1].kind == Punct && toks[o - 1].val in {")", "}"}));
            EnclosingCall(toks, k) == if call then o else -1
  {
    if CallOpener(toks, o, k) {
      EnclosingCallIs(toks, o, k);
    } else {
      EnclosingCallNone(toks, o, k);
    }
  }

  method FindEnclosingCallOpen(toks: seq<Token>, k: nat) returns (open: int)
    requires k <= |toks|
    ensures open == EnclosingCall(toks, k)
  {
    var depth, j := 0, k - 1;
    while j >= 0
      invariant -1 <= j < k
      invariant depth == -Depth(toks, j + 1, k) >= 0
      invariant forall i | j < i <= k :: Depth(toks, i, k) <= 0
      invariant forall o: nat | j < o < k :: !Encloses(toks, o, k)
    {
      var t := toks[j];
      DepthSplit(toks, j, j + 1, k);
      assert Depth(toks, j, j + 1) == Delta(t);
      if t.kind == Punct {
        if IsClose(t) {
          depth := depth + 1;
        } else if IsOpen(t) {
          if depth == 0 {
            assert Encloses(toks, j, k);
            if t.val == "(" && CalleeBefore(toks, j) {
              EnclosingCallIs(toks, j, k);
              return j;
            }
            EnclosingCallNone(toks, j, k);
            return -1;
          }
          depth := depth - 1;
        }
      }
      j := j - 1;
    }
    return -1;
  }

  // ---- Forward ----

  /** Between s and i the scan is at the top level of the list that starts at s. */
  ghost predicate TopLevel(toks: seq<Token>, s: nat, i: nat)
    requires s <= i <= |toks|
  {
    Depth(toks, s, i) == 0
  }

  ghost predicate TopComma(toks: seq<Token>, s: nat, i: nat)
    requires s <= i < |toks|
  {
    TopLevel(toks, s, i) && IsPunct(toks[i], ",")
  }

  /** A token that shows the list at s not to be a literal argument list. */
  ghost predicate NotArgument(toks: seq<Token>, s: nat, i: nat)
    requires s <= i < |toks|
  {
    TopLevel(toks, s, i) &&
    (IsPunct(toks[i], ";") ||
     (toks[i].kind == Ident && (i == s || TopComma(toks, s, i - 1)) && toks[i].val in STATEMENT_KEYWORDS))
  }

  /** Scanning from s up to i neither leaves the list nor meets anything that rejects it. */
  ghost predicate Inside(toks: seq<Token>, s: nat, i: nat) {
    && s <= i <= |toks|
    && BalancedFrom(toks, s, i)
    && (forall j | s <= j < i :: !NotArgument(toks, s, j))
  }

  /** The parenthesis at open is closed, as an argument list, by the one at c. */
  ghost predicate Closes(toks: seq<Token>, open: nat, c: nat) {
    && open < c < |toks|
    && IsPunct(toks[open], "(")
    && Inside(toks, open + 1, c)
    && TopLevel(toks, open + 1, c)
    && IsPunct(toks[c], ")")
  }

  lemma ClosesDrops(toks: seq<Token>, open: nat, c: nat)
    requires Closes(toks, open, c)
    ensures Depth(toks, open + 1, c + 1) == -1
  {
  }

  lemma ClosesUnique(toks: seq<Token>, open: nat, c: nat, d: nat)
    requires Closes(toks, open, c) && Closes(toks, open, d)
    ensures c == d
  {
    ClosesDrops(toks, open, c);
    ClosesDrops(toks, open, d);
  }

  /** Complete arguments and the argument under construction. */
  datatype Parts = Parts(done: seq<seq<Token>>, cur: seq<Token>)

  ghost function Split(toks: seq<Token>, s: nat, i: nat): (p: Parts)
    requires s <= i <= |toks|
    decreases i
  {
    if i == s then Parts([], [])
    else
      var p := Split(toks, s, i - 1);
      if TopComma(toks, s, i - 1) then Parts(p.done + [p.cur], []) else Parts(p.done, p.cur + [toks[i - 1]])
  }

  function ArgList(p: Parts): seq<seq<Token>> {
    if p.done == [] && p.cur == [] then [] else p.done + [p.cur]
  }

  lemma {:induction false} CurEmpty(toks: seq<Token>, s: nat, i: nat)
    requires s <= i <= |toks|
    ensures Split(toks, s, i).cur == [] <==> i == s || TopComma(toks, s, i - 1)
  {
  }

  method ParseCallArgs(toks: seq<Token>, open: nat) returns (args: seq<seq<Token>>, closed: bool)
    ensures closed ==> exists c :: Closes(toks, open, c) && args == ArgList(Split(toks, open + 1, c))
    ensures !closed ==> args == [] && forall c :: !Closes(toks, open, c)
  {
    if open >= |toks| || !IsPunct(toks[open], "(") {
      return [], false;
    }
    ghost var s := open + 1;
    var cur, depth, i := [], 0, open + 1;
    args := [];
    while i < |toks|
      invariant Inside(toks, s, i)
      invariant depth == Depth(toks, s, i)
      invariant Split(toks, s, i) == Parts(args, cur)
      invariant forall c | Closes(toks, open, c) :: i <= c
      decreases |toks| - i
    {
      var t := toks[i];
      CurEmpty(toks, s, i);
      assert Depth(toks, s, i + 1) == depth + Delta(t);
      if IsOpen(t) {
        depth := depth + 1;
      } else if IsClose(t) {
        if depth == 0 {
          if t.val == ")" {
            assert Closes(toks, open, i);
            return ArgList(Parts(args, cur)), true;
          }
          return [], false;
        }
        depth := depth - 1;
      } else if IsPunct(t, ",") {
        if depth == 0 {
          assert TopComma(toks, s, i);
          args, cur, i := args + [cur], [], i + 1;
          continue;
        }
      } else if IsPunct(t, ";") {
        if depth == 0 {
          assert NotArgument(toks, s, i);
          return [], false;
        }
      } else if t.kind == Ident && depth == 0 && |cur| == 0 {
        if t.val in STATEMENT_KEYWORDS {
          assert NotArgument(toks, s, i);
          return [], false;
        }
      }
      cur, i := cur + [t], i + 1;
    }
    return [], false;
  }

  // ---- Backward and forward agree ----

  ghost predicate BalancedFrom(toks: seq<Token>, s: nat, k: nat)
    requires s <= k <= |toks|
  {
    forall j | s <= j <= k :: Depth(toks, s, j) >= 0
  }

  ghost predicate BalancedTo(toks: seq<Token>, s: nat, k: nat)
    requires s <= k <= |toks|
  {
    forall j | s <= j <= k :: Depth(toks, j, k) <= 0
  }

  /** What is balanced seen from the token is balanced seen from the parenthesis. */
  lemma SuffixBalanceIsPrefixBalance(toks: seq<Token>, s: nat, k: nat)
    requires s <= k <= |toks| && Depth(toks, s, k) == 0
    ensures BalancedTo(toks, s, k) <==> BalancedFrom(toks, s, k)
  {
    forall j | s <= j <= k
      ensures Depth(toks, j, k) <= 0 <==> Depth(toks, s, j) >= 0
    {
      DepthSplit(toks, s, j, k);
    }
    if BalancedTo(toks, s, k) {
      forall j | s <= j <= k
        ensures Depth(toks, s, j) >= 0
      {
        assert Depth(toks, j, k) <= 0;
      }
    } else {
      var j :| s <= j <= k && Depth(toks, j, k) > 0;
      assert Depth(toks, s, j) < 0;
    }
  }

  /** Where token k of the list that starts at s lies: the argument and the index in it. */
  ghost function ArgOf(toks: seq<Token>, s: nat, k: nat): nat
    requires s <= k <= |toks|
  {
    |Split(toks, s, k).done|
  }

  ghost function IndexOf(toks: seq<Token>, s: nat, k: nat): nat
    requires s <= k <= |toks|
  {
    |Split(toks, s, k).cur|
  }

  lemma {:induction false} SplitGrows(toks: seq<Token>, s: nat, k: nat, i: nat)
    requires s <= k <= i <= |toks|
    ensures var p, q := Split(toks, s, k), Split(toks, s, i);
            if |p.done| == |q.done| then p.done == q.done && p.cur <= q.cur
            else |p.done| < |q.done| && p.done <= q.done && p.cur <= q.done[|p.done|]
    decreases i
  {
    if k < i {
      SplitGrows(toks, s, k, i - 1);
    }
  }

  /** A token that is no top-level comma sits at its place in the argument list. */
  lemma TokenPlace(toks: seq<Token>, s: nat, k: nat, c: nat)
    requires s <= k < c <= |toks| && !TopComma(toks, s, k)
    ensures var args := ArgList(Split(toks, s, c));
            && ArgOf(toks, s, k) < |args|
            && IndexOf(toks, s, k) < |args[ArgOf(toks, s, k)]|
            && args[ArgOf(toks, s, k)][IndexOf(toks, s, k)] == toks[k]
  {
    SplitGrows(toks, s, k + 1, c);
    var p, q := Split(toks, s, k), Split(toks, s, k + 1);
    assert q.cur[|p.cur|] == toks[k];
  }

  /** Every element of every argument is one token between the brackets, at its own place. */
  lemma {:induction false} PlaceToken(toks: seq<Token>, s: nat, c: nat, m: nat, j: nat) returns (k: nat)
    requires s <= c <= |toks|
    requires var p := Split(toks, s, c); m < |p.done + [p.cur]| && j < |(p.done + [p.cur])[m]|
    ensures s <= k < c && !TopComma(toks, s, k)
    ensures ArgOf(toks, s, k) == m && IndexOf(toks, s, k) == j
    decreases c
  {
    var p, q := Split(toks, s, c - 1), Split(toks, s, c);
    if TopComma(toks, s, c - 1) {
      k := PlaceToken(toks, s, c - 1, m, j);
    } else if m == |q.done| && j == |p.cur| {
      k := c - 1;
    } else {
      k := PlaceToken(toks, s, c - 1, m, j);
    }
  }

  /**
   The two scans agree.  A token that is not punctuation is found by the backward scan
   inside the call at o exactly when the forward scan from o meets it at depth 0; it is
   then before the closing parenthesis, and it is one element of one argument only.
   */
  lemma ScansAgree(toks: seq<Token>, o: nat, k: nat, c: nat)
    requires Closes(toks, o, c) && CalleeBefore(toks, o)
    requires k < |toks| && toks[k].kind != Punct
    ensures EnclosingCall(toks, k) == o <==> o < k < c && TopLevel(toks, o + 1, k)
    ensures EnclosingCall(toks, k) == o ==>
              var args := ArgList(Split(toks, o + 1, c));
              var m, j := ArgOf(toks, o + 1, k), IndexOf(toks, o + 1, k);
              && m < |args| && j < |args[m]| && args[m][j] == toks[k]
              && (Distinct(toks) ==>
                    forall m', j' | 0 <= m' < |args| && 0 <= j' < |args[m']| && args[m'][j'] == toks[k] ::
                      m' == m && j' == j)
  {
    if EnclosingCall(toks, k) == o {
      SuffixBalanceIsPrefixBalance(toks, o + 1, k);
      ClosesDrops(toks, o, c);
      TokenPlace(toks, o + 1, k, c);
      OnlyPlace(toks, o + 1, k, c);
    }
    if o < k < c && TopLevel(toks, o + 1, k) {
      SuffixBalanceIsPrefixBalance(toks, o + 1, k);
      EnclosingCallIs(toks, o, k);
    }
  }

  ghost predicate Distinct(toks: seq<Token>) {
    forall i, j | 0 <= i < j < |toks| :: toks[i] != toks[j]
  }

  lemma OnlyPlace(toks: seq<Token>, s: nat, k: nat, c: nat)
    requires s <= k < c <= |toks|
    ensures var args := ArgList(Split(toks, s, c));
            forall m, j | 0 <= m < |args| && 0 <= j < |args[m]| && Distinct(toks) && args[m][j] == toks[k] ::
              m == ArgOf(toks, s, k) && j == IndexOf(toks, s, k)
  {
    var args := ArgList(Split(toks, s, c));
    forall m, j | 0 <= m < |args| && 0 <= j < |args[m]| && Distinct(toks) && args[m][j] == toks[k]
      ensures m == ArgOf(toks, s, k) && j == IndexOf(toks, s, k)
    {
      var k' := PlaceToken(toks, s, c, m, j);
      TokenPlace(toks, s, k', c);
    }
  }

  // ---- Splitting is exact ----

  /** Arguments joined by the given separators. */
  function Join(args: seq<seq<Token>>, commas: seq<Token>): seq<Token>
    requires args != [] ==> |commas| == |args| - 1
    requires args == [] ==> commas == []
  {
    if args == [] then []
    else if |args| == 1 then args[0]
    else Join(args[..|args| - 1], commas[..|commas| - 1]) + [commas[|commas| - 1]] + args[|args| - 1]
  }

  /** The top-level commas of toks[s..i]. */
  ghost function Commas(toks: seq<Token>, s: nat, i: nat): (cs: seq<Token>)
    requires s <= i <= |toks|
    ensures |cs| == |Split(toks, s, i).done|
    decreases i
  {
    if i == s then [] else Commas(toks, s, i - 1) + if TopComma(toks, s, i - 1) then [toks[i - 1]] else []
  }

  lemma JoinExtend(done: seq<seq<Token>>, cur: seq<Token>, commas: seq<Token>, t: Token)
    requires |commas| == |done|
    ensures Join(done + [cur + [t]], commas) == Join(done + [cur], commas) + [t]
    ensures Join(done + [cur] + [[]], commas + [t]) == Join(done + [cur], commas) + [t]
  {
    var a, b := done + [cur + [t]], done + [cur];
    assert a[..|a| - 1] == done == b[..|b| - 1];
    var d := done + [cur] + [[]];
    assert d[..|d| - 1] == done + [cur];
    assert (commas + [t])[..|commas|] == commas;
  }

  /** Joining the arguments with the top-level commas gives back the tokens between the brackets. */
  lemma {:induction false} JoinedIsSource(toks: seq<Token>, s: nat, i: nat)
    requires s <= i <= |toks|
    ensures var p := Split(toks, s, i); Join(p.done + [p.cur], Commas(toks, s, i)) == toks[s..i]
    decreases i
  {
    if s == i {
      assert Join([[]], []) == [];
    } else {
      hide Join, TopComma, Split, Commas;
      JoinedIsSource(toks, s, i - 1);
      var p := Split(toks, s, i - 1);
      var commas := Commas(toks, s, i - 1);
      JoinExtend(p.done, p.cur, commas, toks[i - 1]);
      CommasStep(toks, s, i - 1);
      SliceSnoc(toks, s, i - 1);
      if TopComma(toks, s, i - 1) {
        SplitComma(toks, s, i - 1);
      } else {
        SplitToken(toks, s, i - 1);
      }
    }
  }

  lemma CommasStep(toks: seq<Token>, s: nat, i: nat)
    requires s <= i < |toks|
    ensures Commas(toks, s, i + 1) ==
            if TopComma(toks, s, i) then Commas(toks, s, i) + [toks[i]] else Commas(toks, s, i)
  {
  }

  lemma SliceSnoc(toks: seq<Token>, s: nat, i: nat)
    requires s <= i < |toks|
    ensures toks[s..i + 1] == toks[s..i] + [toks[i]]
  {
  }

  lemma ArgsJoinToSource(toks: seq<Token>, open: nat, c: nat)
    requires Closes(toks, open, c)
    ensures var args := ArgList(Split(toks, open + 1, c)); var commas := Commas(toks, open + 1, c);
            && (args == [] <==> c == open + 1)
            && (args != [] ==> |commas| == |args| - 1 && Join(args, commas) == toks[open + 1..c])
            && forall t | t in commas :: IsPunct(t, ",")
  {
    hide Closes, Split, Commas, Join, TopComma;
    ClosesInside(toks, open, c);
    var s := open + 1;
    JoinedIsSource(toks, s, c);
    CurEmpty(toks, s, c);
    CommasAreCommas(toks, s, c);
    SplitNothing(toks, s);
    if s < c && TopComma(toks, s, c - 1) {
      SplitComma(toks, s, c - 1);
    }
  }

  lemma ClosesInside(toks: seq<Token>, open: nat, c: nat)
    requires Closes(toks, open, c)
    ensures open < c < |toks|
  {
  }

  lemma SplitNothing(toks: seq<Token>, s: nat)
    requires s <= |toks|
    ensures Split(toks, s, s) == Parts([], [])
  {
  }

  lemma {:induction false} CommasAreCommas(toks: seq<Token>, s: nat, i: nat)
    requires s <= i <= |toks|
    ensures forall t | t in Commas(toks, s, i) :: IsPunct(t, ",")
    decreases i
  {
    if s < i {
      CommasAreCommas(toks, s, i - 1);
    }
  }

  /** Words an argument does not start with: of declarations and control flow, and operators. */
  ghost predicate StartsStatement(word: string) {
    || word in {"var", "let", "const", "class", "import", "export"}
    || word in {"return", "if", "else", "for", "while", "do", "switch", "case", "try", "throw", "yield"}
    || word in {"typeof", "new", "delete", "void", "await"}
  }

  lemma StatementWords(word: string)
    ensures StartsStatement(word) <==> word in STATEMENT_KEYWORDS
  {
  }

  /** A list whose first argument, or one after a top-level comma, starts with such a word is none; nor is one with a
      top-level semicolon. */
  lemma StatementRefused(toks: seq<Token>, open: nat, i: nat, c: nat)
    requires open < i < c < |toks| && TopLevel(toks, open + 1, i)
    requires || IsPunct(toks[i], ";")
             || (toks[i].kind == Ident && StartsStatement(toks[i].val)
                 && (i == open + 1 || TopComma(toks, open + 1, i - 1)))
    ensures !Closes(toks, open, c)
  {
    hide StartsStatement;
    StatementWords(toks[i].val);
    assert NotArgument(toks, open + 1, i);
  }

  /** An argument the forward scan cannot break: balanced, no top-level ',' or ';', no statement keyword first. */
  ghost predicate PlainArg(a: seq<Token>) {
    && (forall j | 0 <= j <= |a| :: Depth(a, 0, j) >= 0)
    && Depth(a, 0, |a|) == 0
    && (forall j | 0 <= j < |a| && Depth(a, 0, j) == 0 :: !IsPunct(a[j], ",") && !IsPunct(a[j], ";"))
    && (a != [] && a[0].kind == Ident ==> !StartsStatement(a[0].val))
  }

  ghost predicate Balanced(a: seq<Token>) {
    Depth(a, 0, |a|) == 0 && forall j | 0 <= j <= |a| :: Depth(a, 0, j) >= 0
  }

  lemma {:induction false} DepthBehind(open: Token, a: seq<Token>, rest: seq<Token>, j: nat)
    requires j <= |a|
    ensures Depth([open] + a + rest, 0, j + 1) == Delta(open) + Depth(a, 0, j)
    decreases j
  {
    var t := [open] + a + rest;
    assert j > 0 ==> t[j] == a[j - 1];
    if j > 0 {
      DepthBehind(open, a, rest, j - 1);
    } else {
      assert Depth(t, 0, 0) == 0;
    }
  }

  /** Whatever stands balanced inside brackets, of any of the three kinds, is one argument. */
  lemma NestedIsPlain(open: Token, a: seq<Token>, close: Token)
    requires open.kind == Punct && open.val in {"(", "[", "{"} && close.kind == Punct && close.val in {")", "]", "}"}
    requires Balanced(a)
    ensures PlainArg([open] + a + [close])
  {
    var t := [open] + a + [close];
    assert IsOpen(open) && IsClose(close);
    forall j | 0 < j < |t|
      ensures Depth(t, 0, j) >= 1
    {
      DepthBehind(open, a, [close], j - 1);
    }
    DepthBehind(open, a, [close], |a|);
    assert t[|t| - 1] == close;
  }

  lemma ScanStep(toks: seq<Token>, s: nat, i: nat)
    requires Inside(toks, s, i) && i < |toks| && !NotArgument(toks, s, i)
    requires Depth(toks, s, i) + Delta(toks[i]) >= 0
    ensures Inside(toks, s, i + 1) && Depth(toks, s, i + 1) == Depth(toks, s, i) + Delta(toks[i])
  {
    hide NotArgument, Delta;
  }

  lemma CommaStep(toks: seq<Token>, s: nat, i: nat)
    requires Inside(toks, s, i) && i < |toks| && TopComma(toks, s, i)
    ensures Inside(toks, s, i + 1) && TopLevel(toks, s, i + 1)
    ensures var p := Split(toks, s, i); Split(toks, s, i + 1) == Parts(p.done + [p.cur], [])
  {
    hide BalancedFrom, Split;
    SplitComma(toks, s, i);
    ScanStep(toks, s, i);
  }

  lemma SplitComma(toks: seq<Token>, s: nat, i: nat)
    requires s <= i < |toks| && TopComma(toks, s, i)
    ensures var p := Split(toks, s, i); Split(toks, s, i + 1) == Parts(p.done + [p.cur], [])
  {
  }

  lemma SplitToken(toks: seq<Token>, s: nat, i: nat)
    requires s <= i < |toks| && !TopComma(toks, s, i)
    ensures var p := Split(toks, s, i); Split(toks, s, i + 1) == Parts(p.done, p.cur + [toks[i]])
  {
  }

  lemma PlainArgFits(toks: seq<Token>, s: nat, i: nat, a: seq<Token>, j: nat)
    requires s <= i < |toks| && PlainArg(a) && j < |a| && toks[i] == a[j]
    requires Depth(toks, s, i) == Depth(a, 0, j) && Split(toks, s, i).cur == a[..j]
    ensures !NotArgument(toks, s, i) && !TopComma(toks, s, i)
  {
    hide PlainArg, Split, Depth;
    PlainArgToken(a, j);
    CurEmpty(toks, s, i);
  }

  lemma PlainArgToken(a: seq<Token>, j: nat)
    requires PlainArg(a) && j < |a|
    ensures Depth(a, 0, j + 1) == Depth(a, 0, j) + Delta(a[j]) >= 0
    ensures Depth(a, 0, j) == 0 ==> !IsPunct(a[j], ",") && !IsPunct(a[j], ";")
    ensures j == 0 && a[j].kind == Ident ==> a[j].val !in STATEMENT_KEYWORDS
  {
    StatementWords(a[j].val);
    hide Delta;
  }

  lemma PlainArgStep(toks: seq<Token>, s: nat, i: nat, a: seq<Token>, j: nat)
    requires Inside(toks, s, i) && i < |toks| && PlainArg(a) && j < |a| && toks[i] == a[j]
    requires Depth(toks, s, i) == Depth(a, 0, j) && Split(toks, s, i).cur == a[..j]
    ensures Inside(toks, s, i + 1) && Depth(toks, s, i + 1) == Depth(a, 0, j + 1)
    ensures Split(toks, s, i + 1) == Parts(Split(toks, s, i).done, a[..j + 1])
  {
    hide PlainArg, Delta, Split, Depth, NotArgument, TopComma, BalancedFrom;
    PlainArgToken(a, j);
    PlainArgFits(toks, s, i, a, j);
    ScanStep(toks, s, i);
    SplitToken(toks, s, i);
    assert a[..j + 1] == a[..j] + [a[j]];
  }

  /** A plain argument met at top level with nothing pending becomes the pending argument. */
  lemma {:induction false} PlainArgScanned(toks: seq<Token>, s: nat, m: nat, a: seq<Token>, j: nat)
    requires Inside(toks, s, m) && TopLevel(toks, s, m) && Split(toks, s, m).cur == []
    requires s <= m && PlainArg(a) && m + |a| <= |toks| && toks[m..m + |a|] == a && j <= |a|
    ensures Inside(toks, s, m + j) && Depth(toks, s, m + j) == Depth(a, 0, j)
    ensures Split(toks, s, m + j) == Parts(Split(toks, s, m).done, a[..j])
    decreases j
  {
    hide Inside, PlainArg, Split, Depth, Delta;
    if j == 0 {
      EmptyScan(a, 0);
      assert a[..0] == [];
    } else {
      PlainArgScanned(toks, s, m, a, j - 1);
      AtSlice(toks, m, a, j - 1);
      PlainArgStep(toks, s, m + j - 1, a, j - 1);
    }
  }

  lemma AtSlice(toks: seq<Token>, m: nat, a: seq<Token>, j: nat)
    requires m + |a| <= |toks| && toks[m..m + |a|] == a && j < |a|
    ensures toks[m + j] == a[j]
  {
    assert toks[m..m + |a|][j] == toks[m + j];
  }

  lemma {:induction false} PlainArgsScanned(toks: seq<Token>, s: nat, args: seq<seq<Token>>, commas: seq<Token>)
    requires args != [] && |commas| == |args| - 1
    requires forall a | a in args :: PlainArg(a)
    requires forall t | t in commas :: IsPunct(t, ",")
    requires var n := |Join(args, commas)|; s + n <= |toks| && toks[s..s + n] == Join(args, commas)
    ensures var i := s + |Join(args, commas)|;
            && Inside(toks, s, i) && TopLevel(toks, s, i)
            && Split(toks, s, i) == Parts(args[..|args| - 1], args[|args| - 1])
    decreases |args|
  {
    hide Inside, PlainArg, Depth, Split, Join;
    JoinLast(args, commas);
    var last := args[|args| - 1];
    var m := s;
    if |args| > 1 {
      var init, commas' := args[..|args| - 1], commas[..|commas| - 1];
      var n := |Join(init, commas')|;
      SliceParts(toks, s, Join(init, commas'), [commas[|commas| - 1]], last);
      PlainArgsScanned(toks, s, init, commas');
      SliceOfOne(toks, s + n, commas[|commas| - 1]);
      CommaStep(toks, s, s + n);
      assert init[..|init| - 1] + [init[|init| - 1]] == init;
      m := s + n + 1;
    } else {
      EmptyScan(toks, s);
    }
    PlainArgScanned(toks, s, m, last, |last|);
    PlainArgEnds(last);
    assert last[..|last|] == last;
  }

  lemma SliceOfOne(toks: seq<Token>, i: nat, t: Token)
    requires i + |[t]| <= |toks| && toks[i..i + |[t]|] == [t]
    ensures i < |toks| && toks[i] == t
  {
    assert toks[i..i + 1][0] == toks[i];
  }

  lemma JoinLast(args: seq<seq<Token>>, commas: seq<Token>)
    requires args != [] && |commas| == |args| - 1
    ensures |args| == 1 ==> Join(args, commas) == args[0]
    ensures |args| > 1 ==>
              var n := |args| - 1; Join(args, commas) == Join(args[..n], commas[..n - 1]) + [commas[n - 1]] + args[n]
  {
  }

  lemma PlainArgEnds(a: seq<Token>)
    requires PlainArg(a)
    ensures Depth(a, 0, |a|) == 0
  {
  }

  lemma EmptyScan(toks: seq<Token>, s: nat)
    requires s <= |toks|
    ensures Inside(toks, s, s) && TopLevel(toks, s, s) && Split(toks, s, s) == Parts([], [])
  {
  }

  lemma SliceParts(toks: seq<Token>, s: nat, a: seq<Token>, b: seq<Token>, c: seq<Token>)
    requires s + |a + b + c| <= |toks| && toks[s..s + |a + b + c|] == a + b + c
    ensures toks[s..s + |a|] == a
    ensures toks[s + |a|..s + |a| + |b|] == b
    ensures toks[s + |a| + |b|..s + |a| + |b| + |c|] == c
  {
    forall k | 0 <= k < |a + b + c|
      ensures toks[s + k] == (a + b + c)[k]
    {
      assert toks[s..s + |a + b + c|][k] == toks[s + k];
    }
    forall k | 0 <= k < |a|
      ensures toks[s + k] == a[k]
    {
      assert (a + b + c)[k] == a[k];
    }
    forall k | 0 <= k < |b|
      ensures toks[s + |a| + k] == b[k]
    {
      assert (a + b + c)[|a| + k] == b[k];
    }
    forall k | 0 <= k < |c|
      ensures toks[s + |a| + |b| + k] == c[k]
    {
      assert (a + b + c)[|a| + |b| + k] == c[k];
    }
  }

  /** Any list of plain arguments other than a single empty one is recovered unchanged. */
  lemma PlainArgsRecovered(toks: seq<Token>, open: nat, args: seq<seq<Token>>, commas: seq<Token>)
    requires (args != [] ==> |commas| == |args| - 1) && (args == [] ==> commas == [])
    requires args != [[]]
    requires forall a | a in args :: PlainArg(a)
    requires forall t | t in commas :: IsPunct(t, ",")
    requires var c := open + 1 + |Join(args, commas)|;
             && c < |toks| && IsPunct(toks[open], "(") && IsPunct(toks[c], ")")
             && toks[open + 1..c] == Join(args, commas)
    ensures var c := open + 1 + |Join(args, commas)|;
            Closes(toks, open, c) && ArgList(Split(toks, open + 1, c)) == args
  {
    hide Inside, PlainArg, Join, Split, Depth;
    if args == [] {
      EmptyScan(toks, open + 1);
      JoinNothing();
    } else {
      PlainArgsScanned(toks, open + 1, args, commas);
      assert args[..|args| - 1] + [args[|args| - 1]] == args;
    }
  }

  lemma JoinNothing()
    ensures Join([], []) == []
  {
  }
}
