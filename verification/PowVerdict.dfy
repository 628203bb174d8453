/**
 The verdict of internal/core/pow_extract.go on an argument list, written out argument by argument,
 and the texts its tests accept.
 */
module PowVerdict {
  import opened Wrappers
  import opened JsToken
  import opened JsPrinted
  import opened PowExtract
  import opened PowInvariance

  // ---- Tests on one text ----

  /** The text starts with the word, in any case; a capital I with a dot counts as an i. */
  ghost predicate Spells(s: string, word: string)
    decreases |word|
  {
    || word == ""
    || (s != "" && 'a' <= word[0] <= 'z' && (s[0] == word[0] || s[0] == word[0] - 'a' + 'A')
        && Spells(s[1..], word[1..]))
    || (['\U{C4}', '\U{B0}'] <= s && word[0] == 'i' && Spells(s[2..], word[1..]))
  }

  ghost predicate Letters(word: string) { forall k | 0 <= k < |word| :: 'a' <= word[k] <= 'z' && word[k] != 'k' }

  lemma LowerStarts(s: string)
    requires s != ""
    ensures At(s, 0, DOTTED_I) <==> ['\U{C4}', '\U{B0}'] <= s
    ensures At(s, 0, KELVIN) <==> ['\U{E2}', '\U{84}', '\U{AA}'] <= s
  {
  }

  lemma {:induction false} SpelledAtStart(s: string, word: string)
    requires Letters(word)
    ensures word <= Lower(s) <==> Spells(s, word)
    decreases |word|
  {
    hide At;
    if s != "" && word != "" {
      LowerStarts(s);
      var n := if At(s, 0, DOTTED_I) then 2 else if At(s, 0, KELVIN) then 3 else 1;
      SpelledAtStart(s[n..], word[1..]);
      assert word == [word[0]] + word[1..];
      var low := Lower(s);
      assert low == [low[0]] + Lower(s[n..]);
      assert word <= low <==> word[0] == low[0] && word[1..] <= low[1..];
    }
  }

  lemma ContainsCons(c: char, t: string, word: string)
    ensures Contains([c] + t, word) <==> word <= [c] + t || Contains(t, word)
  {
    var s := [c] + t;
    if word <= s {
      assert At(s, 0, word);
    }
    if i :| 0 <= i <= |t| && At(t, i, word) {
      assert s[i + 1..i + 1 + |word|] == t[i..i + |word|];
      assert At(s, i + 1, word);
    }
    if i :| 0 <= i <= |s| && At(s, i, word) {
      if i > 0 {
        assert s[i..i + |word|] == t[i - 1..i - 1 + |word|];
        assert At(t, i - 1, word);
      }
    }
  }

  ghost predicate SpelledIn(s: string, word: string) { exists i | 0 <= i <= |s| :: Spells(s[i..], word) }

  /** Inside a character of several bytes no word starts. */
  lemma NoLetter(s: string, word: string)
    requires word != "" && s != "" && s[0] in {'\U{B0}', '\U{84}', '\U{AA}'}
    ensures !Spells(s, word)
  {
  }

  lemma SpelledCons(s: string, n: nat, word: string)
    requires word != "" && 1 <= n <= |s| && forall i | 0 < i < n :: s[i] in {'\U{B0}', '\U{84}', '\U{AA}'}
    ensures SpelledIn(s, word) <==> Spells(s, word) || SpelledIn(s[n..], word)
  {
    hide Spells;
    assert s[0..] == s;
    forall i | 0 < i < n
      ensures !Spells(s[i..], word)
    {
      NoLetter(s[i..], word);
    }
    if i :| 0 <= i <= |s| && Spells(s[i..], word) {
      if n <= i {
        assert s[n..][i - n..] == s[i..];
      }
    }
    if i :| 0 <= i <= |s[n..]| && Spells(s[n..][i..], word) {
      assert s[n..][i..] == s[n + i..];
    }
  }

  lemma {:induction false} LowerContains(s: string, word: string)
    requires Letters(word) && word != ""
    ensures Contains(Lower(s), word) <==> SpelledIn(s, word)
    decreases |s|
  {
    hide At, Spells, SpelledIn, Contains;
    if s == "" {
      NothingSpelled(word);
    } else {
      LowerStarts(s);
      var n := if At(s, 0, DOTTED_I) then 2 else if At(s, 0, KELVIN) then 3 else 1;
      LowerContains(s[n..], word);
      SpelledAtStart(s, word);
      SpelledCons(s, n, word);
      ContainsCons(Lower(s)[0], Lower(s[n..]), word);
    }
  }

  lemma NothingSpelled(word: string)
    requires word != ""
    ensures !Contains("", word) && !SpelledIn("", word)
  {
  }

  /** A text is marker-like exactly when one of three words stands in it, in any case. */
  lemma MarkerLikeExactly(s: string)
    ensures MarkerLike(s) <==> SpelledIn(s, "pow") || SpelledIn(s, "timeout") || SpelledIn(s, "seed")
  {
    hide Contains, SpelledIn, Lower;
    LowerContains(s, "pow");
    LowerContains(s, "timeout");
    LowerContains(s, "seed");
  }

  /** A seed has 6 to 64 of these bytes. */
  lemma SeedShapeExactly(s: string)
    ensures SeedShape(s) <==> 6 <= |s| <= 64 && forall c | c in s :: (NameChar(c) && c != '$') || c == '-'
  {
  }

  /** The component names: of the page, of the browser, and of what it can do. */
  ghost predicate KnownName(s: string) {
    || s in {"frame", "referrer", "nav_tamper", "timezone_locale", "shadow_dom_check", "env_viewport",
             "ancestor_origins", "globals", "css", "sandbox_behavior", "origin_via_self"}
    || s in {"cookie_test", "plugins", "devtools", "ua", "env_ua", "native_integrity", "chrome_runtime", "permissions"}
    || s in {"device_pixel_ratio", "match_media", "max_touch_points", "media_codecs", "font", "webgl", "canvas",
             "audio", "battery", "speech", "notification"}
  }

  lemma KnownNames(s: string)
    ensures KnownName(s) <==> s in KNOWN_COMPONENTS
  {
  }

  /** Every array element that is a known name counts, also when it occurs twice. */
  lemma {:induction false} KnownCountExactly(elems: seq<string>)
    ensures KnownCount(elems) == |set i | 0 <= i < |elems| && KnownName(elems[i])|
    decreases |elems|
  {
    if elems != [] {
      hide KnownName;
      var n := |elems| - 1;
      KnownCountExactly(elems[..n]);
      KnownNames(elems[n]);
      var front := set i | 0 <= i < n && KnownName(elems[..n][i]);
      var all := set i | 0 <= i < |elems| && KnownName(elems[i]);
      assert all == front + (if KnownName(elems[n]) then {n} else {});
      assert n !in front;
    }
  }

  // ---- The verdict ----

  ghost predicate SeedAt(args: seq<Arg>, i: int)
    requires 0 <= i < |args|
  {
    args[i].Text? && SeedShape(args[i].s) && !MarkerLike(args[i].s)
  }

  ghost predicate NumberAt(args: seq<Arg>, i: int)
    requires 0 <= i < |args|
  {
    args[i].Numeric? && args[i].value.Some? && 1 <= args[i].value.value <= 16
  }

  ghost predicate MarkerAt(args: seq<Arg>, i: int)
    requires 0 <= i < |args|
  {
    args[i].Text? && MarkerLike(args[i].s)
  }

  /** When a call is taken for the seed call. */
  ghost predicate Accepts(args: seq<Arg>, markerMode: bool) {
    && 3 <= |args| <= 6
    && (forall i | 0 <= i < |args| :: !args[i].Other?)
    && (forall i, j | 0 <= i < j < |args| :: !(args[i].Strings? && args[j].Strings?))
    && (exists i | 0 <= i < |args| :: SeedAt(args, i))
    && (forall i, j | 0 <= i < j < |args| :: !(SeedAt(args, i) && SeedAt(args, j)))
    && if markerMode then exists i | 0 <= i < |args| :: args[i].Strings? || NumberAt(args, i)
       else exists i | 0 <= i < |args| :: args[i].Strings? && KnownCount(args[i].elems) >= 4
  }

  lemma {:induction false} NoPick(args: seq<Arg>, role: Role)
    ensures Pick(args, role) == [] <==> forall i | 0 <= i < |args| :: !Plays(args[i], role)
    decreases |args|
  {
    hide Plays;
    if args != [] {
      NoPick(args[..|args| - 1], role);
    }
  }

  lemma {:induction false} FirstPick(args: seq<Arg>, role: Role, i: nat)
    requires i < |args| && Plays(args[i], role) && forall j | 0 <= j < i :: !Plays(args[j], role)
    ensures Pick(args, role) != [] && Pick(args, role)[0] == args[i]
    decreases |args|
  {
    hide Plays;
    var n := |args| - 1;
    if i < n {
      FirstPick(args[..n], role, i);
    } else {
      NoPick(args[..n], role);
    }
  }

  lemma {:induction false} OnePick(args: seq<Arg>, role: Role)
    ensures |Pick(args, role)| <= 1 <==>
            forall i, j | 0 <= i < j < |args| :: !(Plays(args[i], role) && Plays(args[j], role))
    decreases |args|
  {
    hide Plays;
    if args != [] {
      var n := |args| - 1;
      OnePick(args[..n], role);
      NoPick(args[..n], role);
    }
  }

  /** The first argument that plays a role. */
  lemma {:induction false} FirstIndexOf(args: seq<Arg>, role: Role) returns (i: nat)
    requires exists k | 0 <= k < |args| :: Plays(args[k], role)
    ensures i < |args| && Plays(args[i], role) && forall j | 0 <= j < i :: !Plays(args[j], role)
    decreases |args|
  {
    hide Plays;
    if Plays(args[0], role) {
      i := 0;
    } else {
      assert forall k | 1 <= k < |args| :: args[k] == args[1..][k - 1];
      i := FirstIndexOf(args[1..], role);
      assert forall j | 0 <= j < i :: args[1..][j] == args[j + 1];
      i := i + 1;
    }
  }

  lemma AcceptsQualifies(args: seq<Arg>, markerMode: bool)
    ensures Qualifies(args, markerMode) <==> Accepts(args, markerMode)
  {
    hide Pick, MarkerLike, SeedShape, KnownCount, Plays;
    RolesAre(args);
    NoPick(args, Foreign);
    NoPick(args, ArrayArg);
    OnePick(args, ArrayArg);
    NoPick(args, SeedText);
    OnePick(args, SeedText);
    NoPick(args, SmallNumber);
    if |Pick(args, ArrayArg)| <= 1 {
      forall i | 0 <= i < |args| && args[i].Strings?
        ensures Pick(args, ArrayArg) != [] && Pick(args, ArrayArg)[0] == args[i]
      {
        OnlyOne(args, ArrayArg, i);
      }
    }
    if Pick(args, ArrayArg) != [] {
      var i := FirstIndexOf(args, ArrayArg);
      FirstPick(args, ArrayArg, i);
    }
  }

  /** The roles, argument by argument. */
  lemma RolesAre(args: seq<Arg>)
    ensures forall i | 0 <= i < |args| ::
              && Plays(args[i], Foreign) == args[i].Other? && Plays(args[i], ArrayArg) == args[i].Strings?
              && Plays(args[i], SeedText) == SeedAt(args, i) && Plays(args[i], SmallNumber) == NumberAt(args, i)
              && Plays(args[i], MarkerText) == MarkerAt(args, i)
  {
    hide MarkerLike, SeedShape;
  }

  lemma OnlyOne(args: seq<Arg>, role: Role, i: nat)
    requires i < |args| && Plays(args[i], role) && |Pick(args, role)| <= 1
    ensures Pick(args, role) != [] && Pick(args, role)[0] == args[i]
  {
    hide Pick, Plays;
    OnePick(args, role);
    FirstPick(args, role, i);
  }

  /** A call is accepted exactly on these terms, and this is what its seed holds. */
  lemma JudgeExactly(args: seq<Arg>, markerMode: bool)
    ensures Judge(args, markerMode).Some? <==> Accepts(args, markerMode)
    ensures Judge(args, markerMode).Some? ==>
              var s := Judge(args, markerMode).value;
              && (forall i | 0 <= i < |args| && SeedAt(args, i) :: s.powInput == args[i].s)
              && s.source == if markerMode then "/tokenizer-marker" else "/tokenizer-structure"
  {
    hide Pick, MarkerLike, SeedShape, KnownCount, Accepts, Corroborated, Plays;
    AcceptsQualifies(args, markerMode);
    if Judge(args, markerMode).Some? {
      RolesAre(args);
      forall i | 0 <= i < |args| && SeedAt(args, i)
        ensures Pick(args, SeedText)[0] == args[i]
      {
        OnlyOne(args, SeedText, i);
      }
    }
  }

  /** Difficulty and marker come from the first argument that has one. */
  lemma JudgeFirsts(args: seq<Arg>, markerMode: bool, i: nat)
    requires Judge(args, markerMode).Some? && i < |args|
    ensures var s := Judge(args, markerMode).value;
            && (NumberAt(args, i) && (forall j | 0 <= j < i :: !NumberAt(args, j)) ==>
                  s.difficulty == args[i].value.value)
            && (MarkerAt(args, i) && (forall j | 0 <= j < i :: !MarkerAt(args, j)) ==> s.marker == args[i].s)
            && ((forall j | 0 <= j < |args| :: !NumberAt(args, j)) ==> s.difficulty == 0)
            && ((forall j | 0 <= j < |args| :: !MarkerAt(args, j)) ==> s.marker == "")
  {
    hide Pick, MarkerLike, SeedShape, KnownCount, Qualifies, Plays;
    NoPick(args, SmallNumber);
    NoPick(args, MarkerText);
    RolesAre(args);
    if NumberAt(args, i) && forall j | 0 <= j < i :: !NumberAt(args, j) {
      FirstPick(args, SmallNumber, i);
    }
    if MarkerAt(args, i) && forall j | 0 <= j < i :: !MarkerAt(args, j) {
      FirstPick(args, MarkerText, i);
    }
  }
}
