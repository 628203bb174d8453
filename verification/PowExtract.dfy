/**
 The seed extraction of internal/core/pow_extract.go: classification of a call's
 arguments by type, and the two passes over the tokens of a script body.
 */
module PowExtract {
  import opened Wrappers
  import opened JsToken
  import opened CallArgs
  import opened JsNumber

  const MARKER := "pow_timeout"

  const KNOWN_COMPONENTS: set<string> :=
    {"frame", "cookie_test", "referrer", "nav_tamper", "timezone_locale", "plugins", "devtools", "ua",
     "shadow_dom_check", "env_viewport", "device_pixel_ratio", "native_integrity", "match_media", "env_ua",
     "max_touch_points", "chrome_runtime", "media_codecs", "ancestor_origins", "globals", "css",
     "sandbox_behavior", "origin_via_self", "font", "webgl", "canvas", "audio", "battery", "speech",
     "notification", "permissions"}

  /** The classified argument list; source names the pass that found it. */
  datatype Seed = Seed(powInput: string, difficulty: int, marker: string, source: string)

  function PassName(markerMode: bool): string { if markerMode then "/tokenizer-marker" else "/tokenizer-structure" }

  /** The source of a seed starts with the label its caller gave. */
  function Labelled(seed: Option<Seed>, origin: string): Option<Seed> {
    if seed.Some? then Some(seed.value.(source := origin + seed.value.source)) else None
  }

  /**
   Lower case, as far as searching ASCII words goes.  Two characters outside ASCII lower to ASCII
   letters, U+0130 to 'i' and U+212A to 'k'; the bytes of all others stay outside ASCII.
   */
  function Lower(s: string): string {
    if s == "" then ""
    else if At(s, 0, DOTTED_I) then "i" + Lower(s[|DOTTED_I|..])
    else if At(s, 0, KELVIN) then "k" + Lower(s[|KELVIN|..])
    else [if 'A' <= s[0] <= 'Z' then s[0] - 'A' + 'a' else s[0]] + Lower(s[1..])
  }

  const DOTTED_I: string := ['\U{C4}', '\U{B0}']

  const KELVIN: string := ['\U{E2}', '\U{84}', '\U{AA}']

  /** The lower case of ASCII text, byte by byte. */
  lemma {:induction false} LowerAscii(s: string)
    requires forall i | 0 <= i < |s| :: s[i] < '\U{80}'
    ensures |Lower(s)| == |s|
    ensures forall i | 0 <= i < |s| :: Lower(s)[i] == if 'A' <= s[i] <= 'Z' then s[i] - 'A' + 'a' else s[i]
    decreases |s|
  {
    if s != "" {
      assert !At(s, 0, DOTTED_I) && !At(s, 0, KELVIN) by {
        assert DOTTED_I[0] == '\U{C4}' && KELVIN[0] == '\U{E2}';
        assert |s| >= 2 ==> s[0..2][0] == s[0];
        assert |s| >= 3 ==> s[0..3][0] == s[0];
      }
      LowerAscii(s[1..]);
    }
  }

  predicate Contains(s: string, part: string) { exists i | 0 <= i <= |s| :: At(s, i, part) }

  /** Strings taken for the marker, or for text about it, and never for the seed. */
  predicate MarkerLike(s: string) {
    Contains(Lower(s), "pow") || Contains(Lower(s), "timeout") || Contains(Lower(s), "seed")
  }

  /** The shape of a seed: 6 to 64 characters, each a letter, a digit, '_' or '-'. */
  predicate SeedShape(s: string) {
    6 <= |s| <= 64 && forall c | c in s :: 'A' <= c <= 'Z' || 'a' <= c <= 'z' || IsDec(c) || c == '_' || c == '-'
  }

  // ---- One argument ----

  /** The text of a string literal, or of a template literal that kept some text. */
  function LiteralText(t: Token): Option<string> {
    if t.kind == String || (t.kind == Template && t.val != "") then Some(t.val) else None
  }

  function Literals(toks: seq<Token>): seq<string> {
    if toks == [] then []
    else (var l := LiteralText(toks[0]); if l.Some? then [l.value] else []) + Literals(toks[1..])
  }

  datatype Arg = Text(s: string) | Numeric(value: Option<int>) | Strings(elems: seq<string>) | Other

  function ShapeOf(arg: seq<Token>, floats: FloatReader): Arg {
    if |arg| == 1 && LiteralText(arg[0]).Some? then Text(LiteralText(arg[0]).value)
    else if |arg| == 1 && arg[0].kind == Number then Numeric(JSNumber(arg[0].val, floats))
    else if |arg| >= 2 && IsPunct(arg[0], "[") && IsPunct(arg[|arg| - 1], "]") then Strings(Literals(arg[1..|arg| - 1]))
    else Other
  }

  function Shapes(args: seq<seq<Token>>, floats: FloatReader): (r: seq<Arg>)
    ensures |r| == |args|
    ensures forall i | 0 <= i < |args| :: r[i] == ShapeOf(args[i], floats)
  {
    if args == [] then [] else [ShapeOf(args[0], floats)] + Shapes(args[1..], floats)
  }

  // ---- The whole list ----

  /** What an argument can contribute. */
  datatype Role = SeedText | MarkerText | ArrayArg | SmallNumber | Foreign

  predicate Plays(a: Arg, role: Role) {
    match role
    case SeedText => a.Text? && !MarkerLike(a.s) && SeedShape(a.s)
    case MarkerText => a.Text? && MarkerLike(a.s)
    case ArrayArg => a.Strings?
    case SmallNumber => a.Numeric? && a.value.Some? && 1 <= a.value.value <= 16
    case Foreign => a.Other?
  }

  /** The arguments with the given role, in order. */
  function Pick(args: seq<Arg>, role: Role): (r: seq<Arg>)
    ensures forall i | 0 <= i < |r| :: Plays(r[i], role)
    decreases |args|
  {
    if args == [] then []
    else Pick(args[..|args| - 1], role) + if Plays(args[|args| - 1], role) then [args[|args| - 1]] else []
  }

  function KnownCount(elems: seq<string>): nat {
    if elems == [] then 0
    else KnownCount(elems[..|elems| - 1]) + if elems[|elems| - 1] in KNOWN_COMPONENTS then 1 else 0
  }

  function FirstNumber(args: seq<Arg>): int {
    var ns := Pick(args, SmallNumber); if ns == [] then 0 else ns[0].value.value
  }

  function FirstMarker(args: seq<Arg>): string {
    var ms := Pick(args, MarkerText); if ms == [] then "" else ms[0].s
  }

  /** Enough corroboration for the call to be the seed call. */
  predicate Corroborated(args: seq<Arg>, markerMode: bool) {
    var arrays := Pick(args, ArrayArg);
    if markerMode then arrays != [] || Pick(args, SmallNumber) != []
    else arrays != [] && KnownCount(arrays[0].elems) >= 4
  }

  predicate Qualifies(args: seq<Arg>, markerMode: bool) {
    && 3 <= |args| <= 6
    && Pick(args, Foreign) == []
    && |Pick(args, ArrayArg)| <= 1
    && |Pick(args, SeedText)| == 1
    && Corroborated(args, markerMode)
  }

  function Judge(args: seq<Arg>, markerMode: bool): Option<Seed> {
    if Qualifies(args, markerMode)
    then Some(Seed(Pick(args, SeedText)[0].s, FirstNumber(args), FirstMarker(args), PassName(markerMode)))
    else None
  }

  /** The arguments of the call opened at index open, if it closes. */
  ghost function CallAt(toks: seq<Token>, open: nat): Option<seq<seq<Token>>> {
    if c: nat :| Closes(toks, open, c) then Some(ArgList(Split(toks, open + 1, c))) else None
  }

  ghost function Classify(toks: seq<Token>, k: nat, markerMode: bool, floats: FloatReader): Option<Seed> {
    var open := if markerMode then EnclosingCall(toks, k) else k;
    if open < 0 then None
    else
      var args := CallAt(toks, open);
      if args.None? then None else Judge(Shapes(args.value, floats), markerMode)
  }

  // ---- The classifier as the source runs it ----

  method CollectArgs(args: seq<seq<Token>>, floats: FloatReader)
    returns (ok: bool, strs: seq<string>, hasArray: bool, elems: seq<string>, difficulty: int)
    ensures var shapes := Shapes(args, floats);
            ok <==> Pick(shapes, Foreign) == [] && |Pick(shapes, ArrayArg)| <= 1
    ensures var shapes := Shapes(args, floats);
            ok ==>
              && strs == AllTexts(shapes)
              && (hasArray <==> Pick(shapes, ArrayArg) != [])
              && (hasArray ==> elems == Pick(shapes, ArrayArg)[0].elems)
              && difficulty == FirstNumber(shapes)
  {
    hide Pick, AllTexts, ShapeOf, Shapes, MarkerLike, SeedShape;
    ghost var shapes := Shapes(args, floats);
    PickNothing();
    assert shapes[..0] == [];
    strs, hasArray, elems, difficulty := [], false, [], 0;
    for i := 0 to |args|
      invariant Pick(shapes[..i], Foreign) == [] && |Pick(shapes[..i], ArrayArg)| <= 1
      invariant strs == AllTexts(shapes[..i])
      invariant hasArray <==> Pick(shapes[..i], ArrayArg) != []
      invariant hasArray ==> elems == Pick(shapes[..i], ArrayArg)[0].elems
      invariant difficulty == FirstNumber(shapes[..i]) && (difficulty == 0 || 1 <= difficulty <= 16)
    {
      var shape := ShapeOf(args[i], floats);
      PickOne(shapes, i);
      match shape
      case Text(s) =>
        strs := strs + [s];
      case Numeric(v) =>
        if v.Some? && 1 <= v.value <= 16 && difficulty == 0 {
          difficulty := v.value;
        }
      case Strings(es) =>
        if hasArray {
          PickGrows(shapes, i + 1, ArrayArg);
          return false, [], false, [], 0;
        }
        hasArray, elems := true, es;
      case Other =>
        PickGrows(shapes, i + 1, Foreign);
        return false, [], false, [], 0;
    }
    assert shapes[..|args|] == shapes;
    ok := true;
  }

  function AllTexts(args: seq<Arg>): seq<string> {
    if args == [] then []
    else AllTexts(args[..|args| - 1]) + if args[|args| - 1].Text? then [args[|args| - 1].s] else []
  }

  lemma PickNothing()
    ensures forall role :: Pick([], role) == []
    ensures AllTexts([]) == []
  {
  }

  lemma PickOne(args: seq<Arg>, i: nat)
    requires i < |args|
    ensures forall role ::
              Pick(args[..i + 1], role) == Pick(args[..i], role) + if Plays(args[i], role) then [args[i]] else []
    ensures AllTexts(args[..i + 1]) == AllTexts(args[..i]) + if args[i].Text? then [args[i].s] else []
  {
    assert args[..i + 1][..i] == args[..i];
  }

  lemma {:induction false} PickGrows(args: seq<Arg>, i: nat, role: Role)
    requires i <= |args|
    ensures |Pick(args[..i], role)| <= |Pick(args, role)|
    decreases |args|
  {
    if i == |args| {
      assert args[..i] == args;
    } else {
      var n := |args| - 1;
      assert args[..n][..i] == args[..i];
      PickGrows(args[..n], i, role);
    }
  }

  /** The marker and the seed candidates of the string arguments. */
  method SplitTexts(strs: seq<string>, ghost args: seq<Arg>) returns (marker: string, seeds: seq<string>)
    requires strs == AllTexts(args)
    ensures marker == FirstMarker(args)
    ensures |seeds| == |Pick(args, SeedText)|
    ensures forall i | 0 <= i < |seeds| :: seeds[i] == Pick(args, SeedText)[i].s
  {
    marker, seeds := "", [];
    for i := 0 to |strs|
      invariant marker == FirstLike(strs[..i])
      invariant seeds == SeedsOf(strs[..i])
    {
      assert strs[..i + 1][..i] == strs[..i];
      var s := strs[i];
      if MarkerLike(s) {
        if marker == "" {
          marker := s;
        }
        continue;
      }
      if SeedShape(s) {
        seeds := seeds + [s];
      }
    }
    assert strs[..|strs|] == strs;
    TextRoles(args);
  }

  function SeedsOf(strs: seq<string>): seq<string> {
    if strs == [] then []
    else
      var s := strs[|strs| - 1];
      SeedsOf(strs[..|strs| - 1]) + if !MarkerLike(s) && SeedShape(s) then [s] else []
  }

  function FirstLike(strs: seq<string>): string {
    if strs == [] then ""
    else
      var m, s := FirstLike(strs[..|strs| - 1]), strs[|strs| - 1];
      if m == "" && MarkerLike(s) then s else m
  }

  lemma MarkerLikeNonEmpty(s: string)
    requires MarkerLike(s)
    ensures s != ""
  {
  }

  lemma {:induction false} TextRoles(args: seq<Arg>)
    ensures FirstLike(AllTexts(args)) == FirstMarker(args)
    ensures var seeds, picked := SeedsOf(AllTexts(args)), Pick(args, SeedText);
            |seeds| == |picked| && forall i | 0 <= i < |seeds| :: seeds[i] == picked[i].s
    decreases |args|
  {
    if args != [] {
      var n := |args| - 1;
      TextRoles(args[..n]);
      var texts := AllTexts(args[..n]);
      if args[n].Text? {
        assert (texts + [args[n].s])[..|texts|] == texts;
        FirstMarkerEmpty(args[..n]);
      } else {
        assert texts + [] == texts;
      }
    }
  }

  lemma FirstMarkerEmpty(args: seq<Arg>)
    ensures FirstMarker(args) == "" <==> Pick(args, MarkerText) == []
  {
    if Pick(args, MarkerText) != [] {
      assert Plays(Pick(args, MarkerText)[0], MarkerText);
      MarkerLikeNonEmpty(Pick(args, MarkerText)[0].s);
    }
  }

  method CountKnown(elems: seq<string>) returns (known: nat)
    ensures known == KnownCount(elems)
  {
    known := 0;
    for i := 0 to |elems|
      invariant known == KnownCount(elems[..i])
    {
      assert elems[..i + 1][..i] == elems[..i];
      if elems[i] in KNOWN_COMPONENTS {
        known := known + 1;
      }
    }
    assert elems[..|elems|] == elems;
  }

  method JudgeArgs(args: seq<seq<Token>>, markerMode: bool, floats: FloatReader) returns (seed: Option<Seed>)
    ensures seed == Judge(Shapes(args, floats), markerMode)
  {
    hide Pick, FirstNumber, FirstMarker, Shapes, AllTexts, KnownCount;
    if |args| < 3 || |args| > 6 {
      return None;
    }
    ghost var shapes := Shapes(args, floats);
    var ok, strs, hasArray, elems, difficulty := CollectArgs(args, floats);
    if !ok {
      return None;
    }
    var marker, seeds := SplitTexts(strs, shapes);
    var known := CountKnown(elems);
    NumberPresent(shapes);
    if markerMode {
      if !hasArray && difficulty == 0 {
        return None;
      }
    } else if !hasArray || known < 4 {
      return None;
    }
    if |seeds| != 1 {
      return None;
    }
    return Some(Seed(seeds[0], difficulty, marker, PassName(markerMode)));
  }

  lemma NumberPresent(args: seq<Arg>)
    ensures FirstNumber(args) == 0 <==> Pick(args, SmallNumber) == []
  {
    if Pick(args, SmallNumber) != [] {
      assert Plays(Pick(args, SmallNumber)[0], SmallNumber);
    }
  }

  method ClassifyCallAround(toks: seq<Token>, k: nat, markerMode: bool, floats: FloatReader)
    returns (seed: Option<Seed>)
    requires k < |toks|
    ensures seed == Classify(toks, k, markerMode, floats)
  {
    hide Judge, Shapes, Split;
    var open := k;
    if markerMode {
      var o := FindEnclosingCallOpen(toks, k);
      if o < 0 {
        return None;
      }
      open := o;
    }
    var args, closed := ParseCallArgs(toks, open);
    if !closed {
      return None;
    }
    ghost var c :| Closes(toks, open, c) && args == ArgList(Split(toks, open + 1, c));
    CallAtIs(toks, open, c);
    seed := JudgeArgs(args, markerMode, floats);
  }

  lemma CallAtIs(toks: seq<Token>, open: nat, c: nat)
    requires Closes(toks, open, c)
    ensures CallAt(toks, open) == Some(ArgList(Split(toks, open + 1, c)))
  {
    forall d: nat | Closes(toks, open, d)
      ensures d == c
    {
      ClosesUnique(toks, open, c, d);
    }
  }

  // ---- The two passes ----

  predicate Candidate(t: Token, markerMode: bool) {
    if markerMode then LiteralText(t) == Some(MARKER) else IsPunct(t, "(")
  }

  /** The first qualifying candidate from index k on. */
  ghost function FirstFrom(toks: seq<Token>, k: nat, markerMode: bool, floats: FloatReader): Option<Seed>
    requires k <= |toks|
    decreases |toks| - k
  {
    if k == |toks| then None
    else if Candidate(toks[k], markerMode) && Classify(toks, k, markerMode, floats).Some?
    then Classify(toks, k, markerMode, floats)
    else FirstFrom(toks, k + 1, markerMode, floats)
  }

  /** Marker pass, then structure pass. */
  ghost function ExtractTokens(toks: seq<Token>, floats: FloatReader): Option<Seed> {
    var m := FirstFrom(toks, 0, true, floats);
    if m.Some? then m else FirstFrom(toks, 0, false, floats)
  }

  ghost function Extract(bodies: seq<string>, floats: FloatReader): Option<Seed> {
    if bodies == [] then None
    else
      var s := ExtractTokens(Lex(bodies[0], 0, []), floats);
      if s.Some? then s else Extract(bodies[1..], floats)
  }

  method ScanCandidates(toks: seq<Token>, markerMode: bool, floats: FloatReader) returns (seed: Option<Seed>)
    ensures seed == FirstFrom(toks, 0, markerMode, floats)
  {
    hide Classify;
    for k := 0 to |toks|
      invariant FirstFrom(toks, 0, markerMode, floats) == FirstFrom(toks, k, markerMode, floats)
    {
      if Candidate(toks[k], markerMode) {
        seed := ClassifyCallAround(toks, k, markerMode, floats);
        if seed.Some? {
          return;
        }
      }
    }
    return None;
  }

  method ExtractPowFromBodies(bodies: seq<string>, origin: string, floats: FloatReader) returns (seed: Option<Seed>)
    ensures seed == Labelled(Extract(bodies, floats), origin)
    ensures seed.Some? <==> Extract(bodies, floats).Some?
    ensures seed.Some? ==>
              var s := Extract(bodies, floats).value;
              seed.value == Seed(s.powInput, s.difficulty, s.marker, origin + s.source)
  {
    hide FirstFrom, Lex;
    for i := 0 to |bodies|
      invariant Extract(bodies, floats) == Extract(bodies[i..], floats)
    {
      assert bodies[i..][1..] == bodies[i + 1..];
      var toks := LexJS(bodies[i]);
      seed := ScanCandidates(toks, true, floats);
      if seed.Some? {
        return Labelled(seed, origin);
      }
      seed := ScanCandidates(toks, false, floats);
      if seed.Some? {
        return Labelled(seed, origin);
      }
    }
    return None;
  }
}
