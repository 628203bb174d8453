/**
 htmlUnescapeForPow of internal/core/pow_extract.go: one left-to-right pass that
 replaces six entities and never looks at its own output again.
 */
module HtmlUnescape {
  import opened Wrappers
  import opened JsToken

  datatype Entity = Entity(name: string, glyph: char)

  /** The replacement list, in the order in which it is tried. */
  function Entities(): seq<Entity> {
    [Entity("&quot;", '"'), Entity("&#34;", '"'), Entity("&#x22;", '"'),
     Entity("&amp;", '&'), Entity("&#x27;", '\''), Entity("&#39;", '\'')]
  }

  function FirstEntity(s: string, i: nat, es: seq<Entity>): (r: Option<Entity>)
    ensures r.Some? ==> r.value in es && At(s, i, r.value.name)
    ensures r.None? ==> forall e | e in es :: !At(s, i, e.name)
  {
    if es == [] then None
    else if At(s, i, es[0].name) then Some(es[0])
    else FirstEntity(s, i, es[1..])
  }

  lemma EntityNames()
    ensures forall e | e in Entities() :: |e.name| >= 5 && e.name[0] == '&'
  {
  }

  function Unescape(s: string, i: nat): (r: string)
    requires i <= |s|
    ensures |r| <= |s| - i
    decreases |s| - i
  {
    EntityNames();
    if i == |s| then ""
    else
      var e := FirstEntity(s, i, Entities());
      if e.Some? then [e.value.glyph] + Unescape(s, i + |e.value.name|) else [s[i]] + Unescape(s, i + 1)
  }

  lemma UnescapeRound(s: string, i: nat)
    requires i < |s|
    ensures var e := FirstEntity(s, i, Entities());
            if e.Some?
            then i + |e.value.name| <= |s| && Unescape(s, i) == [e.value.glyph] + Unescape(s, i + |e.value.name|)
            else Unescape(s, i) == [s[i]] + Unescape(s, i + 1)
  {
    hide Entities;
  }

  method HtmlUnescapeForPow(s: string) returns (r: string)
    ensures r == Unescape(s, 0)
  {
    hide Entities, Unescape, At;
    EntityNames();
    var i := 0;
    r := "";
    while i < |s|
      invariant 0 <= i <= |s|
      invariant Unescape(s, 0) == r + Unescape(s, i)
    {
      UnescapeRound(s, i);
      var e := FirstEntity(s, i, Entities());
      if e.Some? {
        r, i := r + [e.value.glyph], i + |e.value.name|;
      } else {
        r, i := r + [s[i]], i + 1;
      }
    }
    UnescapeEnd(s);
  }

  // ---- Escaped text ----

  /** Three spellings of the quote, two of the apostrophe, one of the ampersand. */
  ghost predicate Denotes(name: string, c: char) {
    match c
    case '"' => name in {"&quot;", "&#34;", "&#x22;"}
    case '\'' => name in {"&#39;", "&#x27;"}
    case '&' => name == "&amp;"
    case _ => false
  }

  lemma EntitiesDenote(name: string, c: char)
    ensures Denotes(name, c) <==> Entity(name, c) in Entities()
  {
  }

  /** A character written plainly, or as one of the entities that denote it. */
  datatype Escaped = Raw(c: char) | Named(e: Entity)

  ghost predicate ValidEscaped(x: Escaped) {
    match x
    case Raw(c) => c != '&'
    case Named(e) => Denotes(e.name, e.glyph)
  }

  ghost function EscapedText(xs: seq<Escaped>): string {
    if xs == [] then "" else (if xs[0].Raw? then [xs[0].c] else xs[0].e.name) + EscapedText(xs[1..])
  }

  ghost function EscapedValue(xs: seq<Escaped>): string {
    if xs == [] then "" else [if xs[0].Raw? then xs[0].c else xs[0].e.glyph] + EscapedValue(xs[1..])
  }

  lemma PrefixFree(a: Entity, b: Entity)
    requires a in Entities() && b in Entities() && a.name <= b.name
    ensures a == b
  {
    EntityNames();
    assert a.name[1] == b.name[1] && a.name[2] == b.name[2] && a.name[3] == b.name[3] && a.name[4] == b.name[4];
  }

  lemma AtBoth(s: string, i: nat, a: string, b: string)
    requires At(s, i, a) && At(s, i, b) && |a| <= |b|
    ensures a <= b
  {
    assert s[i..i + |b|][..|a|] == s[i..i + |a|];
  }

  lemma EntityFound(s: string, i: nat, e: Entity)
    requires e in Entities() && At(s, i, e.name)
    ensures FirstEntity(s, i, Entities()) == Some(e)
  {
    hide Entities, At;
    var f := FirstEntity(s, i, Entities()).value;
    if |f.name| <= |e.name| {
      AtBoth(s, i, f.name, e.name);
      PrefixFree(f, e);
    } else {
      AtBoth(s, i, e.name, f.name);
      PrefixFree(e, f);
    }
  }

  lemma NotAtByFirst(s: string, i: nat, p: string)
    requires i < |s| && p != "" && s[i] != p[0]
    ensures !At(s, i, p)
  {
    assert i + |p| <= |s| ==> s[i..i + |p|][0] == s[i];
  }

  lemma NoEntityAt(s: string, i: nat)
    requires i < |s| && s[i] != '&'
    ensures FirstEntity(s, i, Entities()).None?
  {
    hide Entities;
    EntityNames();
    forall e | e in Entities()
      ensures !At(s, i, e.name)
    {
      NotAtByFirst(s, i, e.name);
    }
  }

  /** Unescaping any escaped form of a text, with any choice of entities, gives the text. */
  lemma {:induction false} UnescapeEscaped(pre: string, xs: seq<Escaped>)
    requires forall x | x in xs :: ValidEscaped(x)
    ensures Unescape(pre + EscapedText(xs), |pre|) == EscapedValue(xs)
    decreases |xs|
  {
    hide Entities, FirstEntity, Unescape, At, Denotes;
    var s := pre + EscapedText(xs);
    if xs == [] {
      UnescapeEnd(s);
    } else {
      var head := if xs[0].Raw? then [xs[0].c] else xs[0].e.name;
      assert s == (pre + head) + EscapedText(xs[1..]);
      EntityNames();
      HeadReplaced(pre, xs[0], EscapedText(xs[1..]));
      UnescapeRound(s, |pre|);
      UnescapeEscaped(pre + head, xs[1..]);
    }
  }

  lemma UnescapeEnd(s: string)
    ensures Unescape(s, |s|) == ""
  {
  }

  lemma HeadReplaced(pre: string, x: Escaped, rest: string)
    requires ValidEscaped(x)
    ensures var head := if x.Raw? then [x.c] else x.e.name;
            var s := pre + head + rest;
            && head != "" && s[|pre|] == head[0]
            && FirstEntity(s, |pre|, Entities()) == if x.Raw? then None else Some(x.e)
  {
    hide Entities, FirstEntity;
    EntityNames();
    var head := if x.Raw? then [x.c] else x.e.name;
    var s := pre + head + rest;
    if x.Raw? {
      NoEntityAt(s, |pre|);
    } else {
      EntitiesDenote(x.e.name, x.e.glyph);
      assert s[|pre|..|pre| + |head|] == head;
      EntityFound(s, |pre|, x.e);
    }
  }

  /** The pass leaves a text alone exactly when no entity occurs in it. */
  lemma {:induction false} UnchangedExactly(s: string, i: nat)
    requires i <= |s|
    ensures Unescape(s, i) == s[i..] <==> forall j, name, c | i <= j < |s| && Denotes(name, c) :: !At(s, j, name)
    decreases |s| - i
  {
    hide Entities, FirstEntity, At, Unescape, Denotes;
    EntityNames();
    if i == |s| {
      UnescapeEnd(s);
    } else {
      UnescapeRound(s, i);
      var e := FirstEntity(s, i, Entities());
      forall name, c
        ensures Denotes(name, c) <==> Entity(name, c) in Entities()
      {
        EntitiesDenote(name, c);
      }
      if e.Some? {
        assert Denotes(e.value.name, e.value.glyph);
        assert |Unescape(s, i)| < |s[i..]|;
      } else {
        UnchangedExactly(s, i + 1);
        assert s[i..] == [s[i]] + s[i + 1..];
        assert Unescape(s, i)[1..] == Unescape(s, i + 1);
      }
    }
  }
}
