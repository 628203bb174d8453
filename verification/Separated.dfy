/**
 Keys made of two parts with a separator between them, as in internal/core/wb.go and
 vk_hosts.go, and when they tell their parts apart.
 */
module Separated {

  function Joined<T>(u: seq<T>, sep: T, x: seq<T>): seq<T> { u + [sep] + x }

  /** One front part goes on with a separator where the other ends. */
  ghost predicate Ambiguous<T>(sep: T, u: seq<T>, v: seq<T>) { u + [sep] <= v || v + [sep] <= u }

  lemma JoinedAt<T>(u: seq<T>, sep: T, x: seq<T>)
    ensures var k := Joined(u, sep, x); |k| == |u| + 1 + |x| && k[..|u|] == u && k[|u|] == sep && k[|u| + 1..] == x
  {
  }

  /** The longer of two front parts under one key begins with the shorter one and the separator. */
  lemma ShorterBegins<T>(sep: T, u: seq<T>, x: seq<T>, v: seq<T>, y: seq<T>)
    requires Joined(u, sep, x) == Joined(v, sep, y) && |u| < |v|
    ensures u + [sep] <= v
  {
    hide Joined;
    JoinedAt(u, sep, x);
    JoinedAt(v, sep, y);
    var k := Joined(u, sep, x);
    assert v[..|u|] == k[..|v|][..|u|] == k[..|u|];
    assert v[|u|] == k[|u|];
  }

  /** Unless the front parts are ambiguous, a key determines both parts. */
  lemma KeyDetermines<T>(sep: T, u: seq<T>, x: seq<T>, v: seq<T>, y: seq<T>)
    requires !Ambiguous(sep, u, v)
    ensures Joined(u, sep, x) == Joined(v, sep, y) <==> u == v && x == y
  {
    if Joined(u, sep, x) == Joined(v, sep, y) {
      hide Joined;
      if |u| < |v| {
        ShorterBegins(sep, u, x, v, y);
      } else if |v| < |u| {
        ShorterBegins(sep, v, y, u, x);
      } else {
        JoinedAt(u, sep, x);
        JoinedAt(v, sep, y);
      }
    }
  }

  /** If they are, different parts share a key. */
  lemma AmbiguousCollide<T>(sep: T, u: seq<T>, v: seq<T>) returns (x: seq<T>, y: seq<T>)
    requires Ambiguous(sep, u, v)
    ensures u != v && Joined(u, sep, x) == Joined(v, sep, y)
  {
    if u + [sep] <= v {
      x, y := v[|u| + 1..] + [sep], [];
      assert v == u + [sep] + v[|u| + 1..];
    } else {
      x, y := [], u[|v| + 1..] + [sep];
      assert u == v + [sep] + u[|v| + 1..];
    }
  }
}
