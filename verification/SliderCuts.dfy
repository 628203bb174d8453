/** Where internal/core/slider_captcha.go cuts n pixels into g pieces, and how it scales one piece onto another. */
module SliderCuts {

  /** Division, named so that proofs may keep to its bounds. */
  function Quot(x: nat, g: nat): (q: nat)
    requires g > 0
    ensures q * g <= x < q * g + g
  {
    QuotientBounds(x, g);
    x / g
  }

  /** Start of piece i of n pixels. */
  function Cut(i: nat, n: nat, g: nat): (x: nat)
    requires g > 0
  {
    Quot(i * n, g)
  }

  lemma Grows(a: nat, b: nat, g: nat)
    requires a <= b
    ensures a * g <= b * g
  {
    assert b * g == a * g + (b - a) * g;
  }

  lemma Less(a: nat, b: nat, g: nat)
    requires a * g < b * g
    ensures a < b
  {
    if b <= a {
      Grows(b, a, g);
    }
  }

  lemma QuotientBounds(x: nat, g: nat)
    requires g > 0
    ensures (x / g) * g <= x < (x / g) * g + g && x % g == x - (x / g) * g
  {
    assert x == (x / g) * g + x % g;
  }

  lemma QuotIs(x: nat, g: nat, q: nat)
    requires g > 0 && q * g <= x < q * g + g
    ensures Quot(x, g) == q
  {
    hide Quot;
    var p := Quot(x, g);
    assert (q + 1) * g == q * g + g && (p + 1) * g == p * g + g;
    Less(p, q + 1, g);
    Less(q, p + 1, g);
  }

  lemma DivIs(x: nat, g: nat, q: nat)
    requires g > 0 && q * g <= x < q * g + g
    ensures x / g == q && x % g == x - q * g
  {
    QuotIs(x, g, q);
    QuotientBounds(x, g);
  }

  lemma QuotGrows(x: nat, y: nat, g: nat)
    requires g > 0 && x <= y
    ensures Quot(x, g) <= Quot(y, g)
  {
    hide Quot;
    var p, q := Quot(x, g), Quot(y, g);
    assert (q + 1) * g == q * g + g;
    Less(p, q + 1, g);
  }

  /** Piece i of n pixels starts at the last pixel not beyond i/g of them. */
  lemma CutExactly(i: nat, n: nat, g: nat, x: nat)
    requires g > 0
    ensures Cut(i, n, g) == x <==> x * g <= i * n < x * g + g
  {
    if x * g <= i * n < x * g + g {
      QuotIs(i * n, g, x);
    }
  }

  lemma CutsGrow(i: nat, j: nat, n: nat, g: nat)
    requires g > 0 && i <= j
    ensures Cut(i, n, g) <= Cut(j, n, g)
  {
    Grows(i, j, n);
    QuotGrows(i * n, j * n, g);
  }

  lemma CutEnds(n: nat, g: nat)
    requires g > 0
    ensures Cut(0, n, g) == 0 && Cut(g, n, g) == n
  {
    QuotIs(g * n, g, n);
    QuotIs(0, g, 0);
  }

  function Width(i: nat, n: nat, g: nat): (w: nat)
    requires g > 0
    ensures Cut(i + 1, n, g) == Cut(i, n, g) + w
  {
    CutsGrow(i, i + 1, n, g);
    Cut(i + 1, n, g) - Cut(i, n, g)
  }

  /** The piece below k that holds pixel x. */
  function WhichBelow(x: nat, n: nat, g: nat, k: nat): (c: nat)
    requires g > 0 && x < Cut(k, n, g)
    ensures c < k && Cut(c, n, g) <= x < Cut(c + 1, n, g)
    decreases k
  {
    CutEnds(n, g);
    if Cut(k - 1, n, g) <= x then k - 1 else WhichBelow(x, n, g, k - 1)
  }

  function Which(x: nat, n: nat, g: nat): (c: nat)
    requires g > 0 && x < n
    ensures c < g && Cut(c, n, g) <= x < Cut(c, n, g) + Width(c, n, g)
  {
    CutEnds(n, g);
    WhichBelow(x, n, g, g)
  }

  /** The pieces do not overlap: the one that holds x is unique. */
  lemma WhichUnique(x: nat, n: nat, g: nat, c: nat)
    requires g > 0 && x < n && Cut(c, n, g) <= x < Cut(c, n, g) + Width(c, n, g)
    ensures Which(x, n, g) == c
  {
    hide Cut;
    var d := Which(x, n, g);
    if d < c {
      CutsGrow(d + 1, c, n, g);
    } else if c < d {
      CutsGrow(c + 1, d, n, g);
    }
  }

  lemma PieceInside(c: nat, n: nat, g: nat)
    requires c < g
    ensures Cut(c, n, g) + Width(c, n, g) <= n
  {
    hide Cut;
    CutsGrow(c + 1, g, n, g);
    CutEnds(n, g);
  }

  // ---- Scaling ----

  /** The source pixel for pixel o of a piece `to` wide, in a piece `from` wide. */
  function Scaled(o: nat, from: nat, to: nat): (s: nat)
    requires o < to
    ensures from > 0 ==> s < from
    ensures from == to ==> s == o
  {
    ScaledFits(o, from, to);
    Quot(o * from, to)
  }

  /** And the source pixel is the last one not beyond o/to of the piece. */
  lemma ScaledExactly(o: nat, from: nat, to: nat, s: nat)
    requires o < to
    ensures Scaled(o, from, to) == s <==> s * to <= o * from < s * to + to
  {
    if s * to <= o * from < s * to + to {
      QuotIs(o * from, to, s);
    }
  }

  lemma ScaledFits(o: nat, from: nat, to: nat)
    requires o < to
    ensures from > 0 ==> Quot(o * from, to) < from
    ensures from == to ==> Quot(o * from, to) == o
  {
    hide Quot;
    var q := Quot(o * from, to);
    if from > 0 {
      ScaledBelow(o, from, to);
      Less(q, from, to);
    }
    if from == to {
      QuotIs(o * from, to, o);
    }
  }

  lemma ScaledBelow(o: nat, from: nat, to: nat)
    requires o < to && from > 0
    ensures o * from < from * to
  {
    assert from * to == o * from + (to - o) * from;
    Grows(1, to - o, from);
  }

  /** Through a smaller piece and back, the last pixel is not read. */
  lemma LastPixelLost(wide: nat, narrow: nat)
    requires 0 < narrow < wide
    ensures Scaled(Scaled(wide - 1, narrow, wide), wide, narrow) < wide - 1
  {
    var v := Scaled(wide - 1, narrow, wide);
    Grows(v, narrow - 1, wide);
    assert (narrow - 1) * wide == narrow * wide - wide;
    assert (wide - 1) * narrow == wide * narrow - narrow;
    assert narrow * wide == wide * narrow;
    Less(Quot(v * wide, narrow), wide - 1, narrow);
  }

  lemma ThereAndBack(wide: nat, narrow: nat)
    requires 0 < narrow <= wide
    ensures Scaled(Scaled(wide - 1, narrow, wide), wide, narrow) < wide
    ensures narrow < wide ==> Scaled(Scaled(wide - 1, narrow, wide), wide, narrow) < wide - 1
  {
    if narrow < wide {
      LastPixelLost(wide, narrow);
    }
  }

  // ---- Even cuts ----

  lemma EvenCut(i: nat, n: nat, g: nat)
    requires g > 0 && n % g == 0
    ensures Cut(i, n, g) == i * (n / g) && Width(i, n, g) == n / g
  {
    EvenCutAt(i, n, g);
    EvenCutAt(i + 1, n, g);
    assert (i + 1) * (n / g) == i * (n / g) + n / g;
  }

  lemma EvenCutAt(i: nat, n: nat, g: nat)
    requires g > 0 && n % g == 0
    ensures Cut(i, n, g) == i * (n / g)
  {
    var w := n / g;
    assert n == w * g;
    assert i * n == i * (w * g) == (i * w) * g;
    QuotIs(i * n, g, i * w);
  }

  /** Equal widths up to k place cut k. */
  lemma {:induction false} EqualWidths(n: nat, g: nat, w: nat, k: nat)
    requires g > 0 && forall i: nat | i < k :: Width(i, n, g) == w
    ensures Cut(k, n, g) == k * w
    decreases k
  {
    if k == 0 {
      CutEnds(n, g);
    } else {
      hide Cut;
      EqualWidths(n, g, w, k - 1);
      assert Width(k - 1, n, g) == w && k * w == (k - 1) * w + w;
    }
  }

  lemma EqualWidthsDivide(n: nat, g: nat, w: nat)
    requires g > 0 && forall i: nat | i < g :: Width(i, n, g) == w
    ensures n % g == 0
  {
    hide Cut, Width;
    EqualWidths(n, g, w, g);
    CutEnds(n, g);
    assert g * w == w * g;
    DivIs(n, g, w);
  }

  /** Pieces that do not come out even have two widths. */
  lemma TwoWidths(n: nat, g: nat) returns (i: nat, j: nat)
    requires g > 0 && n % g != 0
    ensures i < g && j < g && Width(j, n, g) < Width(i, n, g)
  {
    hide Cut, Width;
    var w := Width(0, n, g);
    if k: nat :| k < g && Width(k, n, g) != w {
      if Width(k, n, g) < w {
        i, j := 0, k;
      } else {
        i, j := k, 0;
      }
    } else {
      i, j := 0, 0;
      EqualWidthsDivide(n, g, w);
      assert false;
    }
  }

  // ---- Tile numbers ----

  lemma TileNumber(r: nat, c: nat, g: nat)
    requires r < g && c < g
    ensures (r * g + c) / g == r && (r * g + c) % g == c && r * g + c < g * g
  {
    DivIs(r * g + c, g, r);
    TileBound(r, c, g);
  }

  lemma TileBound(r: nat, c: nat, g: nat)
    requires r < g && c < g
    ensures r * g + c < g * g
  {
    Grows(r + 1, g, g);
    assert (r + 1) * g == r * g + g;
  }

  lemma TilePlace(t: nat, g: nat)
    requires t < g * g
    ensures g > 0 && t / g < g && t % g < g && (t / g) * g + t % g == t
  {
    assert g > 0;
    QuotientBounds(t, g);
    Less(t / g, g, g);
  }
}
