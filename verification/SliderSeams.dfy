/**
 What the score of a rendering in internal/core/slider_captcha.go adds up: the colour differences along every
 cut through the image, from one border to the other, each pixel once.
 */
module SliderSeams {
  import opened SliderCuts
  import opened SliderImage
  import opened SliderRank

  function Abs(d: int): nat { if d < 0 then -d else d }

  /** How far apart two colours are; alpha does not count. */
  function Distance(a: Colour, b: Colour): nat {
    Abs(a.red - b.red) + Abs(a.green - b.green) + Abs(a.blue - b.blue)
  }

  /** Between column x and the one before it, over the first n pixels. */
  ghost function ColumnJump(img: Image, x: int, n: nat): nat
    requires Whole(img)
  {
    if n == 0 then 0 else
    var y := img.bounds.y0 + n - 1;
    ColumnJump(img, x, n - 1) + Distance(ColourAt(img, x - 1, y), ColourAt(img, x, y))
  }

  /** Between row y and the one above it, over the first n pixels. */
  ghost function RowJump(img: Image, y: int, n: nat): nat
    requires Whole(img)
  {
    if n == 0 then 0 else
    var x := img.bounds.x0 + n - 1;
    RowJump(img, y, n - 1) + Distance(ColourAt(img, x, y - 1), ColourAt(img, x, y))
  }

  /** The first k cuts from left to right, each over n pixels. */
  ghost function Columns(img: Image, g: nat, k: nat, n: nat): nat
    requires Whole(img) && g > 0
  {
    if k == 0 then 0 else Columns(img, g, k - 1, n) + ColumnJump(img, img.bounds.x0 + k * Dx(img.bounds) / g, n)
  }

  /** The first k cuts from top to bottom. */
  ghost function Rows(img: Image, g: nat, k: nat): nat
    requires Whole(img) && g > 0
  {
    if k == 0 then 0 else
    Rows(img, g, k - 1) + RowJump(img, img.bounds.y0 + k * Dy(img.bounds) / g, Dx(img.bounds))
  }

  lemma CutIs(i: nat, n: nat, g: nat)
    requires g > 0
    ensures Cut(i, n, g) == i * n / g
  {
  }

  lemma DistanceIs(a: Colour, b: Colour)
    ensures PixelDiff(a, b) == Distance(a, b)
  {
  }

  lemma TileAt(b: Rect, g: nat, row: nat, col: nat)
    requires Ordered(b) && row < g && col < g
    ensures var n, m := Dx(b), Dy(b);
            SliderTileRect(b, g, row * g + col)
            == Rect(b.x0 + Cut(col, n, g), b.y0 + Cut(row, m, g), b.x0 + Cut(col + 1, n, g), b.y0 + Cut(row + 1, m, g))
  {
    hide Cut;
    TileNumber(row, col, g);
  }

  /** The tiles on the right of one and below it. */
  lemma OtherAt(b: Rect, g: nat, row: nat, col: nat)
    requires Ordered(b) && row < g && col < g
    ensures var n, m := Dx(b), Dy(b);
            && (col + 1 < g ==> SliderTileRect(b, g, Other(g, Right, row, col))
                                == Rect(b.x0 + Cut(col + 1, n, g), b.y0 + Cut(row, m, g),
                                        b.x0 + Cut(col + 2, n, g), b.y0 + Cut(row + 1, m, g)))
            && (row + 1 < g ==> SliderTileRect(b, g, Other(g, Below, row, col))
                                == Rect(b.x0 + Cut(col, n, g), b.y0 + Cut(row + 1, m, g),
                                        b.x0 + Cut(col + 1, n, g), b.y0 + Cut(row + 2, m, g)))
  {
    hide Cut, SliderTileRect;
    if col + 1 < g {
      TileAt(b, g, row, col + 1);
      assert row * g + (col + 1) == Other(g, Right, row, col);
    }
    if row + 1 < g {
      TileAt(b, g, row + 1, col);
    }
  }

  lemma JumpRight(img: Image, g: nat, row: nat, col: nat, o: nat)
    requires Whole(img) && row < g && col + 1 < g
    ensures var b := img.bounds;
            var x, y := b.x0 + Cut(col + 1, Dx(b), g), b.y0 + Cut(row, Dy(b), g) + o;
            Jump(img, g, Right, row, col, o) == Distance(ColourAt(img, x - 1, y), ColourAt(img, x, y))
    ensures SeamLength(img.bounds, g, Right, row, col)
            == Cut(row + 1, Dy(img.bounds), g) - Cut(row, Dy(img.bounds), g)
  {
    hide Cut, SliderTileRect, ColourAt, PixelDiff, Distance, Other, Wide, High;
    var b := img.bounds;
    TileAt(b, g, row, col);
    OtherAt(b, g, row, col);
    var x, y := b.x0 + Cut(col + 1, Dx(b), g), b.y0 + Cut(row, Dy(b), g) + o;
    DistanceIs(ColourAt(img, x - 1, y), ColourAt(img, x, y));
  }

  lemma JumpBelow(img: Image, g: nat, row: nat, col: nat, o: nat)
    requires Whole(img) && row + 1 < g && col < g
    ensures var b := img.bounds;
            var x, y := b.x0 + Cut(col, Dx(b), g) + o, b.y0 + Cut(row + 1, Dy(b), g);
            Jump(img, g, Below, row, col, o) == Distance(ColourAt(img, x, y - 1), ColourAt(img, x, y))
    ensures SeamLength(img.bounds, g, Below, row, col)
            == Cut(col + 1, Dx(img.bounds), g) - Cut(col, Dx(img.bounds), g)
  {
    hide Cut, SliderTileRect, ColourAt, PixelDiff, Distance, Other, Wide, High;
    var b := img.bounds;
    TileAt(b, g, row, col);
    OtherAt(b, g, row, col);
    var x, y := b.x0 + Cut(col, Dx(b), g) + o, b.y0 + Cut(row + 1, Dy(b), g);
    DistanceIs(ColourAt(img, x, y - 1), ColourAt(img, x, y));
  }

  lemma {:induction false} SeamRight(img: Image, g: nat, row: nat, col: nat, k: nat)
    requires Whole(img) && row < g && col + 1 < g
    ensures var b := img.bounds;
            var x, from := b.x0 + Cut(col + 1, Dx(b), g), Cut(row, Dy(b), g);
            ColumnJump(img, x, from + k) == ColumnJump(img, x, from) + SeamSum(img, g, Right, row, col, k)
    decreases k
  {
    hide Cut, Jump, Distance, ColourAt;
    if k > 0 {
      SeamRight(img, g, row, col, k - 1);
      JumpRight(img, g, row, col, k - 1);
    }
  }

  lemma {:induction false} SeamBelow(img: Image, g: nat, row: nat, col: nat, k: nat)
    requires Whole(img) && row + 1 < g && col < g
    ensures var b := img.bounds;
            var y, from := b.y0 + Cut(row + 1, Dy(b), g), Cut(col, Dx(b), g);
            RowJump(img, y, from + k) == RowJump(img, y, from) + SeamSum(img, g, Below, row, col, k)
    decreases k
  {
    hide Cut, Jump, Distance, ColourAt;
    if k > 0 {
      SeamBelow(img, g, row, col, k - 1);
      JumpBelow(img, g, row, col, k - 1);
    }
  }

  /** A row of seams takes each of its cuts one row of tiles further down. */
  lemma {:induction false} RowRight(img: Image, g: nat, row: nat, k: nat)
    requires Whole(img) && row < g && k < g
    ensures var n := Dy(img.bounds);
            Columns(img, g, k, Cut(row + 1, n, g))
            == Columns(img, g, k, Cut(row, n, g)) + RowSum(img, g, Right, row, k)
    decreases k
  {
    hide Cut, SeamSum, SeamLength, ColumnJump;
    if k > 0 {
      RowRight(img, g, row, k - 1);
      JumpRight(img, g, row, k - 1, 0);
      SeamRight(img, g, row, k - 1, SeamLength(img.bounds, g, Right, row, k - 1));
      CutIs(k, Dx(img.bounds), g);
    }
  }

  lemma {:induction false} RowBelow(img: Image, g: nat, row: nat, k: nat)
    requires Whole(img) && row + 1 < g && k <= g
    ensures var b := img.bounds;
            RowJump(img, b.y0 + Cut(row + 1, Dy(b), g), Cut(k, Dx(b), g)) == RowSum(img, g, Below, row, k)
    decreases k
  {
    hide Cut, SeamSum, SeamLength;
    if k == 0 {
      CutEnds(Dx(img.bounds), g);
    } else {
      hide RowJump, Jump, ColourAt, Distance;
      RowBelow(img, g, row, k - 1);
      JumpBelow(img, g, row, k - 1, 0);
      SeamBelow(img, g, row, k - 1, SeamLength(img.bounds, g, Below, row, k - 1));
    }
  }

  lemma {:induction false} NoRows(img: Image, g: nat, k: nat)
    requires Whole(img) && g > 0
    ensures Columns(img, g, k, 0) == 0
    decreases k
  {
    if k > 0 {
      NoRows(img, g, k - 1);
    }
  }

  lemma {:induction false} SideRight(img: Image, g: nat, k: nat)
    requires Whole(img) && 0 < g && k <= g
    ensures Columns(img, g, g - 1, Cut(k, Dy(img.bounds), g)) == SideSum(img, g, Right, k)
    decreases k
  {
    hide Cut, Columns, RowSum;
    if k == 0 {
      CutEnds(Dy(img.bounds), g);
      NoRows(img, g, g - 1);
    } else {
      SideRight(img, g, k - 1);
      RowRight(img, g, k - 1, g - 1);
    }
  }

  lemma {:induction false} SideBelow(img: Image, g: nat, k: nat)
    requires Whole(img) && k < g
    ensures Rows(img, g, k) == SideSum(img, g, Below, k)
    decreases k
  {
    hide Cut, RowSum, RowJump;
    if k > 0 {
      SideBelow(img, g, k - 1);
      RowBelow(img, g, k - 1, g);
      CutEnds(Dx(img.bounds), g);
      CutIs(k, Dy(img.bounds), g);
    }
  }

  /** The score is the sum of the colour differences along the g - 1 cuts each way, whatever the sizes. */
  lemma ScoreAlongCuts(img: Image, g: nat)
    requires Whole(img) && g > 0
    ensures Score(img, g) == Columns(img, g, g - 1, Dy(img.bounds)) + Rows(img, g, g - 1)
  {
    hide Cut, SideSum, Columns, Rows;
    SideRight(img, g, g);
    SideBelow(img, g, g - 1);
    CutEnds(Dy(img.bounds), g);
  }
}
