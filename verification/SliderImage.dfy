/**
 Rendering of slider captcha candidates in internal/core/slider_captcha.go: the image is cut into
 tiles, and each tile of the result is filled with the scaled source tile its map names.
 */
module SliderImage {
  import opened SliderCuts
  import opened SliderTiles
  import opened Rounding

  datatype Colour = Colour(red: nat, green: nat, blue: nat, alpha: nat)

  const BLANK: Colour := Colour(0, 0, 0, 0)

  datatype Rect = Rect(x0: int, y0: int, x1: int, y1: int)

  predicate Ordered(b: Rect) { b.x0 <= b.x1 && b.y0 <= b.y1 }

  predicate Empty(b: Rect) { b.x0 >= b.x1 || b.y0 >= b.y1 }

  predicate In(x: int, y: int, b: Rect) { b.x0 <= x < b.x1 && b.y0 <= y < b.y1 }

  function Dx(b: Rect): nat
    requires Ordered(b)
  {
    b.x1 - b.x0
  }

  function Dy(b: Rect): nat
    requires Ordered(b)
  {
    b.y1 - b.y0
  }

  /** Rows of pixels from the top. */
  datatype Image = Image(bounds: Rect, pixels: seq<seq<Colour>>)

  ghost predicate Whole(img: Image) {
    && Ordered(img.bounds) && |img.pixels| == Dy(img.bounds)
    && forall v | 0 <= v < |img.pixels| :: |img.pixels[v]| == Dx(img.bounds)
  }

  /** Pixels outside the bounds are blank. */
  function ColourAt(img: Image, x: int, y: int): Colour
    requires Whole(img)
  {
    if In(x, y, img.bounds) then img.pixels[y - img.bounds.y0][x - img.bounds.x0] else BLANK
  }

  // ---- Tiles of an image ----

  /** Where side i starts: i * n / g truncated towards zero, as for the sides of tile numbers below 0. */
  function Side(i: int, n: nat, g: nat): int
    requires g > 0
  {
    if i >= 0 then Cut(i, n, g) else 0 - Cut(-i, n, g)
  }

  lemma SidesGrow(i: int, n: nat, g: nat)
    requires g > 0
    ensures Side(i, n, g) <= Side(i + 1, n, g)
    ensures i >= 0 ==> Side(i + 1, n, g) == Side(i, n, g) + Width(i, n, g)
  {
    if i >= 0 {
      CutsGrow(i, i + 1, n, g);
    } else {
      CutsGrow(-i - 1, -i, n, g);
      CutEnds(n, g);
    }
  }

  /** The rectangle of tile `index`; numbers outside the grid give rectangles outside the image. */
  function SliderTileRect(b: Rect, g: nat, index: int): (t: Rect)
    requires Ordered(b) && g > 0
    ensures Ordered(t)
    ensures index >= 0 ==> Dx(t) == Wide(b, g, index) && Dy(t) == High(b, g, index)
  {
    var row := if index >= 0 then index / g else -(-index / g);
    var col := if index >= 0 then index % g else -(-index % g);
    SidesGrow(col, Dx(b), g);
    SidesGrow(row, Dy(b), g);
    Rect(b.x0 + Side(col, Dx(b), g), b.y0 + Side(row, Dy(b), g),
         b.x0 + Side(col + 1, Dx(b), g), b.y0 + Side(row + 1, Dy(b), g))
  }

  lemma SideExactly(i: int, n: nat, g: nat)
    requires g > 0
    ensures TowardsZero(Side(i, n, g), i * n, g)
  {
    if i < 0 {
      assert i * n == -(-i * n);
      CutExactly(-i, n, g, Cut(-i, n, g));
    }
    SignOf(i, n);
  }

  lemma SignOf(i: int, n: nat)
    ensures i >= 0 ==> i * n >= 0
    ensures i < 0 ==> i * n <= 0
  {
    if i < 0 {
      assert -i * n >= 0;
    }
  }

  /** The sides of a tile: its column and row, and the next ones, times the image's side over g, all rounded towards
      zero, also for numbers below 0. */
  lemma TileRectExactly(b: Rect, g: nat, index: int, row: int, col: int)
    requires Ordered(b) && index == row * g + col
    requires if index >= 0 then 0 <= col < g else 0 <= -col < g
    ensures var t := SliderTileRect(b, g, index);
            && TowardsZero(t.x0 - b.x0, col * Dx(b), g) && TowardsZero(t.x1 - b.x0, (col + 1) * Dx(b), g)
            && TowardsZero(t.y0 - b.y0, row * Dy(b), g) && TowardsZero(t.y1 - b.y0, (row + 1) * Dy(b), g)
  {
    hide Side;
    if index >= 0 {
      RowNotNegative(index, g, row, col);
      DivIs(index, g, row);
    } else {
      assert -index == -row * g + -col;
      RowNotNegative(-index, g, -row, -col);
      DivIs(-index, g, -row);
    }
    SideExactly(col, Dx(b), g);
    SideExactly(col + 1, Dx(b), g);
    SideExactly(row, Dy(b), g);
    SideExactly(row + 1, Dy(b), g);
  }

  lemma RowNotNegative(index: nat, g: nat, row: int, col: int)
    requires index == row * g + col && 0 <= col < g
    ensures row >= 0
  {
    if row < 0 {
      assert -row * g >= g by { Grows(1, -row, g); }
    }
  }

  function Wide(b: Rect, g: nat, t: nat): nat
    requires Ordered(b) && g > 0
  {
    Width(t % g, Dx(b), g)
  }

  function High(b: Rect, g: nat, t: nat): nat
    requires Ordered(b) && g > 0
  {
    Width(t / g, Dy(b), g)
  }

  /** The tile that holds pixel (x, y). */
  ghost function TileOf(b: Rect, g: nat, x: int, y: int): (t: nat)
    requires Ordered(b) && g > 0 && In(x, y, b)
    ensures t < g * g
  {
    var r, c := Which(y - b.y0, Dy(b), g), Which(x - b.x0, Dx(b), g);
    TileBound(r, c, g);
    r * g + c
  }

  lemma TileOfParts(b: Rect, g: nat, x: int, y: int)
    requires Ordered(b) && g > 0 && In(x, y, b)
    ensures TileOf(b, g, x, y) / g == Which(y - b.y0, Dy(b), g) && TileOf(b, g, x, y) % g == Which(x - b.x0, Dx(b), g)
  {
    TileNumber(Which(y - b.y0, Dy(b), g), Which(x - b.x0, Dx(b), g), g);
  }

  /** The tile rectangles lie within the image and hold each of its pixels exactly once. */
  lemma TilesPartition(b: Rect, g: nat, x: int, y: int, t: nat)
    requires Ordered(b) && g > 0 && t < g * g
    ensures In(x, y, SliderTileRect(b, g, t)) <==> In(x, y, b) && TileOf(b, g, x, y) == t
  {
    hide Cut, Width, Which, TileOf;
    TilePlace(t, g);
    PieceInside(t % g, Dx(b), g);
    PieceInside(t / g, Dy(b), g);
    var tile := SliderTileRect(b, g, t);
    if In(x, y, b) {
      TileOfParts(b, g, x, y);
      TilePlace(TileOf(b, g, x, y), g);
      if In(x, y, tile) {
        WhichUnique(x - b.x0, Dx(b), g, t % g);
        WhichUnique(y - b.y0, Dy(b), g, t / g);
      }
    }
  }

  // ---- Copying ----

  class Canvas {
    const bounds: Rect
    const pixels: array2<Colour>

    ghost predicate Valid() {
      Ordered(bounds) && pixels.Length0 == Dy(bounds) && pixels.Length1 == Dx(bounds)
    }

    constructor (bounds: Rect)
      requires Ordered(bounds)
      ensures Valid() && fresh(pixels) && this.bounds == bounds
      ensures forall x, y :: At(x, y) == BLANK
    {
      this.bounds := bounds;
      this.pixels := new Colour[Dy(bounds), Dx(bounds)]((y, x) => BLANK);
    }

    function At(x: int, y: int): Colour
      requires Valid()
      reads pixels
    {
      if In(x, y, bounds) then pixels[y - bounds.y0, x - bounds.x0] else BLANK
    }

    method Set(x: int, y: int, c: Colour)
      requires Valid()
      modifies pixels
      ensures forall u, v :: At(u, v) == if u == x && v == y && In(x, y, bounds) then c else old(At(u, v))
    {
      if In(x, y, bounds) {
        pixels[y - bounds.y0, x - bounds.x0] := c;
      }
    }

    ghost predicate Shows(img: Image)
      reads pixels
    {
      Valid() && Whole(img) && img.bounds == bounds && forall x, y :: At(x, y) == ColourAt(img, x, y)
    }
  }

  /** The source colour for pixel (x, y) of a destination tile. */
  ghost function CopyOf(src: Image, from: Rect, to: Rect, x: int, y: int): Colour
    requires Whole(src) && Ordered(from) && Ordered(to) && In(x, y, to)
  {
    ColourAt(src, from.x0 + Scaled(x - to.x0, Dx(from), Dx(to)), from.y0 + Scaled(y - to.y0, Dy(from), Dy(to)))
  }

  method CopyScaledTile(dst: Canvas, dstRect: Rect, src: Image, srcRect: Rect)
    requires dst.Valid() && Whole(src) && Ordered(dstRect) && Ordered(srcRect)
    modifies dst.pixels
    ensures forall x, y | In(x, y, dst.bounds) ::
              dst.At(x, y) ==
              if In(x, y, dstRect) && !Empty(srcRect) then CopyOf(src, srcRect, dstRect, x, y) else old(dst.At(x, y))
  {
    if Empty(dstRect) || Empty(srcRect) {
      return;
    }
    var dstWidth, dstHeight := Dx(dstRect), Dy(dstRect);
    var srcWidth, srcHeight := Dx(srcRect), Dy(srcRect);
    for y := 0 to dstHeight
      invariant forall u, v | In(u, v, dst.bounds) ::
                  dst.At(u, v) ==
                  if In(u, v, dstRect) && v - dstRect.y0 < y then CopyOf(src, srcRect, dstRect, u, v)
                  else old(dst.At(u, v))
    {
      var sy := srcRect.y0 + Scaled(y, srcHeight, dstHeight);
      for x := 0 to dstWidth
        invariant forall u, v | In(u, v, dst.bounds) ::
                    dst.At(u, v) ==
                    if In(u, v, dstRect) && (v - dstRect.y0 < y || (v - dstRect.y0 == y && u - dstRect.x0 < x))
                    then CopyOf(src, srcRect, dstRect, u, v) else old(dst.At(u, v))
      {
        var sx := srcRect.x0 + Scaled(x, srcWidth, dstWidth);
        assert CopyOf(src, srcRect, dstRect, dstRect.x0 + x, dstRect.y0 + y) == ColourAt(src, sx, sy);
        dst.Set(dstRect.x0 + x, dstRect.y0 + y, ColourAt(src, sx, sy));
      }
    }
  }
}
