/** What rendering a tile map does to an image, and when renderings compose (internal/core/slider_captcha.go). */
module SliderRender {
  import opened SliderCuts
  import opened SliderTiles
  import opened SliderImage

  datatype RenderError = BadGrid(size: int) | BadLength(length: nat)

  datatype Outcome = Done(canvas: Canvas) | Fails(error: RenderError)

  /** The rendered colour of pixel (x, y): tile t shows the scaled tile m[t], or nothing if that is empty. */
  ghost function Rendered(img: Image, g: nat, m: seq<int>, x: int, y: int): Colour
    requires Whole(img) && g > 0 && |m| == g * g && In(x, y, img.bounds)
  {
    var t := TileOf(img.bounds, g, x, y);
    var from, to := SliderTileRect(img.bounds, g, m[t]), SliderTileRect(img.bounds, g, t);
    TilesPartition(img.bounds, g, x, y, t);
    if Empty(from) then BLANK else CopyOf(img, from, to, x, y)
  }

  ghost function Render(img: Image, g: nat, m: seq<int>): (r: Image)
    requires Whole(img) && g > 0 && |m| == g * g
    ensures Whole(r) && r.bounds == img.bounds
    ensures forall x, y | In(x, y, img.bounds) :: ColourAt(r, x, y) == Rendered(img, g, m, x, y)
  {
    var b := img.bounds;
    Image(b, seq(Dy(b), v requires 0 <= v < Dy(b) =>
               seq(Dx(b), u requires 0 <= u < Dx(b) => Rendered(img, g, m, b.x0 + u, b.y0 + v))))
  }

  method RenderSliderCandidate(img: Image, gridSize: int, mapping: seq<int>) returns (r: Outcome)
    requires Whole(img)
    ensures gridSize <= 0 ==> r == Fails(BadGrid(gridSize))
    ensures gridSize > 0 && |mapping| != gridSize * gridSize ==> r == Fails(BadLength(|mapping|))
    ensures gridSize > 0 && |mapping| == gridSize * gridSize ==>
              r.Done? && fresh(r.canvas) && fresh(r.canvas.pixels) && r.canvas.Shows(Render(img, gridSize, mapping))
  {
    if gridSize <= 0 {
      return Fails(BadGrid(gridSize));
    }
    var tileCount := gridSize * gridSize;
    if |mapping| != tileCount {
      return Fails(BadLength(|mapping|));
    }
    var b := img.bounds;
    var rendered := new Canvas(b);
    for dstIndex := 0 to |mapping|
      invariant fresh(rendered) && fresh(rendered.pixels) && rendered.Valid() && rendered.bounds == b
      invariant forall x, y | In(x, y, b) ::
                  rendered.At(x, y) ==
                  if TileOf(b, gridSize, x, y) < dstIndex then Rendered(img, gridSize, mapping, x, y) else BLANK
    {
      var srcRect := SliderTileRect(b, gridSize, mapping[dstIndex]);
      var dstRect := SliderTileRect(b, gridSize, dstIndex);
      CopyScaledTile(rendered, dstRect, img, srcRect);
      forall x, y | In(x, y, b)
        ensures In(x, y, dstRect) <==> TileOf(b, gridSize, x, y) == dstIndex
      {
        TilesPartition(b, gridSize, x, y, dstIndex);
      }
    }
    return Done(rendered);
  }

  // ---- Pixels by tile ----

  /** Pixel (o, p) of tile t. */
  ghost function TilePixel(img: Image, g: nat, t: nat, o: nat, p: nat): Colour
    requires Whole(img) && g > 0
  {
    var tile := SliderTileRect(img.bounds, g, t);
    ColourAt(img, tile.x0 + o, tile.y0 + p)
  }

  ghost predicate HasPixel(b: Rect, g: nat, t: nat, o: nat, p: nat)
    requires Ordered(b)
  {
    g > 0 && t < g * g && o < Wide(b, g, t) && p < High(b, g, t)
  }

  /** Tile s scaled to tile t, at pixel (o, p) of t. */
  ghost function Fetched(img: Image, g: nat, s: nat, t: nat, o: nat, p: nat): Colour
    requires Whole(img) && HasPixel(img.bounds, g, t, o, p)
  {
    var b := img.bounds;
    if Wide(b, g, s) == 0 || High(b, g, s) == 0 then BLANK else
    TilePixel(img, g, s, Scaled(o, Wide(b, g, s), Wide(b, g, t)), Scaled(p, High(b, g, s), High(b, g, t)))
  }

  lemma TilePixelInside(b: Rect, g: nat, t: nat, o: nat, p: nat)
    requires Ordered(b) && HasPixel(b, g, t, o, p)
    ensures var tile := SliderTileRect(b, g, t); In(tile.x0 + o, tile.y0 + p, tile) && In(tile.x0 + o, tile.y0 + p, b)
    ensures !Empty(b)
  {
    hide SliderTileRect, Wide, High, TileOf;
    var tile := SliderTileRect(b, g, t);
    TilesPartition(b, g, tile.x0 + o, tile.y0 + p, t);
  }

  /** Pixel by pixel, tile t of the rendering is tile m[t] of the image. */
  lemma RenderedTile(img: Image, g: nat, m: seq<nat>, t: nat, o: nat, p: nat)
    requires Whole(img) && HasPixel(img.bounds, g, t, o, p) && IsMap(m, g * g)
    ensures TilePixel(Render(img, g, m), g, t, o, p) == Fetched(img, g, m[t], t, o, p)
  {
    hide SliderTileRect, Wide, High, TileOf, Render;
    var b := img.bounds;
    var tile := SliderTileRect(b, g, t);
    TilesPartition(b, g, tile.x0 + o, tile.y0 + p, t);
    TilePixelInside(b, g, t, o, p);
  }

  /** Images that agree on every pixel of every tile are equal. */
  lemma SameTiles(a: Image, b: Image, g: nat)
    requires Whole(a) && Whole(b) && a.bounds == b.bounds && g > 0
    requires forall t, o, p | HasPixel(a.bounds, g, t, o, p) :: TilePixel(a, g, t, o, p) == TilePixel(b, g, t, o, p)
    ensures a == b
  {
    var r := a.bounds;
    forall v, u | 0 <= v < Dy(r) && 0 <= u < Dx(r)
      ensures a.pixels[v][u] == b.pixels[v][u]
    {
      SamePixel(a, b, g, u, v);
    }
    assert forall v | 0 <= v < Dy(r) :: a.pixels[v] == b.pixels[v];
  }

  lemma SamePixel(a: Image, b: Image, g: nat, u: nat, v: nat)
    requires Whole(a) && Whole(b) && a.bounds == b.bounds && g > 0 && u < Dx(a.bounds) && v < Dy(a.bounds)
    requires forall t, o, p | HasPixel(a.bounds, g, t, o, p) :: TilePixel(a, g, t, o, p) == TilePixel(b, g, t, o, p)
    ensures a.pixels[v][u] == b.pixels[v][u]
  {
    hide TileOf;
    var r := a.bounds;
    var x, y := r.x0 + u, r.y0 + v;
    var t := TileOf(r, g, x, y);
    TilesPartition(r, g, x, y, t);
    var tile := SliderTileRect(r, g, t);
    assert HasPixel(r, g, t, x - tile.x0, y - tile.y0);
    assert ColourAt(a, x, y) == TilePixel(a, g, t, x - tile.x0, y - tile.y0);
    assert ColourAt(b, x, y) == TilePixel(b, g, t, x - tile.x0, y - tile.y0);
  }

  /** The identity map changes nothing, whatever the sizes. */
  lemma RenderIdentity(img: Image, g: nat)
    requires Whole(img) && g > 0
    ensures Render(img, g, Identity(g * g)) == img
  {
    hide Render, TilePixel;
    var r := Render(img, g, Identity(g * g));
    forall t, o, p | HasPixel(img.bounds, g, t, o, p)
      ensures TilePixel(r, g, t, o, p) == TilePixel(img, g, t, o, p)
    {
      RenderedTile(img, g, Identity(g * g), t, o, p);
    }
    SameTiles(r, img, g);
  }

  // ---- Composition ----

  /** Rendering twice reads through the tile in between. */
  lemma RenderedTwice(img: Image, g: nat, a: seq<nat>, b: seq<nat>, t: nat, o: nat, p: nat)
    requires Whole(img) && HasPixel(img.bounds, g, t, o, p) && IsMap(a, g * g) && IsMap(b, g * g)
    ensures var s, bounds := b[t], img.bounds;
            var w, h := Wide(bounds, g, s), High(bounds, g, s);
            TilePixel(Render(Render(img, g, a), g, b), g, t, o, p) ==
            if w == 0 || h == 0 then BLANK
            else Fetched(img, g, a[s], s, Scaled(o, w, Wide(bounds, g, t)), Scaled(p, h, High(bounds, g, t)))
  {
    hide Render, TilePixel;
    var bounds, s, once := img.bounds, b[t], Render(img, g, a);
    RenderedTile(once, g, b, t, o, p);
    var w, h := Wide(bounds, g, s), High(bounds, g, s);
    if w > 0 && h > 0 {
      RenderedTile(img, g, a, s, Scaled(o, w, Wide(bounds, g, t)), Scaled(p, h, High(bounds, g, t)));
    }
  }

  /** All tiles have one size. */
  ghost predicate Even(b: Rect, g: nat)
    requires Ordered(b) && g > 0
  {
    Dx(b) % g == 0 && Dy(b) % g == 0
  }

  lemma EvenTiles(b: Rect, g: nat, t: nat)
    requires Ordered(b) && g > 0 && Even(b, g)
    ensures Wide(b, g, t) == Dx(b) / g && High(b, g, t) == Dy(b) / g
  {
    EvenCut(t % g, Dx(b), g);
    EvenCut(t / g, Dy(b), g);
  }

  /** With even tiles, two renderings are one. */
  lemma RendersCompose(img: Image, g: nat, a: seq<nat>, b: seq<nat>)
    requires Whole(img) && g > 0 && IsMap(a, g * g) && IsMap(b, g * g)
    requires Even(img.bounds, g) || Empty(img.bounds)
    ensures IsMap(Compose(a, b), g * g) && Render(Render(img, g, a), g, b) == Render(img, g, Compose(a, b))
  {
    hide Render, TilePixel, Wide, High;
    ComposeIsMap(a, b);
    var c := Compose(a, b);
    forall t: nat, o: nat, p: nat | HasPixel(img.bounds, g, t, o, p)
      ensures TilePixel(Render(Render(img, g, a), g, b), g, t, o, p) == TilePixel(Render(img, g, c), g, t, o, p)
    {
      RenderedTwice(img, g, a, b, t, o, p);
      RenderedTile(img, g, c, t, o, p);
      TilePixelInside(img.bounds, g, t, o, p);
      EvenTiles(img.bounds, g, t);
      EvenTiles(img.bounds, g, b[t]);
    }
    SameTiles(Render(Render(img, g, a), g, b), Render(img, g, c), g);
  }

  /** Rendering a, then b, is rendering the swaps of a followed by those of b. */
  ghost predicate Acts(b: Rect, g: nat)
    requires Ordered(b) && g > 0
  {
    forall img, s, t | Whole(img) && img.bounds == b && Swaps(g * g, s) && Swaps(g * g, t) && Swaps(g * g, s + t) ::
      Render(Render(img, g, Mapping(g * g, s)), g, Mapping(g * g, t)) == Render(img, g, Mapping(g * g, s + t))
  }

  lemma EvenActs(b: Rect, g: nat)
    requires Ordered(b) && g > 0 && (Even(b, g) || Empty(b))
    ensures Acts(b, g)
  {
    hide Render, Mapping;
    forall img, s, t | Whole(img) && img.bounds == b && Swaps(g * g, s) && Swaps(g * g, t) && Swaps(g * g, s + t)
      ensures Render(Render(img, g, Mapping(g * g, s)), g, Mapping(g * g, t)) == Render(img, g, Mapping(g * g, s + t))
    {
      MappingConcat(g * g, s, t);
      RendersCompose(img, g, Mapping(g * g, s), Mapping(g * g, t));
    }
  }

  /** An image with one marked pixel. */
  ghost function Marked(b: Rect, x: int, y: int): (img: Image)
    requires Ordered(b)
    ensures Whole(img) && img.bounds == b
    ensures forall u, v | In(u, v, b) :: ColourAt(img, u, v) == if u == x && v == y then Colour(1, 0, 0, 1) else BLANK
  {
    Image(b, seq(Dy(b), v requires 0 <= v < Dy(b) =>
               seq(Dx(b), u requires 0 <= u < Dx(b) =>
                 if b.x0 + u == x && b.y0 + v == y then Colour(1, 0, 0, 1) else BLANK)))
  }

  lemma SwapOnce(n: nat, l: nat, r: nat)
    requires l < n && r < n
    ensures Swaps(n, [l, r]) && Mapping(n, [l, r]) == Swap(Identity(n), l, r)
    ensures Swaps(n, [l, r] + [r, l]) && Mapping(n, [l, r] + [r, l]) == Identity(n)
  {
    assert [l, r][..0] == [];
    var s: seq<int> := [l, r];
    assert Reverse(s) == [r, l];
    ReverseUndoes(n, s);
  }

  /** Tile r fits in tile l and is smaller. */
  ghost predicate Smaller(b: Rect, g: nat, r: nat, l: nat)
    requires Ordered(b) && g > 0
  {
    && Wide(b, g, l) > 0 && High(b, g, l) > 0
    && Wide(b, g, r) <= Wide(b, g, l) && High(b, g, r) <= High(b, g, l)
    && (Wide(b, g, r) < Wide(b, g, l) || High(b, g, r) < High(b, g, l))
  }

  /** Only the last pixel of tile t is marked. */
  ghost function LastMarked(b: Rect, g: nat, t: nat): Image
    requires Ordered(b) && g > 0 && Wide(b, g, t) > 0 && High(b, g, t) > 0
  {
    var tile := SliderTileRect(b, g, t);
    Marked(b, tile.x0 + Wide(b, g, t) - 1, tile.y0 + High(b, g, t) - 1)
  }

  lemma MarkedPixels(b: Rect, g: nat, t: nat, o: nat, p: nat)
    requires Ordered(b) && HasPixel(b, g, t, o, p)
    ensures var img := LastMarked(b, g, t);
            && Whole(img) && img.bounds == b
            && TilePixel(img, g, t, o, p) ==
               if o == Wide(b, g, t) - 1 && p == High(b, g, t) - 1 then Colour(1, 0, 0, 1) else BLANK
  {
    TilePixelInside(b, g, t, o, p);
  }

  /** Going to the smaller tile r and back, the last pixel of tile l is not read. */
  lemma MarkIsLost(b: Rect, g: nat, there: seq<nat>, back: seq<nat>, l: nat, r: nat)
    requires Ordered(b) && g > 0 && l < g * g && r < g * g && Smaller(b, g, r, l)
    requires IsMap(there, g * g) && IsMap(back, g * g) && back[l] == r && there[r] == l
    ensures var img := LastMarked(b, g, l);
            && Whole(img) && img.bounds == b
            && TilePixel(Render(Render(img, g, there), g, back), g, l, Wide(b, g, l) - 1, High(b, g, l) - 1) == BLANK
  {
    hide Render, TilePixel, Wide, High, LastMarked;
    var img, w, h, w', h' := LastMarked(b, g, l), Wide(b, g, l), High(b, g, l), Wide(b, g, r), High(b, g, r);
    MarkedPixels(b, g, l, w - 1, h - 1);
    RenderedTwice(img, g, there, back, l, w - 1, h - 1);
    if w' > 0 && h' > 0 {
      ThereAndBack(w, w');
      ThereAndBack(h, h');
      MarkedPixels(b, g, l, Scaled(Scaled(w - 1, w', w), w, w'), Scaled(Scaled(h - 1, h', h), h, h'));
    }
  }

  /** Swapping a tile with a smaller one twice does not restore the image. */
  lemma SwappedTwiceLoses(b: Rect, g: nat, l: nat, r: nat)
    requires Ordered(b) && g > 0 && l < g * g && r < g * g && Smaller(b, g, r, l)
    ensures !Acts(b, g)
  {
    hide Render, Mapping, Wide, High, LastMarked, TilePixel, Swaps;
    var n := g * g;
    SwapOnce(n, l, r);
    SwapOnce(n, r, l);
    var s, t := [l, r], [r, l];
    var img := LastMarked(b, g, l);
    MarkedPixels(b, g, l, Wide(b, g, l) - 1, High(b, g, l) - 1);
    MarkIsLost(b, g, Mapping(n, s), Mapping(n, t), l, r);
    RenderIdentity(img, g);
    assert Render(Render(img, g, Mapping(n, s)), g, Mapping(n, t)) != Render(img, g, Mapping(n, s + t));
  }

  /** Uneven tiles of an image that has pixels include one smaller than another. */
  lemma UnevenTiles(b: Rect, g: nat) returns (l: nat, r: nat)
    requires Ordered(b) && g > 0 && !Even(b, g) && !Empty(b)
    ensures l < g * g && r < g * g && Smaller(b, g, r, l)
  {
    hide Cut, Width, Which;
    if Dx(b) % g != 0 {
      var i, j := TwoWidths(Dx(b), g);
      var row := Which(0, Dy(b), g);
      TileNumber(row, i, g);
      TileNumber(row, j, g);
      l, r := row * g + i, row * g + j;
    } else {
      var i, j := TwoWidths(Dy(b), g);
      var col := Which(0, Dx(b), g);
      TileNumber(i, col, g);
      TileNumber(j, col, g);
      l, r := i * g + col, j * g + col;
    }
  }

  /** Renderings compose, for every image of these bounds and all swap lists, exactly when the tiles are even or
      the image is empty. */
  lemma ActsExactly(b: Rect, g: nat)
    requires Ordered(b) && g > 0
    ensures Acts(b, g) <==> Even(b, g) || Empty(b)
  {
    hide Acts, Even, Smaller;
    if Even(b, g) || Empty(b) {
      EvenActs(b, g);
    } else {
      var l, r := UnevenTiles(b, g);
      SwappedTwiceLoses(b, g, l, r);
    }
  }

  /** An image scrambled by the reverse of a candidate's swaps is restored by that candidate. */
  lemma CandidateRestores(img: Image, g: nat, swaps: seq<int>, k: nat)
    requires Whole(img) && g > 0 && (Even(img.bounds, g) || Empty(img.bounds)) && Swaps(g * g, swaps)
             && 2 * k <= |swaps|
    ensures var a := BuildSliderActiveSteps(swaps, k);
            && Swaps(g * g, a) && Swaps(g * g, Reverse(a))
            && Render(Render(img, g, Mapping(g * g, Reverse(a))), g, Mapping(g * g, a)) == img
  {
    hide Render, Mapping;
    var a := BuildSliderActiveSteps(swaps, k);
    assert a == swaps[..2 * k];
    var n := g * g;
    ReverseSwaps(n, a);
    ReverseUndoes(n, Reverse(a));
    MappingConcat(n, Reverse(a), a);
    RendersCompose(img, g, Mapping(n, Reverse(a)), Mapping(n, a));
    RenderIdentity(img, g);
  }
}
