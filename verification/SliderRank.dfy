/**
 Scoring, ranking and trying slider captcha candidates (internal/core/slider_captcha.go): a
 candidate whose rendering has smaller colour jumps at the tile seams is tried first.
 */
module SliderRank {
  import opened SliderTiles
  import opened SliderImage
  import opened SliderRender

  // ---- Score of a rendering ----

  function AbsDiff(a: nat, b: nat): nat { if a > b then a - b else b - a }

  function PixelDiff(a: Colour, b: Colour): nat {
    AbsDiff(a.red, b.red) + AbsDiff(a.green, b.green) + AbsDiff(a.blue, b.blue)
  }

  /** A seam joins a tile to the one on its right or to the one below. */
  datatype Side = Right | Below

  function Other(g: nat, side: Side, row: nat, col: nat): nat {
    if side.Right? then row * g + col + 1 else (row + 1) * g + col
  }

  ghost function SeamLength(b: Rect, g: nat, side: Side, row: nat, col: nat): nat
    requires Ordered(b) && g > 0
  {
    var p, q := SliderTileRect(b, g, row * g + col), SliderTileRect(b, g, Other(g, side, row, col));
    if side.Right? then MinInt(Dy(p), Dy(q)) else MinInt(Dx(p), Dx(q))
  }

  function MinInt(a: int, b: int): int { if a < b then a else b }

  /** The colour jump across a seam at its o-th pixel. */
  ghost function Jump(img: Image, g: nat, side: Side, row: nat, col: nat, o: nat): nat
    requires Whole(img) && g > 0
  {
    var p := SliderTileRect(img.bounds, g, row * g + col);
    var q := SliderTileRect(img.bounds, g, Other(g, side, row, col));
    if side.Right? then PixelDiff(ColourAt(img, p.x1 - 1, p.y0 + o), ColourAt(img, q.x0, q.y0 + o))
    else PixelDiff(ColourAt(img, p.x0 + o, p.y1 - 1), ColourAt(img, q.x0 + o, q.y0))
  }

  ghost function SeamSum(img: Image, g: nat, side: Side, row: nat, col: nat, k: nat): nat
    requires Whole(img) && g > 0
  {
    if k == 0 then 0 else SeamSum(img, g, side, row, col, k - 1) + Jump(img, g, side, row, col, k - 1)
  }

  /** The first k seams of a row of tiles. */
  ghost function RowSum(img: Image, g: nat, side: Side, row: nat, k: nat): nat
    requires Whole(img) && g > 0
  {
    if k == 0 then 0 else
    RowSum(img, g, side, row, k - 1) + SeamSum(img, g, side, row, k - 1, SeamLength(img.bounds, g, side, row, k - 1))
  }

  /** Seams in a row of tiles. */
  ghost function RowSeams(g: nat, side: Side): nat
    requires g > 0
  {
    if side.Right? then g - 1 else g
  }

  ghost function SideSum(img: Image, g: nat, side: Side, k: nat): nat
    requires Whole(img) && g > 0
  {
    if k == 0 then 0 else SideSum(img, g, side, k - 1) + RowSum(img, g, side, k - 1, RowSeams(g, side))
  }

  ghost function Score(img: Image, g: nat): nat
    requires Whole(img) && g > 0
  {
    SideSum(img, g, Right, g) + SideSum(img, g, Below, g - 1)
  }

  method ScoreRenderedSliderImage(canvas: Canvas, gridSize: int, ghost img: Image) returns (score: nat)
    requires canvas.Shows(img)
    ensures score == if gridSize <= 0 then 0 else Score(img, gridSize)
  {
    hide Jump, SeamSum, SeamLength, ColourAt, SliderTileRect;
    score := 0;
    if gridSize <= 0 {
      return;
    }
    var g: nat := gridSize;
    for row := 0 to g
      invariant score == SideSum(img, g, Right, row)
    {
      for col := 0 to g - 1
        invariant score == SideSum(img, g, Right, row) + RowSum(img, g, Right, row, col)
      {
        var sum := SeamDiffs(canvas, g, Right, row, col, img);
        score := score + sum;
      }
    }
    for row := 0 to g - 1
      invariant score == SideSum(img, g, Right, g) + SideSum(img, g, Below, row)
    {
      for col := 0 to g
        invariant score == SideSum(img, g, Right, g) + SideSum(img, g, Below, row) + RowSum(img, g, Below, row, col)
      {
        var sum := SeamDiffs(canvas, g, Below, row, col, img);
        score := score + sum;
      }
    }
  }

  /** The inner loop over one seam. */
  method SeamDiffs(canvas: Canvas, g: nat, side: Side, row: nat, col: nat, ghost img: Image) returns (sum: nat)
    requires g > 0 && canvas.Shows(img)
    ensures sum == SeamSum(img, g, side, row, col, SeamLength(img.bounds, g, side, row, col))
  {
    hide SliderTileRect, Other, PixelDiff, Wide, High;
    sum := 0;
    var p := SliderTileRect(canvas.bounds, g, row * g + col);
    var q := SliderTileRect(canvas.bounds, g, Other(g, side, row, col));
    var length: nat := if side.Right? then MinInt(Dy(p), Dy(q)) else MinInt(Dx(p), Dx(q));
    for offset := 0 to length
      invariant sum == SeamSum(img, g, side, row, col, offset)
    {
      if side.Right? {
        sum := sum + PixelDiff(canvas.At(p.x1 - 1, p.y0 + offset), canvas.At(q.x0, q.y0 + offset));
      } else {
        sum := sum + PixelDiff(canvas.At(p.x0 + offset, p.y1 - 1), canvas.At(q.x0 + offset, q.y0));
      }
    }
  }

  ghost predicate SeamSmooth(img: Image, g: nat, side: Side, row: nat, col: nat)
    requires Whole(img) && g > 0
  {
    forall o: nat | o < SeamLength(img.bounds, g, side, row, col) :: Jump(img, g, side, row, col, o) == 0
  }

  ghost predicate RowSmooth(img: Image, g: nat, side: Side, row: nat, k: nat)
    requires Whole(img) && g > 0
  {
    forall col: nat | col < k :: SeamSmooth(img, g, side, row, col)
  }

  ghost predicate SideSmooth(img: Image, g: nat, side: Side, k: nat)
    requires Whole(img) && g > 0
  {
    forall row: nat | row < k :: RowSmooth(img, g, side, row, RowSeams(g, side))
  }

  /** No colour jump at any seam. */
  ghost predicate Smooth(img: Image, g: nat)
    requires Whole(img) && g > 0
  {
    SideSmooth(img, g, Right, g) && SideSmooth(img, g, Below, g - 1)
  }

  lemma {:induction false} SeamZero(img: Image, g: nat, side: Side, row: nat, col: nat, k: nat)
    requires Whole(img) && g > 0
    ensures SeamSum(img, g, side, row, col, k) == 0 <==> forall o: nat | o < k :: Jump(img, g, side, row, col, o) == 0
    decreases k
  {
    hide Jump;
    if k > 0 {
      SeamZero(img, g, side, row, col, k - 1);
    }
  }

  lemma {:induction false} RowZero(img: Image, g: nat, side: Side, row: nat, k: nat)
    requires Whole(img) && g > 0
    ensures RowSum(img, g, side, row, k) == 0 <==> RowSmooth(img, g, side, row, k)
    decreases k
  {
    hide Jump, SeamLength, SeamSum;
    if k > 0 {
      RowZero(img, g, side, row, k - 1);
      SeamZero(img, g, side, row, k - 1, SeamLength(img.bounds, g, side, row, k - 1));
      var n := SeamLength(img.bounds, g, side, row, k - 1);
      assert SeamSmooth(img, g, side, row, k - 1) <==> SeamSum(img, g, side, row, k - 1, n) == 0;
    }
  }

  lemma {:induction false} SideZero(img: Image, g: nat, side: Side, k: nat)
    requires Whole(img) && g > 0
    ensures SideSum(img, g, side, k) == 0 <==> SideSmooth(img, g, side, k)
    decreases k
  {
    hide RowSmooth, RowSum;
    if k > 0 {
      SideZero(img, g, side, k - 1);
      RowZero(img, g, side, k - 1, RowSeams(g, side));
    }
  }

  /** A rendering scores 0 exactly when no seam shows. */
  lemma ZeroScoreExactly(img: Image, g: nat)
    requires Whole(img) && g > 0
    ensures Score(img, g) == 0 <==> Smooth(img, g)
  {
    hide SideSmooth, SideSum;
    SideZero(img, g, Right, g);
    SideZero(img, g, Below, g - 1);
  }

  // ---- Ranking ----

  datatype Candidate = Candidate(index: nat, activeSteps: seq<int>, score: nat)

  datatype Ranking =
    | Ranked(candidates: seq<Candidate>)
    | NoCandidates
    | BadSwaps(tiles: SliderTiles.Error)
    | BadRender(render: RenderError)

  predicate Before(a: Candidate, b: Candidate) {
    a.score < b.score || (a.score == b.score && a.index < b.index)
  }

  ghost predicate InOrder(s: seq<Candidate>) {
    forall i, j | 0 <= i < j < |s| :: Before(s[i], s[j])
  }

  /** Candidate k, with the score of the image it renders. */
  ghost function Scored(img: Image, g: nat, swaps: seq<int>, k: nat): Candidate
    requires Whole(img) && g > 0 && Swaps(g * g, BuildSliderActiveSteps(swaps, k))
  {
    var a := BuildSliderActiveSteps(swaps, k);
    Candidate(k, a, Score(Render(img, g, Mapping(g * g, a)), g))
  }

  /** All whole swaps of the list are in range. */
  ghost predicate AllSwaps(g: int, swaps: seq<int>) {
    g > 0 && Swaps(g * g, swaps[..|swaps| / 2 * 2])
  }

  lemma FirstSwaps(swaps: seq<int>, k: nat)
    requires 2 * k <= |swaps|
    ensures BuildSliderActiveSteps(swaps, k) == swaps[..2 * k]
  {
  }

  lemma SomeSwaps(n: nat, swaps: seq<int>, k: nat, m: nat)
    requires 2 * k <= m <= |swaps| && Swaps(n, swaps[..m])
    ensures Swaps(n, swaps[..2 * k])
  {
    assert forall i | 0 <= i < 2 * k :: swaps[..2 * k][i] == swaps[..m][i];
  }

  /** The candidates in the order of the swaps. */
  ghost function Listed(img: Image, g: nat, swaps: seq<int>, n: nat): (s: seq<Candidate>)
    requires Whole(img) && g > 0 && 2 * n <= |swaps| && Swaps(g * g, swaps[..2 * n])
    ensures |s| == n && forall i | 0 <= i < n :: s[i].index == i + 1
  {
    if n == 0 then [] else
    SomeSwaps(g * g, swaps, n - 1, 2 * n);
    FirstSwaps(swaps, n);
    Listed(img, g, swaps, n - 1) + [Scored(img, g, swaps, n)]
  }

  ghost predicate DistinctIndices(s: seq<Candidate>) {
    forall i, j | 0 <= i < j < |s| :: s[i].index != s[j].index
  }

  /** The sorting of the candidates. */
  function Insert(s: seq<Candidate>, c: Candidate): (r: seq<Candidate>) {
    var k := |s| - 1;
    if s == [] || Before(s[k], c) then s + [c] else Insert(s[..k], c) + [s[k]]
  }

  function Sort(s: seq<Candidate>): (r: seq<Candidate>) {
    if s == [] then [] else Insert(Sort(s[..|s| - 1]), s[|s| - 1])
  }

  lemma BeforeIsOrder(a: Candidate, b: Candidate, c: Candidate)
    ensures Before(a, b) && Before(b, c) ==> Before(a, c)
    ensures a.index != b.index ==> Before(a, b) || Before(b, a)
    ensures !(Before(a, b) && Before(b, a))
  {
  }

  lemma {:induction false} InsertSorts(s: seq<Candidate>, c: Candidate)
    requires InOrder(s) && forall i | 0 <= i < |s| :: s[i].index != c.index
    ensures InOrder(Insert(s, c)) && multiset(Insert(s, c)) == multiset(s) + multiset{c}
    decreases |s|
  {
    hide Before;
    var k := |s| - 1;
    if s == [] || Before(s[k], c) {
      forall i | 0 <= i < k
        ensures Before(s[i], c)
      {
        BeforeIsOrder(s[i], s[k], c);
      }
    } else {
      var t := Insert(s[..k], c);
      assert s == s[..k] + [s[k]];
      InsertSorts(s[..k], c);
      BeforeIsOrder(c, s[k], c);
      forall i | 0 <= i < |t|
        ensures Before(t[i], s[k])
      {
        assert t[i] in multiset(t);
      }
    }
  }

  lemma {:induction false} SortSorts(s: seq<Candidate>)
    requires DistinctIndices(s)
    ensures InOrder(Sort(s)) && multiset(Sort(s)) == multiset(s)
    decreases |s|
  {
    hide Before, Insert;
    if s != [] {
      var k := |s| - 1;
      assert s == s[..k] + [s[k]];
      SortSorts(s[..k]);
      var t := Sort(s[..k]);
      forall i | 0 <= i < |t|
        ensures t[i].index != s[k].index
      {
        assert t[i] in multiset(s[..k]);
      }
      InsertSorts(t, s[k]);
    }
  }

  lemma SameFirst(a: seq<Candidate>, b: seq<Candidate>)
    requires InOrder(a) && InOrder(b) && multiset(a) == multiset(b) && a != [] && b != []
    ensures a[0] == b[0]
  {
    hide Before;
    assert a[0] in multiset(b) && b[0] in multiset(a);
    BeforeIsOrder(a[0], b[0], a[0]);
  }

  /** There is only one order to sort candidates into. */
  lemma {:induction false} RankingUnique(a: seq<Candidate>, b: seq<Candidate>)
    requires InOrder(a) && InOrder(b) && multiset(a) == multiset(b)
    ensures a == b
    decreases |a|
  {
    hide Before;
    assert |multiset(a)| == |a| && |multiset(b)| == |b|;
    if a != [] {
      SameFirst(a, b);
      assert a == [a[0]] + a[1..] && b == [b[0]] + b[1..];
      assert multiset(a[1..]) == multiset(a) - multiset{a[0]};
      RankingUnique(a[1..], b[1..]);
    }
  }

  ghost function Square(g: int): (n: nat)
    ensures n == g * g
  {
    SquareSign(g);
    g * g
  }

  /** A swap that stops a candidate is the first bad one of the whole list. */
  lemma BadPrefix(n: nat, swaps: seq<int>, idx: nat, k: nat)
    requires 2 * idx <= |swaps| && FirstBad(n, BuildSliderActiveSteps(swaps, idx), k)
    ensures var a := BuildSliderActiveSteps(swaps, idx); k + 1 < |a| && a[k] == swaps[k] && a[k + 1] == swaps[k + 1]
    ensures FirstBad(n, swaps, k) && !Swaps(n, swaps[..|swaps| / 2 * 2])
  {
    FirstSwaps(swaps, idx);
    var a, all := swaps[..2 * idx], swaps[..|swaps| / 2 * 2];
    assert a[..k] == swaps[..k];
    assert all[k] == a[k] && all[k + 1] == a[k + 1];
  }

  datatype Scoring = Points(score: nat) | Unscored(error: RenderError)

  method ScoreSliderCandidate(img: Image, gridSize: int, mapping: seq<int>) returns (r: Scoring)
    requires Whole(img)
    ensures gridSize <= 0 ==> r == Unscored(BadGrid(gridSize))
    ensures gridSize > 0 && |mapping| != gridSize * gridSize ==> r == Unscored(BadLength(|mapping|))
    ensures gridSize > 0 && |mapping| == gridSize * gridSize ==>
              r == Points(Score(Render(img, gridSize, mapping), gridSize))
  {
    hide Score, Render, Canvas.Shows;
    var outcome := RenderSliderCandidate(img, gridSize, mapping);
    if outcome.Fails? {
      return Unscored(outcome.error);
    }
    var score := ScoreRenderedSliderImage(outcome.canvas, gridSize, Render(img, gridSize, mapping));
    return Points(score);
  }

  /** One round of the ranking loop: the candidate, or why there is none. */
  method ScoreCandidate(img: Image, gridSize: int, swaps: seq<int>, idx: nat) returns (r: Ranking)
    requires Whole(img) && 0 < idx && 2 * idx <= |swaps|
    ensures !r.NoCandidates?
    ensures r.Ranked? ==>
              && gridSize > 0 && Swaps(Square(gridSize), BuildSliderActiveSteps(swaps, idx))
              && r.candidates == [Scored(img, gridSize, swaps, idx)]
    ensures !r.Ranked? ==> Stopped(r, gridSize, swaps)
  {
    hide Score, Render, Mapping, Swaps;
    var activeSteps := BuildSliderActiveSteps(swaps, idx);
    var built := BuildSliderTileMapping(gridSize, activeSteps);
    if built.Err? {
      if gridSize != 0 {
        ghost var k: nat :|
          FirstBad(Square(gridSize), activeSteps, k) && built.error == OutOfRange(activeSteps[k], activeSteps[k + 1]);
        BadPrefix(Square(gridSize), swaps, idx, k);
      }
      return BadSwaps(built.error);
    }
    var scored := ScoreSliderCandidate(img, gridSize, built.value);
    if scored.Unscored? {
      return BadRender(scored.error);
    }
    return Ranked([Candidate(idx, activeSteps, scored.score)]);
  }

  /** The errors of a ranking that has candidates. */
  ghost predicate Stopped(r: Ranking, gridSize: int, swaps: seq<int>) {
    && !AllSwaps(gridSize, swaps)
    && match r
       case Ranked(_) => false
       case NoCandidates => false
       case BadRender(e) => gridSize < 0 && e == BadGrid(gridSize)
       case BadSwaps(e) =>
         if gridSize == 0 then e == BadTileCount(0)
         else exists k: nat :: FirstBad(Square(gridSize), swaps, k) && e == OutOfRange(swaps[k], swaps[k + 1])
  }

  method RankSliderCandidates(img: Image, gridSize: int, swaps: seq<int>) returns (r: Ranking)
    requires Whole(img)
    ensures r.NoCandidates? <==> |swaps| < 2
    ensures r.Ranked? <==> |swaps| >= 2 && AllSwaps(gridSize, swaps)
    ensures r.Ranked? ==>
              InOrder(r.candidates) && multiset(r.candidates) == multiset(Listed(img, gridSize, swaps, |swaps| / 2))
    ensures r.Ranked? ==> var c := r.candidates;
              forall i, j | 0 <= i < j < |c| ::
                c[i].score < c[j].score || (c[i].score == c[j].score && c[i].index < c[j].index)
    ensures |swaps| >= 2 && !r.Ranked? ==> Stopped(r, gridSize, swaps)
  {
    hide Listed, Scored, Swaps, Stopped, InOrder;
    var candidateCount: nat := |swaps| / 2;
    if candidateCount == 0 {
      return NoCandidates;
    }
    var candidates: seq<Candidate> := [];
    var idx: nat := 1;
    while idx <= candidateCount
      invariant 1 <= idx <= candidateCount + 1
      invariant idx == 1 ==> candidates == []
      invariant idx > 1 ==>
                  && gridSize > 0 && Swaps(Square(gridSize), swaps[..2 * (idx - 1)])
                  && candidates == Listed(img, gridSize, swaps, idx - 1)
    {
      var one := ScoreCandidate(img, gridSize, swaps, idx);
      if !one.Ranked? {
        StoppedShort(one, gridSize, swaps);
        return one;
      }
      FirstSwaps(swaps, idx);
      ListedStep(img, gridSize, swaps, idx);
      candidates := candidates + one.candidates;
      idx := idx + 1;
    }
    SortSorts(candidates);
    SmoothestFirst(Sort(candidates));
    return Ranked(Sort(candidates));
  }

  /** The order of a ranking: smaller scores first, and of equal ones the smaller number of swaps. */
  lemma SmoothestFirst(c: seq<Candidate>)
    requires InOrder(c)
    ensures forall i, j | 0 <= i < j < |c| ::
              c[i].score < c[j].score || (c[i].score == c[j].score && c[i].index < c[j].index)
  {
    forall i, j | 0 <= i < j < |c|
      ensures c[i].score < c[j].score || (c[i].score == c[j].score && c[i].index < c[j].index)
    {
      assert Before(c[i], c[j]);
    }
  }

  lemma StoppedShort(r: Ranking, gridSize: int, swaps: seq<int>)
    requires Stopped(r, gridSize, swaps)
    ensures !AllSwaps(gridSize, swaps) && !r.Ranked? && !r.NoCandidates?
  {
  }

  lemma ListedStep(img: Image, g: nat, swaps: seq<int>, n: nat)
    requires Whole(img) && g > 0 && 0 < n && 2 * n <= |swaps| && Swaps(g * g, BuildSliderActiveSteps(swaps, n))
    ensures Swaps(g * g, swaps[..2 * n]) && Swaps(g * g, swaps[..2 * (n - 1)])
    ensures Listed(img, g, swaps, n) == Listed(img, g, swaps, n - 1) + [Scored(img, g, swaps, n)]
    ensures Listed(img, g, swaps, 0) == []
  {
    FirstSwaps(swaps, n);
    SomeSwaps(g * g, swaps, n - 1, 2 * n);
  }

  // ---- Trying candidates ----

  /** The server's answer to one candidate; Failed when the request itself fails. */
  datatype Answer = Failed(error: string) | Status(status: string, token: string)

  datatype Attempt =
    | Solved(token: string)
    | NoneRanked | NoAttempts | RequestFailed(error: string) | NoToken | LimitReached | Exhausted

  /** The answer that ends the tries with this result; another status goes on to the next candidate. */
  ghost predicate Decides(a: Answer, r: Attempt) {
    match r
    case Solved(token) => a == Status("OK", token) && token != ""
    case NoToken => a == Status("OK", "")
    case LimitReached => a.Status? && a.status == "ERROR_LIMIT"
    case RequestFailed(error) => a == Failed(error)
    case _ => false
  }

  ghost predicate GoesOn(a: Answer) { a.Status? && a.status !in {"OK", "ERROR_LIMIT"} }

  /** Every answer goes on or ends the tries, in one way. */
  lemma OneVerdict(a: Answer)
    ensures GoesOn(a) <==> forall r :: !Decides(a, r)
    ensures forall r, q | Decides(a, r) && Decides(a, q) :: r == q
  {
    if a.Failed? {
      assert Decides(a, RequestFailed(a.error));
    } else if a.status == "OK" {
      assert Decides(a, if a.token == "" then NoToken else Solved(a.token));
    } else if a.status == "ERROR_LIMIT" {
      assert Decides(a, LimitReached);
    }
  }

  /** The candidates tried: at most maxAttempts, in ranking order. */
  ghost function Limit(candidates: seq<Candidate>, maxAttempts: int): int { MinInt(maxAttempts, |candidates|) }

  method TrySliderCaptchaCandidates(candidates: seq<Candidate>, maxAttempts: int, check: Candidate -> Answer)
    returns (r: Attempt, asked: nat)
    ensures r.NoneRanked? <==> candidates == []
    ensures r.NoAttempts? <==> candidates != [] && maxAttempts <= 0
    ensures r.Exhausted? ==>
              && asked == Limit(candidates, maxAttempts)
              && forall i | 0 <= i < asked :: GoesOn(check(candidates[i]))
    ensures !r.NoneRanked? && !r.NoAttempts? && !r.Exhausted? ==>
              && 0 < asked <= Limit(candidates, maxAttempts)
              && (forall i | 0 <= i < asked - 1 :: GoesOn(check(candidates[i])))
              && Decides(check(candidates[asked - 1]), r)
  {
    asked := 0;
    if |candidates| == 0 {
      return NoneRanked, asked;
    }
    var limit := MinInt(maxAttempts, |candidates|);
    if limit <= 0 {
      return NoAttempts, asked;
    }
    for idx := 0 to limit
      invariant asked == idx && forall i | 0 <= i < asked :: GoesOn(check(candidates[i]))
    {
      var result := check(candidates[idx]);
      asked := asked + 1;
      if result.Failed? {
        return RequestFailed(result.error), asked;
      }
      if result.status == "OK" {
        if result.token == "" {
          return NoToken, asked;
        }
        return Solved(result.token), asked;
      } else if result.status == "ERROR_LIMIT" {
        return LimitReached, asked;
      }
    }
    return Exhausted, asked;
  }
}
