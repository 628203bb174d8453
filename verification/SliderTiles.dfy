/**
 Tile maps of the slider captcha in internal/core/slider_captcha.go: a list of swaps, two tile
 numbers each, applied to the identity.
 */
module SliderTiles {

  datatype Error = BadTileCount(count: int) | OddSteps(length: nat) | OutOfRange(left: int, right: int)

  datatype Result<+T> = Ok(value: T) | Err(error: Error)

  function Identity(n: nat): (m: seq<nat>)
    ensures |m| == n && forall i | 0 <= i < n :: m[i] == i
  {
    seq(n, i requires 0 <= i < n => i)
  }

  ghost predicate IsMap(m: seq<nat>, n: nat) {
    |m| == n && forall i | 0 <= i < n :: m[i] < n
  }

  function Swap(m: seq<nat>, l: nat, r: nat): (s: seq<nat>)
    requires l < |m| && r < |m|
    ensures |s| == |m|
  {
    m[l := m[r]][r := m[l]]
  }

  ghost predicate InRange(n: nat, steps: seq<int>) {
    forall i | 0 <= i < |steps| :: 0 <= steps[i] < n
  }

  /** Whole swaps of tiles below n. */
  ghost predicate Swaps(n: nat, steps: seq<int>) {
    |steps| % 2 == 0 && InRange(n, steps)
  }

  ghost function Mapping(n: nat, steps: seq<int>): (m: seq<nat>)
    requires Swaps(n, steps)
    ensures IsMap(m, n)
  {
    if steps == [] then Identity(n) else
    var k := |steps| - 2;
    Swap(Mapping(n, steps[..k]), steps[k], steps[k + 1])
  }

  /** The first out-of-range swap stops the building. */
  ghost predicate FirstBad(n: nat, steps: seq<int>, k: nat) {
    && k % 2 == 0 && k + 1 < |steps| && InRange(n, steps[..k])
    && !(0 <= steps[k] < n && 0 <= steps[k + 1] < n)
  }

  method BuildSliderTileMapping(gridSize: int, activeSteps: seq<int>) returns (r: Result<seq<nat>>)
    ensures gridSize == 0 ==> r == Err(BadTileCount(0))
    ensures gridSize != 0 && |activeSteps| % 2 != 0 ==> r == Err(OddSteps(|activeSteps|))
    ensures gridSize != 0 && |activeSteps| % 2 == 0 ==>
              var n := gridSize * gridSize;
              match r
              case Ok(m) => n > 0 && Swaps(n, activeSteps) && m == Mapping(n, activeSteps)
              case Err(e) =>
                n > 0 && exists k: nat ::
                  FirstBad(n, activeSteps, k) && e == OutOfRange(activeSteps[k], activeSteps[k + 1])
  {
    var tileCount := gridSize * gridSize;
    if tileCount <= 0 {
      SquareSign(gridSize);
      return Err(BadTileCount(tileCount));
    }
    if |activeSteps| % 2 != 0 {
      return Err(OddSteps(|activeSteps|));
    }
    var mapping := new nat[tileCount];
    for i := 0 to tileCount
      invariant forall j | 0 <= j < i :: mapping[j] == j
    {
      mapping[i] := i;
    }
    var idx: nat := 0;
    assert activeSteps[..0] == [] && mapping[..] == Identity(tileCount);
    while idx < |activeSteps|
      invariant idx <= |activeSteps| && idx % 2 == 0
      invariant Swaps(tileCount, activeSteps[..idx])
      invariant mapping[..] == Mapping(tileCount, activeSteps[..idx])
    {
      var left := activeSteps[idx];
      var right := activeSteps[idx + 1];
      if left < 0 || right < 0 || left >= tileCount || right >= tileCount {
        assert FirstBad(tileCount, activeSteps, idx);
        return Err(OutOfRange(left, right));
      }
      MappingStep(tileCount, activeSteps, idx);
      mapping[left], mapping[right] := mapping[right], mapping[left];
      idx := idx + 2;
    }
    assert activeSteps[..idx] == activeSteps;
    return Ok(mapping[..]);
  }

  lemma SquareSign(g: int)
    ensures g * g >= 0 && (g * g == 0 ==> g == 0)
  {
    if g < 0 {
      assert g * g == (-g) * (-g);
    }
  }

  lemma MappingStep(n: nat, steps: seq<int>, k: nat)
    requires k % 2 == 0 && k + 1 < |steps| && Swaps(n, steps[..k])
    requires 0 <= steps[k] < n && 0 <= steps[k + 1] < n
    ensures Swaps(n, steps[..k + 2])
    ensures Mapping(n, steps[..k + 2]) == Swap(Mapping(n, steps[..k]), steps[k], steps[k + 1])
  {
    var s := steps[..k + 2];
    assert s[..k] == steps[..k];
    assert forall i | 0 <= i < k :: s[i] == steps[..k][i];
  }

  // ---- Swap lists compose ----

  ghost function Compose(p: seq<nat>, q: seq<nat>): (c: seq<nat>)
    requires IsMap(q, |p|)
    ensures |c| == |p| && forall i | 0 <= i < |c| :: c[i] == p[q[i]]
  {
    seq(|p|, i requires 0 <= i < |p| => p[q[i]])
  }

  lemma ComposeIsMap(p: seq<nat>, q: seq<nat>)
    requires IsMap(p, |p|) && IsMap(q, |p|)
    ensures IsMap(Compose(p, q), |p|)
  {
  }

  lemma ComposeSwap(p: seq<nat>, q: seq<nat>, l: nat, r: nat)
    requires IsMap(q, |p|) && l < |p| && r < |p|
    ensures Compose(p, Swap(q, l, r)) == Swap(Compose(p, q), l, r)
  {
  }

  lemma ComposeIdentity(p: seq<nat>)
    requires IsMap(p, |p|)
    ensures Compose(p, Identity(|p|)) == p && Compose(Identity(|p|), p) == p
  {
  }

  lemma SwapsConcat(n: nat, a: seq<int>, b: seq<int>)
    requires Swaps(n, a) && Swaps(n, b)
    ensures Swaps(n, a + b)
  {
  }

  /** Appending swaps composes the maps. */
  lemma {:induction false} MappingConcat(n: nat, a: seq<int>, b: seq<int>)
    requires Swaps(n, a) && Swaps(n, b)
    ensures Swaps(n, a + b) && Mapping(n, a + b) == Compose(Mapping(n, a), Mapping(n, b))
    decreases |b|
  {
    hide Compose, Swap;
    SwapsConcat(n, a, b);
    if b == [] {
      assert a + b == a;
      ComposeIdentity(Mapping(n, a));
    } else {
      var k := |b| - 2;
      MappingConcat(n, a, b[..k]);
      assert (a + b)[..|a| + k] == a + b[..k];
      ComposeSwap(Mapping(n, a), Mapping(n, b[..k]), b[k], b[k + 1]);
    }
  }

  function Reverse(s: seq<int>): (r: seq<int>)
    ensures |r| == |s| && forall i | 0 <= i < |s| :: r[i] == s[|s| - 1 - i]
  {
    seq(|s|, i requires 0 <= i < |s| => s[|s| - 1 - i])
  }

  lemma ReverseSwaps(n: nat, a: seq<int>)
    requires Swaps(n, a)
    ensures Swaps(n, Reverse(a)) && Reverse(Reverse(a)) == a
  {
  }

  /** A swap exchanges two entries, leaves the others, and loses none. */
  lemma SwapExchanges(m: seq<nat>, l: nat, r: nat)
    requires l < |m| && r < |m|
    ensures var s := Swap(m, l, r);
            && s[l] == m[r] && s[r] == m[l] && (forall i | 0 <= i < |m| && i != l && i != r :: s[i] == m[i])
            && multiset(s) == multiset(m)
  {
  }

  lemma SwapTwice(m: seq<nat>, l: nat, r: nat)
    requires l < |m| && r < |m|
    ensures Swap(Swap(m, l, r), r, l) == m
  {
  }

  /** One more swap at the end is made last. */
  lemma MappingSnoc(n: nat, a: seq<int>, l: int, r: int)
    requires Swaps(n, a) && 0 <= l < n && 0 <= r < n
    ensures Swaps(n, a + [l, r]) && Mapping(n, a + [l, r]) == Swap(Mapping(n, a), l, r)
  {
    hide Swap, Mapping;
    var s := a + [l, r];
    assert s[..|a|] == a && s[..|a| + 2] == s;
    MappingStep(n, s, |a|);
  }

  lemma WholeSwaps(n: nat, a: seq<int>)
    requires Swaps(n, a) && a != []
    ensures var k := |a| - 2;
            && k >= 0 && Swaps(n, a[..k]) && 0 <= a[k] < n && 0 <= a[k + 1] < n
            && a == a[..k] + [a[k], a[k + 1]]
  {
  }

  /** Swapping once more in reverse takes the last swap back. */
  lemma LastSwapUndone(n: nat, a: seq<int>, l: int, r: int)
    requires Swaps(n, a) && 0 <= l < n && 0 <= r < n
    ensures Swaps(n, a + [l, r]) && Swaps(n, a + [l, r] + [r, l]) && Mapping(n, a + [l, r] + [r, l]) == Mapping(n, a)
  {
    hide Swap, Mapping, Swaps;
    MappingSnoc(n, a, l, r);
    MappingSnoc(n, a + [l, r], r, l);
    SwapTwice(Mapping(n, a), l, r);
  }

  lemma ReverseSnoc(a: seq<int>, l: int, r: int)
    ensures Reverse(a + [l, r]) == [r, l] + Reverse(a)
  {
  }

  lemma Regroup(a: seq<int>, b: seq<int>, c: seq<int>)
    ensures a + (b + c) == a + b + c
  {
  }

  /** Replaying the swaps backwards restores the identity. */
  lemma {:induction false} ReverseUndoes(n: nat, a: seq<int>)
    requires Swaps(n, a)
    ensures Swaps(n, a + Reverse(a)) && Mapping(n, a + Reverse(a)) == Identity(n)
    decreases |a|
  {
    hide Mapping, Compose, Swaps, Reverse;
    if a == [] {
      NothingReversed(n);
    } else {
      WholeSwaps(n, a);
      var k := |a| - 2;
      var rest, l, r := a[..k], a[k], a[k + 1];
      LastSwapUndone(n, rest, l, r);
      ReverseSnoc(rest, l, r);
      Regroup(a, [r, l], Reverse(rest));
      ReverseSwaps(n, rest);
      MappingConcat(n, a + [r, l], Reverse(rest));
      MappingConcat(n, rest, Reverse(rest));
      ReverseUndoes(n, rest);
    }
  }

  lemma NothingReversed(n: nat)
    ensures Swaps(n, [] + Reverse([])) && Mapping(n, [] + Reverse([])) == Identity(n)
  {
    assert [] + Reverse([]) == [];
  }

  /** Every swap list builds a bijection, undone on either side by the reversed list. */
  lemma MappingIsBijection(n: nat, a: seq<int>)
    requires Swaps(n, a)
    ensures Swaps(n, Reverse(a))
    ensures var m, u := Mapping(n, a), Mapping(n, Reverse(a));
            && Compose(m, u) == Identity(n) && Compose(u, m) == Identity(n)
            && (forall i, j | 0 <= i < n && 0 <= j < n && m[i] == m[j] :: i == j)
            && (forall t | 0 <= t < n :: t in m)
  {
    hide Mapping;
    ReverseSwaps(n, a);
    ReverseUndoes(n, a);
    ReverseUndoes(n, Reverse(a));
    MappingConcat(n, a, Reverse(a));
    MappingConcat(n, Reverse(a), a);
    var m, u := Mapping(n, a), Mapping(n, Reverse(a));
    forall i, j | 0 <= i < n && 0 <= j < n && m[i] == m[j]
      ensures i == j
    {
      assert Compose(u, m)[i] == Compose(u, m)[j];
    }
    forall t | 0 <= t < n
      ensures t in m
    {
      assert Compose(m, u)[t] == m[u[t]];
    }
  }

  // ---- Candidates ----

  /** The swaps of candidate k: the first k of the list, all of them when there are fewer. */
  function BuildSliderActiveSteps(swaps: seq<int>, candidateIndex: int): (steps: seq<int>)
    ensures steps <= swaps
    ensures candidateIndex <= 0 ==> steps == []
    ensures candidateIndex > 0 && 2 * candidateIndex <= |swaps| ==> |steps| == 2 * candidateIndex
    ensures 2 * candidateIndex > |swaps| ==> steps == swaps
  {
    if candidateIndex <= 0 then [] else
    var end := if candidateIndex * 2 > |swaps| then |swaps| else candidateIndex * 2;
    swaps[..end]
  }

  /** Each candidate makes one more swap than the one before. */
  lemma CandidateSwapsOnce(n: nat, swaps: seq<int>, k: nat)
    requires Swaps(n, swaps) && 2 * k + 2 <= |swaps|
    ensures var a, b := BuildSliderActiveSteps(swaps, k), BuildSliderActiveSteps(swaps, k + 1);
            && Swaps(n, a) && Swaps(n, b)
            && Mapping(n, b) == Swap(Mapping(n, a), swaps[2 * k], swaps[2 * k + 1])
  {
    hide Mapping;
    assert swaps[..2 * k] == BuildSliderActiveSteps(swaps, k);
    assert swaps[..2 * k + 2] == BuildSliderActiveSteps(swaps, k + 1);
    MappingStep(n, swaps, 2 * k);
  }
}
