/**
 Dispatch in the packet hub of internal/core/turn_client.go: every packet advances a cyclic
 counter and goes to the first ready stream from there on.
 */
module Hub {
  import opened Wrappers

  /** The stream d places after `from`, going round. */
  function At(from: nat, d: nat, n: nat): (s: nat)
    requires n > 0
    ensures s < n
    ensures from < n && d < n ==> s == if from + d < n then from + d else from + d - n
  {
    if from < n && d < n then (if from + d < n then from + d else from + d - n) else (from + d) % n
  }

  /** The remainder the source computes is that place. */
  lemma AtIsRemainder(from: nat, d: nat, n: nat)
    requires from < n && d < n
    ensures (from + d) % n == At(from, d, n)
  {
    var x, q, r := from + d, (from + d) / n, (from + d) % n;
    assert x == q * n + r;
    if 2 <= q {
      TwiceOrMore(q, n);
    }
    assert q == 0 || q == 1;
  }

  lemma TwiceOrMore(q: nat, n: nat)
    requires 2 <= q
    ensures 2 * n <= q * n
  {
    assert q * n == 2 * n + (q - 2) * n;
  }

  /** The first ready stream, going round from stream `from`, is d places on. */
  ghost predicate FirstReady(ready: seq<bool>, from: nat, d: nat)
    requires ready != []
  {
    && from < |ready| && d < |ready|
    && ready[At(from, d, |ready|)]
    && forall e: nat | e < d :: !ready[At(from, e, |ready|)]
  }

  method PickStream(ready: seq<bool>, lastUsed: nat) returns (s: Option<nat>)
    requires lastUsed < |ready|
    ensures s.None? <==> forall i | 0 <= i < |ready| :: !ready[i]
    ensures s.Some? ==> exists d :: FirstReady(ready, lastUsed, d) && s.value == At(lastUsed, d, |ready|)
  {
    var n := |ready|;
    for i := 0 to n
      invariant forall e: nat | e < i :: !ready[At(lastUsed, e, n)]
    {
      var st := (lastUsed + i) % n;
      AtIsRemainder(lastUsed, i, n);
      if ready[st] {
        assert FirstReady(ready, lastUsed, i);
        return Some(st);
      }
    }
    forall k | 0 <= k < n
      ensures !ready[k]
    {
      assert At(lastUsed, Distance(lastUsed, k, n), n) == k;
    }
    return None;
  }

  // ---- Who gets a packet ----

  /** Places forward from stream a to stream b, 0 if they are the same. */
  function Distance(a: nat, b: nat, n: nat): (d: nat)
    requires a < n && b < n
    ensures d < n
    ensures At(a, d, n) == b
  {
    if a <= b then b - a else b + n - a
  }

  /** The ready stream nearest to counter value u, going forward. */
  ghost predicate Receives(ready: seq<bool>, u: nat, s: nat) {
    && u < |ready| && s < |ready| && ready[s]
    && forall r: nat | r < |ready| && ready[r] :: Distance(u, s, |ready|) <= Distance(u, r, |ready|)
  }

  lemma PickIsNearest(ready: seq<bool>, u: nat, d: nat)
    requires ready != [] && FirstReady(ready, u, d)
    ensures Receives(ready, u, At(u, d, |ready|))
  {
    var n := |ready|;
    assert Distance(u, At(u, d, n), n) == d;
    forall r: nat | r < n && ready[r]
      ensures d <= Distance(u, r, n)
    {
      assert At(u, Distance(u, r, n), n) == r;
    }
  }

  lemma OneReceiver(ready: seq<bool>, u: nat, s: nat, t: nat)
    requires Receives(ready, u, s) && Receives(ready, u, t)
    ensures s == t
  {
    assert Distance(u, s, |ready|) == Distance(u, t, |ready|);
  }

  /** The state of the hub loop that outlives a packet. */
  class Dispatcher {
    const nStreams: nat
    var lastUsed: nat

    ghost predicate Valid()
      reads this
    {
      lastUsed < nStreams
    }

    constructor (nStreams: nat)
      requires nStreams > 0
      ensures Valid() && this.nStreams == nStreams && lastUsed == 0
    {
      this.nStreams := nStreams;
      lastUsed := 0;
    }

    /** One packet: the counter moves on, ready streams or not, and the nearest ready stream from there is chosen. */
    method Dispatch(ready: seq<bool>) returns (s: Option<nat>)
      requires Valid() && |ready| == nStreams
      modifies this
      ensures Valid() && lastUsed == (old(lastUsed) + 1) % nStreams
      ensures s.Some? ==> Receives(ready, lastUsed, s.value)
      ensures s.None? <==> forall i | 0 <= i < |ready| :: !ready[i]
    {
      lastUsed := (lastUsed + 1) % nStreams;
      s := PickStream(ready, lastUsed);
      if s.Some? {
        ghost var d :| FirstReady(ready, lastUsed, d) && s.value == At(lastUsed, d, |ready|);
        PickIsNearest(ready, lastUsed, d);
      }
    }
  }

  // ---- Fairness ----

  /** The ready stream before s, going round; s itself when no other is ready. */
  ghost predicate Previous(ready: seq<bool>, p: nat, s: nat) {
    && p < |ready| && s < |ready| && ready[p] && ready[s]
    && (p == s ==> forall r: nat | r < |ready| && ready[r] :: r == s)
    && (p != s ==>
          forall r: nat | r < |ready| && ready[r] && r != s :: Distance(p, s, |ready|) <= Distance(r, s, |ready|))
  }

  lemma HasPrevious(ready: seq<bool>, s: nat) returns (p: nat)
    requires s < |ready| && ready[s]
    ensures Previous(ready, p, s)
  {
    p := s;
    for r := 0 to |ready|
      invariant p < |ready| && ready[p]
      invariant p == s ==> forall q: nat | q < r && ready[q] :: q == s
      invariant p != s ==>
                  forall q: nat | q < r && ready[q] && q != s :: Distance(p, s, |ready|) <= Distance(q, s, |ready|)
    {
      if ready[r] && r != s && (p == s || Distance(r, s, |ready|) < Distance(p, s, |ready|)) {
        p := r;
      }
    }
  }

  /** A stream's share of a round: its distance from the previous ready stream, the whole round if there is none. */
  function Share(p: nat, s: nat, n: nat): (k: nat)
    requires p < n && s < n
    ensures 1 <= k <= n
  {
    if p == s then n else Distance(p, s, n)
  }

  /** A packet reaches s exactly when the counter stands on one of the Share(p, s) places up to s. */
  lemma ReceivesExactly(ready: seq<bool>, p: nat, s: nat, u: nat)
    requires Previous(ready, p, s) && u < |ready|
    ensures Receives(ready, u, s) <==> Distance(u, s, |ready|) < Share(p, s, |ready|)
  {
    var n := |ready|;
    if Distance(u, s, n) < Share(p, s, n) {
      forall r: nat | r < n && ready[r]
        ensures Distance(u, s, n) <= Distance(u, r, n)
      {
        assert r != s ==> Distance(p, s, n) <= Distance(r, s, n);
      }
    } else {
      assert Distance(u, p, n) < Distance(u, s, n);
    }
  }

  /** The packets s gets out of the k packets that follow counter value u0. */
  ghost function Count(ready: seq<bool>, u0: nat, s: nat, k: nat): nat
    requires u0 < |ready| && k <= |ready|
  {
    if k == 0 then 0 else Count(ready, u0, s, k - 1) + if Receives(ready, Turn(u0, k, |ready|), s) then 1 else 0
  }

  /** The counter at the k-th packet of the round. */
  function Turn(u0: nat, k: nat, n: nat): (u: nat)
    requires u0 < n && k <= n
    ensures u < n
  {
    if k == n then u0 else At(u0, k, n)
  }

  /** One packet advances the counter by one, modulo the number of streams. */
  lemma TurnAdvances(u0: nat, k: nat, n: nat)
    requires u0 < n && k < n
    ensures Turn(u0, k + 1, n) == (Turn(u0, k, n) + 1) % n
  {
    hide Turn;
    var u := Turn(u0, k, n);
    TurnStep(u0, k, n);
    if u + 1 == n {
      OneMore(n);
    } else {
      AtIsRemainder(u, 1, n);
    }
  }

  lemma OneMore(n: nat)
    requires n > 0
    ensures n % n == 0
  {
  }

  lemma TurnStep(u0: nat, k: nat, n: nat)
    requires u0 < n && k < n
    ensures Turn(u0, k + 1, n) == if Turn(u0, k, n) + 1 == n then 0 else Turn(u0, k, n) + 1
  {
  }

  function Max0(x: int): nat { if x > 0 then x else 0 }

  function Min(x: int, y: int): int { if x < y then x else y }

  /** Counter values within m places of s among the first k of a round, in closed form. */
  lemma {:induction false} CountClosed(ready: seq<bool>, p: nat, u0: nat, s: nat, k: nat)
    requires Previous(ready, p, s) && u0 < |ready| && k <= |ready|
    ensures var n, m, e := |ready|, Share(p, s, |ready|), Distance(u0, s, |ready|);
            Count(ready, u0, s, k) == Closed(n, m, e, k)
    decreases k
  {
    hide Previous, Receives, Closed, Distance, Turn, Share;
    PreviousInRange(ready, p, s);
    if k == 0 {
      ClosedStart(|ready|, Share(p, s, |ready|), Distance(u0, s, |ready|));
    } else {
      CountClosed(ready, p, u0, s, k - 1);
      ReceivesExactly(ready, p, s, Turn(u0, k, |ready|));
      ClosedNext(|ready|, Share(p, s, |ready|), u0, s, k);
    }
  }

  lemma PreviousInRange(ready: seq<bool>, p: nat, s: nat)
    requires Previous(ready, p, s)
    ensures p < |ready| && s < |ready|
  {
  }

  /** Of k values after a counter e places before a stream, those on the m places up to it. */
  ghost function Closed(n: nat, m: nat, e: nat, k: nat): nat { Max0(Min(k, e) - Max0(e - m)) + Max0(k - (n + e - m)) }

  lemma ClosedStart(n: nat, m: nat, e: nat)
    requires e < n && m <= n
    ensures Closed(n, m, e, 0) == 0
  {
  }

  lemma ClosedNext(n: nat, m: nat, u0: nat, s: nat, k: nat)
    requires u0 < n && s < n && 1 <= m <= n && 0 < k <= n
    ensures var e := Distance(u0, s, n);
            Closed(n, m, e, k) == Closed(n, m, e, k - 1) + if Distance(Turn(u0, k, n), s, n) < m then 1 else 0
  {
  }

  /** With the ready set fixed over a round, each ready stream is offered exactly its share. */
  lemma ExactShares(ready: seq<bool>, p: nat, u0: nat, s: nat)
    requires Previous(ready, p, s) && u0 < |ready|
    ensures Count(ready, u0, s, |ready|) == Share(p, s, |ready|)
  {
    CountClosed(ready, p, u0, s, |ready|);
  }

  /** With all streams ready, exactly one packet each. */
  lemma OneEach(ready: seq<bool>, u0: nat, s: nat)
    requires u0 < |ready| && s < |ready| && forall i | 0 <= i < |ready| :: ready[i]
    ensures Count(ready, u0, s, |ready|) == 1
  {
    var n := |ready|;
    var p := if s == 0 then n - 1 else s - 1;
    assert p != s ==> Distance(p, s, n) == 1;
    assert forall r: nat | r < n && r != s :: 1 <= Distance(r, s, n);
    ExactShares(ready, p, u0, s);
  }

  /** Offers to the streams below m. */
  ghost function Offers(ready: seq<bool>, u0: nat, k: nat, m: nat): nat
    requires u0 < |ready| && k <= |ready|
  {
    if m == 0 then 0 else Offers(ready, u0, k, m - 1) + Count(ready, u0, m - 1, k)
  }

  lemma {:induction false} OffersStep(ready: seq<bool>, u0: nat, k: nat, m: nat, s: nat)
    requires u0 < |ready| && 0 < k <= |ready| && Receives(ready, Turn(u0, k, |ready|), s)
    ensures Offers(ready, u0, k, m) == Offers(ready, u0, k - 1, m) + if s < m then 1 else 0
    decreases m
  {
    hide Receives;
    if m > 0 {
      OffersStep(ready, u0, k, m - 1, s);
      if Receives(ready, Turn(u0, k, |ready|), m - 1) {
        OneReceiver(ready, Turn(u0, k, |ready|), m - 1, s);
      }
    }
  }

  lemma {:induction false} NoOffers(ready: seq<bool>, u0: nat, m: nat)
    requires u0 < |ready|
    ensures Offers(ready, u0, 0, m) == 0
    decreases m
  {
    if m > 0 {
      NoOffers(ready, u0, m - 1);
    }
  }

  /** Nothing is offered twice or lost: the offers of all streams add up to the packets. */
  lemma {:induction false} OffersAddUp(ready: seq<bool>, u0: nat, k: nat, s: nat)
    requires u0 < |ready| && k <= |ready| && s < |ready| && ready[s]
    ensures Offers(ready, u0, k, |ready|) == k
    decreases k
  {
    hide Receives, Count, Offers;
    if k == 0 {
      NoOffers(ready, u0, |ready|);
    } else {
      OffersAddUp(ready, u0, k - 1, s);
      var r := SomeReceiver(ready, Turn(u0, k, |ready|), s);
      OffersStep(ready, u0, k, |ready|, r);
      ReceiverInRange(ready, Turn(u0, k, |ready|), r);
    }
  }

  lemma ReceiverInRange(ready: seq<bool>, u: nat, r: nat)
    requires Receives(ready, u, r)
    ensures r < |ready|
  {
  }

  lemma SomeReceiver(ready: seq<bool>, u: nat, s: nat) returns (r: nat)
    requires u < |ready| && s < |ready| && ready[s]
    ensures Receives(ready, u, r)
  {
    r := s;
    for q := 0 to |ready|
      invariant r < |ready| && ready[r]
      invariant forall t: nat | t < q && ready[t] :: Distance(u, r, |ready|) <= Distance(u, t, |ready|)
    {
      if ready[q] && Distance(u, q, |ready|) < Distance(u, r, |ready|) {
        r := q;
      }
    }
  }
}
