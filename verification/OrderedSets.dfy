/**
 Lists used as sets: the "seen map" loops of internal/core/vk_hosts.go, resolver.go
 and wb.go keep the first occurrence of every element, in order.
 */
module OrderedSets {

  function Dedup<T(==)>(s: seq<T>): (r: seq<T>)
    decreases |s|
  {
    if s == [] then []
    else
      var n := |s| - 1;
      var d := Dedup(s[..n]);
      if s[n] in d then d else d + [s[n]]
  }

  ghost predicate NoDuplicates<T>(s: seq<T>) {
    forall i, j | 0 <= i < j < |s| :: s[i] != s[j]
  }

  /** r lists the elements of s without repetition, in the order of their first occurrences. */
  ghost predicate IsDedup<T(!new)>(s: seq<T>, r: seq<T>) {
    && NoDuplicates(r)
    && (forall x :: x in r <==> x in s)
    && (forall i, j | 0 <= i < j < |r| :: FirstIndex(s, r[i]) < FirstIndex(s, r[j]))
  }

  ghost function FirstIndex<T>(s: seq<T>, x: T): (i: nat)
    ensures i <= |s|
    ensures forall k | 0 <= k < i :: s[k] != x
    ensures i < |s| ==> s[i] == x
  {
    if s == [] || s[0] == x then 0 else FirstIndex(s[1..], x) + 1
  }

  lemma FirstIndexSnoc<T>(s: seq<T>, y: T, x: T)
    ensures FirstIndex(s + [y], x) == if x in s then FirstIndex(s, x) else if x == y then |s| else |s| + 1
  {
    var i := FirstIndex(s + [y], x);
    var k := FirstIndex(s, x);
    assert forall j | 0 <= j < |s| :: (s + [y])[j] == s[j];
    assert (s + [y])[|s|] == y;
  }

  lemma {:induction false} DedupIsDedup<T(!new)>(s: seq<T>)
    ensures IsDedup(s, Dedup(s))
    decreases |s|
  {
    if s != [] {
      var n := |s| - 1;
      var d, r := Dedup(s[..n]), Dedup(s);
      DedupIsDedup(s[..n]);
      assert s == s[..n] + [s[n]];
      forall i, j | 0 <= i < j < |r|
        ensures FirstIndex(s, r[i]) < FirstIndex(s, r[j])
      {
        FirstIndexSnoc(s[..n], s[n], r[i]);
        FirstIndexSnoc(s[..n], s[n], r[j]);
      }
    }
  }

  lemma {:induction false} DedupMembers<T(!new)>(s: seq<T>)
    ensures forall x :: x in Dedup(s) <==> x in s
    ensures NoDuplicates(Dedup(s))
    decreases |s|
  {
    if s != [] {
      var n := |s| - 1;
      DedupMembers(s[..n]);
      assert s == s[..n] + [s[n]];
    }
  }

  lemma {:induction false} DedupOfDistinct<T>(s: seq<T>)
    requires NoDuplicates(s)
    ensures Dedup(s) == s
    decreases |s|
  {
    if s != [] {
      var n := |s| - 1;
      DedupOfDistinct(s[..n]);
      assert s == s[..n] + [s[n]];
    }
  }

  /** A front part may be deduplicated first. */
  lemma {:induction false} DedupFront<T(!new)>(a: seq<T>, b: seq<T>)
    ensures Dedup(Dedup(a) + b) == Dedup(a + b)
    decreases |b|
  {
    if b == [] {
      assert Dedup(a) + b == Dedup(a) && a + b == a;
      DedupMembers(a);
      DedupOfDistinct(Dedup(a));
    } else {
      var n := |b| - 1;
      DedupFront(a, b[..n]);
      assert (a + b)[..|a + b| - 1] == a + b[..n];
      assert (Dedup(a) + b)[..|Dedup(a) + b| - 1] == Dedup(a) + b[..n];
    }
  }

  /** So may a back part. */
  lemma {:induction false} DedupBack<T(!new)>(a: seq<T>, b: seq<T>)
    ensures Dedup(a + Dedup(b)) == Dedup(a + b)
    decreases |b|
  {
    if b == [] {
    } else {
      var n := |b| - 1;
      var d := Dedup(b[..n]);
      DedupBack(a, b[..n]);
      DedupMembers(a + b[..n]);
      DedupMembers(b[..n]);
      assert (a + b)[..|a + b| - 1] == a + b[..n];
      if b[n] in d {
        assert b[n] in a + b[..n];
      } else {
        assert (a + (d + [b[n]]))[..|a| + |d|] == a + d;
      }
    }
  }

  /** Adding elements never changes what is already there. */
  lemma {:induction false} DedupPrefix<T>(a: seq<T>, b: seq<T>)
    ensures Dedup(a) <= Dedup(a + b)
    decreases |b|
  {
    if b == [] {
      assert a + b == a;
    } else {
      var n := |b| - 1;
      DedupPrefix(a, b[..n]);
      assert (a + b)[..|a + b| - 1] == a + b[..n];
    }
  }
}
