/** Known addresses of the VK hosts and their metrics (internal/core/vk_hosts.go). */
module Hosts {
  import opened Wrappers
  import opened OrderedSets
  import opened Separated
  import opened Rounding

  const HOUR: int := 3_600_000_000_000

  const MILLISECOND: nat := 1_000_000

  /** What is known of one address; times are in nanoseconds. */
  datatype Metric = Metric(ip: string, rtt: int, rate: real, lastSeen: int, failCount: int, totalTries: int,
                           totalOK: int)

  /** The metric of an address nothing was recorded for. */
  function NoMetric(ip: string): Metric { Metric(ip, 0, 0.0, 0, 0, 0, 0) }

  function MetricKey(domain: string, ip: string): string { domain + ":" + ip }

  /** Unless one domain goes on with a colon where the other ends, keys tell their addresses apart. */
  lemma KeysDiffer(d: string, i: string, e: string, j: string)
    requires !Ambiguous(':', d, e)
    ensures MetricKey(d, i) == MetricKey(e, j) <==> d == e && i == j
  {
    KeyDetermines(':', d, i, e, j);
  }

  /** Two domains can have a key in common exactly in that case. */
  lemma KeysCollideExactly(d: string, e: string)
    ensures (exists i, j :: (d != e || i != j) && MetricKey(d, i) == MetricKey(e, j)) <==> Ambiguous(':', d, e)
  {
    hide MetricKey;
    if Ambiguous(':', d, e) {
      var i, j := AmbiguousCollide(':', d, e);
      KeyIsJoined(d, i);
      KeyIsJoined(e, j);
      assert MetricKey(d, i) == MetricKey(e, j);
    } else {
      forall i, j | MetricKey(d, i) == MetricKey(e, j)
        ensures d == e && i == j
      {
        KeysDiffer(d, i, e, j);
      }
    }
  }

  lemma KeyIsJoined(domain: string, ip: string)
    ensures MetricKey(domain, ip) == Joined(domain, ':', ip)
  {
  }

  lemma KeyParts(domain: string, ip: string)
    ensures MetricKey(domain, ip)[..|domain|] == domain && MetricKey(domain, ip)[|domain| + 1..] == ip
  {
  }

  /** A host name and a host name with a port, for instance. */
  lemma KeysMayCollide()
    ensures MetricKey("a", "b:c") == MetricKey("a:b", "c")
  {
  }

  // ---- Scores ----

  /** A score; a round-trip time of -1 ms, which only a cache file can hold, makes it infinite. */
  datatype Value = Finite(r: real) | Infinite

  predicate Above(a: Value, b: Value) {
    match a
    case Infinite => b.Finite?
    case Finite(x) => b.Finite? && x > b.r
  }

  function Score(m: Metric, now: int): Value {
    if m.rate < 0.1 then Finite(0.0)
    else if m.failCount > 5 && now - m.lastSeen > HOUR then Finite(0.0)
    else
      var ms := Trunc(m.rtt, MILLISECOND);
      if ms == -1 then Infinite else Finite(m.rate * (1000.0 / (ms as real + 1.0)))
  }

  /** Hopeless addresses score 0; others their success rate times 1000, per millisecond and one more. */
  lemma ScoreExactly(m: Metric, now: int, ms: int)
    requires TowardsZero(ms, m.rtt, 1_000_000)
    ensures var s := Score(m, now);
            if m.rate * 10.0 < 1.0 || (m.failCount > 5 && now - m.lastSeen > 3_600_000_000_000) then s == Finite(0.0)
            else if ms == -1 then s == Infinite
            else s.Finite? && s.r * (ms as real + 1.0) == m.rate * 1000.0
  {
    TruncExactly(m.rtt, MILLISECOND);
    assert Trunc(m.rtt, MILLISECOND) == ms;
    if ms != -1 {
      var d := ms as real + 1.0;
      var q := 1000.0 / d;
      assert q * d == 1000.0;
      assert m.rate * q * d == m.rate * (q * d);
    }
  }

  /** An address without a metric counts like one that answers every other time, after 200 ms. */
  lemma UnknownExactly(metrics: map<string, Metric>, domain: string, ip: string, now: int)
    requires MetricKey(domain, ip) !in metrics
    ensures var m := Metric(ip, 200_000_000, 0.5, now, 0, 2, 1); ScoreOf(metrics, domain, ip, now) == Score(m, now)
  {
  }

  /** The score of an address without a metric: half the connections succeed, in 200 ms. */
  const UNKNOWN: real := 0.5 * (1000.0 / (200.0 + 1.0))

  function ScoreOf(metrics: map<string, Metric>, domain: string, ip: string, now: int): Value {
    var key := MetricKey(domain, ip);
    if key in metrics then Score(metrics[key], now) else Finite(UNKNOWN)
  }

  /** The first of the highest scores, if that is above -1. */
  ghost predicate IsBest(metrics: map<string, Metric>, domain: string, ips: seq<string>, now: int, i: nat) {
    && i < |ips|
    && Above(ScoreOf(metrics, domain, ips[i], now), Finite(-1.0))
    && (forall j | 0 <= j < i :: Above(ScoreOf(metrics, domain, ips[i], now), ScoreOf(metrics, domain, ips[j], now)))
    && (forall j | i < j < |ips| ::
          !Above(ScoreOf(metrics, domain, ips[j], now), ScoreOf(metrics, domain, ips[i], now)))
  }

  /** Among finite scores the best address is the first of the greatest, if that is above -1. */
  lemma FirstOfGreatest(metrics: map<string, Metric>, domain: string, ips: seq<string>, now: int, i: nat)
    requires i < |ips| && forall j | 0 <= j < |ips| :: ScoreOf(metrics, domain, ips[j], now).Finite?
    ensures var best := ScoreOf(metrics, domain, ips[i], now).r;
            IsBest(metrics, domain, ips, now, i)
            <==> && best > -1.0
                 && (forall j | 0 <= j < i :: ScoreOf(metrics, domain, ips[j], now).r < best)
                 && (forall j | i < j < |ips| :: ScoreOf(metrics, domain, ips[j], now).r <= best)
  {
    hide ScoreOf;
  }

  /** An infinite score wins, the first if there are several. */
  lemma FirstInfinite(metrics: map<string, Metric>, domain: string, ips: seq<string>, now: int, i: nat)
    requires i < |ips| && ScoreOf(metrics, domain, ips[i], now).Infinite?
    ensures IsBest(metrics, domain, ips, now, i)
       <==> forall j | 0 <= j < i :: ScoreOf(metrics, domain, ips[j], now).Finite?
  {
    hide ScoreOf;
  }

  lemma BestIsUnique(metrics: map<string, Metric>, domain: string, ips: seq<string>, now: int, i: nat, j: nat)
    requires IsBest(metrics, domain, ips, now, i) && IsBest(metrics, domain, ips, now, j)
    ensures i == j
  {
    hide Score, Above;
  }

  /** There is a best address exactly when some score is above -1. */
  lemma BestExactly(metrics: map<string, Metric>, domain: string, ips: seq<string>, now: int)
    ensures (exists i: nat :: IsBest(metrics, domain, ips, now, i))
       <==> exists i | 0 <= i < |ips| :: Above(ScoreOf(metrics, domain, ips[i], now), Finite(-1.0))
  {
    hide ScoreOf;
    if k :| 0 <= k < |ips| && Above(ScoreOf(metrics, domain, ips[k], now), Finite(-1.0)) {
      var best: nat := 0;
      for i := 1 to |ips|
        invariant best < i
        invariant forall j | 0 <= j < best ::
                    Above(ScoreOf(metrics, domain, ips[best], now), ScoreOf(metrics, domain, ips[j], now))
        invariant forall j | best < j < i ::
                    !Above(ScoreOf(metrics, domain, ips[j], now), ScoreOf(metrics, domain, ips[best], now))
      {
        if Above(ScoreOf(metrics, domain, ips[i], now), ScoreOf(metrics, domain, ips[best], now)) {
          best := i;
        }
      }
      assert IsBest(metrics, domain, ips, now, best);
    }
  }

  /** Without negative round-trip times every score is above -1. */
  lemma OrdinaryScores(metrics: map<string, Metric>, domain: string, ip: string, now: int)
    requires forall k | k in metrics :: metrics[k].rtt >= 0
    ensures Above(ScoreOf(metrics, domain, ip, now), Finite(-1.0))
  {
    var key := MetricKey(domain, ip);
    if key in metrics && metrics[key].rate >= 0.1 {
      var m := metrics[key];
      Positive(m.rate, Trunc(m.rtt, MILLISECOND));
    }
  }

  lemma Positive(rate: real, ms: int)
    requires rate >= 0.1 && ms >= 0
    ensures rate * (1000.0 / (ms as real + 1.0)) >= 0.0
  {
    var q := 1000.0 / (ms as real + 1.0);
    assert q >= 0.0;
  }

  // ---- Merging ----

  method MergeUnique(a: seq<string>, b: seq<string>) returns (result: seq<string>)
    ensures result == Dedup(a + b)
  {
    hide Dedup;
    MergeStart(a, b);
    result := [];
    var seen: set<string> := {};
    for i := 0 to |a|
      invariant result == Dedup(a[..i]) && forall x :: x in seen <==> x in result
    {
      DedupStep(a, i);
      if a[i] !in seen {
        seen := seen + {a[i]};
        result := result + [a[i]];
      }
    }
    for i := 0 to |b|
      invariant result == Dedup(a + b[..i]) && forall x :: x in seen <==> x in result
    {
      MergeStep(a, b, i);
      if b[i] !in seen {
        seen := seen + {b[i]};
        result := result + [b[i]];
      }
    }
  }

  lemma MergeStart(a: seq<string>, b: seq<string>)
    ensures Dedup(a[..0]) == [] && a[..|a|] == a + b[..0] && b[..|b|] == b
  {
  }

  lemma MergeStep(a: seq<string>, b: seq<string>, i: nat)
    requires i < |b|
    ensures Dedup(a + b[..i + 1]) == if b[i] in Dedup(a + b[..i]) then Dedup(a + b[..i]) else Dedup(a + b[..i]) + [b[i]]
  {
    DedupStep(a + b, |a| + i);
    assert (a + b)[..|a| + i] == a + b[..i] && (a + b)[..|a| + i + 1] == a + b[..i + 1];
  }

  lemma DedupStep(s: seq<string>, i: nat)
    requires i < |s|
    ensures Dedup(s[..i + 1]) == if s[i] in Dedup(s[..i]) then Dedup(s[..i]) else Dedup(s[..i]) + [s[i]]
  {
    assert s[..i + 1][..i] == s[..i];
  }

  /** Merging is associative. */
  lemma MergeAssociative(a: seq<string>, b: seq<string>, c: seq<string>)
    ensures Dedup(Dedup(a + b) + c) == Dedup(a + Dedup(b + c))
  {
    hide Dedup;
    DedupFront(a + b, c);
    DedupBack(a, b + c);
    assert (a + b) + c == a + (b + c);
  }

  /** Growth of a list without repetitions tells whether a merge brought anything new. */
  lemma GrowsExactly(old': seq<string>, ips: seq<string>)
    requires NoDuplicates(old')
    ensures |Dedup(old' + ips)| > |old'| <==> exists x :: x in ips && x !in old'
  {
    var m := Dedup(old' + ips);
    DedupPrefix(old', ips);
    DedupOfDistinct(old');
    DedupMembers(old' + ips);
    if |m| > |old'| {
      assert m[|old'|] in m && m[..|old'|] == old';
      assert m[|old'|] !in old';
      assert m[|old'|] in old' + ips;
    }
    if x :| x in ips && x !in old' {
      assert x in old' + ips;
      assert x in m;
    }
  }

  /** A list with a repetition can gain an address without growing: the growth test is right exactly for lists
      without one. */
  lemma GrowthTestExactly(old': seq<string>)
    ensures (forall ips :: |Dedup(old' + ips)| > |old'| <==> exists x :: x in ips && x !in old') <==> NoDuplicates(old')
  {
    if NoDuplicates(old') {
      forall ips
        ensures |Dedup(old' + ips)| > |old'| <==> exists x :: x in ips && x !in old'
      {
        GrowsExactly(old', ips);
      }
    } else {
      var x := Fresh(old');
      DedupShorter(old');
      OneMore(old', x);
      assert x in [x] && !(|Dedup(old' + [x])| > |old'|);
    }
  }

  /** A string longer than all of a list. */
  lemma {:induction false} Fresh(s: seq<string>) returns (x: string)
    ensures forall y | y in s :: |y| < |x|
    decreases |s|
  {
    if s == [] {
      x := "";
    } else {
      var n := |s| - 1;
      x := Fresh(s[..n]);
      if |s[n]| >= |x| {
        x := s[n] + "x";
      }
      assert s == s[..n] + [s[n]];
    }
  }

  lemma OneMore(s: seq<string>, x: string)
    ensures |Dedup(s + [x])| <= |Dedup(s)| + 1
  {
    assert (s + [x])[..|s|] == s;
  }

  lemma {:induction false} DedupNoLonger(s: seq<string>)
    ensures |Dedup(s)| <= |s|
    decreases |s|
  {
    if s != [] {
      DedupNoLonger(s[..|s| - 1]);
    }
  }

  lemma {:induction false} DedupShorter(s: seq<string>)
    requires !NoDuplicates(s)
    ensures |Dedup(s)| < |s|
    decreases |s|
  {
    var i, j :| 0 <= i < j < |s| && s[i] == s[j];
    var n := |s| - 1;
    if j == n {
      DedupMembers(s[..n]);
      assert s[n] in s[..n];
      DedupNoLonger(s[..n]);
    } else {
      assert s[..n][i] == s[..n][j];
      DedupShorter(s[..n]);
    }
  }

  /** Two equal entries and a new one, for instance. */
  lemma GrowthMissed()
    ensures |Dedup(["x", "x"] + ["y"])| == 2
  {
    assert ["x", "x"] + ["y"] == ["x", "x", "y"];
    DedupStep(["x", "x", "y"], 0);
    DedupStep(["x", "x", "y"], 1);
    DedupStep(["x", "x", "y"], 2);
    assert ["x", "x", "y"][..3] == ["x", "x", "y"] && ["x", "x", "y"][..0] == [];
  }

  // ---- Records ----

  datatype Record = Success(rtt: int, now: int) | Failure

  /** A metric after one more connection. */
  function After(m: Metric, r: Record): Metric {
    match r
    case Success(rtt, now) =>
      m.(totalTries := m.totalTries + 1, totalOK := m.totalOK + 1, failCount := 0, lastSeen := now,
         rtt := if m.rtt == 0 then rtt else Trunc(7 * m.rtt + 3 * rtt, 10),
         rate := Ratio(m.totalOK + 1, m.totalTries + 1))
    case Failure =>
      m.(totalTries := m.totalTries + 1, failCount := m.failCount + 1, rate := Ratio(m.totalOK, m.totalTries + 1))
  }

  /** A division by zero, which only counts from a cache file can bring about, counts as 0. */
  function Ratio(a: int, b: int): real { if b == 0 then 0.0 else a as real / b as real }

  ghost function Replay(ip: string, rs: seq<Record>): Metric {
    if rs == [] then NoMetric(ip) else After(Replay(ip, rs[..|rs| - 1]), rs[|rs| - 1])
  }

  ghost function Successes(rs: seq<Record>): nat {
    if rs == [] then 0 else Successes(rs[..|rs| - 1]) + if rs[|rs| - 1].Success? then 1 else 0
  }

  /** Failures since the last success. */
  ghost function Trailing(rs: seq<Record>): nat {
    if rs == [] || rs[|rs| - 1].Success? then 0 else Trailing(rs[..|rs| - 1]) + 1
  }

  /** What the counts of a metric say about the records behind it. */
  lemma {:induction false} ReplayCounts(ip: string, rs: seq<Record>)
    ensures var m := Replay(ip, rs);
            && m.ip == ip && m.totalTries == |rs| && m.totalOK == Successes(rs) && m.failCount == Trailing(rs)
            && (rs != [] ==> m.rate == Successes(rs) as real / |rs| as real)
            && m.totalOK <= m.totalTries && m.failCount <= m.totalTries - m.totalOK
    decreases |rs|
  {
    if rs != [] {
      ReplayCounts(ip, rs[..|rs| - 1]);
    }
  }

  lemma {:induction false} FailuresLeave(ip: string, rs: seq<Record>, k: nat)
    requires k <= |rs| && forall j | k <= j < |rs| :: rs[j].Failure?
    ensures Replay(ip, rs).rtt == Replay(ip, rs[..k]).rtt && Replay(ip, rs).lastSeen == Replay(ip, rs[..k]).lastSeen
    decreases |rs|
  {
    if k == |rs| {
      assert rs[..k] == rs;
    } else {
      var n := |rs| - 1;
      FailuresLeave(ip, rs[..n], k);
      assert rs[..n][..k] == rs[..k];
    }
  }

  /** The last success is when an address was last seen, and counts three tenths in its round-trip time, the first
      success all of it. */
  lemma ReplayLast(ip: string, rs: seq<Record>, k: nat)
    requires k < |rs| && rs[k].Success? && forall j | k < j < |rs| :: rs[j].Failure?
    ensures var m, before := Replay(ip, rs), Replay(ip, rs[..k]);
            && m.lastSeen == rs[k].now
            && if before.rtt == 0 then m.rtt == rs[k].rtt else TowardsZero(m.rtt, 7 * before.rtt + 3 * rs[k].rtt, 10)
  {
    FailuresLeave(ip, rs, k + 1);
    var before := Replay(ip, rs[..k]);
    assert rs[..k + 1][..k] == rs[..k];
    TruncExactly(7 * before.rtt + 3 * rs[k].rtt, 10);
  }

  ghost predicate RttsWithin(rs: seq<Record>, lo: int, hi: int) {
    forall k | 0 <= k < |rs| && rs[k].Success? :: lo <= rs[k].rtt <= hi
  }

  lemma SmoothedWithin(a: int, b: int, lo: int, hi: int)
    requires lo <= a <= hi && lo <= b <= hi
    ensures lo <= Trunc(7 * a + 3 * b, 10) <= hi
  {
  }

  /** After any success the smoothed round-trip time lies between the least and the greatest recorded. */
  lemma {:induction false} ReplayRtt(ip: string, rs: seq<Record>, lo: int, hi: int)
    requires RttsWithin(rs, lo, hi)
    ensures if Successes(rs) == 0 then Replay(ip, rs).rtt == 0 else lo <= Replay(ip, rs).rtt <= hi
    decreases |rs|
  {
    if rs != [] {
      var k := |rs| - 1;
      ReplayRtt(ip, rs[..k], lo, hi);
      if rs[k].Success? && Replay(ip, rs[..k]).rtt != 0 {
        SmoothedWithin(Replay(ip, rs[..k]).rtt, rs[k].rtt, lo, hi);
      }
    }
  }

  // ---- The manager ----

  datatype Choice = Address(ip: string) | NoAddress | NoneUsable

  function Listed(lists: map<string, seq<string>>, domain: string): seq<string> {
    if domain in lists then lists[domain] else []
  }

  /** What selectBestIP returns from these addresses. */
  ghost predicate Selected(metrics: map<string, Metric>, domain: string, ips: seq<string>, base: seq<string>,
                           now: int, c: Choice) {
    if ips == [] then c == NoAddress
    else if exists i: nat :: IsBest(metrics, domain, ips, now, i) && ips[i] != "" then
      exists i: nat :: IsBest(metrics, domain, ips, now, i) && ips[i] != "" && c == Address(ips[i])
    else c == if base == [] then NoneUsable else Address(base[0])
  }

  class VkHosts {
    const baseline: map<string, seq<string>>
    var dynamic: map<string, seq<string>>
    var metrics: map<string, Metric>
    var dnsOK: bool
    var lastDNS: int

    constructor (baseline: map<string, seq<string>>)
      ensures this.baseline == baseline && dynamic == map[] && metrics == map[] && dnsOK
    {
      this.baseline := baseline;
      dynamic, metrics, dnsOK, lastDNS := map[], map[], true, 0;
    }

    /** Known addresses, the ones from DNS first. */
    ghost function Known(domain: string): seq<string>
      reads this
    {
      Dedup(Listed(dynamic, domain) + Listed(baseline, domain))
    }

    method AllIPs(domain: string) returns (ips: seq<string>)
      ensures ips == Known(domain)
      ensures NoDuplicates(ips) && Dedup(Listed(dynamic, domain)) <= ips
      ensures forall ip :: ip in ips <==> ip in Listed(dynamic, domain) || ip in Listed(baseline, domain)
    {
      hide Dedup;
      ips := MergeUnique(Listed(dynamic, domain), Listed(baseline, domain));
      DedupPrefix(Listed(dynamic, domain), Listed(baseline, domain));
      DedupMembers(Listed(dynamic, domain) + Listed(baseline, domain));
    }

    method SelectBestIP(domain: string, now: int) returns (c: Choice)
      ensures Selected(metrics, domain, Known(domain), Listed(baseline, domain), now, c)
    {
      hide ScoreOf;
      var ips := AllIPs(domain);
      if |ips| == 0 {
        return NoAddress;
      }
      var bestIP := "";
      var bestScore := Finite(-1.0);
      ghost var best: Option<nat> := None;
      for i := 0 to |ips|
        invariant best.None? ==> bestIP == "" && bestScore == Finite(-1.0)
        invariant best.Some? ==>
                    && best.value < i && bestIP == ips[best.value]
                    && bestScore == ScoreOf(metrics, domain, bestIP, now)
        invariant best.Some? ==>
                    && Above(bestScore, Finite(-1.0))
                    && forall j | 0 <= j < best.value :: Above(bestScore, ScoreOf(metrics, domain, ips[j], now))
        invariant forall j | 0 <= j < i :: !Above(ScoreOf(metrics, domain, ips[j], now), bestScore)
      {
        var score := ScoreOf(metrics, domain, ips[i], now);
        if Above(score, bestScore) {
          bestScore, bestIP, best := score, ips[i], Some(i);
        }
      }
      assert best.Some? ==> IsBest(metrics, domain, ips, now, best.value);
      if bestIP == "" {
        forall i: nat | IsBest(metrics, domain, ips, now, i)
          ensures ips[i] == ""
        {
          if best.Some? {
            BestIsUnique(metrics, domain, ips, now, i, best.value);
          }
        }
        var base := Listed(baseline, domain);
        return if |base| > 0 then Address(base[0]) else NoneUsable;
      }
      return Address(bestIP);
    }

    /** `answer` is what DNS replies if it is asked; `marked` tells whether the cache became dirty. */
    method Resolve(domain: string, answer: Option<seq<string>>, now: int) returns (c: Choice, marked: bool)
      modifies this
      ensures metrics == old(metrics)
      ensures var asked := old(dnsOK) && answer.Some? && answer.value != [];
              && dnsOK == asked
              && lastDNS == (if asked then now else old(lastDNS))
              && dynamic == (if asked
                             then old(dynamic)[domain := Dedup(Listed(old(dynamic), domain) + answer.value)]
                             else old(dynamic))
              && marked == (asked && |dynamic[domain]| > |Listed(old(dynamic), domain)|)
      ensures Selected(metrics, domain, Known(domain), Listed(baseline, domain), now, c)
    {
      marked := false;
      if dnsOK {
        if answer.Some? && |answer.value| > 0 {
          var before := Listed(dynamic, domain);
          var merged := MergeUnique(before, answer.value);
          dynamic := dynamic[domain := merged];
          dnsOK, lastDNS := true, now;
          marked := |merged| - |before| > 0;
          c := SelectBestIP(domain, now);
          return;
        }
        dnsOK := false;
      }
      c := SelectBestIP(domain, now);
    }

    method UpdateDynamic(domain: string, ips: seq<string>, now: int)
      modifies this
      ensures metrics == old(metrics)
      ensures if ips == [] then dynamic == old(dynamic) && dnsOK == old(dnsOK) && lastDNS == old(lastDNS)
              else dynamic == old(dynamic)[domain := ips] && dnsOK && lastDNS == now
    {
      if |ips| > 0 {
        dynamic := dynamic[domain := ips];
        dnsOK, lastDNS := true, now;
      }
    }

    method RecordSuccess(domain: string, ip: string, rtt: int, now: int)
      modifies this`metrics
      ensures metrics == Recorded(old(metrics), domain, ip, Success(rtt, now))
    {
      var key := MetricKey(domain, ip);
      var m := if key in metrics then metrics[key] else NoMetric(ip);
      m := m.(totalTries := m.totalTries + 1, totalOK := m.totalOK + 1, failCount := 0, lastSeen := now);
      if m.rtt == 0 {
        m := m.(rtt := rtt);
      } else {
        m := m.(rtt := Trunc(m.rtt * 7 + rtt * 3, 10));
      }
      m := m.(rate := Ratio(m.totalOK, m.totalTries));
      metrics := metrics[key := m];
    }

    method RecordFailure(domain: string, ip: string)
      modifies this`metrics
      ensures metrics == Recorded(old(metrics), domain, ip, Failure)
    {
      var key := MetricKey(domain, ip);
      var m := if key in metrics then metrics[key] else NoMetric(ip);
      m := m.(totalTries := m.totalTries + 1, failCount := m.failCount + 1);
      m := m.(rate := Ratio(m.totalOK, m.totalTries));
      metrics := metrics[key := m];
    }
  }

  function Recorded(metrics: map<string, Metric>, domain: string, ip: string, r: Record): map<string, Metric> {
    var key := MetricKey(domain, ip);
    metrics[key := After(if key in metrics then metrics[key] else NoMetric(ip), r)]
  }

  // ---- Whole runs of records ----

  datatype Event = Event(domain: string, ip: string, r: Record)

  ghost function RecordAll(es: seq<Event>): map<string, Metric> {
    if es == [] then map[] else
    var e := es[|es| - 1];
    Recorded(RecordAll(es[..|es| - 1]), e.domain, e.ip, e.r)
  }

  /** The records of one address among all. */
  ghost function Own(es: seq<Event>, domain: string, ip: string): seq<Record> {
    if es == [] then [] else
    var e := es[|es| - 1];
    var rest := Own(es[..|es| - 1], domain, ip);
    if e.domain == domain && e.ip == ip then rest + [e.r] else rest
  }

  /** An address has a metric once it has a record, and its own records alone make it. */
  lemma {:induction false} MetricsAreApart(es: seq<Event>, domain: string, ip: string)
    requires forall k | 0 <= k < |es| :: !Ambiguous(':', domain, es[k].domain)
    ensures MetricKey(domain, ip) in RecordAll(es) <==> Own(es, domain, ip) != []
    ensures MetricKey(domain, ip) in RecordAll(es) ==>
              RecordAll(es)[MetricKey(domain, ip)] == Replay(ip, Own(es, domain, ip))
    decreases |es|
  {
    hide MetricKey, After, Ambiguous;
    if es != [] {
      var k := |es| - 1;
      var e := es[k];
      MetricsAreApart(es[..k], domain, ip);
      var mine := Own(es[..k], domain, ip);
      assert (mine + [e.r])[..|mine|] == mine;
      KeysDiffer(domain, ip, e.domain, e.ip);
    }
  }

  ghost predicate AllOf(es: seq<Event>, e: string) { forall k | 0 <= k < |es| :: es[k].domain == e }

  /** Records of domain e never make a metric of domain d, or the other way round, exactly when the two are not
      ambiguous. */
  lemma MetricsApartExactly(d: string, e: string)
    requires d != e
    ensures (forall es, i | AllOf(es, e) :: MetricKey(d, i) !in RecordAll(es)) <==> !Ambiguous(':', d, e)
  {
    if Ambiguous(':', d, e) {
      var i, j := AmbiguousCollide(':', d, e);
      KeyIsJoined(d, i);
      KeyIsJoined(e, j);
      var es := [Event(e, j, Failure)];
      assert es[..0] == [];
      assert MetricKey(e, j) in Recorded(RecordAll([]), e, j, Failure);
      assert MetricKey(d, i) in RecordAll(es);
    } else {
      forall es, i | AllOf(es, e)
        ensures MetricKey(d, i) !in RecordAll(es)
      {
        MetricsAreApart(es, d, i);
        NotOwn(es, d, i, e);
      }
    }
  }

  lemma {:induction false} NotOwn(es: seq<Event>, d: string, i: string, e: string)
    requires d != e && AllOf(es, e)
    ensures Own(es, d, i) == []
    decreases |es|
  {
    if es != [] {
      NotOwn(es[..|es| - 1], d, i, e);
    }
  }
}
