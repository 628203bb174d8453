/** Loading and saving the known addresses and their metrics (internal/core/dns_cache_persist.go). */
module DnsPersist {
  import opened OrderedSets
  import opened Separated
  import opened Rounding
  import opened Hosts

  const MAX_IPS: nat := 30

  const SECOND: nat := 1_000_000_000

  /** A metric as the file holds it: milliseconds, and seconds since the zero time, which is what an unreadable
      time becomes. */
  datatype SavedMetric = SavedMetric(ip: string, rttMs: int, rate: real, lastSeen: int, failCount: int,
                                     totalTries: int, totalOK: int)

  datatype Domain = Domain(ips: seq<string>, metrics: seq<SavedMetric>)

  /** What reading the cache file gives. */
  datatype File = NoPath | Missing | Unreadable | Malformed | Read(version: int, domains: map<string, Domain>)

  type Lists = map<string, seq<string>>

  /** A domain's list after a load: old addresses first, no repetitions, at most 30. */
  ghost function Merged(existing: seq<string>, ips: seq<string>): (m: seq<string>)
    ensures ips != [] ==> m != []
  {
    var all := Dedup(existing + ips);
    DedupMembers(existing + ips);
    assert ips != [] ==> ips[0] in existing + ips;
    if |all| > MAX_IPS then all[..MAX_IPS] else all
  }

  /** The first 30, old ones before new ones, each once. */
  lemma MergedExactly(existing: seq<string>, ips: seq<string>)
    ensures var m, kept := Merged(existing, ips), Dedup(existing);
            && |m| <= 30 && NoDuplicates(m) && (forall x | x in m :: x in existing || x in ips)
            && (|m| < 30 ==> kept <= m && forall x | x in existing || x in ips :: x in m)
            && (if |kept| < |m| then kept <= m else m <= kept)
  {
    hide Dedup;
    DedupPrefix(existing, ips);
    DedupMembers(existing + ips);
    var all := Dedup(existing + ips);
    assert forall x | x in existing || x in ips :: x in existing + ips;
    assert forall x | x in Merged(existing, ips) :: x in all;
  }

  // ---- Loading ----

  ghost predicate Touches(file: map<string, Domain>, d: string) { d in file && file[d].ips != [] }

  /** The lists after a load; the order in which domains are visited plays no part. */
  ghost function Loaded(lists: Lists, file: map<string, Domain>): (r: Lists)
    ensures forall d :: d in r <==> d in lists || Touches(file, d)
  {
    map d | d in lists.Keys + file.Keys && (d in lists || Touches(file, d)) ::
      if Touches(file, d) then Merged(Listed(lists, d), file[d].ips) else lists[d]
  }

  /** The single addresses after a load: the heads of the loaded lists. */
  ghost function LoadedFirst(firsts: map<string, string>, lists: Lists, file: map<string, Domain>):
    (r: map<string, string>)
  {
    map d | d in firsts.Keys + file.Keys && (d in firsts || Touches(file, d)) ::
      if Touches(file, d) then Merged(Listed(lists, d), file[d].ips)[0] else firsts[d]
  }

  function Restored(m: SavedMetric, now: int): Metric {
    Metric(m.ip, m.rttMs * MILLISECOND, m.rate, if m.lastSeen == 0 then now else m.lastSeen * SECOND, m.failCount,
           m.totalTries, m.totalOK)
  }

  /** A time that was not read counts as now. */
  lemma RestoredExactly(m: SavedMetric, now: int)
    ensures var r := Restored(m, now);
            && r.ip == m.ip && r.rate == m.rate
            && r.failCount == m.failCount && r.totalTries == m.totalTries && r.totalOK == m.totalOK
            && r.rtt == 1_000_000 * m.rttMs
            && r.lastSeen == if m.lastSeen == 0 then now else 1_000_000_000 * m.lastSeen
  {
  }

  /** The last metric with this key in a domain's list is the one that stays. */
  ghost predicate LastWrite(domain: string, ms: seq<SavedMetric>, key: string, i: nat) {
    && i < |ms| && MetricKey(domain, ms[i].ip) == key
    && forall j | i < j < |ms| :: MetricKey(domain, ms[j].ip) != key
  }

  ghost predicate Writes(file: map<string, Domain>, done: set<string>, key: string) {
    exists d, i: nat :: d in done && d in file && LastWrite(d, file[d].metrics, key, i)
  }

  /** Keys no visited domain writes keep their metric; the others have one that a visited domain wrote last. */
  ghost predicate MetricsLoaded(before: map<string, Metric>, file: map<string, Domain>, done: set<string>, now: int,
                                after: map<string, Metric>) {
    && (forall key | !Writes(file, done, key) :: key in after <==> key in before)
    && (forall key | !Writes(file, done, key) && key in after :: after[key] == before[key])
    && (forall key | Writes(file, done, key) ::
          && key in after
          && exists d, i: nat ::
               && d in done && d in file && LastWrite(d, file[d].metrics, key, i)
               && after[key] == Restored(file[d].metrics[i], now))
  }

  // ---- Saving ----

  function Saved(m: Metric): SavedMetric {
    SavedMetric(m.ip, Trunc(m.rtt, MILLISECOND), m.rate, m.lastSeen / SECOND, m.failCount, m.totalTries, m.totalOK)
  }

  /** Whole milliseconds, towards zero, and whole seconds. */
  lemma SavedExactly(m: Metric)
    ensures var s := Saved(m);
            && s.ip == m.ip && s.rate == m.rate
            && s.failCount == m.failCount && s.totalTries == m.totalTries && s.totalOK == m.totalOK
            && TowardsZero(s.rttMs, m.rtt, 1_000_000)
            && s.lastSeen * 1_000_000_000 <= m.lastSeen < (s.lastSeen + 1) * 1_000_000_000
  {
    TruncExactly(m.rtt, MILLISECOND);
  }

  /** A metric after a restart at `now`: the round-trip time in whole milliseconds, the last answer to the second,
      or `now` if that is in the first second. */
  ghost predicate Rounded(m: Metric, r: Metric, now: int) {
    && r.ip == m.ip && r.rate == m.rate
    && r.failCount == m.failCount && r.totalTries == m.totalTries && r.totalOK == m.totalOK
    && (exists ms: int :: r.rtt == ms * 1_000_000 && TowardsZero(ms, m.rtt, 1_000_000))
    && if 0 <= m.lastSeen < 1_000_000_000 then r.lastSeen == now
       else r.lastSeen % 1_000_000_000 == 0 && r.lastSeen <= m.lastSeen < r.lastSeen + 1_000_000_000
  }

  lemma RoundedOnce(m: Metric, now: int)
    ensures Rounded(m, Restored(Saved(m), now), now)
  {
    SavedExactly(m);
    RestoredExactly(Saved(m), now);
    var ms := Saved(m).rttMs;
    assert TowardsZero(ms, m.rtt, 1_000_000);
  }

  ghost function SavedMetrics(metrics: map<string, Metric>, domain: string, ips: seq<string>): seq<SavedMetric> {
    if ips == [] then [] else
    var k := |ips| - 1;
    var key := MetricKey(domain, ips[k]);
    SavedMetrics(metrics, domain, ips[..k]) + if key in metrics then [Saved(metrics[key])] else []
  }

  /** The addresses a domain is saved with. */
  ghost predicate Wanted(allIps: Lists, dynamic: Lists, metrics: map<string, Metric>, domain: string, ip: string) {
    ip in Listed(allIps, domain) + Listed(dynamic, domain) || (ip != "" && MetricKey(domain, ip) in metrics)
  }

  ghost predicate SavedIps(allIps: Lists, dynamic: Lists, metrics: map<string, Metric>, domain: string,
                           ips: seq<string>) {
    && NoDuplicates(ips)
    && Dedup(Listed(allIps, domain) + Listed(dynamic, domain)) <= ips
    && forall ip :: ip in ips <==> Wanted(allIps, dynamic, metrics, domain, ip)
  }

  ghost predicate SavedDomain(allIps: Lists, dynamic: Lists, metrics: map<string, Metric>, domain: string, dd: Domain) {
    && dd.ips != [] && SavedIps(allIps, dynamic, metrics, domain, dd.ips)
    && dd.metrics == SavedMetrics(metrics, domain, dd.ips)
  }

  /** A file holds every domain with an entry in one of the three maps and some address; a domain with metrics
      alone is not saved. */
  ghost predicate Collected(allIps: Lists, ips: map<string, string>, dynamic: Lists, metrics: map<string, Metric>,
                            f: map<string, Domain>) {
    && (forall d ::
          d in f <==> (d in allIps || d in ips || d in dynamic) && exists ip :: Wanted(allIps, dynamic, metrics, d, ip))
    && (forall d | d in f :: SavedDomain(allIps, dynamic, metrics, d, f[d]))
  }

  lemma OneMoreKey(domain: string, k: string, ip: string)
    requires k == domain + ":" + ip
    ensures k == MetricKey(domain, ip) && forall x :: MetricKey(domain, x) == k <==> x == ip
  {
    forall x | MetricKey(domain, x) == k
      ensures x == ip
    {
      KeyParts(domain, x);
      KeyParts(domain, ip);
    }
  }

  lemma OtherKey(domain: string, k: string)
    requires !(|k| > |domain| + 1 && k[..|domain| + 1] == domain + ":")
    ensures forall x :: MetricKey(domain, x) == k ==> x == ""
  {
    forall x | MetricKey(domain, x) == k
      ensures x == ""
    {
      assert k == (domain + ":") + x;
    }
  }

  /** The shared maps: all addresses and the first one from the resolver, and the host manager's two. */
  class Caches {
    var allIps: Lists
    var ips: map<string, string>
    var dynamic: Lists
    var metrics: map<string, Metric>
    var dirty: bool

    method Load(file: File, now: int) returns (ok: bool)
      modifies this
      ensures ok == !(file.Unreadable? || file.Malformed?) && dirty == old(dirty)
      ensures if file.Read? && file.version == 1
              then allIps == Loaded(old(allIps), file.domains)
                && ips == LoadedFirst(old(ips), old(allIps), file.domains)
                && dynamic == Loaded(old(dynamic), file.domains)
                && MetricsLoaded(old(metrics), file.domains, file.domains.Keys, now, metrics)
              else allIps == old(allIps) && ips == old(ips) && dynamic == old(dynamic) && metrics == old(metrics)
    {
      if !file.Read? {
        return file.NoPath? || file.Missing?;
      }
      if file.version != 1 {
        return true;
      }
      LoadResolver(file.domains);
      LoadManager(file.domains, now);
      return true;
    }

    /** What save writes; addresses known only by their metrics follow in the order their keys come up. */
    method Collect() returns (f: map<string, Domain>)
      modifies this`dirty
      ensures !dirty && Collected(allIps, ips, dynamic, metrics, f)
    {
      dirty := false;
      var domains := allIps.Keys + ips.Keys + dynamic.Keys;
      f := map[];
      var todo := domains;
      while todo != {}
        invariant todo <= domains && !dirty
        invariant forall d :: d in f <==> d in domains - todo && exists ip :: Wanted(allIps, dynamic, metrics, d, ip)
        invariant forall d | d in f :: SavedDomain(allIps, dynamic, metrics, d, f[d])
        decreases todo
      {
        var domain :| domain in todo;
        todo := todo - {domain};
        var mergedIPs := CollectIPs(domain);
        if |mergedIPs| > 0 {
          assert Wanted(allIps, dynamic, metrics, domain, mergedIPs[0]);
          var dms := CollectMetrics(domain, mergedIPs);
          f := f[domain := Domain(mergedIPs, dms)];
        }
      }
      assert forall d :: d in domains <==> d in allIps || d in ips || d in dynamic;
    }

    method CollectIPs(domain: string) returns (mergedIPs: seq<string>)
      ensures SavedIps(allIps, dynamic, metrics, domain, mergedIPs)
    {
      hide Dedup;
      mergedIPs := MergeUnique(Listed(allIps, domain), Listed(dynamic, domain));
      ghost var base := Listed(allIps, domain) + Listed(dynamic, domain);
      DedupMembers(base);
      var prefix := domain + ":";
      var todo := metrics.Keys;
      while todo != {}
        invariant todo <= metrics.Keys
        invariant NoDuplicates(mergedIPs) && Dedup(base) <= mergedIPs
        invariant forall ip ::
                    ip in mergedIPs <==> ip in base || (ip != "" && MetricKey(domain, ip) in metrics.Keys - todo)
        decreases todo
      {
        var k :| k in todo;
        todo := todo - {k};
        if |k| > |prefix| && k[..|prefix|] == prefix {
          var ip := k[|prefix|..];
          assert k == prefix + ip;
          DedupPrefix(mergedIPs, [ip]);
          DedupOfDistinct(mergedIPs);
          DedupMembers(mergedIPs + [ip]);
          OneMoreKey(domain, k, ip);
          mergedIPs := MergeUnique(mergedIPs, [ip]);
        } else {
          OtherKey(domain, k);
        }
      }
    }

    method CollectMetrics(domain: string, mergedIPs: seq<string>) returns (dms: seq<SavedMetric>)
      ensures dms == SavedMetrics(metrics, domain, mergedIPs)
    {
      dms := [];
      for i := 0 to |mergedIPs|
        invariant dms == SavedMetrics(metrics, domain, mergedIPs[..i])
      {
        assert mergedIPs[..i + 1][..i] == mergedIPs[..i];
        var key := MetricKey(domain, mergedIPs[i]);
        if key in metrics {
          dms := dms + [Saved(metrics[key])];
        }
      }
      assert mergedIPs[..|mergedIPs|] == mergedIPs;
    }

    /** The first loop: the resolver's maps. */
    method LoadResolver(domains: map<string, Domain>)
      modifies this`allIps, this`ips
      ensures allIps == Loaded(old(allIps), domains) && ips == LoadedFirst(old(ips), old(allIps), domains)
    {
      hide Loaded, LoadedFirst, Visited, Merged, Listed;
      var todo := domains.Keys;
      NoneVisited(allIps, ips, domains);
      while todo != {}
        invariant todo <= domains.Keys
        invariant allIps == Loaded(old(allIps), Visited(domains, todo))
        invariant ips == LoadedFirst(old(ips), old(allIps), Visited(domains, todo))
        decreases todo
      {
        var domain :| domain in todo;
        VisitOne(old(allIps), domains, todo, domain);
        VisitFirst(old(ips), old(allIps), domains, todo, domain);
        var dd := domains[domain];
        if |dd.ips| > 0 {
          var merged := MergeCapped(Listed(allIps, domain), dd.ips);
          allIps := allIps[domain := merged];
          if |merged| > 0 {
            ips := ips[domain := merged[0]];
          }
        }
        todo := todo - {domain};
      }
      AllVisited(domains);
    }

    /** The second loop: the host manager's maps. */
    method LoadManager(domains: map<string, Domain>, now: int)
      modifies this`dynamic, this`metrics
      ensures dynamic == Loaded(old(dynamic), domains)
      ensures MetricsLoaded(old(metrics), domains, domains.Keys, now, metrics)
    {
      hide Loaded, Visited, Merged, Listed, MetricsLoaded;
      var todo := domains.Keys;
      NoneVisited(dynamic, map[], domains);
      NothingLoaded(metrics, domains, now);
      while todo != {}
        invariant todo <= domains.Keys
        invariant dynamic == Loaded(old(dynamic), Visited(domains, todo))
        invariant MetricsLoaded(old(metrics), domains, domains.Keys - todo, now, metrics)
        decreases todo
      {
        var domain :| domain in todo;
        VisitOne(old(dynamic), domains, todo, domain);
        var dd := domains[domain];
        if |dd.ips| > 0 {
          var merged := MergeCapped(Listed(dynamic, domain), dd.ips);
          dynamic := dynamic[domain := merged];
        }
        ghost var before := metrics;
        OverwriteMetrics(domain, dd.metrics, now);
        DomainLoaded(old(metrics), domains, domains.Keys - todo, domain, now, before, metrics);
        assert domains.Keys - todo + {domain} == domains.Keys - (todo - {domain});
        todo := todo - {domain};
      }
      AllVisited(domains);
      assert domains.Keys - todo == domains.Keys;
    }

    method OverwriteMetrics(domain: string, ms: seq<SavedMetric>, now: int)
      modifies this`metrics
      ensures Overwritten(old(metrics), domain, ms, now, metrics)
    {
      hide Overwritten, Restored, MetricKey;
      NothingOverwritten(metrics, domain, ms, now);
      for i := 0 to |ms|
        invariant Overwritten(old(metrics), domain, ms[..i], now, metrics)
      {
        var dm := ms[i];
        OverwriteOne(old(metrics), domain, ms, i, now, metrics);
        metrics := metrics[MetricKey(domain, dm.ip) := Restored(dm, now)];
      }
      assert ms[..|ms|] == ms;
    }
  }

  method MergeCapped(existing: seq<string>, ips: seq<string>) returns (merged: seq<string>)
    ensures merged == Merged(existing, ips)
  {
    merged := MergeUnique(existing, ips);
    if |merged| > MAX_IPS {
      merged := merged[..MAX_IPS];
    }
  }

  /** The domains already visited. */
  ghost function Visited(domains: map<string, Domain>, todo: set<string>): map<string, Domain> {
    map d | d in domains.Keys - todo :: domains[d]
  }

  lemma NoneVisited(lists: Lists, firsts: map<string, string>, domains: map<string, Domain>)
    ensures Loaded(lists, Visited(domains, domains.Keys)) == lists
    ensures LoadedFirst(firsts, lists, Visited(domains, domains.Keys)) == firsts
  {
  }

  lemma AllVisited(domains: map<string, Domain>)
    ensures Visited(domains, {}) == domains
  {
  }

  lemma VisitedAt(domains: map<string, Domain>, todo: set<string>, d: string)
    ensures Touches(Visited(domains, todo), d) <==> d !in todo && Touches(domains, d)
    ensures Touches(Visited(domains, todo), d) ==>
              d in Visited(domains, todo) && Visited(domains, todo)[d] == domains[d]
  {
  }

  lemma LoadedAt(lists: Lists, firsts: map<string, string>, file: map<string, Domain>, d: string)
    ensures d in Loaded(lists, file) <==> d in lists || Touches(file, d)
    ensures d in Loaded(lists, file) ==>
              Loaded(lists, file)[d] == if Touches(file, d) then Merged(Listed(lists, d), file[d].ips) else lists[d]
    ensures d in LoadedFirst(firsts, lists, file) <==> d in firsts || Touches(file, d)
    ensures d in LoadedFirst(firsts, lists, file) ==>
              LoadedFirst(firsts, lists, file)[d] ==
              if Touches(file, d) then Merged(Listed(lists, d), file[d].ips)[0] else firsts[d]
  {
    hide Merged, Listed;
  }

  lemma MapsEqual<V>(a: map<string, V>, b: map<string, V>)
    requires forall d :: (d in a <==> d in b) && (d in a ==> a[d] == b[d])
    ensures a == b
  {
    assert a.Keys == b.Keys;
  }

  /** One more domain changes that domain's entry alone. */
  lemma VisitOne(lists: Lists, domains: map<string, Domain>, todo: set<string>, domain: string)
    requires todo <= domains.Keys && domain in todo
    ensures var a, ips := Loaded(lists, Visited(domains, todo)), domains[domain].ips;
            && Listed(a, domain) == Listed(lists, domain)
            && Loaded(lists, Visited(domains, todo - {domain})) ==
               if ips == [] then a else a[domain := Merged(Listed(lists, domain), ips)]
  {
    hide Merged, Loaded, Visited;
    var rest := todo - {domain};
    var a, ips := Loaded(lists, Visited(domains, todo)), domains[domain].ips;
    var l := Loaded(lists, Visited(domains, rest));
    var r := if ips == [] then a else a[domain := Merged(Listed(lists, domain), ips)];
    VisitedAt(domains, todo, domain);
    LoadedAt(lists, map[], Visited(domains, todo), domain);
    forall d
      ensures (d in l <==> d in r) && (d in l ==> l[d] == r[d])
    {
      VisitedAt(domains, todo, d);
      VisitedAt(domains, rest, d);
      LoadedAt(lists, map[], Visited(domains, todo), d);
      LoadedAt(lists, map[], Visited(domains, rest), d);
    }
    MapsEqual(l, r);
  }

  lemma VisitFirst(firsts: map<string, string>, lists: Lists, domains: map<string, Domain>, todo: set<string>,
                   domain: string)
    requires todo <= domains.Keys && domain in todo
    ensures var a, ips := LoadedFirst(firsts, lists, Visited(domains, todo)), domains[domain].ips;
            LoadedFirst(firsts, lists, Visited(domains, todo - {domain})) ==
            if ips == [] then a else a[domain := Merged(Listed(lists, domain), ips)[0]]
  {
    hide Merged, LoadedFirst, Visited, Listed;
    var rest := todo - {domain};
    var a, ips := LoadedFirst(firsts, lists, Visited(domains, todo)), domains[domain].ips;
    var l := LoadedFirst(firsts, lists, Visited(domains, rest));
    var r := if ips == [] then a else a[domain := Merged(Listed(lists, domain), ips)[0]];
    forall d
      ensures (d in l <==> d in r) && (d in l ==> l[d] == r[d])
    {
      VisitedAt(domains, todo, d);
      VisitedAt(domains, rest, d);
      LoadedAt(lists, firsts, Visited(domains, todo), d);
      LoadedAt(lists, firsts, Visited(domains, rest), d);
    }
    MapsEqual(l, r);
  }

  lemma NothingLoaded(metrics: map<string, Metric>, file: map<string, Domain>, now: int)
    ensures MetricsLoaded(metrics, file, file.Keys - file.Keys, now, metrics)
  {
  }

  lemma NothingOverwritten(metrics: map<string, Metric>, domain: string, ms: seq<SavedMetric>, now: int)
    ensures Overwritten(metrics, domain, ms[..0], now, metrics)
  {
  }

  /** Writing a list of metrics, later ones over earlier ones. */
  ghost predicate Overwritten(before: map<string, Metric>, domain: string, ms: seq<SavedMetric>, now: int,
                              after: map<string, Metric>) {
    && (forall key | !(exists i: nat :: LastWrite(domain, ms, key, i)) :: key in after <==> key in before)
    && (forall key | !(exists i: nat :: LastWrite(domain, ms, key, i)) && key in after :: after[key] == before[key])
    && (forall key, i: nat | LastWrite(domain, ms, key, i) :: key in after && after[key] == Restored(ms[i], now))
  }

  lemma OverwriteOne(before: map<string, Metric>, domain: string, ms: seq<SavedMetric>, i: nat, now: int,
                     after: map<string, Metric>)
    requires i < |ms| && Overwritten(before, domain, ms[..i], now, after)
    ensures Overwritten(before, domain, ms[..i + 1], now, after[MetricKey(domain, ms[i].ip) := Restored(ms[i], now)])
  {
    hide MetricKey, Restored, LastWrite;
    var k := MetricKey(domain, ms[i].ip);
    var a, b := ms[..i], ms[..i + 1];
    assert b[..|b| - 1] == a;
    LastWriteNew(domain, b, k);
    forall key, x: nat | key != k
      ensures LastWrite(domain, b, key, x) <==> LastWrite(domain, a, key, x)
      ensures LastWrite(domain, a, key, x) ==> x < i && b[x] == a[x]
    {
      LastWriteOld(domain, b, key, x);
    }
  }

  lemma LastWriteNew(domain: string, b: seq<SavedMetric>, key: string)
    requires b != [] && key == MetricKey(domain, b[|b| - 1].ip)
    ensures LastWrite(domain, b, key, |b| - 1) && forall x: nat | LastWrite(domain, b, key, x) :: x == |b| - 1
  {
  }

  lemma LastWriteOld(domain: string, b: seq<SavedMetric>, key: string, x: nat)
    requires b != [] && key != MetricKey(domain, b[|b| - 1].ip)
    ensures LastWrite(domain, b, key, x) <==> LastWrite(domain, b[..|b| - 1], key, x)
    ensures LastWrite(domain, b, key, x) ==> x < |b| - 1
  {
    hide MetricKey;
  }

  lemma DomainLoaded(before: map<string, Metric>, file: map<string, Domain>, done: set<string>, domain: string,
                     now: int,
                     mid: map<string, Metric>, after: map<string, Metric>)
    requires domain in file && MetricsLoaded(before, file, done, now, mid)
             && Overwritten(mid, domain, file[domain].metrics, now, after)
    ensures MetricsLoaded(before, file, done + {domain}, now, after)
  {
    hide LastWrite, Restored;
    forall key
      ensures Writes(file, done + {domain}, key)
         <==> Writes(file, done, key) || exists i: nat :: LastWrite(domain, file[domain].metrics, key, i)
    {
    }
  }

  // ---- Loading twice ----

  /** Loading a file again leaves every address list as the first load made it, however long the lists. */
  lemma LoadTwice(lists: Lists, firsts: map<string, string>, file: map<string, Domain>)
    ensures var once := Loaded(lists, file);
            && Loaded(once, file) == once
            && LoadedFirst(LoadedFirst(firsts, lists, file), once, file) == LoadedFirst(firsts, lists, file)
  {
    hide Merged, Loaded, LoadedFirst, Listed;
    var once, first := Loaded(lists, file), LoadedFirst(firsts, lists, file);
    var twice, firstTwice := Loaded(once, file), LoadedFirst(first, once, file);
    forall d
      ensures (d in twice <==> d in once) && (d in twice ==> twice[d] == once[d])
      ensures (d in firstTwice <==> d in first) && (d in firstTwice ==> firstTwice[d] == first[d])
    {
      LoadedAt(lists, firsts, file, d);
      LoadedAt(once, first, file, d);
      if Touches(file, d) {
        ListedIn(once, d);
        MergedTwice(Listed(lists, d), file[d].ips);
      }
    }
    MapsEqual(twice, once);
    MapsEqual(firstTwice, first);
  }

  lemma ListedIn(lists: Lists, d: string)
    requires d in lists
    ensures Listed(lists, d) == lists[d]
  {
  }

  lemma MergedTwice(existing: seq<string>, ips: seq<string>)
    ensures var once := Merged(existing, ips); Merged(once, ips) == once
  {
    hide Dedup;
    var d := Dedup(existing + ips);
    var once := Merged(existing, ips);
    DedupMembers(existing + ips);
    assert NoDuplicates(once);
    DedupOfDistinct(once);
    DedupPrefix(once, ips);
    if |d| <= MAX_IPS {
      Absorbed(existing, ips);
    }
  }

  /** Merging again what was merged changes nothing. */
  lemma Absorbed(old': seq<string>, ips: seq<string>)
    ensures Dedup(Dedup(old' + ips) + ips) == Dedup(old' + ips)
  {
    DedupFront(old' + ips, ips);
    AllKnown(old' + ips, ips);
  }

  lemma {:induction false} AllKnown(s: seq<string>, t: seq<string>)
    requires forall i | 0 <= i < |t| :: t[i] in s
    ensures Dedup(s + t) == Dedup(s)
    decreases |t|
  {
    if t == [] {
      assert s + t == s;
    } else {
      var n := |t| - 1;
      AllKnown(s, t[..n]);
      assert (s + t)[..|s| + n] == s + t[..n];
      DedupMembers(s);
    }
  }

  // ---- Save, restart, load ----

  /** Each metric of a domain carries the address of its key. */
  ghost predicate Consistent(metrics: map<string, Metric>, d: string) {
    forall ip | MetricKey(d, ip) in metrics :: metrics[MetricKey(d, ip)].ip == ip
  }

  /** Recording for any domain keeps it. */
  lemma RecordingConsistent(metrics: map<string, Metric>, d: string, domain: string, ip: string, r: Record)
    requires Consistent(metrics, d) && !Ambiguous(':', d, domain)
    ensures Consistent(Recorded(metrics, domain, ip, r), d)
  {
    hide MetricKey, Ambiguous;
    var after := Recorded(metrics, domain, ip, r);
    forall x | MetricKey(d, x) in after
      ensures after[MetricKey(d, x)].ip == x
    {
      KeysDiffer(d, x, domain, ip);
    }
  }

  /** So does loading a file. */
  lemma LoadingConsistent(before: map<string, Metric>, f: map<string, Domain>, now: int, after: map<string, Metric>,
                          d: string)
    requires Consistent(before, d) && MetricsLoaded(before, f, f.Keys, now, after)
    requires forall e | e in f :: !Ambiguous(':', d, e)
    ensures Consistent(after, d)
  {
    hide MetricKey, Ambiguous;
    forall x | MetricKey(d, x) in after
      ensures after[MetricKey(d, x)].ip == x
    {
      var key := MetricKey(d, x);
      if Writes(f, f.Keys, key) {
        var e, i: nat :| e in f && LastWrite(e, f[e].metrics, key, i) && after[key] == Restored(f[e].metrics[i], now);
        WrittenKey(e, f[e].metrics, key, i);
        KeysDiffer(d, x, e, f[e].metrics[i].ip);
      }
    }
  }

  /** The addresses among these that have a metric. */
  ghost function Measured(metrics: map<string, Metric>, domain: string, ips: seq<string>): seq<string> {
    if ips == [] then [] else
    var k := |ips| - 1;
    Measured(metrics, domain, ips[..k]) + if MetricKey(domain, ips[k]) in metrics then [ips[k]] else []
  }

  lemma {:induction false} MeasuredMembers(metrics: map<string, Metric>, domain: string, ips: seq<string>)
    requires NoDuplicates(ips)
    ensures var kept := Measured(metrics, domain, ips);
            NoDuplicates(kept) && forall x :: x in kept <==> x in ips && MetricKey(domain, x) in metrics
    decreases |ips|
  {
    hide MetricKey;
    if ips != [] {
      var k := |ips| - 1;
      MeasuredMembers(metrics, domain, ips[..k]);
      assert ips == ips[..k] + [ips[k]];
    }
  }

  lemma {:induction false} MeasuredSaved(metrics: map<string, Metric>, domain: string, ips: seq<string>)
    ensures var kept, ms := Measured(metrics, domain, ips), SavedMetrics(metrics, domain, ips);
            && |ms| == |kept|
            && forall i | 0 <= i < |ms| ::
                 MetricKey(domain, kept[i]) in metrics && ms[i] == Saved(metrics[MetricKey(domain, kept[i])])
    decreases |ips|
  {
    hide MetricKey, Saved;
    if ips != [] {
      MeasuredSaved(metrics, domain, ips[..|ips| - 1]);
    }
  }

  lemma SameKey(domain: string, x: string, y: string)
    ensures MetricKey(domain, x) == MetricKey(domain, y) <==> x == y
  {
    KeyParts(domain, x);
    KeyParts(domain, y);
  }

  /** In a saved list, an address has one metric, its own. */
  lemma SavedMetricsHold(metrics: map<string, Metric>, domain: string, ips: seq<string>, ip: string)
    requires Consistent(metrics, domain) && NoDuplicates(ips)
    ensures var ms, key := SavedMetrics(metrics, domain, ips), MetricKey(domain, ip);
            ((exists i: nat :: LastWrite(domain, ms, key, i)) <==> ip in ips && key in metrics)
  {
    hide MetricKey, Measured, SavedMetrics;
    var kept, ms, key := Measured(metrics, domain, ips), SavedMetrics(metrics, domain, ips), MetricKey(domain, ip);
    MeasuredMembers(metrics, domain, ips);
    MeasuredSaved(metrics, domain, ips);
    forall i | 0 <= i < |ms|
      ensures ms[i].ip == kept[i] && (MetricKey(domain, ms[i].ip) == key <==> kept[i] == ip)
    {
      SameKey(domain, kept[i], ip);
    }
    if i: nat :| i < |kept| && kept[i] == ip {
      assert LastWrite(domain, ms, key, i);
    }
  }

  lemma SavedMetricIs(metrics: map<string, Metric>, domain: string, ips: seq<string>, ip: string, i: nat)
    requires Consistent(metrics, domain)
    requires LastWrite(domain, SavedMetrics(metrics, domain, ips), MetricKey(domain, ip), i)
    ensures MetricKey(domain, ip) in metrics
    ensures SavedMetrics(metrics, domain, ips)[i] == Saved(metrics[MetricKey(domain, ip)])
  {
    hide MetricKey, Measured, SavedMetrics;
    MeasuredSaved(metrics, domain, ips);
    SameKey(domain, Measured(metrics, domain, ips)[i], ip);
  }

  /** After saving, a restart and loading, the lists of a saved domain are its saved addresses, 30 at most. */
  lemma RestartLists(allIps: Lists, ips: map<string, string>, dynamic: Lists, metrics: map<string, Metric>,
                     f: map<string, Domain>, d: string)
    requires Collected(allIps, ips, dynamic, metrics, f) && d in f
    ensures d in Loaded(map[], f)
    ensures Loaded(map[], f)[d] == if |f[d].ips| > 30 then f[d].ips[..30] else f[d].ips
  {
    hide SavedMetrics, Dedup, Merged, Wanted;
    assert SavedDomain(allIps, dynamic, metrics, d, f[d]);
    MergedFromNothing(f[d].ips);
    LoadedAt(map[], map[], f, d);
  }

  /** And an address has a metric exactly when it was saved with one: the same, rounded. */
  lemma RestartMetrics(allIps: Lists, ips: map<string, string>, dynamic: Lists, metrics: map<string, Metric>,
                       f: map<string, Domain>,
                       now: int, loaded: map<string, Metric>, d: string, ip: string)
    requires Collected(allIps, ips, dynamic, metrics, f) && Consistent(metrics, d)
             && MetricsLoaded(map[], f, f.Keys, now, loaded)
    requires d in f && forall e | e in f :: !Ambiguous(':', d, e)
    ensures MetricKey(d, ip) in loaded <==> MetricKey(d, ip) in metrics && ip in f[d].ips
    ensures MetricKey(d, ip) in loaded ==>
              && loaded[MetricKey(d, ip)] == Restored(Saved(metrics[MetricKey(d, ip)]), now)
              && Rounded(metrics[MetricKey(d, ip)], loaded[MetricKey(d, ip)], now)
  {
    hide MetricKey, LastWrite, SavedMetrics, Consistent, Dedup, Restored, Saved, Rounded, Wanted, MetricsLoaded,
         Writes;
    assert SavedDomain(allIps, dynamic, metrics, d, f[d]);
    var key := MetricKey(d, ip);
    SavedMetricsHold(metrics, d, f[d].ips, ip);
    OnlyWriter(f, d, ip);
    var from := LoadedKey(f, now, loaded, key);
    if key in loaded {
      var e, i := from.0, from.1;
      assert LastWrite(e, f[e].metrics, key, i) && e == d;
      SavedMetricIs(metrics, d, f[d].ips, ip, i);
      RoundedOnce(metrics[key], now);
    }
  }

  /** Where a metric loaded into empty maps comes from. */
  lemma LoadedKey(f: map<string, Domain>, now: int, loaded: map<string, Metric>, key: string)
    returns (from: (string, nat))
    requires MetricsLoaded(map[], f, f.Keys, now, loaded)
    ensures key in loaded <==> Writes(f, f.Keys, key)
    ensures key in loaded ==>
              && from.0 in f && LastWrite(from.0, f[from.0].metrics, key, from.1)
              && from.1 < |f[from.0].metrics| && loaded[key] == Restored(f[from.0].metrics[from.1], now)
  {
    hide Restored, MetricKey;
    from := ("", 0);
    if Writes(f, f.Keys, key) {
      var d, i: nat :| d in f && LastWrite(d, f[d].metrics, key, i) && loaded[key] == Restored(f[d].metrics[i], now);
      from := (d, i);
    }
  }

  lemma MergedFromNothing(ips: seq<string>)
    requires NoDuplicates(ips)
    ensures Merged([], ips) == if |ips| > MAX_IPS then ips[..MAX_IPS] else ips
  {
    assert [] + ips == ips;
    DedupOfDistinct(ips);
  }

  lemma WrittenKey(d: string, ms: seq<SavedMetric>, key: string, i: nat)
    requires LastWrite(d, ms, key, i)
    ensures i < |ms| && key == MetricKey(d, ms[i].ip)
  {
  }

  /** Unless domains are ambiguous, only its own domain writes the metric of an address. */
  lemma OnlyWriter(f: map<string, Domain>, d: string, ip: string)
    requires d in f && forall e | e in f :: !Ambiguous(':', d, e)
    ensures Writes(f, f.Keys, MetricKey(d, ip)) <==> exists i: nat :: LastWrite(d, f[d].metrics, MetricKey(d, ip), i)
    ensures forall e, i: nat | e in f && LastWrite(e, f[e].metrics, MetricKey(d, ip), i) :: e == d
  {
    hide MetricKey, LastWrite;
    forall e, i: nat | e in f && LastWrite(e, f[e].metrics, MetricKey(d, ip), i)
      ensures e == d
    {
      WrittenKey(e, f[e].metrics, MetricKey(d, ip), i);
      KeysDiffer(e, f[e].metrics[i].ip, d, ip);
    }
  }

  /** The last time an address answered, as a load restores it. */
  function SeenAfter(lastSeen: int, restart: int): int {
    if lastSeen / SECOND == 0 then restart else lastSeen / SECOND * SECOND
  }

  predicate LongAgo(lastSeen: int, now: int) { now - lastSeen > HOUR }

  /** A restart keeps a score exactly when it is 0 for its success rate, or has few failures to answer for, or
      rounding the time of the last answer does not carry it over the hour. */
  lemma ScoreSurvivesExactly(m: Metric, restart: int, now: int)
    ensures Score(Restored(Saved(m), restart), now) == Score(m, now)
       <==> m.rate < 0.1 || m.failCount <= 5 || LongAgo(SeenAfter(m.lastSeen, restart), now) == LongAgo(m.lastSeen, now)
  {
    TruncTwice(m.rtt);
    var ms := Trunc(m.rtt, MILLISECOND);
    if m.rate >= 0.1 && ms != -1 {
      NotZero(m.rate, ms);
    }
  }

  lemma NotZero(rate: real, ms: int)
    requires rate >= 0.1 && ms != -1
    ensures rate * (1000.0 / (ms as real + 1.0)) != 0.0
  {
    var d := ms as real + 1.0;
    var q := 1000.0 / d;
    if d > 0.0 {
      assert q > 0.0 && rate * q > 0.0;
    } else {
      assert q < 0.0 && rate * q < 0.0;
    }
  }

  lemma TruncTwice(t: int)
    ensures Trunc(Trunc(t, MILLISECOND) * MILLISECOND, MILLISECOND) == Trunc(t, MILLISECOND)
  {
  }

  // ---- What a save leaves out ----

  /** The metric of an address is saved exactly when its domain is in one of the other three maps. */
  lemma MetricSavedExactly(allIps: Lists, ips: map<string, string>, dynamic: Lists, metrics: map<string, Metric>,
                           f: map<string, Domain>, d: string, ip: string)
    requires Collected(allIps, ips, dynamic, metrics, f) && MetricKey(d, ip) in metrics && ip != ""
    ensures d in f && ip in f[d].ips && Saved(metrics[MetricKey(d, ip)]) in f[d].metrics
       <==> d in allIps || d in ips || d in dynamic
  {
    hide MetricKey, Saved, SavedMetrics, Dedup;
    assert Wanted(allIps, dynamic, metrics, d, ip);
    if d in f {
      assert SavedDomain(allIps, dynamic, metrics, d, f[d]);
      MeasuredMembers(metrics, d, f[d].ips);
      MeasuredSaved(metrics, d, f[d].ips);
      var kept := Measured(metrics, d, f[d].ips);
      var i :| 0 <= i < |kept| && kept[i] == ip;
      assert f[d].metrics[i] == Saved(metrics[MetricKey(d, ip)]);
    }
  }

  /** A first successful probe of a baseline address, saved before DNS ever answered: nothing is written. */
  lemma MetricsOnlyLost(f: map<string, Domain>)
    requires Collected(map[], map[], map[], Recorded(map[], "id.vk.ru", "93.186.237.1", Success(MILLISECOND, HOUR)), f)
    ensures f == map[]
  {
  }
}
