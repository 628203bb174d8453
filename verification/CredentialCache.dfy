/**
 The credentials cache protocol of internal/core/credentials.go as a step relation over
 any number of threads: double-checked creation of a group's cache, a lock per cache that
 is held across the fetch, one global fetch lock inside it, expiry, invalidation after auth
 errors, and the clearing of all caches at any moment.
 */
module CredentialCache {
  import opened Wrappers

  const LIFETIME := 540  // ten minutes less the safety margin, in seconds

  /** Credentials in a cache; the last three fields only record their history. */
  datatype Creds = Creds(triple: int, link: string, expiresAt: int, group: nat, storedAt: int, fetchGen: nat)

  /** A cache object: its credentials, the holder of its lock, and the group and generation it was created for. */
  datatype Cache = Cache(creds: Option<Creds>, owner: Option<nat>, group: nat, birth: nat)

  /** A getCredsCached call: which link and stream group, its cache and the generation in which it was looked up. */
  datatype Call = Call(link: string, group: nat, cache: nat, lookGen: nat)

  datatype Result = Hit(creds: Creds, at: int) | Fresh(creds: Creds, at: int) | Failed

  /** Where a thread stands.  The states from Check to Abandon hold the cache lock. */
  datatype Pc =
    | Look(link: string, group: nat)
    | Create(link: string, group: nat)
    | Wait(call: Call)
    | Check(call: Call)
    | WaitFetch(call: Call)
    | Fetching(call: Call, fetchGen: nat)
    | Store(call: Call, triple: int, fetchGen: nat)
    | Abandon(call: Call)
    | Returned(call: Call, result: Result)
    | ErrorLook(group: nat)
    | ErrorCreate(group: nat)
    | ErrorCount(cache: nat)
    | Invalidating(cache: nat)
    | ErrorDone

  /** gen counts the clear-alls so far. */
  datatype State = State(map_: map<nat, nat>, caches: seq<Cache>, fetcher: Option<nat>, threads: seq<Pc>, now: int,
                         gen: nat)

  predicate HasCall(p: Pc) {
    p.Wait? || p.Check? || p.WaitFetch? || p.Fetching? || p.Store? || p.Abandon? || p.Returned?
  }

  predicate Holds(p: Pc, c: nat) {
    (p.Check? || p.WaitFetch? || p.Fetching? || p.Store? || p.Abandon?) && p.call.cache == c
  }

  predicate Finished(p: Pc) { p.Returned? || p.ErrorDone? }

  // ---- Steps ----

  /** getStreamCache under the read lock, or its second look under the write lock. */
  ghost predicate LookStep(a: State, t: nat, b: State) {
    && t < |a.threads|
    && var p := a.threads[t];
       && (p.Look? || p.Create?)
       && if p.group in a.map_
          then b == a.(threads := a.threads[t := Wait(Call(p.link, p.group, a.map_[p.group], a.gen))])
          else if p.Look? then b == a.(threads := a.threads[t := Create(p.link, p.group)])
          else b == Created(a, p.group).(threads := a.threads[t := Wait(Call(p.link, p.group, |a.caches|, a.gen))])
  }

  ghost function Created(a: State, group: nat): State {
    a.(map_ := a.map_[group := |a.caches|], caches := a.caches + [Cache(None, None, group, a.gen)])
  }

  ghost predicate LockStep(a: State, t: nat, b: State) {
    && t < |a.threads| && a.threads[t].Wait?
    && var call := a.threads[t].call;
       && call.cache < |a.caches| && a.caches[call.cache].owner.None?
       && b == a.(threads := a.threads[t := Check(call)],
                  caches := a.caches[call.cache := a.caches[call.cache].(owner := Some(t))])
  }

  ghost predicate IsHit(a: State, call: Call) {
    && call.cache < |a.caches|
    && var c := a.caches[call.cache].creds;
       c.Some? && c.value.link == call.link && a.now < c.value.expiresAt
  }

  ghost function Unlocked(a: State, c: nat): seq<Cache>
    requires c < |a.caches|
  {
    a.caches[c := a.caches[c].(owner := None)]
  }

  /** A hit returns; a miss goes on, unless the context is cancelled. */
  ghost predicate CheckStep(a: State, t: nat, b: State) {
    && t < |a.threads| && a.threads[t].Check?
    && var call := a.threads[t].call;
       && call.cache < |a.caches|
       && if IsHit(a, call)
          then b == a.(threads := a.threads[t := Returned(call, Hit(a.caches[call.cache].creds.value, a.now))],
                       caches := Unlocked(a, call.cache))
          else b == a.(threads := a.threads[t := WaitFetch(call)]) || b == a.(threads := a.threads[t := Abandon(call)])
  }

  ghost predicate FetchStep(a: State, t: nat, b: State) {
    && t < |a.threads| && a.threads[t].WaitFetch? && a.fetcher.None?
    && b == a.(threads := a.threads[t := Fetching(a.threads[t].call, a.gen)], fetcher := Some(t))
  }

  /** The fetch ends, with any triple or with an error, and releases the fetch lock. */
  ghost predicate FetchedStep(a: State, t: nat, b: State) {
    && t < |a.threads| && a.threads[t].Fetching?
    && var p := a.threads[t];
       || b == a.(threads := a.threads[t := Abandon(p.call)], fetcher := None)
       || exists triple :: b == a.(threads := a.threads[t := Store(p.call, triple, p.fetchGen)], fetcher := None)
  }

  ghost predicate StoreStep(a: State, t: nat, b: State) {
    && t < |a.threads| && a.threads[t].Store?
    && var p := a.threads[t];
       && p.call.cache < |a.caches|
       && var c := Creds(p.triple, p.call.link, a.now + LIFETIME, p.call.group, a.now, p.fetchGen);
          b == a.(threads := a.threads[t := Returned(p.call, Fresh(c, a.now))],
                  caches := a.caches[p.call.cache := a.caches[p.call.cache].(creds := Some(c), owner := None)])
  }

  ghost predicate AbandonStep(a: State, t: nat, b: State) {
    && t < |a.threads| && a.threads[t].Abandon?
    && var call := a.threads[t].call;
       && call.cache < |a.caches|
       && b == a.(threads := a.threads[t := Returned(call, Failed)], caches := Unlocked(a, call.cache))
  }

  ghost predicate ErrorLookStep(a: State, t: nat, b: State) {
    && t < |a.threads|
    && var p := a.threads[t];
       && (p.ErrorLook? || p.ErrorCreate?)
       && if p.group in a.map_ then b == a.(threads := a.threads[t := ErrorCount(a.map_[p.group])])
          else if p.ErrorLook? then b == a.(threads := a.threads[t := ErrorCreate(p.group)])
          else b == Created(a, p.group).(threads := a.threads[t := ErrorCount(|a.caches|)])
  }

  /** The error counters are shared without a lock: the verdict is left open. */
  ghost predicate ErrorCountStep(a: State, t: nat, b: State) {
    && t < |a.threads| && a.threads[t].ErrorCount?
    && (b == a.(threads := a.threads[t := ErrorDone]) ||
        b == a.(threads := a.threads[t := Invalidating(a.threads[t].cache)]))
  }

  ghost predicate InvalidateStep(a: State, t: nat, b: State) {
    && t < |a.threads| && a.threads[t].Invalidating?
    && var c := a.threads[t].cache;
       && c < |a.caches| && a.caches[c].owner.None?
       && b == a.(threads := a.threads[t := ErrorDone], caches := a.caches[c := a.caches[c].(creds := None)])
  }

  ghost predicate ThreadStep(a: State, t: nat, b: State) {
    || LookStep(a, t, b) || LockStep(a, t, b) || CheckStep(a, t, b) || FetchStep(a, t, b) || FetchedStep(a, t, b)
    || StoreStep(a, t, b) || AbandonStep(a, t, b) || ErrorLookStep(a, t, b) || ErrorCountStep(a, t, b)
    || InvalidateStep(a, t, b)
  }

  /** invalidateAllCaches: the map is replaced; threads keep the objects they hold. */
  ghost predicate ClearAll(a: State, b: State) { b == a.(map_ := map[], gen := a.gen + 1) }

  ghost predicate Tick(a: State, b: State) { b.now >= a.now && b == a.(now := b.now) }

  ghost predicate Next(a: State, b: State) {
    (exists t :: ThreadStep(a, t, b)) || ClearAll(a, b) || Tick(a, b)
  }

  /** Any number of calls and auth errors about to start, on an empty store. */
  ghost predicate Init(s: State) {
    && s.map_ == map[] && s.caches == [] && s.fetcher == None && s.gen == 0
    && forall t | 0 <= t < |s.threads| :: s.threads[t].Look? || s.threads[t].ErrorLook?
  }

  ghost predicate Run(run: seq<State>) {
    run != [] && Init(run[0]) && forall k | 0 <= k < |run| - 1 :: Next(run[k], run[k + 1])
  }

  // ---- The invariant ----

  ghost predicate CredsOk(s: State, c: Cache, k: Creds) {
    k.group == c.group && c.birth <= k.fetchGen && k.expiresAt == k.storedAt + LIFETIME && k.storedAt <= s.now
  }

  ghost predicate CacheOk(s: State, i: nat)
    requires i < |s.caches|
  {
    var c := s.caches[i];
    && c.birth <= s.gen
    && (c.birth == s.gen ==> c.group in s.map_ && s.map_[c.group] == i)
    && (c.creds.Some? ==> CredsOk(s, c, c.creds.value))
    && (c.owner.Some? ==> c.owner.value < |s.threads| && Holds(s.threads[c.owner.value], i))
  }

  ghost predicate ResultOk(call: Call, r: Result) {
    r.Failed? ||
    (&& r.creds.link == call.link && r.creds.group == call.group
     && call.lookGen <= r.creds.fetchGen
     && r.creds.storedAt <= r.at < r.creds.storedAt + 540)
  }

  ghost predicate ThreadOk(s: State, t: nat)
    requires t < |s.threads|
  {
    var p := s.threads[t];
    && (HasCall(p) ==>
          && p.call.cache < |s.caches|
          && s.caches[p.call.cache].group == p.call.group
          && s.caches[p.call.cache].birth == p.call.lookGen)
    && (HasCall(p) && Holds(p, p.call.cache) ==> s.caches[p.call.cache].owner == Some(t))
    && (p.Fetching? <==> s.fetcher == Some(t))
    && (p.Fetching? || p.Store? ==> p.call.lookGen <= p.fetchGen)
    && (p.Returned? ==> ResultOk(p.call, p.result))
    && (p.ErrorCount? || p.Invalidating? ==> p.cache < |s.caches|)
  }

  ghost predicate MapOk(s: State) {
    forall g | g in s.map_ ::
      s.map_[g] < |s.caches| && s.caches[s.map_[g]].group == g && s.caches[s.map_[g]].birth == s.gen
  }

  ghost predicate OnePerGroup(s: State) {
    forall i, j | 0 <= i < j < |s.caches| && s.caches[i].group == s.caches[j].group ::
      s.caches[i].birth != s.caches[j].birth
  }

  ghost predicate Inv(s: State) {
    && MapOk(s) && OnePerGroup(s)
    && (forall i | 0 <= i < |s.caches| :: CacheOk(s, i))
    && (forall t | 0 <= t < |s.threads| :: ThreadOk(s, t))
    && (s.fetcher.Some? ==> s.fetcher.value < |s.threads|)
  }

  /** From a to b only thread t and cache c change, and neither takes a lock from another thread. */
  ghost predicate OnlyTouches(a: State, t: nat, c: nat, b: State) {
    && t < |a.threads| == |b.threads| && |a.caches| == |b.caches|
    && b.map_ == a.map_ && b.gen == a.gen && b.now == a.now
    && (forall u | 0 <= u < |a.threads| && u != t :: b.threads[u] == a.threads[u])
    && (forall i | 0 <= i < |a.caches| && i != c :: b.caches[i] == a.caches[i])
    && (c < |a.caches| ==> b.caches[c].group == a.caches[c].group && b.caches[c].birth == a.caches[c].birth)
    && (forall u | c < |a.caches| && u != t :: a.caches[c].owner == Some(u) <==> b.caches[c].owner == Some(u))
    && (forall u | u != t :: a.fetcher == Some(u) <==> b.fetcher == Some(u))
    && (forall i | i != c && Holds(a.threads[t], i) :: Holds(b.threads[t], i))
  }

  /** Such a step keeps the invariant if it does so where it touches. */
  lemma TouchKeeps(a: State, t: nat, c: nat, b: State)
    requires Inv(a) && OnlyTouches(a, t, c, b) && ThreadOk(b, t) && (c < |b.caches| ==> CacheOk(b, c))
    ensures Inv(b)
  {
    forall i | 0 <= i < |b.caches|
      ensures CacheOk(b, i)
    {
      assert CacheOk(a, i);
    }
    forall u | 0 <= u < |b.threads|
      ensures ThreadOk(b, u)
    {
      assert ThreadOk(a, u);
    }
  }

  /** What the invariant says of a thread and of its cache. */
  lemma InvAt(s: State, t: nat)
    requires Inv(s) && t < |s.threads|
    ensures ThreadOk(s, t)
    ensures var p := s.threads[t];
            && (HasCall(p) ==> p.call.cache < |s.caches| && CacheOk(s, p.call.cache))
            && (p.Invalidating? ==> p.cache < |s.caches| && CacheOk(s, p.cache))
  {
    assert ThreadOk(s, t);
  }

  /** A group without a cache gets one. */
  lemma CreatedKeeps(a: State, group: nat)
    requires Inv(a) && group !in a.map_
    ensures Inv(Created(a, group))
  {
    var b := Created(a, group);
    forall i | 0 <= i < |b.caches|
      ensures CacheOk(b, i) && (i < |a.caches| && a.caches[i].group == group ==> a.caches[i].birth != a.gen)
    {
      assert i < |a.caches| ==> CacheOk(a, i);
    }
    forall u | 0 <= u < |b.threads|
      ensures ThreadOk(b, u)
    {
      assert ThreadOk(a, u);
    }
  }

  lemma LookKeeps(a: State, t: nat, b: State)
    requires Inv(a) && (LookStep(a, t, b) || ErrorLookStep(a, t, b))
    ensures Inv(b)
  {
    hide Inv;
    var p := a.threads[t];
    var mid := a;
    if p.group !in a.map_ && (p.Create? || p.ErrorCreate?) {
      CreatedKeeps(a, p.group);
      mid := Created(a, p.group);
    }
    InvAt(mid, t);
    if p.group in mid.map_ {
      MapAt(mid, p.group);
    }
    MoveKeeps(mid, t, b.threads[t], b);
  }

  lemma MapAt(s: State, group: nat)
    requires Inv(s) && group in s.map_
    ensures var i := s.map_[group]; i < |s.caches| && s.caches[i].group == group && s.caches[i].birth == s.gen
  {
  }

  /** A thread that holds nothing moves on. */
  lemma MoveKeeps(a: State, t: nat, q: Pc, b: State)
    requires Inv(a) && t < |a.threads| && b == a.(threads := a.threads[t := q]) && !HasCall(a.threads[t])
             && ThreadOk(b, t)
    ensures Inv(b)
  {
    InvAt(a, t);
    TouchKeeps(a, t, |a.caches|, b);
  }

  lemma LockKeeps(a: State, t: nat, b: State)
    requires Inv(a) && LockStep(a, t, b)
    ensures Inv(b)
  {
    InvAt(a, t);
    TouchKeeps(a, t, a.threads[t].call.cache, b);
  }

  lemma CheckKeeps(a: State, t: nat, b: State)
    requires Inv(a) && CheckStep(a, t, b)
    ensures Inv(b)
  {
    InvAt(a, t);
    TouchKeeps(a, t, a.threads[t].call.cache, b);
  }

  lemma FetchKeeps(a: State, t: nat, b: State)
    requires Inv(a) && FetchStep(a, t, b)
    ensures Inv(b)
  {
    InvAt(a, t);
    TouchKeeps(a, t, a.threads[t].call.cache, b);
  }

  lemma FetchedKeeps(a: State, t: nat, b: State)
    requires Inv(a) && FetchedStep(a, t, b)
    ensures Inv(b)
  {
    InvAt(a, t);
    TouchKeeps(a, t, a.threads[t].call.cache, b);
  }

  lemma StoreKeeps(a: State, t: nat, b: State)
    requires Inv(a) && StoreStep(a, t, b)
    ensures Inv(b)
  {
    InvAt(a, t);
    TouchKeeps(a, t, a.threads[t].call.cache, b);
  }

  lemma AbandonKeeps(a: State, t: nat, b: State)
    requires Inv(a) && AbandonStep(a, t, b)
    ensures Inv(b)
  {
    InvAt(a, t);
    TouchKeeps(a, t, a.threads[t].call.cache, b);
  }

  lemma ErrorCountKeeps(a: State, t: nat, b: State)
    requires Inv(a) && ErrorCountStep(a, t, b)
    ensures Inv(b)
  {
    InvAt(a, t);
    TouchKeeps(a, t, |a.caches|, b);
  }

  lemma InvalidateKeeps(a: State, t: nat, b: State)
    requires Inv(a) && InvalidateStep(a, t, b)
    ensures Inv(b)
  {
    InvAt(a, t);
    TouchKeeps(a, t, a.threads[t].cache, b);
  }

  lemma EnvironmentKeeps(a: State, b: State)
    requires Inv(a) && (ClearAll(a, b) || Tick(a, b))
    ensures Inv(b)
  {
    forall i | 0 <= i < |b.caches|
      ensures CacheOk(b, i)
    {
      assert CacheOk(a, i);
    }
    forall u | 0 <= u < |b.threads|
      ensures ThreadOk(b, u)
    {
      assert ThreadOk(a, u);
    }
  }

  lemma NextKeeps(a: State, b: State)
    requires Inv(a) && Next(a, b)
    ensures Inv(b)
  {
    hide Inv, LookStep, LockStep, CheckStep, FetchStep, FetchedStep, StoreStep, AbandonStep, ErrorLookStep,
         ErrorCountStep, InvalidateStep;
    if ClearAll(a, b) || Tick(a, b) {
      EnvironmentKeeps(a, b);
    } else {
      var t :| ThreadStep(a, t, b);
      if LookStep(a, t, b) { LookKeeps(a, t, b); }
      else if LockStep(a, t, b) { LockKeeps(a, t, b); }
      else if CheckStep(a, t, b) { CheckKeeps(a, t, b); }
      else if FetchStep(a, t, b) { FetchKeeps(a, t, b); }
      else if FetchedStep(a, t, b) { FetchedKeeps(a, t, b); }
      else if StoreStep(a, t, b) { StoreKeeps(a, t, b); }
      else if AbandonStep(a, t, b) { AbandonKeeps(a, t, b); }
      else if ErrorLookStep(a, t, b) { LookKeeps(a, t, b); }
      else if ErrorCountStep(a, t, b) { ErrorCountKeeps(a, t, b); }
      else { InvalidateKeeps(a, t, b); }
    }
  }

  lemma InitHolds(s: State)
    requires Init(s)
    ensures Inv(s)
  {
    forall t | 0 <= t < |s.threads|
      ensures ThreadOk(s, t)
    {
    }
  }

  lemma {:induction false} RunKeeps(run: seq<State>, k: nat)
    requires Run(run) && k < |run|
    ensures Inv(run[k])
    decreases k
  {
    hide Inv, Next, Init;
    if k == 0 {
      InitHolds(run[0]);
    } else {
      RunKeeps(run, k - 1);
      assert Next(run[k - 1], run[k]);
      NextKeeps(run[k - 1], run[k]);
    }
  }

  // ---- What holds of every run ----

  /** At most one fetch is under way, and it is under the lock of its own cache. */
  lemma OneFetchAtATime(run: seq<State>, k: nat, t: nat, u: nat)
    requires Run(run) && k < |run|
    requires t < |run[k].threads| && run[k].threads[t].Fetching?
    requires u < |run[k].threads| && run[k].threads[u].Fetching?
    ensures t == u
  {
    RunKeeps(run, k);
    assert ThreadOk(run[k], t) && ThreadOk(run[k], u);
  }

  /**
   A call that succeeds returns credentials fetched for its own link by its own stream
   group, less than 540 s after they were stored, by a fetch that did not begin before the
   last clear-all that precedes the call's lookup.
   */
  lemma ResultsAreRight(run: seq<State>, k: nat, t: nat)
    requires Run(run) && k < |run|
    requires t < |run[k].threads| && run[k].threads[t].Returned?
    ensures ResultOk(run[k].threads[t].call, run[k].threads[t].result)
  {
    RunKeeps(run, k);
    assert ThreadOk(run[k], t);
  }

  /** The second look under the write lock: one cache per stream group between two clear-alls. */
  lemma OneCachePerGroup(run: seq<State>, k: nat, i: nat, j: nat)
    requires Run(run) && k < |run|
    requires i < |run[k].caches| && j < |run[k].caches|
    requires run[k].caches[i].group == run[k].caches[j].group && run[k].caches[i].birth == run[k].caches[j].birth
    ensures i == j
  {
    RunKeeps(run, k);
  }

  // ---- Clear-all is a barrier ----

  /** What one step of thread t does to threads and generation. */
  ghost predicate Progress(a: State, t: nat, b: State) {
    && t < |a.threads| && |b.threads| == |a.threads| && b.threads == a.threads[t := b.threads[t]] && b.gen == a.gen
    && StepsLeft(b.threads[t]) < StepsLeft(a.threads[t])
    && (HasCall(a.threads[t]) ==> HasCall(b.threads[t]) && b.threads[t].call == a.threads[t].call)
    && (!HasCall(a.threads[t]) && HasCall(b.threads[t]) ==> b.threads[t].call.lookGen == a.gen)
  }

  lemma LookProgress(a: State, t: nat, b: State)
    requires LookStep(a, t, b) || ErrorLookStep(a, t, b) || ErrorCountStep(a, t, b) || InvalidateStep(a, t, b)
    ensures Progress(a, t, b)
  {
  }

  lemma CallProgress(a: State, t: nat, b: State)
    requires LockStep(a, t, b) || CheckStep(a, t, b) || FetchStep(a, t, b)
    ensures Progress(a, t, b)
  {
  }

  lemma EndProgress(a: State, t: nat, b: State)
    requires FetchedStep(a, t, b) || StoreStep(a, t, b) || AbandonStep(a, t, b)
    ensures Progress(a, t, b)
  {
  }

  lemma StepProgress(a: State, t: nat, b: State)
    requires ThreadStep(a, t, b)
    ensures Progress(a, t, b)
  {
    hide Progress, LookStep, ErrorLookStep, ErrorCountStep, InvalidateStep, LockStep, CheckStep, FetchStep,
         FetchedStep, StoreStep, AbandonStep;
    if LookStep(a, t, b) || ErrorLookStep(a, t, b) || ErrorCountStep(a, t, b) || InvalidateStep(a, t, b) {
      LookProgress(a, t, b);
    } else if LockStep(a, t, b) || CheckStep(a, t, b) || FetchStep(a, t, b) {
      CallProgress(a, t, b);
    } else {
      EndProgress(a, t, b);
    }
  }

  lemma StepCall(a: State, b: State, u: nat)
    requires Next(a, b) && u < |a.threads|
    ensures |a.threads| == |b.threads| && a.gen <= b.gen
    ensures HasCall(a.threads[u]) ==> HasCall(b.threads[u]) && b.threads[u].call == a.threads[u].call
    ensures !HasCall(a.threads[u]) && HasCall(b.threads[u]) ==> b.threads[u].call.lookGen == a.gen
  {
    hide ThreadStep;
    if ClearAll(a, b) || Tick(a, b) {
    } else {
      var t :| ThreadStep(a, t, b);
      StepProgress(a, t, b);
    }
  }

  lemma {:induction false} LookedUpLater(run: seq<State>, c: nat, k: nat, t: nat)
    requires Run(run) && c <= k < |run| && t < |run[c].threads| && !HasCall(run[c].threads[t])
    ensures |run[k].threads| == |run[c].threads| && run[c].gen <= run[k].gen
    ensures HasCall(run[k].threads[t]) ==> run[c].gen <= run[k].threads[t].call.lookGen
    decreases k
  {
    hide Next;
    if c < k {
      LookedUpLater(run, c, k - 1, t);
      assert Next(run[k - 1], run[k]);
      StepCall(run[k - 1], run[k], t);
    }
  }

  /**
   A call that has not looked up its cache when all caches are cleared never returns
   credentials of a fetch that began before: the fetch belongs to the new generation.
   */
  lemma ClearAllIsABarrier(run: seq<State>, c: nat, k: nat, t: nat)
    requires Run(run) && c + 1 <= k < |run| && ClearAll(run[c], run[c + 1])
    requires t < |run[c].threads| && !HasCall(run[c + 1].threads[t])
    requires t < |run[k].threads| && run[k].threads[t].Returned? && !run[k].threads[t].result.Failed?
    ensures run[c].gen < run[k].threads[t].result.creds.fetchGen
  {
    hide Next;
    LookedUpLater(run, c + 1, k, t);
    ResultsAreRight(run, k, t);
  }

  // ---- No deadlock, and every call ends ----

  ghost predicate Enabled(s: State, t: nat) { exists b :: ThreadStep(s, t, b) }

  lemma CanStep(s: State, t: nat, b: State)
    requires ThreadStep(s, t, b)
    ensures Enabled(s, t)
  {
  }

  /** The thread waits for a lock that another one holds. */
  ghost predicate Blocked(s: State, p: Pc) {
    match p
    case Wait(call) => call.cache < |s.caches| && s.caches[call.cache].owner.Some?
    case Invalidating(c) => c < |s.caches| && s.caches[c].owner.Some?
    case WaitFetch(_) => s.fetcher.Some?
    case _ => false
  }

  /** A thread that waits for no lock can take a step; a fetch can always end. */
  lemma FreeThreadSteps(s: State, t: nat)
    requires Inv(s) && t < |s.threads| && !Finished(s.threads[t])
    requires !Blocked(s, s.threads[t])
    ensures Enabled(s, t)
  {
    assert ThreadOk(s, t);
    var p := s.threads[t];
    match p
    case Look(link, g) =>
      if g in s.map_ {
        LookEnabled(s, t, s.(threads := s.threads[t := Wait(Call(link, g, s.map_[g], s.gen))]));
      } else {
        LookEnabled(s, t, s.(threads := s.threads[t := Create(link, g)]));
      }
    case Create(link, g) =>
      if g in s.map_ {
        LookEnabled(s, t, s.(threads := s.threads[t := Wait(Call(link, g, s.map_[g], s.gen))]));
      } else {
        LookEnabled(s, t, Created(s, g).(threads := s.threads[t := Wait(Call(link, g, |s.caches|, s.gen))]));
      }
    case Wait(call) =>
      var b := s.(threads := s.threads[t := Check(call)],
                  caches := s.caches[call.cache := s.caches[call.cache].(owner := Some(t))]);
      assert LockStep(s, t, b);
      CanStep(s, t, b);
    case Check(call) =>
      var b := if IsHit(s, call)
               then s.(threads := s.threads[t := Returned(call, Hit(s.caches[call.cache].creds.value, s.now))],
                       caches := Unlocked(s, call.cache))
               else s.(threads := s.threads[t := WaitFetch(call)]);
      assert CheckStep(s, t, b);
      CanStep(s, t, b);
    case WaitFetch(call) =>
      var b := s.(threads := s.threads[t := Fetching(call, s.gen)], fetcher := Some(t));
      assert FetchStep(s, t, b);
      CanStep(s, t, b);
    case Fetching(call, _) =>
      var b := s.(threads := s.threads[t := Abandon(call)], fetcher := None);
      assert FetchedStep(s, t, b);
      CanStep(s, t, b);
    case Store(call, triple, fetchGen) =>
      var c := Creds(triple, call.link, s.now + LIFETIME, call.group, s.now, fetchGen);
      var b := s.(threads := s.threads[t := Returned(call, Fresh(c, s.now))],
                  caches := s.caches[call.cache := s.caches[call.cache].(creds := Some(c), owner := None)]);
      assert StoreStep(s, t, b);
      CanStep(s, t, b);
    case Abandon(call) =>
      var b := s.(threads := s.threads[t := Returned(call, Failed)], caches := Unlocked(s, call.cache));
      assert AbandonStep(s, t, b);
      CanStep(s, t, b);
    case ErrorLook(g) =>
      if g in s.map_ {
        ErrorLookEnabled(s, t, s.(threads := s.threads[t := ErrorCount(s.map_[g])]));
      } else {
        ErrorLookEnabled(s, t, s.(threads := s.threads[t := ErrorCreate(g)]));
      }
    case ErrorCreate(g) =>
      if g in s.map_ {
        ErrorLookEnabled(s, t, s.(threads := s.threads[t := ErrorCount(s.map_[g])]));
      } else {
        ErrorLookEnabled(s, t, Created(s, g).(threads := s.threads[t := ErrorCount(|s.caches|)]));
      }
    case ErrorCount(c) =>
      var b := s.(threads := s.threads[t := ErrorDone]);
      assert ErrorCountStep(s, t, b);
      CanStep(s, t, b);
    case Invalidating(c) =>
      var b := s.(threads := s.threads[t := ErrorDone], caches := s.caches[c := s.caches[c].(creds := None)]);
      assert InvalidateStep(s, t, b);
      CanStep(s, t, b);
  }

  lemma LookEnabled(s: State, t: nat, b: State)
    requires LookStep(s, t, b)
    ensures Enabled(s, t)
  {
    CanStep(s, t, b);
  }

  lemma ErrorLookEnabled(s: State, t: nat, b: State)
    requires ErrorLookStep(s, t, b)
    ensures Enabled(s, t)
  {
    CanStep(s, t, b);
  }

  /** The holder of the fetch lock can always go on. */
  lemma FetcherSteps(s: State)
    requires Inv(s) && s.fetcher.Some?
    ensures Enabled(s, s.fetcher.value)
  {
    hide Enabled;
    assert ThreadOk(s, s.fetcher.value);
    FreeThreadSteps(s, s.fetcher.value);
  }

  /** The holder of a cache lock, or the fetcher it waits for, can go on. */
  lemma OwnerSteps(s: State, c: nat)
    requires Inv(s) && c < |s.caches| && s.caches[c].owner.Some?
    ensures exists t | 0 <= t < |s.threads| :: Enabled(s, t)
  {
    hide Enabled;
    assert CacheOk(s, c);
    var t := s.caches[c].owner.value;
    if s.fetcher.Some? {
      FetcherSteps(s);
      assert Enabled(s, s.fetcher.value);
    } else {
      FreeThreadSteps(s, t);
      assert Enabled(s, t);
    }
  }

  /** The lock order cache, then fetch, leaves no reachable deadlock. */
  lemma NoDeadlock(run: seq<State>, k: nat, t: nat)
    requires Run(run) && k < |run|
    requires t < |run[k].threads| && !Finished(run[k].threads[t])
    ensures exists u | 0 <= u < |run[k].threads| :: Enabled(run[k], u)
  {
    hide Enabled;
    var s := run[k];
    RunKeeps(run, k);
    assert ThreadOk(s, t);
    var p := s.threads[t];
    if !Blocked(s, p) {
      FreeThreadSteps(s, t);
      assert Enabled(s, t);
    } else if p.WaitFetch? {
      FetcherSteps(s);
      assert Enabled(s, s.fetcher.value);
    } else {
      OwnerSteps(s, if p.Wait? then p.call.cache else p.cache);
    }
  }

  /** Steps a thread still has before it, at most. */
  function StepsLeft(p: Pc): nat {
    match p
    case Look(_, _) => 8
    case Create(_, _) => 7
    case Wait(_) => 6
    case Check(_) => 5
    case WaitFetch(_) => 4
    case Fetching(_, _) => 3
    case Store(_, _, _) => 1
    case Abandon(_) => 1
    case Returned(_, _) => 0
    case ErrorLook(_) => 4
    case ErrorCreate(_) => 3
    case ErrorCount(_) => 2
    case Invalidating(_) => 1
    case ErrorDone => 0
  }

  function Remaining(ps: seq<Pc>): nat {
    if ps == [] then 0 else Remaining(ps[..|ps| - 1]) + StepsLeft(ps[|ps| - 1])
  }

  lemma {:induction false} RemainingUpdate(ps: seq<Pc>, t: nat, p: Pc)
    requires t < |ps|
    ensures Remaining(ps[t := p]) == Remaining(ps) - StepsLeft(ps[t]) + StepsLeft(p)
    decreases |ps|
  {
    hide StepsLeft;
    var n := |ps| - 1;
    if t == n {
      assert ps[t := p][..n] == ps[..n];
    } else {
      assert ps[t := p][..n] == ps[..n][t := p];
      RemainingUpdate(ps[..n], t, p);
    }
  }

  /** Every step of a thread brings the end nearer; nothing the environment does takes it back. */
  lemma StepsRunOut(a: State, b: State)
    requires Next(a, b)
    ensures if ByThread(a, b) then Remaining(b.threads) < Remaining(a.threads)
            else Remaining(b.threads) == Remaining(a.threads)
  {
    hide ThreadStep;
    if t: nat :| ThreadStep(a, t, b) {
      StepProgress(a, t, b);
      RemainingUpdate(a.threads, t, b.threads[t]);
    }
  }

  ghost function ThreadSteps(run: seq<State>): nat {
    if |run| <= 1 then 0
    else
      var n := |run| - 1;
      ThreadSteps(run[..n]) + if ByThread(run[n - 1], run[n]) then 1 else 0
  }

  ghost predicate ByThread(a: State, b: State) { exists t :: ThreadStep(a, t, b) }

  /** Whatever is cleared and however long it takes, a run has only so many thread steps in it. */
  lemma {:induction false} CallsEnd(run: seq<State>)
    requires Run(run)
    ensures ThreadSteps(run) + Remaining(run[|run| - 1].threads) <= Remaining(run[0].threads)
    decreases |run|
  {
    hide Next, ThreadStep, Init;
    if |run| > 1 {
      var n := |run| - 1;
      CallsEnd(run[..n]);
      assert Next(run[n - 1], run[n]);
      StepsRunOut(run[n - 1], run[n]);
    }
  }
}
