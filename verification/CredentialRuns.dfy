/**
 Where the credentials of internal/core/credentials.go come from over a whole run: which fetch a
 result carries, what a lookup of the cache, a store and an invalidation do, and a run that shows it.
 */
module CredentialRuns {
  import opened Wrappers
  import opened CredentialCache

  // ---- The history of credentials ----

  /** At step b thread u begins a fetch for c. */
  ghost predicate Begins(run: seq<State>, b: nat, u: nat, c: Creds) {
    && b + 1 < |run| && u < |run[b].threads| && u < |run[b + 1].threads|
    && var p, q := run[b].threads[u], run[b + 1].threads[u];
       && p.WaitFetch? && q.Fetching? && p.call.link == c.link && p.call.group == c.group && run[b].gen == c.fetchGen
  }

  /** At step j its fetch ends with the triple of c. */
  ghost predicate Ends(run: seq<State>, j: nat, u: nat, c: Creds) {
    && j + 1 < |run| && u < |run[j].threads| && u < |run[j + 1].threads|
    && run[j].threads[u].Fetching? && run[j + 1].threads[u].Store? && run[j + 1].threads[u].triple == c.triple
  }

  /** At step s it stores c, for 540 s from then. */
  ghost predicate Stores(run: seq<State>, s: nat, u: nat, c: Creds) {
    && s + 1 < |run| && u < |run[s].threads| && u < |run[s + 1].threads|
    && run[s].threads[u].Store?
    && run[s + 1].threads[u].Returned? && run[s + 1].threads[u].result == Fresh(c, run[s].now)
    && c.storedAt == run[s].now && c.expiresAt == run[s].now + 540
  }

  ghost predicate HasBegun(run: seq<State>, k: nat, u: nat, c: Creds) { exists b | 0 <= b < k :: Begins(run, b, u, c) }

  ghost predicate HasEnded(run: seq<State>, k: nat, u: nat, c: Creds) {
    exists b, j | 0 <= b < j < k :: Begins(run, b, u, c) && Ends(run, j, u, c)
  }

  /** Before state k one thread fetched c, from begin to end, and then stored it. */
  ghost predicate Comes(run: seq<State>, k: nat, c: Creds) {
    exists u, b, j, s | 0 <= b < j < s < k :: Begins(run, b, u, c) && Ends(run, j, u, c) && Stores(run, s, u, c)
  }

  /** The credentials a thread is fetching or about to store. */
  ghost function Pending(p: Pc): Creds
    requires p.Fetching? || p.Store?
  {
    Creds(if p.Store? then p.triple else 0, p.call.link, 0, p.call.group, 0, p.fetchGen)
  }

  ghost predicate Traced(run: seq<State>, k: nat)
    requires k < |run|
  {
    && (forall t | 0 <= t < |run[k].threads| :: ThreadTraced(run, k, t))
    && (forall i | 0 <= i < |run[k].caches| && run[k].caches[i].creds.Some? ::
          Comes(run, k, run[k].caches[i].creds.value))
  }

  ghost predicate ThreadTraced(run: seq<State>, k: nat, t: nat)
    requires k < |run| && t < |run[k].threads|
  {
    var p := run[k].threads[t];
    && (p.Fetching? ==> HasBegun(run, k, t, Pending(p)))
    && (p.Store? ==> HasEnded(run, k, t, Pending(p)))
    && (p.Returned? && !p.result.Failed? ==> Comes(run, k, p.result.creds))
  }

  lemma ComesLater(run: seq<State>, k: nat, c: Creds)
    requires Comes(run, k, c)
    ensures Comes(run, k + 1, c)
  {
    hide Begins, Ends, Stores;
  }

  /** Traces look at link, group, generation and triple only. */
  lemma BeginsAlike(run: seq<State>, b: nat, u: nat, c: Creds, d: Creds)
    requires Begins(run, b, u, c) && c.link == d.link && c.group == d.group && c.fetchGen == d.fetchGen
    ensures Begins(run, b, u, d)
  {
  }

  lemma EndsAlike(run: seq<State>, j: nat, u: nat, c: Creds, d: Creds)
    requires Ends(run, j, u, c) && c.triple == d.triple
    ensures Ends(run, j, u, d)
  {
  }

  lemma UnchangedTraced(run: seq<State>, k: nat, t: nat)
    requires k + 1 < |run| && t < |run[k].threads| && t < |run[k + 1].threads|
    requires run[k + 1].threads[t] == run[k].threads[t]
    requires ThreadTraced(run, k, t)
    ensures ThreadTraced(run, k + 1, t)
  {
    hide Begins, Ends, Stores;
    var p := run[k].threads[t];
    if p.Returned? && !p.result.Failed? {
      ComesLater(run, k, p.result.creds);
    }
  }

  lemma FetchTraced(run: seq<State>, k: nat, t: nat)
    requires k + 1 < |run| && FetchStep(run[k], t, run[k + 1])
    ensures ThreadTraced(run, k + 1, t)
  {
    assert Begins(run, k, t, Pending(run[k + 1].threads[t]));
  }

  lemma FetchedTraced(run: seq<State>, k: nat, t: nat)
    requires k + 1 < |run| && FetchedStep(run[k], t, run[k + 1]) && ThreadTraced(run, k, t)
    ensures ThreadTraced(run, k + 1, t)
  {
    hide Begins;
    var p, q := run[k].threads[t], run[k + 1].threads[t];
    if q.Store? {
      var b :| 0 <= b < k && Begins(run, b, t, Pending(p));
      BeginsAlike(run, b, t, Pending(p), Pending(q));
      assert Ends(run, k, t, Pending(q));
    }
  }

  lemma StoreTraced(run: seq<State>, k: nat, t: nat)
    requires k + 1 < |run| && StoreStep(run[k], t, run[k + 1]) && ThreadTraced(run, k, t)
    ensures ThreadTraced(run, k + 1, t)
    ensures run[k + 1].threads[t].Returned? && run[k + 1].threads[t].result.Fresh?
    ensures Comes(run, k + 1, run[k + 1].threads[t].result.creds)
  {
    hide Begins, Ends;
    var p := run[k].threads[t];
    var c := run[k + 1].threads[t].result.creds;
    var b, j :| 0 <= b < j < k && Begins(run, b, t, Pending(p)) && Ends(run, j, t, Pending(p));
    BeginsAlike(run, b, t, Pending(p), c);
    EndsAlike(run, j, t, Pending(p), c);
    assert Stores(run, k, t, c);
  }

  /** What a thread step does to the caches' credentials: nothing new but what it stores. */
  lemma CachesAfter(a: State, t: nat, b: State, i: nat)
    requires ThreadStep(a, t, b) && i < |b.caches| && b.caches[i].creds.Some?
    ensures (i < |a.caches| && a.caches[i].creds == b.caches[i].creds)
            || (StoreStep(a, t, b) && b.threads[t].Returned?
                && b.threads[t].result == Fresh(b.caches[i].creds.value, a.now))
  {
  }

  /** A thread step that is none of the three leaves nothing to trace but a hit. */
  lemma OtherTraced(run: seq<State>, k: nat, t: nat)
    requires k + 1 < |run| && ThreadStep(run[k], t, run[k + 1])
    requires !FetchStep(run[k], t, run[k + 1]) && !FetchedStep(run[k], t, run[k + 1])
    requires !StoreStep(run[k], t, run[k + 1])
    requires Traced(run, k)
    ensures ThreadTraced(run, k + 1, t)
  {
    hide HasBegun, HasEnded, Comes;
    var q := run[k + 1].threads[t];
    if q.Returned? && q.result.Hit? {
      ComesLater(run, k, q.result.creds);
    }
  }

  lemma StepTraced(run: seq<State>, k: nat, t: nat)
    requires k + 1 < |run| && ThreadStep(run[k], t, run[k + 1]) && Traced(run, k)
    ensures Traced(run, k + 1)
  {
    hide ThreadStep, FetchStep, FetchedStep, StoreStep, ThreadTraced, Comes;
    var a, b := run[k], run[k + 1];
    StepProgress(a, t, b);
    var n := k + 1;
    forall u | 0 <= u < |b.threads|
      ensures ThreadTraced(run, n, u)
    {
      assert ThreadTraced(run, k, u);
      if u != t {
        UnchangedTraced(run, k, u);
      } else if FetchStep(a, t, b) {
        FetchTraced(run, k, t);
      } else if FetchedStep(a, t, b) {
        FetchedTraced(run, k, t);
      } else if StoreStep(a, t, b) {
        StoreTraced(run, k, t);
      } else {
        OtherTraced(run, k, t);
      }
    }
    forall i | 0 <= i < |b.caches| && b.caches[i].creds.Some?
      ensures Comes(run, k + 1, b.caches[i].creds.value)
    {
      CachesAfter(a, t, b, i);
      if i < |a.caches| && a.caches[i].creds == b.caches[i].creds {
        ComesLater(run, k, b.caches[i].creds.value);
      } else {
        assert ThreadTraced(run, k, t);
        StoreTraced(run, k, t);
      }
    }
  }

  lemma QuietTraced(run: seq<State>, k: nat)
    requires k + 1 < |run| && Traced(run, k)
    requires run[k + 1].threads == run[k].threads && run[k + 1].caches == run[k].caches
    ensures Traced(run, k + 1)
  {
    hide ThreadTraced, Comes;
    var n := k + 1;
    forall u | 0 <= u < |run[k].threads|
      ensures ThreadTraced(run, n, u)
    {
      assert ThreadTraced(run, k, u);
      UnchangedTraced(run, k, u);
    }
    forall i | 0 <= i < |run[k].caches| && run[k].caches[i].creds.Some?
      ensures Comes(run, k + 1, run[k].caches[i].creds.value)
    {
      ComesLater(run, k, run[k].caches[i].creds.value);
    }
  }

  lemma {:induction false} RunTraced(run: seq<State>, k: nat)
    requires Run(run) && k < |run|
    ensures Traced(run, k)
    decreases k
  {
    hide Traced, ThreadStep;
    if k == 0 {
      StartTraced(run);
    } else {
      RunTraced(run, k - 1);
      var a, b := run[k - 1], run[k];
      assert Next(a, b);
      if t :| ThreadStep(a, t, b) {
        StepTraced(run, k - 1, t);
      } else {
        QuietTraced(run, k - 1);
      }
    }
  }

  lemma StartTraced(run: seq<State>)
    requires Run(run)
    ensures Traced(run, 0)
  {
    assert Init(run[0]);
  }

  // ---- Results ----

  /** Whatever a call returns, some thread fetched it before, for this link and group, and stored it. */
  lemma ResultsAreFetched(run: seq<State>, k: nat, t: nat)
    requires Run(run) && k < |run|
    requires t < |run[k].threads| && run[k].threads[t].Returned? && !run[k].threads[t].result.Failed?
    ensures var p := run[k].threads[t];
            Comes(run, k, p.result.creds) && p.result.creds.link == p.call.link && p.result.creds.group == p.call.group
  {
    hide Comes, Run;
    RunTraced(run, k);
    assert ThreadTraced(run, k, t);
    ResultsAreRight(run, k, t);
  }

  lemma {:induction false} GenGrows(run: seq<State>, i: nat, k: nat)
    requires Run(run) && i <= k < |run|
    ensures run[i].gen <= run[k].gen
    decreases k
  {
    if i < k {
      GenGrows(run, i, k - 1);
      assert Next(run[k - 1], run[k]);
    }
  }

  /** A call that looks up its cache after a clear-all returns credentials that were fetched, from begin to end,
      and stored after it. */
  lemma FetchedAfterClearAll(run: seq<State>, c: nat, k: nat, t: nat)
    requires Run(run) && c + 1 <= k < |run| && ClearAll(run[c], run[c + 1])
    requires t < |run[c].threads| && !HasCall(run[c + 1].threads[t])
    requires t < |run[k].threads| && run[k].threads[t].Returned? && !run[k].threads[t].result.Failed?
    ensures var creds := run[k].threads[t].result.creds;
            exists u, b, j, s | c < b < j < s < k ::
              Begins(run, b, u, creds) && Ends(run, j, u, creds) && Stores(run, s, u, creds)
  {
    hide Run, Ends, Stores;
    ClearAllIsABarrier(run, c, k, t);
    ResultsAreFetched(run, k, t);
    var creds := run[k].threads[t].result.creds;
    var u, b, j, s :| 0 <= b < j < s < k
                      && Begins(run, b, u, creds) && Ends(run, j, u, creds) && Stores(run, s, u, creds);
    if b <= c {
      GenGrows(run, b, c);
    }
    assert c < b;
  }

  // ---- What single steps do ----

  lemma MovedThread(a: State, b: State, t: nat)
    requires Next(a, b) && t < |a.threads| && t < |b.threads| && b.threads[t] != a.threads[t]
    ensures ThreadStep(a, t, b)
  {
    hide ThreadStep;
    if u :| ThreadStep(a, u, b) {
      StepProgress(a, u, b);
    }
  }

  /** A look at the cache is a hit exactly when it holds credentials for the link that have not expired. */
  lemma HitExactly(a: State, b: State, t: nat)
    requires Next(a, b) && t < |a.threads| && t < |b.threads| && a.threads[t].Check? && b.threads[t] != a.threads[t]
    ensures var call := a.threads[t].call;
            && call.cache < |a.caches|
            && var c := a.caches[call.cache].creds;
               if c.Some? && c.value.link == call.link && a.now < c.value.expiresAt
               then b.threads[t] == Returned(call, Hit(c.value, a.now))
               else b.threads[t] in {WaitFetch(call), Abandon(call)}
  {
    MovedThread(a, b, t);
  }

  /** What is stored is in the caller's own cache afterwards, and its lock is free. */
  lemma StoredInCache(a: State, b: State, t: nat)
    requires Next(a, b) && t < |a.threads| && t < |b.threads| && a.threads[t].Store? && b.threads[t] != a.threads[t]
    ensures var p := a.threads[t];
            && p.call.cache < |b.caches| && b.threads[t].Returned? && b.threads[t].result.Fresh?
            && b.caches[p.call.cache].creds == Some(b.threads[t].result.creds) && b.caches[p.call.cache].owner == None
  {
    MovedThread(a, b, t);
  }

  /** An invalidation waits until no call holds the cache, and leaves it without credentials. */
  lemma InvalidatedCache(a: State, b: State, t: nat)
    requires Next(a, b) && t < |a.threads| && t < |b.threads|
    requires a.threads[t].Invalidating? && b.threads[t] != a.threads[t]
    ensures var c := a.threads[t].cache;
            && c < |a.caches| == |b.caches| && a.caches[c].owner == None
            && b.caches[c].creds == None && b.threads[t] == ErrorDone
  {
    hide Next, ThreadStep;
    MovedThread(a, b, t);
    Invalidates(a, t, b);
  }

  lemma Invalidates(a: State, t: nat, b: State)
    requires ThreadStep(a, t, b) && a.threads[t].Invalidating?
    ensures InvalidateStep(a, t, b)
  {
    hide InvalidateStep, Created;
  }

  /** An auth error counts against the cache that its group has then. */
  lemma ErrorsOwnGroup(a: State, b: State, t: nat)
    requires Next(a, b) && t < |a.threads| && t < |b.threads|
    requires b.threads[t].ErrorCount? && b.threads[t] != a.threads[t]
    ensures var p := a.threads[t];
            (p.ErrorLook? || p.ErrorCreate?) && p.group in b.map_ && b.threads[t].cache == b.map_[p.group]
  {
    hide Next;
    MovedThread(a, b, t);
  }

  // ---- A run ----

  const CALL: Call := Call("L", 0, 0, 0)

  /** Fetched with triple 7 and stored at time 0. */
  const SEVEN: Creds := Creds(7, "L", 540, 0, 0, 0)

  ghost function One(p: Pc, q: Pc, creds: Option<Creds>, owner: Option<nat>, fetcher: Option<nat>): State {
    State(map[0 := 0], [Cache(creds, owner, 0, 0)], fetcher, [p, q], 0, 0)
  }

  /** Two calls of one group for one link: the first fetches triple 7, the second finds it. */
  lemma FetchThenHit() returns (run: seq<State>)
    ensures Run(run)
    ensures run[|run| - 1].threads == [Returned(CALL, Fresh(SEVEN, 0)), Returned(CALL, Hit(SEVEN, 0))]
  {
    hide ThreadStep;
    var before := UntilFetch();
    var after := FromFetch();
    run := before + after;
    RunOf(run);
  }

  ghost predicate Steps(run: seq<State>) {
    forall k | 0 <= k < |run| - 1 :: SomeStep(run[k], run[k + 1])
  }

  ghost predicate SomeStep(a: State, b: State) { exists t :: ThreadStep(a, t, b) }

  ghost function AtFetch(): State { One(Fetching(CALL, 0), Wait(CALL), None, Some(0), Some(0)) }

  lemma UntilFetch() returns (run: seq<State>)
    ensures run != [] && Init(run[0]) && Steps(run) && SomeStep(run[|run| - 1], AtFetch())
  {
    hide SomeStep;
    var look := Look("L", 0);
    var r0 := State(map[], [], None, [look, look], 0, 0);
    var r1 := State(map[], [], None, [Create("L", 0), look], 0, 0);
    var r2 := One(Wait(CALL), look, None, None, None);
    var r3 := One(Wait(CALL), Wait(CALL), None, None, None);
    var r4 := One(Check(CALL), Wait(CALL), None, Some(0), None);
    var r5 := One(WaitFetch(CALL), Wait(CALL), None, Some(0), None);
    Looks(r0, 0, r1);
    Looks(r1, 0, r2);
    Looks(r2, 1, r3);
    Locks(r3, 0, r4);
    Checks(r4, 0, r5);
    Fetches(r5, AtFetch());
    run := [r0, r1, r2, r3, r4, r5];
  }

  lemma FromFetch() returns (run: seq<State>)
    ensures run != [] && run[0] == AtFetch() && Steps(run)
    ensures run[|run| - 1].threads == [Returned(CALL, Fresh(SEVEN, 0)), Returned(CALL, Hit(SEVEN, 0))]
  {
    hide SomeStep;
    var done := Returned(CALL, Fresh(SEVEN, 0));
    var r7 := One(Store(CALL, 7, 0), Wait(CALL), None, Some(0), None);
    var r8 := One(done, Wait(CALL), Some(SEVEN), None, None);
    var r9 := One(done, Check(CALL), Some(SEVEN), Some(1), None);
    var r10 := One(done, Returned(CALL, Hit(SEVEN, 0)), Some(SEVEN), None, None);
    Fetched(AtFetch(), r7);
    Stored(r7, r8);
    Locks(r8, 1, r9);
    Checks(r9, 1, r10);
    run := [AtFetch(), r7, r8, r9, r10];
  }

  lemma Looks(a: State, t: nat, b: State)
    requires LookStep(a, t, b)
    ensures SomeStep(a, b)
  {
    assert ThreadStep(a, t, b);
  }

  lemma Locks(a: State, t: nat, b: State)
    requires LockStep(a, t, b)
    ensures SomeStep(a, b)
  {
    assert ThreadStep(a, t, b);
  }

  lemma Checks(a: State, t: nat, b: State)
    requires CheckStep(a, t, b)
    ensures SomeStep(a, b)
  {
    assert ThreadStep(a, t, b);
  }

  lemma Fetches(a: State, b: State)
    requires FetchStep(a, 0, b)
    ensures SomeStep(a, b)
  {
    assert ThreadStep(a, 0, b);
  }

  lemma Fetched(a: State, b: State)
    requires a == AtFetch() && b == One(Store(CALL, 7, 0), Wait(CALL), None, Some(0), None)
    ensures SomeStep(a, b)
  {
    assert b == a.(threads := a.threads[0 := Store(CALL, 7, 0)], fetcher := None);
    assert FetchedStep(a, 0, b);
    assert ThreadStep(a, 0, b);
  }

  lemma Stored(a: State, b: State)
    requires StoreStep(a, 0, b)
    ensures SomeStep(a, b)
  {
    assert ThreadStep(a, 0, b);
  }

  lemma RunOf(run: seq<State>)
    requires run != [] && Init(run[0]) && Steps(run)
    ensures Run(run)
  {
    hide ThreadStep, Init;
    forall k | 0 <= k < |run| - 1
      ensures Next(run[k], run[k + 1])
    {
      assert SomeStep(run[k], run[k + 1]);
    }
  }
}
