/**
 Concurrent writers on one wrapConn of internal/core/wrap.go.  Each wrapInto call draws a
 sequence number, a timestamp and a nonce counter with three separate atomic additions;
 between them other calls may run.  A run is any interleaving of these additions.
 */
module WrapConcurrent {
  import opened Bytes
  import opened Wrap

  /** A call in flight: the order of its first addition, what it drew, and the same for the timestamp. */
  datatype Call =
    | Numbered(start: nat, s: nat)
    | Stamped(start: nat, s: nat, stamp: nat, ts: nat)

  /** A packet sent, in the order of the third addition. */
  datatype Sent = Sent(start: nat, s: nat, stamp: nat, ts: nat, ctr: nat)

  datatype State = State(seqNo: nat, timestamp: nat, counter: nat, begun: nat, stamped: nat, calls: seq<Call>,
                         sent: seq<Sent>)

  datatype Origin = Origin(s0: nat, t0: nat, c0: nat)

  ghost predicate Init(o: Origin, st: State) {
    && o.s0 < U32 && o.t0 < U32 && o.c0 < U64
    && st == State(o.s0, o.t0, o.c0, 0, 0, [], [])
  }

  ghost predicate Begin(a: State, b: State) {
    b == a.(seqNo := (a.seqNo + 1) % U32, begun := a.begun + 1, calls := a.calls + [Numbered(a.begun, a.seqNo % U16)])
  }

  ghost predicate Stamp(a: State, b: State, i: nat) {
    && i < |a.calls| && a.calls[i].Numbered?
    && b == a.(timestamp := (a.timestamp + TS_STEP) % U32, stamped := a.stamped + 1,
               calls := a.calls[i := Stamped(a.calls[i].start, a.calls[i].s, a.stamped, a.timestamp)])
  }

  ghost predicate Finish(a: State, b: State, i: nat) {
    && i < |a.calls| && a.calls[i].Stamped?
    && var c := a.calls[i];
       b == a.(counter := (a.counter + 1) % U64, calls := a.calls[..i] + a.calls[i + 1..],
               sent := a.sent + [Sent(c.start, c.s, c.stamp, c.ts, a.counter)])
  }

  ghost predicate Next(a: State, b: State) {
    Begin(a, b) || (exists i :: Stamp(a, b, i)) || (exists i :: Finish(a, b, i))
  }

  ghost predicate Run(o: Origin, run: seq<State>) {
    run != [] && Init(o, run[0]) && forall k | 0 <= k < |run| - 1 :: Next(run[k], run[k + 1])
  }

  // ---- What every step keeps ----

  /** The sequence draws of all calls, finished or not. */
  ghost function Starts(st: State): multiset<nat> { SentStarts(st.sent) + CallStarts(st.calls) }

  ghost function SentStarts(sent: seq<Sent>): multiset<nat> {
    if sent == [] then multiset{} else SentStarts(sent[..|sent| - 1]) + multiset{sent[|sent| - 1].start}
  }

  ghost function CallStarts(calls: seq<Call>): multiset<nat> {
    if calls == [] then multiset{} else CallStarts(calls[..|calls| - 1]) + multiset{calls[|calls| - 1].start}
  }

  /** 0, 1, ..., n - 1, each once. */
  ghost function UpTo(n: nat): multiset<nat> {
    if n == 0 then multiset{} else UpTo(n - 1) + multiset{n - 1}
  }

  ghost predicate CallFits(o: Origin, c: Call) {
    && c.s == (o.s0 + c.start) % U16
    && (c.Stamped? ==> c.ts == (o.t0 + TS_STEP * c.stamp) % U32)
  }

  ghost predicate SentFits(o: Origin, p: Sent, k: nat) {
    && p.s == (o.s0 + p.start) % U16
    && p.ts == (o.t0 + TS_STEP * p.stamp) % U32
    && p.ctr == (o.c0 + k) % U64
  }

  ghost predicate Counters(o: Origin, st: State) {
    && st.seqNo == (o.s0 + st.begun) % U32
    && st.timestamp == (o.t0 + TS_STEP * st.stamped) % U32
    && st.counter == (o.c0 + |st.sent|) % U64
  }

  ghost predicate Inv(o: Origin, st: State) {
    && Counters(o, st)
    && (forall i | 0 <= i < |st.calls| :: CallFits(o, st.calls[i]))
    && (forall k | 0 <= k < |st.sent| :: SentFits(o, st.sent[k], k))
    && Starts(st) == UpTo(st.begun)
  }

  lemma {:induction false} CallStartsConcat(a: seq<Call>, b: seq<Call>)
    ensures CallStarts(a + b) == CallStarts(a) + CallStarts(b)
    decreases |b|
  {
    if b == [] {
      assert a + b == a;
    } else {
      assert (a + b)[..|a + b| - 1] == a + b[..|b| - 1];
      CallStartsConcat(a, b[..|b| - 1]);
    }
  }

  lemma CallStartsOne(c: Call)
    ensures CallStarts([c]) == multiset{c.start}
  {
    assert [c][..0] == [];
    assert CallStarts([c]) == CallStarts([]) + multiset{c.start};
  }

  lemma CallStartsAround(a: seq<Call>, c: Call, b: seq<Call>)
    ensures CallStarts(a + [c] + b) == CallStarts(a + b) + multiset{c.start}
  {
    hide CallStarts;
    CallStartsConcat(a + [c], b);
    CallStartsConcat(a, [c]);
    CallStartsConcat(a, b);
    CallStartsOne(c);
  }

  lemma CallRemoved(calls: seq<Call>, i: nat)
    requires i < |calls|
    ensures CallStarts(calls) == CallStarts(calls[..i] + calls[i + 1..]) + multiset{calls[i].start}
  {
    hide CallStarts;
    assert calls == calls[..i] + [calls[i]] + calls[i + 1..];
    CallStartsAround(calls[..i], calls[i], calls[i + 1..]);
  }

  lemma CallReplaced(calls: seq<Call>, i: nat, c: Call)
    requires i < |calls| && c.start == calls[i].start
    ensures CallStarts(calls[i := c]) == CallStarts(calls)
  {
    hide CallStarts;
    CallRemoved(calls, i);
    assert calls[i := c] == calls[..i] + [c] + calls[i + 1..];
    CallStartsAround(calls[..i], c, calls[i + 1..]);
  }

  lemma BeginCounts(o: Origin, a: State, b: State)
    requires Counters(o, a) && Begin(a, b)
    ensures Counters(o, b)
  {
  }

  lemma StampCounts(o: Origin, a: State, b: State, i: nat)
    requires Counters(o, a) && Stamp(a, b, i)
    ensures Counters(o, b)
  {
    ModShift(o.t0 + TS_STEP * a.stamped, TS_STEP);
  }

  lemma ModShift(x: nat, y: nat)
    ensures (x % U32 + y) % U32 == (x + y) % U32
  {
  }

  lemma FinishCounts(o: Origin, a: State, b: State, i: nat)
    requires Counters(o, a) && Finish(a, b, i)
    ensures Counters(o, b)
  {
  }

  lemma FirstDraw(o: Origin, a: State)
    requires Counters(o, a)
    ensures CallFits(o, Numbered(a.begun, a.seqNo % U16))
  {
    SequenceNumbers(o.s0, a.begun);
  }

  lemma BeginKeeps(o: Origin, a: State, b: State)
    requires Inv(o, a) && Begin(a, b)
    ensures Inv(o, b)
  {
    hide Counters, CallFits, SentFits, CallStarts, SentStarts;
    BeginCounts(o, a, b);
    FirstDraw(o, a);
    CallStartsConcat(a.calls, [Numbered(a.begun, a.seqNo % U16)]);
    CallStartsOne(Numbered(a.begun, a.seqNo % U16));
  }

  lemma SecondDraw(o: Origin, a: State, c: Call)
    requires Counters(o, a) && CallFits(o, c)
    ensures CallFits(o, Stamped(c.start, c.s, a.stamped, a.timestamp))
  {
  }

  lemma StampKeeps(o: Origin, a: State, b: State, i: nat)
    requires Inv(o, a) && Stamp(a, b, i)
    ensures Inv(o, b)
  {
    hide Counters, CallFits, SentFits, CallStarts, SentStarts;
    StampCounts(o, a, b, i);
    SecondDraw(o, a, a.calls[i]);
    CallReplaced(a.calls, i, b.calls[i]);
  }

  lemma ThirdDraw(o: Origin, a: State, c: Call)
    requires Counters(o, a) && CallFits(o, c) && c.Stamped?
    ensures SentFits(o, Sent(c.start, c.s, c.stamp, c.ts, a.counter), |a.sent|)
  {
  }

  lemma FinishKeeps(o: Origin, a: State, b: State, i: nat)
    requires Inv(o, a) && Finish(a, b, i)
    ensures Inv(o, b)
  {
    hide Counters, CallFits, SentFits, CallStarts;
    FinishCounts(o, a, b, i);
    ThirdDraw(o, a, a.calls[i]);
    CallRemoved(a.calls, i);
    assert b.sent[..|a.sent|] == a.sent;
    forall j | 0 <= j < |b.calls|
      ensures CallFits(o, b.calls[j])
    {
      assert b.calls[j] == a.calls[if j < i then j else j + 1];
    }
  }

  lemma {:induction false} RunKeeps(o: Origin, run: seq<State>, k: nat)
    requires Run(o, run) && k < |run|
    ensures Inv(o, run[k])
    decreases k
  {
    if k == 0 {
      assert run[0].sent == [] && run[0].calls == [];
    } else {
      RunKeeps(o, run, k - 1);
      var a, b := run[k - 1], run[k];
      assert Next(a, b);
      if Begin(a, b) {
        BeginKeeps(o, a, b);
      } else if i :| Stamp(a, b, i) {
        StampKeeps(o, a, b, i);
      } else {
        var i :| Finish(a, b, i);
        FinishKeeps(o, a, b, i);
      }
    }
  }

  // ---- What holds of every run ----

  /** The nonce counters issued are consecutive, whatever the interleaving. */
  lemma CountersConsecutive(o: Origin, run: seq<State>, k: nat)
    requires Run(o, run) && k < |run[|run| - 1].sent|
    ensures run[|run| - 1].sent[k].ctr == (o.c0 + k) % U64
  {
    RunKeeps(o, run, |run| - 1);
  }

  /** So no nonce is repeated before 2^64 packets. */
  lemma NoncesDistinct(o: Origin, run: seq<State>, session: Text, i: nat, j: nat)
    requires Run(o, run)
    requires var sent := run[|run| - 1].sent; i < j < |sent| <= U64
    ensures var sent := run[|run| - 1].sent; Nonce(session, sent[i].ctr) != Nonce(session, sent[j].ctr)
  {
    hide Run, Nonce;
    CountersConsecutive(o, run, i);
    CountersConsecutive(o, run, j);
    NonceInjective(session, (o.c0 + i) % U64, (o.c0 + j) % U64);
  }

  /** Every sequence number drawn belongs to exactly one packet or call in flight. */
  lemma NumbersConserved(o: Origin, run: seq<State>)
    requires Run(o, run)
    ensures Starts(run[|run| - 1]) == UpTo(run[|run| - 1].begun)
  {
    RunKeeps(o, run, |run| - 1);
  }

  /**
   The sequence number of the k-th packet is in step with its nonce counter exactly when
   as many calls (modulo 2^16) drew a sequence number before it as packets precede it.
   */
  lemma InStepExactly(o: Origin, run: seq<State>, k: nat)
    requires Run(o, run) && k < |run[|run| - 1].sent|
    ensures var p := run[|run| - 1].sent[k];
            p.s == (o.s0 + k) % U16 <==> p.start % U16 == k % U16
  {
    hide Inv;
    RunKeeps(o, run, |run| - 1);
    SentFitsAt(o, run[|run| - 1], k);
    SameShift(o.s0, run[|run| - 1].sent[k].start, k);
  }

  lemma SameShift(s: nat, a: nat, b: nat)
    ensures (s + a) % U16 == (s + b) % U16 <==> a % U16 == b % U16
  {
  }

  /** One writer at a time: packet k carries the k-th value of all three counters. */
  lemma {:induction false} SequentialInStep(o: Origin, run: seq<State>, k: nat)
    requires Run(o, run) && k < |run|
    requires forall m | 0 <= m < |run| :: |run[m].calls| <= 1
    ensures var st := run[k];
            && st.begun == |st.sent| + |st.calls|
            && st.stamped == |st.sent| + (if st.calls != [] && st.calls[0].Stamped? then 1 else 0)
            && (st.calls != [] ==> st.calls[0].start == |st.sent|)
            && (st.calls != [] && st.calls[0].Stamped? ==> st.calls[0].stamp == |st.sent|)
            && forall j | 0 <= j < |st.sent| :: st.sent[j].start == j && st.sent[j].stamp == j
    decreases k
  {
    if k > 0 {
      SequentialInStep(o, run, k - 1);
      assert Next(run[k - 1], run[k]);
    }
  }

  /** So each of its packets carries the k-th sequence number, timestamp and nonce counter. */
  lemma SequentialPackets(o: Origin, run: seq<State>, k: nat)
    requires Run(o, run) && k < |run[|run| - 1].sent|
    requires forall m | 0 <= m < |run| :: |run[m].calls| <= 1
    ensures var p := run[|run| - 1].sent[k];
            p.s == (o.s0 + k) % U16 && p.ts == (o.t0 + 960 * k) % U32 && p.ctr == (o.c0 + k) % U64
  {
    hide Inv, SentFits;
    var last := |run| - 1;
    RunKeeps(o, run, last);
    SentFitsAt(o, run[last], k);
    SentInTurn(run, o, last, k);
    SentInOrder(o, run[last].sent[k], k);
  }

  lemma SentFitsAt(o: Origin, st: State, k: nat)
    requires Inv(o, st) && k < |st.sent|
    ensures SentFits(o, st.sent[k], k)
  {
  }

  lemma SentInTurn(run: seq<State>, o: Origin, last: nat, k: nat)
    requires Run(o, run) && last < |run| && k < |run[last].sent|
    requires forall m | 0 <= m < |run| :: |run[m].calls| <= 1
    ensures run[last].sent[k].start == k && run[last].sent[k].stamp == k
  {
    hide Run;
    SequentialInStep(o, run, last);
  }

  lemma SentInOrder(o: Origin, p: Sent, k: nat)
    requires SentFits(o, p, k) && p.start == k && p.stamp == k
    ensures p.s == (o.s0 + k) % U16 && p.ts == (o.t0 + 960 * k) % U32 && p.ctr == (o.c0 + k) % U64
  {
  }

  /** Two overlapping calls: the packet with the smaller nonce counter can carry the later sequence number. */
  lemma CountersCanCross() returns (run: seq<State>)
    ensures Run(Origin(0, 0, 0), run)
    ensures var sent := run[|run| - 1].sent;
            |sent| == 2 && sent[0].ctr < sent[1].ctr && sent[0].s > sent[1].s
  {
    var r0 := State(0, 0, 0, 0, 0, [], []);
    var r1 := State(1, 0, 0, 1, 0, [Numbered(0, 0)], []);
    var r2 := State(2, 0, 0, 2, 0, [Numbered(0, 0), Numbered(1, 1)], []);
    var r3 := State(2, 960, 0, 2, 1, [Numbered(0, 0), Stamped(1, 1, 0, 0)], []);
    var r4 := State(2, 960, 1, 2, 1, [Numbered(0, 0)], [Sent(1, 1, 0, 0, 0)]);
    var r5 := State(2, 1920, 1, 2, 2, [Stamped(0, 0, 1, 960)], [Sent(1, 1, 0, 0, 0)]);
    var r6 := State(2, 1920, 2, 2, 2, [], [Sent(1, 1, 0, 0, 0), Sent(0, 0, 1, 960, 1)]);
    assert Begin(r0, r1) && Begin(r1, r2) && Stamp(r2, r3, 1);
    assert Finish(r3, r4, 1) && Stamp(r4, r5, 0) && Finish(r5, r6, 0);
    run := [r0, r1, r2, r3, r4, r5, r6];
  }
}
