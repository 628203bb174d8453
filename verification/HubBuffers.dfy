/**
 Packet buffers in internal/core/turn_client.go: the hub takes a buffer from the pool, count a
 packet into it and queues it for one stream, whose TX worker sends it and returns the buffer.
 Hub, workers and the pool's collector run side by side; a run is any interleaving of their steps.
 */
module HubBuffers {
  import Hub

  const QUEUE_CAP: nat := 512

  /** A buffer holding the no-th packet read. */
  datatype Packet = Packet(buf: nat, no: nat)

  datatype Worker = Down | Waiting | Sending(p: Packet)

  /** What became of a packet a worker took: sent, or lost to a write error or the watchdog. */
  datatype Outcome = Outcome(no: nat, sent: bool)

  /** `accepted` and `done` record the packets queued so far and those the worker has finished. */
  datatype Stream = Stream(ready: bool, queue: seq<Packet>, worker: Worker, accepted: seq<nat>, done: seq<Outcome>)

  /** Where the hub loop stands; `was` is what was ready when its scan began. */
  datatype Hand =
    | Empty
    | Reading(buf: nat)
    | Scanning(p: Packet, i: nat, was: seq<bool>)
    | Offering(p: Packet, i: nat, was: seq<bool>)
    | Stopped

  /** Buffers are numbered as they are made; `gone` are those the pool let the collector have. */
  datatype State = State(made: nat, pool: multiset<nat>, gone: multiset<nat>, hand: Hand,
                         lastUsed: nat, count: nat, dropped: seq<nat>, streams: seq<Stream>)

  ghost predicate Init(s: State) {
    && s.made == 0 && s.pool == multiset{} && s.gone == multiset{} && s.hand == Empty
    && s.lastUsed == 0 && s.count == 0 && s.dropped == [] && s.streams != []
    && forall i | 0 <= i < |s.streams| :: s.streams[i] == Stream(false, [], Down, [], [])
  }

  ghost function Readiness(streams: seq<Stream>): (r: seq<bool>)
    ensures |r| == |streams| && forall i | 0 <= i < |r| :: r[i] == streams[i].ready
  {
    seq(|streams|, i requires 0 <= i < |streams| => streams[i].ready)
  }

  // ---- Steps of the hub and the pool ----

  ghost predicate GetPooled(a: State, b: State, buf: nat) {
    a.hand.Empty? && buf in a.pool && b == a.(pool := a.pool - multiset{buf}, hand := Reading(buf))
  }

  ghost predicate GetNew(a: State, b: State) {
    a.hand.Empty? && b == a.(made := a.made + 1, hand := Reading(a.made))
  }

  ghost predicate Collect(a: State, b: State, buf: nat) {
    buf in a.pool && b == a.(pool := a.pool - multiset{buf}, gone := a.gone + multiset{buf})
  }

  ghost predicate ReadFails(a: State, b: State) {
    a.hand.Reading? && b == a.(pool := a.pool + multiset{a.hand.buf}, hand := Stopped)
  }

  ghost predicate ReadPacket(a: State, b: State) {
    && a.hand.Reading? && a.streams != []
    && b == a.(hand := Scanning(Packet(a.hand.buf, a.count), 0, Readiness(a.streams)),
               lastUsed := (a.lastUsed + 1) % |a.streams|, count := a.count + 1)
  }

  /** The stream the scan looks at after i others. */
  ghost function Candidate(s: State, i: nat): (c: nat)
    requires s.streams != []
    ensures c < |s.streams|
  {
    (s.lastUsed + i) % |s.streams|
  }

  ghost function Drop(a: State, p: Packet): State {
    a.(pool := a.pool + multiset{p.buf}, hand := Empty, dropped := a.dropped + [p.no])
  }

  ghost predicate LookFurther(a: State, b: State) {
    && a.hand.Scanning? && a.hand.i < |a.streams| && !a.streams[Candidate(a, a.hand.i)].ready
    && b == a.(hand := Scanning(a.hand.p, a.hand.i + 1, a.hand.was))
  }

  ghost predicate Choose(a: State, b: State) {
    && a.hand.Scanning? && a.hand.i < |a.streams| && a.streams[Candidate(a, a.hand.i)].ready
    && b == a.(hand := Offering(a.hand.p, a.hand.i, a.hand.was))
  }

  ghost predicate NoneReady(a: State, b: State) {
    a.hand.Scanning? && a.hand.i == |a.streams| && b == Drop(a, a.hand.p)
  }

  ghost function Accept(st: Stream, p: Packet): Stream {
    st.(queue := st.queue + [p], accepted := st.accepted + [p.no])
  }

  ghost predicate Offer(a: State, b: State) {
    && a.hand.Offering? && a.streams != []
    && var i := Candidate(a, a.hand.i);
       var st := a.streams[i];
       b == if |st.queue| < QUEUE_CAP then a.(hand := Empty, streams := a.streams[i := Accept(st, a.hand.p)])
            else Drop(a, a.hand.p)
  }

  // ---- Steps of stream i ----

  /** Nothing in the source clears `ready` again. */
  ghost predicate BecomeReady(a: State, b: State, i: nat) {
    i < |a.streams| && b == a.(streams := a.streams[i := a.streams[i].(ready := true)])
  }

  ghost predicate StartWorker(a: State, b: State, i: nat) {
    i < |a.streams| && a.streams[i].worker.Down? && b == a.(streams := a.streams[i := a.streams[i].(worker := Waiting)])
  }

  ghost predicate StopWorker(a: State, b: State, i: nat) {
    i < |a.streams| && a.streams[i].worker.Waiting? && b == a.(streams := a.streams[i := a.streams[i].(worker := Down)])
  }

  ghost function Taken(st: Stream): Stream
    requires st.queue != []
  {
    st.(queue := st.queue[1..], worker := Sending(st.queue[0]))
  }

  ghost predicate Take(a: State, b: State, i: nat) {
    && i < |a.streams| && a.streams[i].worker.Waiting? && a.streams[i].queue != []
    && b == a.(streams := a.streams[i := Taken(a.streams[i])])
  }

  /** A worker that fails to send a packet ends. */
  ghost function Finished(st: Stream, sent: bool): Stream
    requires st.worker.Sending?
  {
    st.(worker := if sent then Waiting else Down, done := st.done + [Outcome(st.worker.p.no, sent)])
  }

  ghost predicate Finish(a: State, b: State, i: nat, sent: bool) {
    && i < |a.streams| && a.streams[i].worker.Sending?
    && b == a.(pool := a.pool + multiset{a.streams[i].worker.p.buf},
               streams := a.streams[i := Finished(a.streams[i], sent)])
  }

  ghost predicate HubStep(a: State, b: State) {
    || (exists buf :: GetPooled(a, b, buf)) || GetNew(a, b) || (exists buf :: Collect(a, b, buf))
    || ReadFails(a, b) || ReadPacket(a, b) || LookFurther(a, b) || Choose(a, b) || NoneReady(a, b) || Offer(a, b)
  }

  ghost predicate StreamStep(a: State, b: State, i: nat) {
    || BecomeReady(a, b, i) || StartWorker(a, b, i) || StopWorker(a, b, i) || Take(a, b, i)
    || Finish(a, b, i, true) || Finish(a, b, i, false)
  }

  ghost predicate Next(a: State, b: State) {
    HubStep(a, b) || exists i :: StreamStep(a, b, i)
  }

  ghost predicate Run(run: seq<State>) {
    run != [] && Init(run[0]) && forall k | 0 <= k < |run| - 1 :: Next(run[k], run[k + 1])
  }

  // ---- Counting owners ----

  /** What is counted: a buffer, by the places that own it, or a packet, by the places it ended in. */
  datatype Thing = Buffer(b: nat) | Number(k: nat)

  ghost function Is(p: Packet, w: Thing): nat {
    if (match w case Buffer(b) => p.buf == b case Number(k) => p.no == k) then 1 else 0
  }

  ghost function InQueue(q: seq<Packet>, b: nat): nat {
    if q == [] then 0 else InQueue(q[..|q| - 1], b) + Is(q[|q| - 1], Buffer(b))
  }

  ghost function InWorker(k: Worker, b: nat): nat {
    if k.Sending? then Is(k.p, Buffer(b)) else 0
  }

  ghost function InStream(st: Stream, w: Thing): nat {
    match w
    case Buffer(b) => InQueue(st.queue, b) + InWorker(st.worker, b)
    case Number(k) => multiset(st.accepted)[k]
  }

  ghost function InStreams(streams: seq<Stream>, w: Thing): nat {
    if streams == [] then 0 else InStreams(streams[..|streams| - 1], w) + InStream(streams[|streams| - 1], w)
  }

  ghost function InHand(h: Hand, w: Thing): nat {
    match h
    case Empty => 0
    case Stopped => 0
    case Reading(buf) => if w == Buffer(buf) then 1 else 0
    case Scanning(p, _, _) => Is(p, w)
    case Offering(p, _, _) => Is(p, w)
  }

  ghost function AtRest(s: State, w: Thing): nat {
    match w
    case Buffer(b) => s.pool[b] + s.gone[b]
    case Number(k) => multiset(s.dropped)[k]
  }

  ghost function Owners(s: State, w: Thing): nat {
    AtRest(s, w) + InHand(s.hand, w) + InStreams(s.streams, w)
  }

  /** Made buffers and read packets are in one place, others nowhere. */
  ghost function Due(s: State, w: Thing): nat {
    match w
    case Buffer(b) => if b < s.made then 1 else 0
    case Number(k) => if k < s.count then 1 else 0
  }

  ghost predicate OnePlaceEach(s: State) {
    forall w :: Owners(s, w) == Due(s, w)
  }

  lemma {:induction false} QueueHead(q: seq<Packet>, b: nat)
    requires q != []
    ensures InQueue(q, b) == Is(q[0], Buffer(b)) + InQueue(q[1..], b)
    decreases |q|
  {
    var m := |q| - 1;
    if m == 0 {
      assert q[..0] == [] && q[1..] == [];
    } else {
      QueueHead(q[..m], b);
      assert q[..m][1..] == q[1..][..m - 1];
    }
  }

  lemma QueuePush(q: seq<Packet>, p: Packet, b: nat)
    ensures InQueue(q + [p], b) == InQueue(q, b) + Is(p, Buffer(b))
  {
    assert (q + [p])[..|q|] == q;
  }

  lemma {:induction false} StreamReplaced(streams: seq<Stream>, i: nat, t: Stream, w: Thing)
    requires i < |streams|
    ensures InStreams(streams[i := t], w) + InStream(streams[i], w) == InStreams(streams, w) + InStream(t, w)
    decreases |streams|
  {
    hide InStream;
    var m := |streams| - 1;
    if i == m {
      assert streams[i := t][..m] == streams[..m];
    } else {
      StreamReplaced(streams[..m], i, t, w);
      assert streams[i := t][..m] == streams[..m][i := t];
    }
  }

  lemma {:induction false} NothingYet(streams: seq<Stream>, w: Thing)
    requires forall i | 0 <= i < |streams| :: streams[i] == Stream(false, [], Down, [], [])
    ensures InStreams(streams, w) == 0
    decreases |streams|
  {
    if streams != [] {
      NothingYet(streams[..|streams| - 1], w);
    }
  }

  lemma AcceptCounts(st: Stream, p: Packet, w: Thing)
    ensures InStream(Accept(st, p), w) == InStream(st, w) + Is(p, w)
  {
    if w.Buffer? {
      QueuePush(st.queue, p, w.b);
    }
  }

  lemma TakenCounts(st: Stream, w: Thing)
    requires st.queue != [] && st.worker.Waiting?
    ensures InStream(Taken(st), w) == InStream(st, w)
  {
    if w.Buffer? {
      QueueHead(st.queue, w.b);
    }
  }

  lemma FinishedCounts(st: Stream, sent: bool, w: Thing)
    requires st.worker.Sending?
    ensures InStream(Finished(st, sent), w) + (if w == Buffer(st.worker.p.buf) then 1 else 0) == InStream(st, w)
  {
  }

  lemma DropCounts(a: State, p: Packet, w: Thing)
    requires InHand(a.hand, w) == Is(p, w)
    ensures Owners(Drop(a, p), w) == Owners(a, w)
  {
    hide InStreams;
  }

  lemma OfferCounts(a: State, b: State, w: Thing)
    requires Offer(a, b)
    ensures Owners(b, w) == Owners(a, w) && Due(b, w) == Due(a, w)
  {
    hide InStreams, InStream, Candidate;
    var p, i := a.hand.p, Candidate(a, a.hand.i);
    var st := a.streams[i];
    if |st.queue| < QUEUE_CAP {
      StreamReplaced(a.streams, i, Accept(st, p), w);
      AcceptCounts(st, p, w);
    } else {
      DropCounts(a, p, w);
    }
  }

  lemma PoolCounts(a: State, b: State, w: Thing)
    requires (exists buf :: GetPooled(a, b, buf)) || (exists buf :: Collect(a, b, buf)) || ReadFails(a, b)
    ensures Owners(b, w) == Owners(a, w) && Due(b, w) == Due(a, w)
  {
    hide InStreams;
  }

  lemma MadeCounts(a: State, b: State, w: Thing)
    requires GetNew(a, b) || ReadPacket(a, b)
    ensures Owners(a, w) + Due(b, w) == Owners(b, w) + Due(a, w)
  {
    hide InStreams, Readiness;
  }

  lemma ScanCounts(a: State, b: State, w: Thing)
    requires LookFurther(a, b) || Choose(a, b) || NoneReady(a, b)
    ensures Owners(b, w) == Owners(a, w) && Due(b, w) == Due(a, w)
  {
    hide InStreams, Candidate;
  }

  lemma HubCounts(a: State, b: State, w: Thing)
    requires HubStep(a, b)
    ensures Owners(a, w) + Due(b, w) == Owners(b, w) + Due(a, w)
  {
    hide Owners, Due, Offer, Readiness, NoneReady, LookFurther, Choose, GetPooled, GetNew, ReadPacket, ReadFails,
         Collect;
    if Offer(a, b) {
      OfferCounts(a, b, w);
    } else if NoneReady(a, b) || LookFurther(a, b) || Choose(a, b) {
      ScanCounts(a, b, w);
    } else if GetNew(a, b) || ReadPacket(a, b) {
      MadeCounts(a, b, w);
    } else {
      PoolCounts(a, b, w);
    }
  }

  lemma StreamCounts(a: State, b: State, i: nat, w: Thing)
    requires StreamStep(a, b, i)
    ensures Owners(a, w) == Owners(b, w) && Due(a, w) == Due(b, w)
  {
    hide InStreams, Taken, Finished, InStream;
    var st, t := a.streams[i], b.streams[i];
    StreamReplaced(a.streams, i, t, w);
    if Take(a, b, i) {
      TakenCounts(st, w);
    } else if Finish(a, b, i, true) {
      FinishedCounts(st, true, w);
    } else if Finish(a, b, i, false) {
      FinishedCounts(st, false, w);
    } else {
      FlagCounts(st, t, w);
    }
  }

  lemma FlagCounts(st: Stream, t: Stream, w: Thing)
    requires t.queue == st.queue && t.accepted == st.accepted
    requires t.worker == st.worker || (!t.worker.Sending? && !st.worker.Sending?)
    ensures InStream(t, w) == InStream(st, w)
  {
  }

  lemma NextCounts(a: State, b: State)
    requires Next(a, b) && OnePlaceEach(a)
    ensures OnePlaceEach(b)
  {
    hide Owners, Due, HubStep, StreamStep;
    forall w
      ensures Owners(b, w) == Due(b, w)
    {
      assert Owners(a, w) == Due(a, w);
      if HubStep(a, b) {
        HubCounts(a, b, w);
      } else {
        var i :| StreamStep(a, b, i);
        StreamCounts(a, b, i, w);
      }
    }
  }

  // ---- Order within a stream ----

  ghost predicate Increasing(s: seq<nat>, limit: nat) {
    && (forall i, j | 0 <= i < j < |s| :: s[i] < s[j])
    && (forall i | 0 <= i < |s| :: s[i] < limit)
  }

  /** The packets accepted are those the worker finished, then the one it is sending, then those queued. */
  ghost predicate LinesUp(st: Stream) {
    var d, w := |st.done|, if st.worker.Sending? then 1 else 0;
    && |st.accepted| == d + w + |st.queue|
    && (forall i | 0 <= i < d :: st.done[i].no == st.accepted[i])
    && (st.worker.Sending? ==> st.worker.p.no == st.accepted[d])
    && (forall i | 0 <= i < |st.queue| :: st.queue[i].no == st.accepted[d + w + i])
  }

  ghost predicate StreamOk(st: Stream, limit: nat) {
    && |st.queue| <= QUEUE_CAP
    && LinesUp(st)
    && Increasing(st.accepted, limit)
    && (!st.ready ==> st.accepted == [])
  }

  /** No packet from this number on has been offered. */
  ghost function Limit(s: State): nat {
    if s.hand.Scanning? || s.hand.Offering? then s.hand.p.no else s.count
  }

  /** The scan has found none ready so far; what was ready when it began still is. */
  ghost predicate ScanOk(s: State, i: nat, was: seq<bool>) {
    && s.streams != [] && |was| == |s.streams|
    && (forall e: nat | e < i :: !was[Candidate(s, e)])
    && (forall e | 0 <= e < |was| && was[e] :: s.streams[e].ready)
  }

  ghost predicate HandOk(s: State) {
    && s.streams != [] && s.lastUsed < |s.streams|
    && (s.hand.Scanning? || s.hand.Offering? ==>
          ScanOk(s, s.hand.i, s.hand.was) && s.hand.p.no + 1 == s.count && s.hand.i <= |s.streams|)
    && (s.hand.Offering? ==> s.hand.i < |s.streams| && s.streams[Candidate(s, s.hand.i)].ready)
  }

  ghost predicate StreamsOk(s: State) {
    forall i | 0 <= i < |s.streams| :: StreamOk(s.streams[i], Limit(s))
  }

  ghost predicate Inv(s: State) {
    OnePlaceEach(s) && HandOk(s) && StreamsOk(s)
  }

  lemma IncreasingUpTo(s: seq<nat>, limit: nat, limit': nat)
    requires Increasing(s, limit) && limit <= limit'
    ensures Increasing(s, limit')
  {
  }

  lemma AcceptOk(st: Stream, p: Packet)
    requires StreamOk(st, p.no) && |st.queue| < QUEUE_CAP && st.ready
    ensures StreamOk(Accept(st, p), p.no + 1)
  {
    var t := Accept(st, p);
    var d, w := |st.done|, if st.worker.Sending? then 1 else 0;
    assert forall i | 0 <= i < |st.queue| :: t.queue[i] == st.queue[i];
  }

  lemma TakenOk(st: Stream, limit: nat)
    requires StreamOk(st, limit) && st.queue != [] && st.worker.Waiting?
    ensures StreamOk(Taken(st), limit)
  {
    hide Increasing;
  }

  lemma FinishedOk(st: Stream, sent: bool, limit: nat)
    requires StreamOk(st, limit) && st.worker.Sending?
    ensures StreamOk(Finished(st, sent), limit)
  {
    hide Increasing;
  }

  lemma OfferKeeps(a: State, b: State)
    requires Offer(a, b) && HandOk(a) && StreamsOk(a)
    ensures HandOk(b) && StreamsOk(b)
  {
    hide StreamOk, Accept, Candidate;
    var p, i := a.hand.p, Candidate(a, a.hand.i);
    if |a.streams[i].queue| < QUEUE_CAP {
      AcceptOk(a.streams[i], p);
    }
    forall j | 0 <= j < |a.streams| && b.streams[j] == a.streams[j]
      ensures StreamOk(b.streams[j], Limit(b))
    {
      LimitGrows(a.streams[j], p.no, p.no + 1);
    }
  }

  lemma LimitGrows(st: Stream, limit: nat, limit': nat)
    requires StreamOk(st, limit) && limit <= limit'
    ensures StreamOk(st, limit')
  {
    hide LinesUp;
    IncreasingUpTo(st.accepted, limit, limit');
  }

  lemma NoneReadyKeeps(a: State, b: State)
    requires NoneReady(a, b) && HandOk(a) && StreamsOk(a)
    ensures HandOk(b) && StreamsOk(b)
  {
    hide StreamOk, ScanOk;
    forall j | 0 <= j < |a.streams|
      ensures StreamOk(b.streams[j], Limit(b))
    {
      LimitGrows(a.streams[j], Limit(a), Limit(b));
    }
  }

  lemma ReadPacketKeeps(a: State, b: State)
    requires ReadPacket(a, b) && HandOk(a) && StreamsOk(a)
    ensures HandOk(b) && StreamsOk(b)
  {
    hide StreamOk;
    assert ScanOk(b, 0, b.hand.was);
  }

  lemma LookFurtherKeeps(a: State, b: State)
    requires LookFurther(a, b) && HandOk(a)
    ensures HandOk(b) && b.streams == a.streams && Limit(b) == Limit(a)
  {
    assert forall e: nat :: Candidate(b, e) == Candidate(a, e);
    assert forall e: nat | e < b.hand.i :: !a.hand.was[Candidate(a, e)];
  }

  lemma ChooseKeeps(a: State, b: State)
    requires Choose(a, b) && HandOk(a)
    ensures HandOk(b) && b.streams == a.streams && Limit(b) == Limit(a)
  {
    assert forall e: nat :: Candidate(b, e) == Candidate(a, e);
  }

  lemma PoolKeeps(a: State, b: State)
    requires || (exists buf :: GetPooled(a, b, buf)) || (exists buf :: Collect(a, b, buf))
             || ReadFails(a, b) || GetNew(a, b)
    requires HandOk(a)
    ensures HandOk(b) && b.streams == a.streams && Limit(b) == Limit(a)
  {
    assert forall e: nat | a.streams != [] :: Candidate(b, e) == Candidate(a, e);
  }

  lemma HubKeeps(a: State, b: State)
    requires HubStep(a, b) && HandOk(a) && StreamsOk(a)
    ensures HandOk(b) && StreamsOk(b)
  {
    hide StreamOk, HandOk, Limit, GetPooled, GetNew, Collect, ReadFails, Offer, NoneReady, ReadPacket, LookFurther,
         Choose;
    if Offer(a, b) {
      OfferKeeps(a, b);
    } else if NoneReady(a, b) {
      NoneReadyKeeps(a, b);
    } else if ReadPacket(a, b) {
      ReadPacketKeeps(a, b);
    } else if LookFurther(a, b) {
      LookFurtherKeeps(a, b);
    } else if Choose(a, b) {
      ChooseKeeps(a, b);
    } else {
      PoolKeeps(a, b);
    }
  }

  /** A step of stream i changes only that stream, keeps it in order and never takes readiness away. */
  lemma OneStreamStep(a: State, b: State, i: nat)
    requires StreamStep(a, b, i) && StreamsOk(a)
    ensures i < |a.streams| && |b.streams| == |a.streams|
            && b == a.(pool := b.pool, streams := a.streams[i := b.streams[i]])
    ensures StreamOk(b.streams[i], Limit(a)) && (a.streams[i].ready ==> b.streams[i].ready)
  {
    hide StreamOk, Taken, Finished;
    assert StreamOk(a.streams[i], Limit(a));
    var st := a.streams[i];
    if Take(a, b, i) {
      TakenOk(st, Limit(a));
      assert Taken(st).ready == st.ready by { TakenReady(st); }
    } else if Finish(a, b, i, true) {
      FinishedOk(st, true, Limit(a));
      FinishedReady(st, true);
    } else if Finish(a, b, i, false) {
      FinishedOk(st, false, Limit(a));
      FinishedReady(st, false);
    } else {
      assert StreamOk(b.streams[i], Limit(a)) by { FlagsOk(st, b.streams[i], Limit(a)); }
    }
  }

  lemma TakenReady(st: Stream)
    requires st.queue != []
    ensures Taken(st).ready == st.ready
  {
  }

  lemma FinishedReady(st: Stream, sent: bool)
    requires st.worker.Sending?
    ensures Finished(st, sent).ready == st.ready
  {
  }

  lemma FlagsOk(st: Stream, t: Stream, limit: nat)
    requires StreamOk(st, limit) && t.queue == st.queue && t.accepted == st.accepted && t.done == st.done
    requires t.worker == st.worker || (!t.worker.Sending? && !st.worker.Sending?)
    requires st.ready ==> t.ready
    ensures StreamOk(t, limit)
  {
  }

  lemma StreamKeeps(a: State, b: State, i: nat)
    requires StreamStep(a, b, i) && HandOk(a) && StreamsOk(a)
    ensures HandOk(b) && StreamsOk(b)
  {
    hide StreamStep, StreamOk;
    OneStreamStep(a, b, i);
    assert forall e: nat :: Candidate(b, e) == Candidate(a, e);
    assert forall e | 0 <= e < |a.streams| && a.streams[e].ready :: b.streams[e].ready;
  }

  lemma NextKeeps(a: State, b: State)
    requires Next(a, b) && Inv(a)
    ensures Inv(b)
  {
    hide HubStep, StreamStep, OnePlaceEach, HandOk, StreamsOk;
    NextCounts(a, b);
    if HubStep(a, b) {
      HubKeeps(a, b);
    } else {
      var i :| StreamStep(a, b, i);
      StreamKeeps(a, b, i);
    }
  }

  lemma InitOk(s: State)
    requires Init(s)
    ensures Inv(s)
  {
    forall w
      ensures Owners(s, w) == Due(s, w)
    {
      NothingYet(s.streams, w);
    }
  }

  /** Every reachable state keeps the invariant. */
  lemma {:induction false} RunKeeps(run: seq<State>, k: nat)
    requires Run(run) && k < |run|
    ensures Inv(run[k])
  {
    hide Inv, Next, Init;
    if k == 0 {
      InitOk(run[0]);
    } else {
      RunKeeps(run, k - 1);
      NextKeeps(run[k - 1], run[k]);
    }
  }

  // ---- Whole runs ----

  /** Each buffer ever made is in exactly one place: pool, collector, hub, a queue or a worker. */
  lemma BuffersInOnePlace(run: seq<State>, k: nat, b: nat)
    requires Run(run) && k < |run|
    ensures Owners(run[k], Buffer(b)) == if b < run[k].made then 1 else 0
  {
    hide Owners, HandOk, StreamsOk, Run;
    RunKeeps(run, k);
    assert Owners(run[k], Buffer(b)) == Due(run[k], Buffer(b));
  }

  /** Each packet read is still in the hub's hand, went back to the pool once, or was handed to one stream once. */
  lemma PacketsEndOnce(run: seq<State>, k: nat, no: nat)
    requires Run(run) && k < |run|
    ensures Owners(run[k], Number(no)) == if no < run[k].count then 1 else 0
  {
    hide Owners, HandOk, StreamsOk, Run;
    RunKeeps(run, k);
    assert Owners(run[k], Number(no)) == Due(run[k], Number(no));
  }

  lemma {:induction false} Queued(q: seq<Packet>, x: nat)
    requires x < |q|
    ensures InQueue(q, q[x].buf) >= 1
    decreases |q|
  {
    if x < |q| - 1 {
      Queued(q[..|q| - 1], x);
    }
  }

  lemma {:induction false} QueuedTwice(q: seq<Packet>, x: nat, y: nat)
    requires x < y < |q| && q[x].buf == q[y].buf
    ensures InQueue(q, q[x].buf) >= 2
    decreases |q|
  {
    var m := |q| - 1;
    if y == m {
      Queued(q[..m], x);
    } else {
      QueuedTwice(q[..m], x, y);
    }
  }

  lemma {:induction false} AtLeastIn(streams: seq<Stream>, i: nat, w: Thing)
    requires i < |streams|
    ensures InStreams(streams, w) >= InStream(streams[i], w)
    decreases |streams|
  {
    hide InStream;
    if i < |streams| - 1 {
      AtLeastIn(streams[..|streams| - 1], i, w);
    }
  }

  lemma {:induction false} AtLeastInTwo(streams: seq<Stream>, i: nat, j: nat, w: Thing)
    requires i < j < |streams|
    ensures InStreams(streams, w) >= InStream(streams[i], w) + InStream(streams[j], w)
    decreases |streams|
  {
    hide InStream;
    var m := |streams| - 1;
    if j == m {
      AtLeastIn(streams[..m], i, w);
    } else {
      AtLeastInTwo(streams[..m], i, j, w);
    }
  }

  /** No two queue entries, of one stream or of two, share a buffer, and none is in the pool or with a worker. */
  lemma QueuedBuffersAreApart(run: seq<State>, k: nat, i: nat, x: nat, j: nat, y: nat)
    requires Run(run) && k < |run| && i <= j < |run[k].streams|
    requires x < |run[k].streams[i].queue| && y < |run[k].streams[j].queue| && (i == j ==> x < y)
    ensures run[k].streams[i].queue[x].buf != run[k].streams[j].queue[y].buf
    ensures run[k].streams[i].queue[x].buf !in run[k].pool
    ensures run[k].streams[j].worker.Sending? ==> run[k].streams[i].queue[x].buf != run[k].streams[j].worker.p.buf
  {
    hide Run, InStreams, InQueue;
    var s := run[k];
    var p, q := s.streams[i].queue, s.streams[j].queue;
    var b := p[x].buf;
    BuffersInOnePlace(run, k, b);
    Queued(p, x);
    AtLeastIn(s.streams, i, Buffer(b));
    if i < j {
      AtLeastInTwo(s.streams, i, j, Buffer(b));
      Queued(q, y);
    } else if p[x].buf == p[y].buf {
      QueuedTwice(p, x, y);
    }
  }

  lemma AcceptedAtMostOnce(s: State, no: nat, i: nat, j: nat)
    requires Owners(s, Number(no)) <= 1 && i < |s.streams| && j < |s.streams|
    requires no in s.streams[i].accepted && no in s.streams[j].accepted
    ensures i == j && no !in s.dropped
  {
    hide InStreams;
    AtLeastIn(s.streams, i, Number(no));
    if i < j {
      AtLeastInTwo(s.streams, i, j, Number(no));
    } else if j < i {
      AtLeastInTwo(s.streams, j, i, Number(no));
    }
  }

  /** A packet is never given to two streams, nor both given to one and dropped. */
  lemma OneStreamPerPacket(run: seq<State>, k: nat, no: nat, i: nat, j: nat)
    requires Run(run) && k < |run| && i < |run[k].streams| && j < |run[k].streams|
    requires no in run[k].streams[i].accepted && no in run[k].streams[j].accepted
    ensures i == j && no !in run[k].dropped
  {
    hide Run, Owners;
    PacketsEndOnce(run, k, no);
    AcceptedAtMostOnce(run[k], no, i, j);
  }

  /** Streams hold at most 512 packets, and finish them in the order accepted, which is the order read. */
  lemma StreamsKeepOrder(run: seq<State>, k: nat, i: nat)
    requires Run(run) && k < |run| && i < |run[k].streams|
    ensures var st := run[k].streams[i];
            && |st.queue| <= QUEUE_CAP
            && |st.done| <= |st.accepted|
            && (forall x | 0 <= x < |st.done| :: st.done[x].no == st.accepted[x])
            && (forall x, y | 0 <= x < y < |st.accepted| :: st.accepted[x] < st.accepted[y])
            && (!st.ready ==> st.accepted == [])
  {
    hide Run, OnePlaceEach, HandOk;
    RunKeeps(run, k);
    assert StreamOk(run[k].streams[i], Limit(run[k]));
  }

  lemma CandidateIsAt(s: State, e: nat)
    requires s.streams != [] && s.lastUsed < |s.streams| && e < |s.streams|
    ensures Candidate(s, e) == Hub.At(s.lastUsed, e, |s.streams|)
  {
    Hub.AtIsRemainder(s.lastUsed, e, |s.streams|);
  }

  lemma ScanFindsNearest(s: State, i: nat, was: seq<bool>, d: nat)
    requires HandOk(s) && ScanOk(s, i, was) && Hub.FirstReady(was, s.lastUsed, d)
    ensures i <= d
  {
    CandidateIsAt(s, d);
  }

  /** The stream offered a packet is ready, no further on than any that was ready when the scan began,
      and the nearest ready one if readiness has not changed since. */
  lemma OfferedToNearest(run: seq<State>, k: nat, d: nat)
    requires Run(run) && k < |run| && run[k].hand.Offering? && run[k].hand.was != []
             && Hub.FirstReady(run[k].hand.was, run[k].lastUsed, d)
    ensures run[k].streams != [] && run[k].hand.i <= d && run[k].streams[Candidate(run[k], run[k].hand.i)].ready
    ensures run[k].hand.was == Readiness(run[k].streams) ==> run[k].hand.i == d
  {
    hide Run, OnePlaceEach, StreamsOk;
    RunKeeps(run, k);
    var s := run[k];
    ScanFindsNearest(s, s.hand.i, s.hand.was, d);
    CandidateIsAt(s, s.hand.i);
  }

  /** A packet is dropped unoffered only if no stream was ready when its scan began. */
  lemma UnofferedOnlyIfNoneReady(run: seq<State>, k: nat, i: nat)
    requires Run(run) && k + 1 < |run| && NoneReady(run[k], run[k + 1]) && i < |run[k].hand.was|
    ensures !run[k].hand.was[i]
  {
    hide Run, OnePlaceEach, StreamsOk;
    RunKeeps(run, k);
    var s := run[k];
    var n := |s.streams|;
    var e := Hub.Distance(s.lastUsed, i, n);
    CandidateIsAt(s, e);
  }
}
