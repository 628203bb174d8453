/**
 What becomes of each packet over a whole run of internal/core/turn_client.go: when it is dropped, when it
 is queued, that the hub is never stuck with it, and one packet followed from the client to the relay.
 */
module HubRuns {
  import Hub
  import opened HubBuffers

  // ---- Where a packet comes from ----

  ghost predicate HasPacket(h: Hand) { h.Scanning? || h.Offering? }

  /** At step j the hub reads packet `no` into its buffer, moves its counter on and sees which streams are ready. */
  ghost predicate Reads(run: seq<State>, j: nat, no: nat, was: seq<bool>) {
    && j + 1 < |run| && run[j].streams != []
    && run[j].hand.Reading? && HasPacket(run[j + 1].hand) && run[j + 1].hand.p == Packet(run[j].hand.buf, no)
    && run[j].count == no && run[j + 1].count == no + 1
    && run[j + 1].lastUsed == (run[j].lastUsed + 1) % |run[j].streams|
    && |was| == |run[j].streams| && forall i | 0 <= i < |was| :: was[i] <==> run[j].streams[i].ready
  }

  ghost predicate WasRead(run: seq<State>, k: nat, no: nat, was: seq<bool>) {
    exists j | 0 <= j < k :: Reads(run, j, no, was)
  }

  /** A stream's own step leaves the hub, what was dropped and what was accepted alone. */
  lemma StreamStill(a: State, b: State, i: nat)
    requires StreamStep(a, b, i)
    ensures b.hand == a.hand && b.dropped == a.dropped && |b.streams| == |a.streams|
    ensures forall j | 0 <= j < |a.streams| :: b.streams[j].accepted == a.streams[j].accepted
  {
  }

  lemma StepRead(run: seq<State>, k: nat)
    requires k + 1 < |run| && Next(run[k], run[k + 1]) && HasPacket(run[k + 1].hand)
    ensures || Reads(run, k, run[k + 1].hand.p.no, run[k + 1].hand.was)
            || (HasPacket(run[k].hand) && run[k].hand.p == run[k + 1].hand.p && run[k].hand.was == run[k + 1].hand.was)
  {
    hide HubStep, StreamStep;
    var a, b := run[k], run[k + 1];
    if HubStep(a, b) {
      HubRead(run, k);
    } else {
      var i :| StreamStep(a, b, i);
      StreamStill(a, b, i);
    }
  }

  lemma HubRead(run: seq<State>, k: nat)
    requires k + 1 < |run| && HubStep(run[k], run[k + 1]) && HasPacket(run[k + 1].hand)
    ensures || Reads(run, k, run[k + 1].hand.p.no, run[k + 1].hand.was)
            || (HasPacket(run[k].hand) && run[k].hand.p == run[k + 1].hand.p && run[k].hand.was == run[k + 1].hand.was)
  {
    hide Offer, NoneReady;
    if Offer(run[k], run[k + 1]) || NoneReady(run[k], run[k + 1]) {
      Rests(run[k], run[k + 1]);
    }
  }

  lemma Rests(a: State, b: State)
    requires Offer(a, b) || NoneReady(a, b)
    ensures b.hand.Empty?
  {
  }

  /** Every packet the hub holds was read by it before, and `was` is what was ready then. */
  lemma {:induction false} HeldWasRead(run: seq<State>, k: nat)
    requires Run(run) && k < |run| && HasPacket(run[k].hand)
    ensures WasRead(run, k, run[k].hand.p.no, run[k].hand.was)
    decreases k
  {
    hide Next, Reads;
    if k > 0 {
      StepRead(run, k - 1);
      if !Reads(run, k - 1, run[k].hand.p.no, run[k].hand.was) {
        HeldWasRead(run, k - 1);
      }
    }
  }

  // ---- Dropped or queued ----

  /** The stream on offer when the hub holds out a packet. */
  ghost function OnOffer(s: State): nat
    requires s.hand.Offering? && s.streams != []
  {
    (s.lastUsed + s.hand.i) % |s.streams|
  }

  ghost predicate NoneWasReady(was: seq<bool>) { forall i | 0 <= i < |was| :: !was[i] }

  lemma StepDrops(a: State, b: State)
    requires Next(a, b) && b.dropped != a.dropped
    ensures NoneReady(a, b) || (Offer(a, b) && |a.streams[OnOffer(a)].queue| >= 512)
    ensures HasPacket(a.hand) && b.dropped == a.dropped + [a.hand.p.no]
  {
  }

  /** A packet is dropped only if no stream was ready when it was read, or the ready stream it is offered to
      holds 512 packets. */
  lemma DroppedOnlyIfFull(run: seq<State>, k: nat)
    requires Run(run) && k + 1 < |run| && run[k + 1].dropped != run[k].dropped
    ensures var a := run[k];
            && HasPacket(a.hand) && run[k + 1].dropped == a.dropped + [a.hand.p.no]
            && WasRead(run, k, a.hand.p.no, a.hand.was)
            && (NoneWasReady(a.hand.was)
                || (a.hand.Offering? && a.streams != []
                    && var st := a.streams[OnOffer(a)]; st.ready && |st.queue| == 512))
  {
    hide WasRead, OnePlaceEach;
    var a, b := run[k], run[k + 1];
    assert Next(a, b);
    StepDrops(a, b);
    HeldWasRead(run, k);
    RunKeeps(run, k);
    if NoneReady(a, b) {
      forall i | 0 <= i < |a.hand.was|
        ensures !a.hand.was[i]
      {
        UnofferedOnlyIfNoneReady(run, k, i);
      }
    } else {
      StreamsKeepOrder(run, k, OnOffer(a));
    }
  }

  lemma OfferingMoves(a: State, b: State)
    requires Next(a, b) && a.hand.Offering? && b.hand != a.hand
    ensures Offer(a, b)
  {
  }

  /** A packet on offer to a stream with fewer than 512 goes to the end of its queue, otherwise it is dropped;
      nothing else changes but where its buffer is. */
  lemma OfferedIsQueued(run: seq<State>, k: nat)
    requires Run(run) && k + 1 < |run| && run[k].hand.Offering? && run[k + 1].hand != run[k].hand
    ensures run[k].streams != []
    ensures var a, b := run[k], run[k + 1];
            var i, p := OnOffer(a), a.hand.p;
            && |b.streams| == |a.streams| && (forall j | 0 <= j < |a.streams| && j != i :: b.streams[j] == a.streams[j])
            && b.hand == Empty && b.lastUsed == a.lastUsed && b.count == a.count
            && if |a.streams[i].queue| < 512
               then && b.streams[i].queue == a.streams[i].queue + [p]
                    && b.streams[i].accepted == a.streams[i].accepted + [p.no]
                    && b.dropped == a.dropped && b.pool == a.pool
               else && b.streams == a.streams && b.dropped == a.dropped + [p.no]
                    && b.pool == a.pool + multiset{p.buf}
  {
    hide Next;
    assert Next(run[k], run[k + 1]);
    OfferingMoves(run[k], run[k + 1]);
  }

  /** What a stream accepts was on offer to it, and it had room. */
  lemma AcceptedWasOffered(run: seq<State>, k: nat, i: nat)
    requires Run(run) && k + 1 < |run| && i < |run[k].streams| && i < |run[k + 1].streams|
    requires run[k + 1].streams[i].accepted != run[k].streams[i].accepted
    ensures var a := run[k];
            && a.hand.Offering? && i == OnOffer(a) && a.streams[i].ready && |a.streams[i].queue| < 512
            && run[k + 1].streams[i].accepted == a.streams[i].accepted + [a.hand.p.no]
            && WasRead(run, k, a.hand.p.no, a.hand.was)
  {
    hide WasRead, OnePlaceEach, StreamsOk, Next;
    assert Next(run[k], run[k + 1]);
    StepAccepts(run[k], run[k + 1], i);
    HeldWasRead(run, k);
    RunKeeps(run, k);
  }

  lemma StepAccepts(a: State, b: State, i: nat)
    requires Next(a, b) && i < |a.streams| && i < |b.streams| && b.streams[i].accepted != a.streams[i].accepted
    ensures a.hand.Offering? && i == OnOffer(a) && |a.streams[i].queue| < 512
    ensures b.streams[i].accepted == a.streams[i].accepted + [a.hand.p.no]
  {
    hide HubStep, StreamStep;
    if HubStep(a, b) {
      HubAccepts(a, b, i);
    } else {
      var j :| StreamStep(a, b, j);
      StreamStill(a, b, j);
    }
  }

  lemma HubAccepts(a: State, b: State, i: nat)
    requires HubStep(a, b) && i < |a.streams| && i < |b.streams| && b.streams[i].accepted != a.streams[i].accepted
    ensures a.hand.Offering? && i == OnOffer(a) && |a.streams[i].queue| < 512
    ensures b.streams[i].accepted == a.streams[i].accepted + [a.hand.p.no]
  {
  }

  /** A worker that was sending records the outcome, gives the buffer back, and ends if it failed. */
  lemma WorkerFinishes(run: seq<State>, k: nat, i: nat)
    requires Run(run) && k + 1 < |run| && i < |run[k].streams| && i < |run[k + 1].streams|
    requires run[k].streams[i].worker.Sending? && run[k + 1].streams[i].worker != run[k].streams[i].worker
    ensures var a, b, st := run[k], run[k + 1], run[k].streams[i];
            var sent := b.streams[i].worker.Waiting?;
            && (sent || b.streams[i].worker.Down?)
            && b.streams[i].done == st.done + [Outcome(st.worker.p.no, sent)]
            && b.streams[i].queue == st.queue && b.streams[i].accepted == st.accepted
            && b.pool == a.pool + multiset{st.worker.p.buf} && b.hand == a.hand && b.dropped == a.dropped
  {
    hide Next;
    assert Next(run[k], run[k + 1]);
    SendingMoves(run[k], run[k + 1], i);
  }

  lemma SendingMoves(a: State, b: State, i: nat)
    requires Next(a, b) && i < |a.streams| && i < |b.streams|
    requires a.streams[i].worker.Sending? && b.streams[i].worker != a.streams[i].worker
    ensures Finish(a, b, i, true) || Finish(a, b, i, false)
  {
    hide HubStep;
    if HubStep(a, b) {
      WorkersStay(a, b, i);
    }
  }

  lemma WorkersStay(a: State, b: State, i: nat)
    requires HubStep(a, b) && i < |a.streams| && i < |b.streams|
    ensures b.streams[i].worker == a.streams[i].worker
  {
    hide HubStep, Offer;
    if Offer(a, b) {
      OfferWorkers(a, b, i);
    } else {
      HubLeavesStreams(a, b);
    }
  }

  lemma OfferWorkers(a: State, b: State, i: nat)
    requires Offer(a, b) && i < |a.streams| && i < |b.streams|
    ensures b.streams[i].worker == a.streams[i].worker
  {
  }

  lemma HubLeavesStreams(a: State, b: State)
    requires HubStep(a, b) && !Offer(a, b)
    ensures b.streams == a.streams
  {
    hide Offer;
  }

  /** Until it stops, the hub can always move on by itself: no worker and no stream can hold it up. */
  lemma HubNeverStuck(run: seq<State>, k: nat) returns (b: State)
    requires Run(run) && k < |run| && !run[k].hand.Stopped?
    ensures Next(run[k], b) && b.hand != run[k].hand
  {
    hide OnePlaceEach, StreamsOk, Run;
    RunKeeps(run, k);
    var a := run[k];
    b := Moved(a);
  }

  lemma Moved(a: State) returns (b: State)
    requires HandOk(a) && !a.hand.Stopped?
    ensures Next(a, b) && b.hand != a.hand
  {
    match a.hand {
      case Empty =>
        b := a.(made := a.made + 1, hand := Reading(a.made));
        assert GetNew(a, b);
      case Reading(buf) =>
        b := a.(hand := Scanning(Packet(buf, a.count), 0, Readiness(a.streams)),
                lastUsed := (a.lastUsed + 1) % |a.streams|, count := a.count + 1);
        assert ReadPacket(a, b);
      case Scanning(p, i, was) =>
        if i == |a.streams| {
          b := Drop(a, p);
          assert NoneReady(a, b);
        } else if a.streams[Candidate(a, i)].ready {
          b := a.(hand := Offering(p, i, was));
          assert Choose(a, b);
        } else {
          b := a.(hand := Scanning(p, i + 1, was));
          assert LookFurther(a, b);
        }
      case Offering(p, i, _) =>
        var c := Candidate(a, i);
        b := if |a.streams[c].queue| >= QUEUE_CAP then Drop(a, p)
             else a.(hand := Empty, streams := a.streams[c := Accept(a.streams[c], p)]);
        assert Offer(a, b);
    }
  }

  // ---- One packet ----

  ghost function One(hand: Hand, worker: Worker, queue: seq<Packet>, accepted: seq<nat>, done: seq<Outcome>): State {
    State(1, multiset{}, multiset{}, hand, 0, 1, [], [Stream(true, queue, worker, accepted, done)])
  }

  /** One ready stream: the packet read is queued, sent, and its buffer is back in the pool. */
  lemma PacketIsSent() returns (run: seq<State>)
    ensures Run(run)
    ensures var last := run[|run| - 1];
            && last.count == 1 && last.dropped == [] && last.pool == multiset{0}
            && last.streams == [Stream(true, [], Waiting, [0], [Outcome(0, true)])]
  {
    hide HubStep, StreamStep;
    var before := UntilOffer();
    var after := FromOffer();
    run := before + after;
    forall k | 0 <= k < |run| - 1
      ensures Next(run[k], run[k + 1])
    {
      assert k + 1 < |before| ==> Next(before[k], before[k + 1]);
      assert |before| <= k ==> Next(after[k - |before|], after[k + 1 - |before|]);
    }
  }

  ghost function AtOffer(): State { One(Offering(Packet(0, 0), 0, [true]), Waiting, [], [], []) }

  ghost predicate Steps(run: seq<State>) { forall k | 0 <= k < |run| - 1 :: Next(run[k], run[k + 1]) }

  lemma UntilOffer() returns (run: seq<State>)
    ensures run != [] && Init(run[0]) && Steps(run) && Next(run[|run| - 1], AtOffer())
  {
    hide Next;
    var off := Stream(false, [], Down, [], []);
    var on := off.(ready := true);
    var r0 := State(0, multiset{}, multiset{}, Empty, 0, 0, [], [off]);
    var r1 := r0.(streams := [on]);
    var r2 := r0.(streams := [on.(worker := Waiting)]);
    var r3 := r2.(made := 1, hand := Reading(0));
    var r4 := One(Scanning(Packet(0, 0), 0, [true]), Waiting, [], [], []);
    StreamMoves(r0, r1);
    StreamMoves(r1, r2);
    GetsNew(r2, r3);
    assert Readiness(r3.streams) == [true];
    assert ReadPacket(r3, r4);
    HubMoves(r3, r4);
    assert Choose(r4, AtOffer());
    HubMoves(r4, AtOffer());
    run := [r0, r1, r2, r3, r4];
  }

  lemma FromOffer() returns (run: seq<State>)
    ensures run != [] && run[0] == AtOffer() && Steps(run)
    ensures var last := run[|run| - 1];
            && last.count == 1 && last.dropped == [] && last.pool == multiset{0}
            && last.streams == [Stream(true, [], Waiting, [0], [Outcome(0, true)])]
  {
    hide Next;
    var p := Packet(0, 0);
    var r6 := One(Empty, Waiting, [p], [0], []);
    var r7 := One(Empty, Sending(p), [], [0], []);
    var r8 := One(Empty, Waiting, [], [0], [Outcome(0, true)]).(pool := multiset{0});
    var st6, st7 := AtOffer().streams[0], r6.streams[0];
    assert st6.queue + [p] == [p] && st6.accepted + [0] == [0];
    assert r6.streams == AtOffer().streams[0 := Accept(st6, p)];
    HubMoves(AtOffer(), r6);
    assert st7.queue[1..] == [];
    assert r7.streams == r6.streams[0 := Taken(st7)];
    StreamMoves(r6, r7);
    assert r7.streams[0].done + [Outcome(0, true)] == [Outcome(0, true)];
    assert r8.streams == r7.streams[0 := Finished(r7.streams[0], true)];
    StreamMoves(r7, r8);
    run := [AtOffer(), r6, r7, r8];
  }

  lemma GetsNew(a: State, b: State)
    requires GetNew(a, b)
    ensures Next(a, b)
  {
  }

  lemma HubMoves(a: State, b: State)
    requires ReadPacket(a, b) || Choose(a, b) || Offer(a, b)
    ensures Next(a, b)
  {
    hide ReadPacket, Choose, Offer;
  }

  lemma StreamMoves(a: State, b: State)
    requires BecomeReady(a, b, 0) || StartWorker(a, b, 0) || Take(a, b, 0) || Finish(a, b, 0, true)
    ensures Next(a, b)
  {
    hide BecomeReady, StartWorker, Take, Finish;
    assert StreamStep(a, b, 0);
  }
}
