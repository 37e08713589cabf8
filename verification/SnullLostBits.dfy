/** Runs in which two snull interfaces that transmit at once lose each other's status bits. */
module SnullLostBits {
  import opened SnullProtocol
  import opened SnullCounts
  import opened SnullRuns
  import opened SnullRaces

  /** A receive bit is raised on the twin and its handler fetches the word. */
  lemma Raise(s: State, t: State, d: bool) returns (u: State)
    requires Reaches(s, t) && See(t, d).me.tx.TSetRx? && !See(t, d).twin.tx.TServeSelf?
    ensures Reaches(s, u) && u.napi == t.napi && u.poolSize == t.poolSize && u.next == t.next
    ensures ReachesUnpolled(s, t) ==> ReachesUnpolled(s, u)
    ensures var y := See(t, d).twin;
      && See(u, d).me == See(t, d).me.(tx := TServe(Word(true, y.irq.word.tx)))
      && See(u, d).twin == y.(irq := y.irq.(word := Word(true, y.irq.word.tx)))
  {
    hide Reaches, ReachesUnpolled, See, Apply;
    u := Go(s, t, LoadRx(d));
    u := Go(s, u, StoreRx(d));
    u := Go(s, u, FetchTwin(d));
  }

  // ------------------------------------------------------------------------- without NAPI

  /** sn1 puts a packet of its own back, and wakes its queue if that was stopped for want of one. */
  lemma PutBack(s: State, t: State) returns (u: State)
    requires Reaches(s, t) && t.sn1.tx.TRelease? && t.sn1.tx.after == ThenComplete && t.sn1.tx.p.dev
    requires (t.sn1.pool.stopped <==> t.sn1.pool.free == []) && !t.sn1.tx.TServeSelf? && !t.sn0.tx.TServe?
    ensures Reaches(s, u) && u.napi == t.napi && u.poolSize == t.poolSize && u.sn0 == t.sn0
    ensures u.sn1 == t.sn1.(tx := TComplete, pool := Pool([t.sn1.tx.p] + t.sn1.pool.free, false))
  {
    hide Reaches, ReachesUnpolled;
    u := Go(s, t, TxRelease(true));
    if t.sn1.pool.stopped {
      u := Go(s, u, TxWake(true));
      u := Go(s, u, TxWake(true));
    }
    u := Go(s, u, TxWake(true));
  }

  /** sn1 sends a packet that sn0's handler receives at once, and is about to raise its transmit bit. */
  lemma Deliver(s: State, t: State) returns (u: State)
    requires Reaches(s, t) && !t.napi && t.sn1.tx.TIdle? && !t.sn1.pool.stopped && t.sn1.pool.free != [] &&
      t.sn1.pool.free[0].dev
    requires t.sn0.irq == Irq(CLEAR, true, false) && t.sn0.rxq == [] && (t.sn0.tx.TIdle? || t.sn0.tx.THalfRx?)
    ensures Reaches(s, u) && !u.napi && u.poolSize == t.poolSize
    ensures u.sn0.tx == t.sn0.tx && u.sn0.irq == t.sn0.irq && u.sn0.pool == t.sn0.pool && u.sn0.rxq == [] &&
      u.sn0.poll == t.sn0.poll
    ensures u.sn1 == t.sn1.(tx := TComplete, stats := t.sn1.stats.(sent := t.sn1.stats.sent + 1))
  {
    hide Reaches, ReachesUnpolled;
    u := Hand(s, t, true);
    u := Raise(s, u, true);
    u := Go(s, u, InterruptTwin(true, true));
    u := PutBack(s, u);
  }

  /**
    sn0 stores the receive bit over a transmit bit that sn1 has just stored: sn1's packet is never
    counted as transmitted.
    */
  lemma TransmitBitCanBeLost(s: State) returns (u: State)
    requires Init(s) && !s.napi
    ensures Reaches(s, u) && AtRest(u) && u.sn1.stats.sent == 1 && u.sn1.stats.txPackets == 0
  {
    hide Reaches, ReachesUnpolled;
    Stay(s);
    u := Hand(s, s, false);
    u := Go(s, u, LoadRx(false));
    u := LoseTransmitBit(s, u);
    u := FinishBoth(s, u);
  }

  lemma LoseTransmitBit(s: State, t: State) returns (u: State)
    requires Reaches(s, t) && !t.napi && t.sn0.tx == THalfRx(CLEAR) && t.sn0.irq == Irq(CLEAR, true, false) &&
      t.sn0.rxq == []
    requires t.sn1.tx.TIdle? && !t.sn1.pool.stopped && t.sn1.pool.free != [] && t.sn1.pool.free[0].dev
    requires t.sn1.irq == Irq(CLEAR, true, false) && |t.sn1.rxq| == 1 && t.sn0.poll.PIdle? && t.sn1.poll.PIdle?
    ensures Reaches(s, u) && !u.napi && u.sn0.tx.TRaised? && u.sn0.irq == Irq(CLEAR, true, false) && u.sn0.poll.PIdle?
    ensures u.sn1 == t.sn1.(tx := TRaisedSelf, irq := Irq(Word(true, false), true, false),
      stats := t.sn1.stats.(sent := t.sn1.stats.sent + 1))
  {
    hide Reaches, ReachesUnpolled;
    u := Deliver(s, t);
    u := Go(s, u, LoadTx(true));
    u := Go(s, u, StoreTx(true));
    assert u.sn1.irq.word == Word(false, true);
    u := Go(s, u, StoreRx(false));
  }

  function StagesLeft(stage: Stage): nat { match stage case Test => 2 case SawStopped => 1 case Waking => 0 }

  /** The rest of a wake test by sn0, whatever it finds. */
  lemma {:induction false} EndWake(s: State, t: State) returns (u: State)
    requires Reaches(s, t) && t.sn0.tx.TWakeTest? && t.sn0.tx.after == ThenComplete
    ensures Reaches(s, u) && u.napi == t.napi
    ensures SameButPool(u.sn0, t.sn0.(tx := TComplete)) && SameButPool(u.sn1, t.sn1)
    decreases StagesLeft(t.sn0.tx.stage)
  {
    hide Reaches, ReachesUnpolled, WakeTested;
    WakeOfOther(See(t, false), false, t.sn0.tx.p, t.sn0.tx.stage);
    u := Go(s, t, TxWake(false));
    if u.sn0.tx.TWakeTest? {
      u := EndWake(s, u);
    }
  }

  /** The rest of a release by sn0 after a handler. */
  lemma EndRelease(s: State, t: State) returns (u: State)
    requires Reaches(s, t) && t.sn0.tx.TRelease? && t.sn0.tx.after == ThenComplete && !t.sn1.tx.TServe? &&
      !t.sn1.tx.TServeSelf?
    ensures Reaches(s, u) && u.napi == t.napi
    ensures SameButPool(u.sn0, t.sn0.(tx := TComplete)) && SameButPool(u.sn1, t.sn1)
  {
    hide Reaches, ReachesUnpolled, Released;
    ReleaseOfOther(See(t, false), false, t.sn0.tx.p);
    u := Go(s, t, TxRelease(false));
    u := EndWake(s, u);
  }

  lemma FinishBoth(s: State, t: State) returns (u: State)
    requires Reaches(s, t) && !t.napi && t.sn0.tx.TRaised? && t.sn0.irq == Irq(CLEAR, true, false) && t.sn0.poll.PIdle?
    requires t.sn1.tx.TRaisedSelf? && t.sn1.irq == Irq(Word(true, false), true, false) && |t.sn1.rxq| == 1 &&
      t.sn1.poll.PIdle?
    ensures Reaches(s, u) && AtRest(u)
    ensures u.sn1.stats.sent == t.sn1.stats.sent && u.sn1.stats.txPackets == t.sn1.stats.txPackets
  {
    hide Reaches, ReachesUnpolled;
    u := Go(s, t, FetchTwin(false));
    u := Go(s, u, InterruptTwin(false, true));
    u := EndRelease(s, u);
    u := FinishTx(s, u, false);
    u := Go(s, u, FetchSelf(true));
    u := Go(s, u, InterruptSelf(true, true));
  }

  /**
    sn1 stores its transmit bit over the receive bit that sn0 has just stored: sn0's packet lies at
    sn1, and stays there in every run on in which no receive is misled.
    */
  lemma ReceiveBitCanBeLost(s: State) returns (u: State)
    requires Init(s) && !s.napi
    ensures Reaches(s, u) && AtRest(u) && u.sn1.rxq == [Pkt(false, s.poolSize - 1)]
    ensures forall steps :: Possible(u, steps) && Never(u, steps, ReceiveMisled) ==>
      Last(Final(u, steps).sn1.rxq, u.sn1.rxq)
  {
    hide Reaches, ReachesUnpolled, AtRest;
    u := LoseReceiveBit(s);
    forall steps | Possible(u, steps) && Never(u, steps, ReceiveMisled)
      ensures Last(Final(u, steps).sn1.rxq, u.sn1.rxq)
    {
      hide Never;
      LeftPacketsStayExactlyWhen(u, [], u.sn1.rxq, steps);
    }
  }

  lemma LoseReceiveBit(s: State) returns (u: State)
    requires Init(s) && !s.napi
    ensures Reaches(s, u) && AtRest(u) && !u.napi && u.poolSize == s.poolSize
    ensures u.sn1.rxq == [Pkt(false, s.poolSize - 1)] && LeftLying(u, [], u.sn1.rxq)
    ensures u.sn0.pool == Pool(FreshPool(false, s.poolSize - 1), s.poolSize == 1)
    ensures u.sn1.pool == Pool(FreshPool(true, s.poolSize), false) && u.sn0.rxq == []
    ensures u.sn0.irq == Irq(CLEAR, true, false) && u.sn1.irq == Irq(CLEAR, true, false)
  {
    hide Reaches, ReachesUnpolled;
    assert FreshPool(false, s.poolSize)[1..] == FreshPool(false, s.poolSize - 1);
    assert s.poolSize > 1 ==> FreshPool(false, s.poolSize - 1) != [];
    Stay(s);
    u := Deliver(s, s);
    u := Go(s, u, LoadTx(true));
    assert u.sn1.tx == THalfTx(CLEAR);
    u := Hand(s, u, false);
    u := Overwrite(s, u);
    u := FinishWithoutReceiving(s, u);
  }

  /** sn0 stores the receive bit, and sn1 stores its transmit bit over it. */
  lemma Overwrite(s: State, t: State) returns (u: State)
    requires Reaches(s, t) && t.sn0.tx.TSetRx? && t.sn1.tx == THalfTx(CLEAR) && t.sn1.irq.word == CLEAR
    ensures Reaches(s, u) && (ReachesUnpolled(s, t) ==> ReachesUnpolled(s, u))
    ensures u.sn0 == t.sn0.(tx := TRaised)
    ensures u == t.(sn0 := u.sn0,
                    sn1 := t.sn1.(tx := TRaisedSelf, irq := t.sn1.irq.(word := Word(false, true))))
  {
    hide Reaches, ReachesUnpolled;
    u := Go(s, t, LoadRx(false));
    u := Go(s, u, StoreRx(false));
    u := Go(s, u, StoreTx(true));
  }

  /** Both transmits end; no handler sees the receive bit. */
  lemma FinishWithoutReceiving(s: State, t: State) returns (u: State)
    requires Reaches(s, t) && t.sn0.tx.TRaised? && !t.sn0.irq.word.rx
    requires t.sn1.tx.TRaisedSelf? && t.sn1.irq.word == Word(false, true)
    ensures Reaches(s, u) && (ReachesUnpolled(s, t) ==> ReachesUnpolled(s, u))
    ensures u.napi == t.napi && u.poolSize == t.poolSize
    ensures u.sn0 == t.sn0.(tx := TIdle, irq := t.sn0.irq.(word := CLEAR), stats := u.sn0.stats)
    ensures u.sn1 == t.sn1.(tx := TIdle, irq := t.sn1.irq.(word := CLEAR), stats := u.sn1.stats)
  {
    hide Reaches, ReachesUnpolled;
    u := Go(s, t, FetchTwin(false));
    u := Go(s, u, InterruptTwin(false, true));
    u := FinishTx(s, u, false);
    u := Go(s, u, FetchSelf(true));
    u := Go(s, u, InterruptSelf(true, true));
  }

  /**
    Only another mistake can bring it out, and can: sn1 stores back a receive bit that has been
    acted on, and its handler takes what lies there.
    */
  lemma LostPacketCanTurnUp(s: State) returns (t: State, u: State)
    requires Init(s) && !s.napi && s.poolSize > 1
    ensures Reaches(s, t) && AtRest(t) && t.sn1.rxq == [Pkt(false, s.poolSize - 1)] && LeftLying(t, [], t.sn1.rxq)
    ensures Reaches(t, u) && u.sn1.rxq == [] && u.sn1.tx == TRelease(t.sn1.rxq[0], ThenIdle)
  {
    hide Reaches, ReachesUnpolled, LeftLying;
    t := LoseReceiveBit(s);
    Stay(t);
    u := Deliver(t, t);
    u := Hand(t, u, false);
    u := LoadOneBit(t, u);
    u := BringBack(t, u);
  }

  lemma LoadOneBit(s: State, t: State) returns (u: State)
    requires Reaches(s, t) && t.sn0.tx.TSetRx? && t.sn1.tx.TComplete? && t.sn1.irq.word == CLEAR
    ensures Reaches(s, u) && u.sn0 == t.sn0.(tx := TRaised)
    ensures u == t.(sn0 := u.sn0,
                    sn1 := t.sn1.(tx := THalfTx(Word(true, false)), irq := t.sn1.irq.(word := Word(true, false))))
  {
    hide Reaches, ReachesUnpolled;
    u := Go(s, t, LoadRx(false));
    u := Go(s, u, StoreRx(false));
    u := Go(s, u, LoadTx(true));
  }

  lemma BringBack(s: State, t: State) returns (u: State)
    requires Reaches(s, t) && !t.napi && t.sn0.tx.TRaised? && t.sn1.tx == THalfTx(Word(true, false))
    requires t.sn1.irq.word == Word(true, false) && |t.sn1.rxq| == 2
    ensures Reaches(s, u) && u.sn1.rxq == [] && u.sn1.tx == TRelease(t.sn1.rxq[1], ThenIdle)
  {
    hide Reaches, ReachesUnpolled;
    u := Go(s, t, FetchTwin(false));
    u := Go(s, u, InterruptTwin(false, true));
    u := Go(s, u, StoreTx(true));
    u := Go(s, u, FetchSelf(true));
    u := Go(s, u, InterruptSelf(true, true));
  }

  // ---------------------------------------------------------------------------- with NAPI

  /** Both have sent `k` packets, and no poll has begun; that of sn0 is scheduled, and none at sn1. */
  predicate Losing(s: State, k: nat) {
    && s.napi && k <= s.poolSize && AtRest(s)
    && s.sn0.pool == Pool(FreshPool(false, s.poolSize - k), k == s.poolSize)
    && s.sn1.pool == Pool(FreshPool(true, s.poolSize - k), k == s.poolSize)
    && s.sn0.irq == Irq(CLEAR, false, true) && s.sn1.irq == Irq(CLEAR, true, false)
    && |s.sn1.rxq| == k
  }

  /** With sn1 about to raise its transmit bit, sn0 sends a packet whose receive bit is lost. */
  lemma LoseOne(s: State, t: State) returns (u: State)
    requires Reaches(s, t) && t.napi && t.sn0.tx.TIdle? && !t.sn0.pool.stopped && t.sn0.pool.free != []
    requires t.sn1.tx.TComplete? && t.sn1.irq == Irq(CLEAR, true, false) && !t.sn0.irq.word.rx
    ensures Reaches(s, u) && (ReachesUnpolled(s, t) ==> ReachesUnpolled(s, u))
    ensures u.napi && u.poolSize == t.poolSize && u.sn0.tx.TIdle? && u.sn0.poll == t.sn0.poll
    ensures u.sn0.pool == Pool(t.sn0.pool.free[1..], t.sn0.pool.free[1..] == [])
    ensures u.sn0.irq == t.sn0.irq.(word := CLEAR)
    ensures u.sn1.tx.TIdle? && u.sn1.poll == t.sn1.poll && u.sn1.pool == t.sn1.pool && u.sn1.irq == t.sn1.irq
    ensures u.sn1.rxq == [t.sn0.pool.free[0]] + t.sn1.rxq
  {
    hide Reaches, ReachesUnpolled;
    u := Go(s, t, LoadTx(true));
    assert u.sn1.tx == THalfTx(CLEAR);
    u := Hand(s, u, false);
    u := Overwrite(s, u);
    u := FinishWithoutReceiving(s, u);
  }

  /** sn1's first packet interrupts sn0, which schedules a poll. */
  lemma LoseFirst(s: State) returns (u: State)
    requires Init(s) && s.napi
    ensures ReachesUnpolled(s, u) && Reaches(s, u) && u.poolSize == s.poolSize && Losing(u, 1)
  {
    hide Reaches, ReachesUnpolled;
    var n := s.poolSize;
    assert FreshPool(false, n)[1..] == FreshPool(false, n - 1) && FreshPool(true, n)[1..] == FreshPool(true, n - 1);
    FreshPoolIds(false, n - 1);
    FreshPoolIds(true, n - 1);
    Stay(s);
    u := Hand(s, s, true);
    u := Raise(s, u, true);
    u := Go(s, u, InterruptTwin(true, true));
    assert u.sn0.irq == Irq(CLEAR, false, true);
    u := LoseOne(s, u);
  }

  lemma LoseNext(s: State, t: State, k: nat) returns (u: State)
    requires Reaches(s, t) && Losing(t, k) && k < t.poolSize
    ensures Reaches(s, u) && (ReachesUnpolled(s, t) ==> ReachesUnpolled(s, u))
    ensures u.poolSize == t.poolSize && Losing(u, k + 1)
  {
    hide Reaches, ReachesUnpolled;
    var n := t.poolSize - k;
    assert FreshPool(false, n)[1..] == FreshPool(false, n - 1) && FreshPool(true, n)[1..] == FreshPool(true, n - 1);
    FreshPoolIds(false, n - 1);
    FreshPoolIds(true, n - 1);
    u := Hand(s, t, true);
    u := LoseOne(s, u);
  }

  lemma {:induction false} LoseAll(s: State, t: State, k: nat) returns (u: State)
    requires Reaches(s, t) && Losing(t, k)
    ensures Reaches(s, u) && (ReachesUnpolled(s, t) ==> ReachesUnpolled(s, u))
    ensures u.poolSize == t.poolSize && Losing(u, t.poolSize)
    decreases t.poolSize - k
  {
    hide Reaches, ReachesUnpolled;
    u := t;
    if k < t.poolSize {
      u := LoseNext(s, t, k);
      u := LoseAll(s, u, k + 1);
    }
  }

  /** Under NAPI too lost receive bits stall the sender, without any poll having begun. */
  lemma LostBitsCanStallTheSender(s: State) returns (u: State)
    requires Init(s) && s.napi
    ensures ReachesUnpolled(s, u) && Stalled(u)
  {
    hide Reaches, ReachesUnpolled;
    u := LoseFirst(s);
    u := LoseAll(s, u, 1);
    assert FreshPool(false, 0) == [];
  }
}
