/** Runs in which the snull interfaces go wrong. */
module SnullRaces {
  import opened Options
  import opened SnullProtocol
  import opened SnullRuns

  ghost predicate Reaches(s: State, t: State) {
    exists steps :: Possible(s, steps) && Final(s, steps) == t
  }

  /** And no poll ever begins on the way. */
  ghost predicate ReachesUnpolled(s: State, t: State) {
    exists steps :: Possible(s, steps) && Final(s, steps) == t && forall x :: x in steps ==> !ByPoll(x)
  }

  lemma {:induction false} RunThenStep(s: State, steps: seq<Step>, step: Step)
    requires Possible(s, steps) && Enabled(Final(s, steps), step)
    ensures Possible(s, steps + [step]) && Final(s, steps + [step]) == Apply(Final(s, steps), step)
    decreases |steps|
  {
    if steps == [] {
      assert [step][1..] == [] && steps + [step] == [step];
    } else {
      assert (steps + [step])[0] == steps[0] && (steps + [step])[1..] == steps[1..] + [step];
      RunThenStep(Apply(s, steps[0]), steps[1..], step);
    }
  }

  lemma Stay(s: State)
    ensures Reaches(s, s) && ReachesUnpolled(s, s)
  {
    assert Possible(s, []) && Final(s, []) == s;
  }

  lemma Go(s: State, t: State, step: Step) returns (u: State)
    requires Reaches(s, t) && Enabled(t, step)
    ensures u == Apply(t, step) && Reaches(s, u)
    ensures ReachesUnpolled(s, t) && !ByPoll(step) ==> ReachesUnpolled(s, u)
    ensures See(u, step.d) == Act(t.napi, step.d, See(t, step.d), step)
    ensures u.napi == t.napi && u.poolSize == t.poolSize
    ensures See(t, step.d).next == t.next && See(u, step.d).next == u.next
  {
    hide Act, Possible, Final;
    var steps :| Possible(s, steps) && Final(s, steps) == t;
    RunThenStep(s, steps, step);
    if ReachesUnpolled(s, t) {
      steps :| Possible(s, steps) && Final(s, steps) == t && forall x :: x in steps ==> !ByPoll(x);
      RunThenStep(s, steps, step);
    }
    u := Apply(t, step);
  }

  /** A handler that sees no receive bit ends the transmit that raised it. */
  lemma NothingToReceive(napi: bool, v: View, alloc: bool)
    requires v.me.tx.TServeSelf? && !v.me.tx.saw.rx
    ensures DoInterruptSelf(napi, v, alloc) == v.(me := v.me.(tx := TIdle,
      irq := v.me.irq.(word := CLEAR),
      stats := v.me.stats.(txPackets := v.me.stats.txPackets + Plus(v.me.tx.saw.tx))))
  {
  }

  /** The transmit bit is raised. */
  lemma Mark(s: State, t: State, d: bool) returns (u: State)
    requires Reaches(s, t) && See(t, d).me.tx.TComplete?
    ensures Reaches(s, u) && u.napi == t.napi && u.poolSize == t.poolSize && u.next == t.next
    ensures ReachesUnpolled(s, t) ==> ReachesUnpolled(s, u)
    ensures See(u, d).twin == See(t, d).twin
    ensures var x := See(t, d).me;
      See(u, d).me == x.(tx := TRaisedSelf, irq := x.irq.(word := Word(x.irq.word.rx, true)))
  {
    hide Reaches, ReachesUnpolled, See, Apply;
    u := Go(s, t, LoadTx(d));
    u := Go(s, u, StoreTx(d));
  }

  /** A transmit to its end, when its own handler finds nothing to receive. */
  lemma FinishTx(s: State, t: State, d: bool) returns (u: State)
    requires Reaches(s, t) && See(t, d).me.tx.TComplete? && !See(t, d).me.irq.word.rx && !See(t, d).twin.tx.TServe?
    ensures Reaches(s, u) && u.napi == t.napi && u.poolSize == t.poolSize && u.next == t.next
    ensures ReachesUnpolled(s, t) ==> ReachesUnpolled(s, u)
    ensures See(u, d).twin == See(t, d).twin
    ensures var x := See(t, d).me;
      See(u, d).me == x.(tx := TIdle, irq := x.irq.(word := CLEAR),
        stats := x.stats.(txPackets := x.stats.txPackets + 1))
  {
    hide Reaches, ReachesUnpolled, See, Apply, DoInterruptSelf;
    u := Mark(s, t, d);
    u := Go(s, u, FetchSelf(d));
    NothingToReceive(t.napi, See(u, d), true);
    u := Go(s, u, InterruptSelf(d, true));
  }

  /** A transmit up to its look at the twin's interrupt switch. */
  lemma Hand(s: State, t: State, d: bool) returns (u: State)
    requires Reaches(s, t) && See(t, d).me.tx.TIdle? && !See(t, d).me.pool.stopped && See(t, d).me.pool.free != []
    requires !See(t, d).twin.tx.TServe? && !See(t, d).twin.tx.TServeSelf?
    ensures Reaches(s, u) && u.napi == t.napi && u.poolSize == t.poolSize
    ensures ReachesUnpolled(s, t) ==> ReachesUnpolled(s, u)
    ensures var x, y := See(t, d).me, See(t, d).twin;
      && var p := x.pool.free[0];
      && See(u, d).me == x.(tx := if y.irq.intEnabled then TSetRx else TComplete,
                            pool := Pool(x.pool.free[1..], x.pool.free[1..] == []),
                              stats := x.stats.(sent := x.stats.sent + 1))
      && See(u, d).twin == y.(rxq := [p] + y.rxq) && u.next == t.next[p := Head(y.rxq)]
  {
    hide Reaches, ReachesUnpolled, See, Apply;
    u := Go(s, t, StartTx(d));
    u := Go(s, u, GetBuffer(d));
    u := Go(s, u, Enqueue(d));
    u := Go(s, u, TestInts(d));
  }

  /** sn0 hands one packet to sn1 while sn1's poll is active: no interrupt is raised there. */
  lemma SendQuietly(s: State, t: State) returns (u: State)
    requires Reaches(s, t) && t.napi && t.sn0.tx.TIdle? && !t.sn0.pool.stopped && t.sn0.pool.free != []
    requires !t.sn1.irq.intEnabled && !t.sn0.irq.word.rx && t.sn1.tx.TIdle?
    ensures Reaches(s, u) && u.napi && u.poolSize == t.poolSize && u.sn0.tx.TIdle? && u.sn0.poll == t.sn0.poll
    ensures var p := t.sn0.pool.free[0];
      && u.sn0.pool == Pool(t.sn0.pool.free[1..], t.sn0.pool.free[1..] == [])
      && u.sn1 == t.sn1.(rxq := [p] + t.sn1.rxq) && u.next == t.next[p := Head(t.sn1.rxq)]
      && !u.sn0.irq.word.rx
  {
    hide Reaches, ReachesUnpolled;
    u := Hand(s, t, false);
    u := FinishTx(s, u, false);
  }

  /** sn0 sends its first packet; sn1 is interrupted and starts a poll. */
  lemma SendAndPoll(s: State, quota: nat) returns (u: State)
    requires Init(s) && s.napi
    ensures Reaches(s, u) && u.napi && u.poolSize == s.poolSize && u.sn0.tx.TIdle? && u.sn0.poll.PIdle? &&
      !u.sn0.irq.word.rx
    ensures var free := FreshPool(false, s.poolSize);
      && u.sn0.pool == Pool(free[1..], free[1..] == []) && u.sn1.rxq == [free[0]]
    ensures u.sn1.poll == PLoop(quota) && u.sn1.irq == Irq(CLEAR, false, true) && u.sn1.tx.TIdle?
  {
    hide Reaches, ReachesUnpolled;
    Stay(s);
    u := Hand(s, s, false);
    u := Go(s, u, LoadRx(false));
    u := Go(s, u, StoreRx(false));
    u := Go(s, u, FetchTwin(false));
    u := Go(s, u, InterruptTwin(false, true));
    u := FinishTx(s, u, false);
    u := Go(s, u, StartPoll(true, quota));
  }

  /** sn0 hands over all it has. */
  lemma {:induction false} SendAll(s: State, t: State) returns (u: State)
    requires Reaches(s, t) && t.napi && t.sn0.tx.TIdle? && (t.sn0.pool.stopped <==> t.sn0.pool.free == [])
    requires !t.sn1.irq.intEnabled && !t.sn0.irq.word.rx && t.sn1.tx.TIdle?
    ensures Reaches(s, u) && u.napi && u.poolSize == t.poolSize && u.sn0.tx.TIdle? && u.sn0.poll == t.sn0.poll
    ensures u.sn0.pool == Pool([], true)
    ensures u.sn1 == t.sn1.(rxq := u.sn1.rxq) && |u.sn1.rxq| == |t.sn1.rxq| + |t.sn0.pool.free|
    ensures forall p :: p in t.next && p !in t.sn0.pool.free ==> p in u.next && u.next[p] == t.next[p]
    decreases |t.sn0.pool.free|
  {
    hide Reaches, ReachesUnpolled;
    u := t;
    if t.sn0.pool.free != [] {
      u := SendQuietly(s, t);
      u := SendAll(s, u);
    }
  }

  lemma {:induction false} FreshPoolIds(d: bool, n: nat)
    ensures |FreshPool(d, n)| == n && forall p :: p in FreshPool(d, n) ==> p.id < n
  {
    if n > 0 {
      FreshPoolIds(d, n - 1);
    }
  }

  /** sn1's poll takes sn0's first packet and puts it back; its wake test is still to come. */
  lemma SendAndRelease(s: State) returns (u: State)
    requires Init(s) && s.napi
    ensures Reaches(s, u) && u.napi && u.poolSize == s.poolSize && u.sn0.tx.TIdle? && u.sn0.poll.PIdle? &&
      !u.sn0.irq.word.rx
    ensures var free := FreshPool(false, s.poolSize);
      && u.sn0.pool == Pool(free, free[1..] == []) && u.next == u.next[free[0] := Head(free[1..])]
      && u.sn1.poll == PWakeTest(free[0], 1, Test)
    ensures u.sn1.rxq == [] && u.sn1.irq == Irq(CLEAR, false, true) && u.sn1.tx.TIdle?
  {
    hide Reaches, ReachesUnpolled;
    u := SendAndPoll(s, 2);
    u := Go(s, u, PollOne(true, true));
    u := Go(s, u, PollRelease(true));
  }

  /**
    With two buffers per pool or more a run exists that restarts a queue over an empty pool: the
    release of a packet is overtaken by transmits of all of them between the looks of its wake
    test; the link then belongs to another list.
    */
  lemma WakeCanFireOnEmptyPool(s: State) returns (u: State)
    requires Init(s) && s.napi && s.poolSize > 1
    ensures Reaches(s, u) && u.sn0.tx.TGet? && u.sn0.pool.free == []
  {
    hide Reaches, ReachesUnpolled;
    var a := Pkt(false, s.poolSize - 1);
    FreshPoolIds(false, s.poolSize - 1);
    assert FreshPool(false, s.poolSize)[1..] == FreshPool(false, s.poolSize - 1);
    u := SendAndRelease(s);
    u := SendQuietly(s, u);
    assert u.next[a] == None && a !in u.sn0.pool.free;
    u := SendAll(s, u);
    assert u.sn0.pool == Pool([], true) && u.next[a] == None && u.sn1.poll == PWakeTest(a, 1, Test);
    u := WakeFires(s, u, a);
    u := Go(s, u, StartTx(false));
  }

  /** Some run restarts a queue over an empty pool exactly under NAPI with two buffers per pool or more. */
  lemma EmptyPoolIsWokenExactlyWhen(s: State)
    requires Init(s)
    ensures (exists steps :: Possible(s, steps) && !Never(s, steps, EmptyPoolWoken)) <==> s.napi && s.poolSize > 1
  {
    if s.napi && s.poolSize > 1 {
      var u := WakeCanFireOnEmptyPool(s);
      var steps :| Possible(s, steps) && Final(s, steps) == u;
      QueuesAreSafeExactlyWhen(s, steps);
      assert !SafeIn(u);
    } else {
      forall steps | Possible(s, steps)
        ensures Never(s, steps, EmptyPoolWoken)
      {
        NoEmptyPoolIsWoken(s, steps);
      }
    }
  }

  /** sn1's poll finds sn0's queue stopped and the link of `a` null, and restarts the queue. */
  lemma WakeFires(s: State, t: State, a: Pkt) returns (u: State)
    requires Reaches(s, t) && !a.dev && t.sn1.poll.PWakeTest? && t.sn1.poll.p == a && t.sn1.poll.stage == Test
    requires t.sn0.pool.stopped && a in t.next && t.next[a] == None
    ensures Reaches(s, u) && u.napi == t.napi && u.poolSize == t.poolSize && u.next == t.next
    ensures u.sn0 == t.sn0.(pool := t.sn0.pool.(stopped := false)) && u.sn1 == t.sn1.(poll := PLoop(t.sn1.poll.left))
  {
    hide Reaches, ReachesUnpolled;
    u := Go(s, t, PollWake(true));
    u := Go(s, u, PollWake(true));
    u := Go(s, u, PollWake(true));
  }

  /**
    sn0's whole pool waits at sn1, whose interrupts are on, whose poll is over, and where no receive
    bit stands or can come back.
    */
  predicate Stalled(s: State) {
    && s.napi && s.sn0.pool == Pool([], true)
    && s.sn0.tx.TIdle? && s.sn1.rxq != []
    && s.sn1.irq.intEnabled && !s.sn1.irq.scheduled && !s.sn1.irq.word.rx && s.sn1.poll.PIdle?
    && !(s.sn1.tx.THalfTx? && s.sn1.tx.saw.rx) && !(s.sn1.tx.TServeSelf? && s.sn1.tx.saw.rx)
    && !WakePendingFor(s, false) && s.poolSize == |s.sn1.rxq|
  }

  /** Some context is between releasing a packet of `d` and the end of its wake test. */
  predicate WakePendingFor(s: State, d: bool) {
    || (s.sn0.tx.TWakeTest? && s.sn0.tx.p.dev == d) || (s.sn0.poll.PWakeTest? && s.sn0.poll.p.dev == d)
    || (s.sn1.tx.TWakeTest? && s.sn1.tx.p.dev == d) || (s.sn1.poll.PWakeTest? && s.sn1.poll.p.dev == d)
  }

  lemma StalledUnderSn0(s: State, step: Step)
    requires Inv(s) && Stalled(s) && Enabled(s, step) && !step.d
    ensures Stalled(Apply(s, step))
  {
    hide Inv, Released, WakeTested, WakeStage, Interrupted;
    InvFromEitherSide(s, false);
    AddsUp(s.napi, false, See(s, false), s.poolSize);
    if step.PollRelease? {
      ReleaseOfOther(See(s, false), false, s.sn0.poll.p);
    } else if step.PollWake? {
      WakeOfOther(See(s, false), false, s.sn0.poll.p, s.sn0.poll.stage);
    }
  }

  /** Releasing and waking for `p` touch its owner's pool only. */
  lemma ReleaseOfOther(v: View, d: bool, p: Pkt)
    ensures ReleaseLeaves(v, Released(v, d, p), d, p)
  {
  }

  lemma WakeOfOther(v: View, d: bool, p: Pkt, stage: Stage)
    ensures ReleaseLeaves(v, WakeTested(v, d, p, stage), d, p)
  {
  }

  predicate ReleaseLeaves(v: View, w: View, d: bool, p: Pkt) {
    && SameButPool(w.me, v.me) && SameButPool(w.twin, v.twin)
    && (p.dev != d ==> w.me == v.me) && (p.dev == d ==> w.twin == v.twin)
  }

  lemma InterruptUnderNapi(x: Dev, saw: Word, alloc: bool)
    ensures var y := Interrupted(true, x, saw, alloc);
      && Taken(true, x, saw) == None
      && y == x.(irq := y.irq, stats := y.stats) && y.irq.word == CLEAR && y.stats.sent == x.stats.sent
      && (!saw.rx ==> y.irq.intEnabled == x.irq.intEnabled && y.irq.scheduled == x.irq.scheduled)
  {
  }

  lemma StalledUnderHandler(s: State, step: Step)
    requires Stalled(s) && Enabled(s, step) && step.d && (step.InterruptTwin? || step.InterruptSelf?)
    ensures Stalled(Apply(s, step))
  {
    hide Interrupted, Taken;
    if step.InterruptTwin? {
      InterruptUnderNapi(s.sn0, s.sn1.tx.saw, step.alloc);
    } else {
      InterruptUnderNapi(s.sn1, s.sn1.tx.saw, step.alloc);
    }
  }

  /** sn1 has no packet of sn0's in hand to release. */
  lemma StalledUnderRelease(s: State, step: Step)
    requires Inv(s) && Stalled(s) && Enabled(s, step) && step.d && (step.TxRelease? || step.TxWake?)
    ensures Stalled(Apply(s, step))
  {
    hide Inv, Released, WakeTested, WakeStage;
    InvFromEitherSide(s, false);
    AddsUp(s.napi, false, See(s, false), s.poolSize);
    if step.TxRelease? {
      ReleaseOfOther(See(s, true), true, s.sn1.tx.p);
    } else {
      WakeOfOther(See(s, true), true, s.sn1.tx.p, s.sn1.tx.stage);
    }
  }

  lemma StalledUnderSn1(s: State, step: Step)
    requires Inv(s) && Stalled(s) && Enabled(s, step) && step.d
    ensures Stalled(Apply(s, step))
  {
    if step.InterruptTwin? || step.InterruptSelf? {
      hide *;
      StalledUnderHandler(s, step);
    } else if step.TxRelease? || step.TxWake? {
      hide *;
      StalledUnderRelease(s, step);
    } else {
      hide Inv, Released, WakeTested, WakeStage;
    }
  }

  lemma StalledStaysOneStep(s: State, step: Step)
    requires Inv(s) && Stalled(s) && Enabled(s, step)
    ensures Stalled(Apply(s, step))
  {
    hide Inv, Stalled, Apply, Enabled;
    if step.d {
      StalledUnderSn1(s, step);
    } else {
      StalledUnderSn0(s, step);
    }
  }

  /** A stalled interface never transmits again, whatever the other one does. */
  lemma {:induction false} StalledStays(s: State, steps: seq<Step>)
    requires Inv(s) && Stalled(s) && Possible(s, steps)
    ensures Stalled(Final(s, steps)) && Final(s, steps).sn0.stats.sent == s.sn0.stats.sent
    decreases |steps|
  {
    hide Inv, Stalled;
    if steps != [] {
      InvStep(s, steps[0]);
      StalledStaysOneStep(s, steps[0]);
      StalledSendsNothing(s, steps[0]);
      StalledStays(Apply(s, steps[0]), steps[1..]);
    }
  }

  lemma StalledSendsNothing(s: State, step: Step)
    requires Stalled(s) && Enabled(s, step)
    ensures Apply(s, step).sn0.stats.sent == s.sn0.stats.sent
  {
  }

  /** The wake test finds the queue started, or starts it; then the poll sees that nothing is left. */
  lemma EndPoll(s: State, t: State) returns (u: State)
    requires Reaches(s, t) && t.sn0.pool.free != [] && t.sn0.pool.stopped == (t.sn0.pool.free[1..] == [])
    requires var p := t.sn0.pool.free[0];
      !p.dev && t.sn1.poll == PWakeTest(p, 1, Test) && p in t.next && t.next[p] == Head(t.sn0.pool.free[1..])
    requires t.sn1.rxq == []
    ensures Reaches(s, u) && u.napi == t.napi && u.poolSize == t.poolSize
    ensures u.sn0 == t.sn0.(pool := Pool(t.sn0.pool.free, false)) && u.sn1 == t.sn1.(poll := PSawEmpty)
  {
    hide Reaches, ReachesUnpolled;
    if t.sn0.pool.stopped {
      u := WakeFires(s, t, t.sn0.pool.free[0]);
    } else {
      u := Go(s, t, PollWake(true));
    }
    u := LookAgain(s, u);
  }

  lemma LookAgain(s: State, t: State) returns (u: State)
    requires Reaches(s, t) && t.sn1.poll.PLoop? && t.sn1.rxq == []
    ensures Reaches(s, u) && u == t.(sn1 := t.sn1.(poll := PSawEmpty))
  {
    hide Reaches, ReachesUnpolled;
    u := Go(s, t, PollEnd(true));
    u := Go(s, u, PollVerdict(true));
  }

  lemma Resign(s: State, t: State) returns (u: State)
    requires Reaches(s, t) && t.sn1.poll.PSawEmpty?
    ensures Reaches(s, u)
    ensures u == t.(sn1 := t.sn1.(poll := PIdle, irq := t.sn1.irq.(scheduled := false, intEnabled := true)))
  {
    hide Reaches, ReachesUnpolled;
    u := Go(s, t, RxComplete(true));
    u := Go(s, u, EnableInts(true));
  }

  /** Packets sent between a poll's last look and its re-enabling of interrupts stall a sender that has no more. */
  lemma PollCanStallTheSender(s: State) returns (u: State)
    requires Init(s) && s.napi
    ensures Reaches(s, u) && Stalled(u)
  {
    hide Reaches, ReachesUnpolled;
    FreshPoolIds(false, s.poolSize);
    u := SendAndRelease(s);
    u := EndPoll(s, u);
    u := SendAll(s, u);
    u := Resign(s, u);
  }
}
