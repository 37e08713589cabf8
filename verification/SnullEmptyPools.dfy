/** Which configurations of snull can restart a queue over an empty pool: NAPI with two buffers or more. */
module SnullEmptyPools {
  import opened Options
  import opened SnullProtocol
  import opened SnullCounts
  import opened SnullWakeups

  // ------------------------------------------------------------------------- without NAPI

  predicate TestsFor(tx: Tx, d: bool) { tx.TWakeTest? && tx.p.dev == d }

  /** The transmit that `o`, interface `d`, has under way will put a packet back into its pool. */
  predicate Returning(o: Dev, y: Dev, d: bool) {
    match o.tx
    case TGot(p) => p.dev == d
    case TQueued => y.rxq != []
    case TSetRx => y.rxq != []
    case THalfRx(_) => y.rxq != []
    case TRaised => y.rxq != [] && y.irq.word.rx
    case TServe(saw) => y.rxq != [] && saw.rx
    case TRelease(p, _) => p.dev == d
    case _ => false
  }

  /** While the twin tests a packet that it released into an empty pool, that packet stays, as the queue is stopped. */
  predicate Kept(o: Dev, y: Dev, next: map<Pkt, Option<Pkt>>, d: bool) {
    && o.pool.stopped && o.pool.free != []
    && (TestsFor(o.tx, d) ==> !o.tx.stage.Waking? && o.tx.p in next && next[o.tx.p].Some?)
  }

  /** While it tests one that it released onto others, one of these stays, or comes back. */
  predicate Covered(o: Dev, y: Dev, d: bool) {
    |o.pool.free| > 1 || (o.pool.free != [] && Returning(o, y, d))
  }

  /** Wake tests of the packets of `o`, interface `d`, find its pool filled. */
  predicate Secure(o: Dev, y: Dev, next: map<Pkt, Option<Pkt>>, d: bool) {
    && PoolSafe(o)
    && (TestsFor(o.tx, d) ==> o.pool.free != [])
    && (TestsFor(y.tx, d) ==> Kept(o, y, next, d) || Covered(o, y, d))
  }

  predicate BothSecure(v: View, d: bool) { Secure(v.me, v.twin, v.next, d) && Secure(v.twin, v.me, v.next, !d) }

  lemma SecureRelease(d: bool, v: View)
    requires BothSecure(v, d) && v.me.tx.TRelease?
    ensures BothSecure(DoTxRelease(v, d), d)
  {
  }

  lemma SecureWake(d: bool, v: View)
    requires BothSecure(v, d) && v.me.tx.TWakeTest?
    ensures BothSecure(DoTxWake(v, d), d) && !WakesEmptyPool(v, d, TxWake(d))
  {
  }

  lemma SecureHandler(d: bool, v: View, step: Step)
    requires BothSecure(v, d) && BothOwned(v, d) && EnabledFor(v.me, step)
    requires step.InterruptTwin? || step.InterruptSelf?
    ensures BothSecure(Act(false, d, v, step), d)
  {
  }

  lemma SecureOther(d: bool, v: View, step: Step)
    requires BothSecure(v, d) && Counts(false, v) && BothOwned(v, d) && EnabledFor(v.me, step)
    requires !step.TxRelease? && !step.TxWake? && !step.InterruptTwin? && !step.InterruptSelf?
    ensures BothSecure(Act(false, d, v, step), d)
  {
    hide Released, WakeTested, WakeStage;
  }

  /** Without NAPI both pools stay secure, and no wake test wakes the queue of an empty one. */
  lemma SecureStep(d: bool, v: View, step: Step)
    requires BothSecure(v, d) && Counts(false, v) && BothOwned(v, d) && EnabledFor(v.me, step)
    ensures BothSecure(Act(false, d, v, step), d) && !WakesEmptyPool(v, d, step)
  {
    hide BothSecure, BothOwned, DoTxRelease, DoTxWake;
    match step
    case TxRelease(_) => SecureRelease(d, v);
    case TxWake(_) => SecureWake(d, v);
    case InterruptTwin(_, _) => SecureHandler(d, v, step);
    case InterruptSelf(_, _) => SecureHandler(d, v, step);
    case _ => SecureOther(d, v, step);
  }

  // ------------------------------------------------------------------------ a single buffer

  predicate PollsFor(poll: Poll, d: bool) { poll.PWakeTest? && poll.p.dev == d }

  /** How many contexts test packets of `d`. */
  function Tests(v: View, d: bool): nat {
    Plus(TestsFor(v.me.tx, d)) + Plus(TestsFor(v.twin.tx, d)) + Plus(PollsFor(v.me.poll, d))
      + Plus(PollsFor(v.twin.poll, d))
  }

  /** The one packet stays in its pool while it is tested: the queue is stopped until the test is over. */
  predicate Single(v: View, o: Dev, d: bool) {
    PoolSafe(o) && Tests(v, d) <= 1 && (Tests(v, d) == 1 ==> o.pool.stopped && o.pool.free != [])
  }

  predicate BothSingle(v: View, d: bool) { Single(v, v.me, d) && Single(v, v.twin, !d) }

  /** With one buffer per pool, a packet in hand leaves its owner's pool empty. */
  lemma InHandIsAll(d: bool, v: View, p: Pkt)
    requires BothOwned(v, d) && Total(v, OfOwner(d)) == 1 && Total(v, OfOwner(!d)) == 1
    requires (v.me.tx.TRelease? && v.me.tx.p == p) || (v.me.poll.PRelease? && v.me.poll.p == p)
    ensures OwnPool(v, d, p).free == []
  {
  }

  lemma SingleTxRelease(d: bool, v: View)
    requires BothSingle(v, d) && v.me.tx.TRelease? && OwnPool(v, d, v.me.tx.p).free == []
    ensures BothSingle(DoTxRelease(v, d), d)
  {
  }

  lemma SinglePollRelease(d: bool, v: View)
    requires BothSingle(v, d) && v.me.poll.PRelease? && OwnPool(v, d, v.me.poll.p).free == []
    ensures BothSingle(DoPollRelease(v, d), d)
  {
  }

  lemma SingleTxWake(d: bool, v: View)
    requires BothSingle(v, d) && v.me.tx.TWakeTest?
    ensures BothSingle(DoTxWake(v, d), d) && !WakesEmptyPool(v, d, TxWake(d))
  {
  }

  lemma SinglePollWake(d: bool, v: View)
    requires BothSingle(v, d) && v.me.poll.PWakeTest?
    ensures BothSingle(DoPollWake(v, d), d) && !WakesEmptyPool(v, d, PollWake(d))
  {
  }

  lemma SingleHandler(napi: bool, d: bool, v: View, step: Step)
    requires BothSingle(v, d) && EnabledFor(v.me, step) && (step.InterruptTwin? || step.InterruptSelf?)
    ensures BothSingle(Act(napi, d, v, step), d)
  {
    hide Interrupted, Taken;
    InterruptEffect(napi, if step.InterruptTwin? then v.twin else v.me, v.me.tx.saw, step.alloc);
  }

  lemma SingleOther(napi: bool, d: bool, v: View, step: Step)
    requires BothSingle(v, d) && EnabledFor(v.me, step) && !step.InterruptTwin? && !step.InterruptSelf?
    requires !step.TxRelease? && !step.TxWake? && !step.PollRelease? && !step.PollWake?
    ensures BothSingle(Act(napi, d, v, step), d)
  {
    hide Released, WakeTested, WakeStage;
  }

  /** With one buffer per pool, no wake test wakes the queue of an empty one, with NAPI or without. */
  lemma SingleStep(napi: bool, d: bool, v: View, step: Step)
    requires BothSingle(v, d) && EnabledFor(v.me, step)
    requires BothOwned(v, d) && Total(v, OfOwner(d)) == 1 && Total(v, OfOwner(!d)) == 1
    ensures BothSingle(Act(napi, d, v, step), d) && !WakesEmptyPool(v, d, step)
  {
    hide BothSingle, BothOwned, Total, DoTxRelease, DoPollRelease, DoTxWake, DoPollWake;
    match step
    case TxRelease(_) =>
      InHandIsAll(d, v, v.me.tx.p);
      SingleTxRelease(d, v);
    case PollRelease(_) =>
      InHandIsAll(d, v, v.me.poll.p);
      SinglePollRelease(d, v);
    case TxWake(_) => SingleTxWake(d, v);
    case PollWake(_) => SinglePollWake(d, v);
    case InterruptTwin(_, _) => SingleHandler(napi, d, v, step);
    case InterruptSelf(_, _) => SingleHandler(napi, d, v, step);
    case _ => SingleOther(napi, d, v, step);
  }
}
