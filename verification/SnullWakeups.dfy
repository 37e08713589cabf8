/** Stopping and waking the transmit queues of the snull interfaces. */
module SnullWakeups {
  import opened Options
  import opened SnullProtocol
  import opened SnullCounts

  /** An empty pool has its queue stopped, and a transmit under way finds a buffer. */
  predicate PoolSafe(x: Dev) {
    && (x.pool.free == [] ==> x.pool.stopped)
    && (x.tx.TGet? ==> !x.pool.stopped)
  }

  predicate BothSafe(v: View) { PoolSafe(v.me) && PoolSafe(v.twin) }

  /** This step wakes the queue of an interface whose pool is empty. */
  predicate WakesEmptyPool(v: View, d: bool, step: Step) {
    || (step.TxWake? && v.me.tx.TWakeTest? && v.me.tx.stage.Waking? && OwnPool(v, d, v.me.tx.p).free == [])
    || (step.PollWake? && v.me.poll.PWakeTest? && v.me.poll.stage.Waking? && OwnPool(v, d, v.me.poll.p).free == [])
  }

  /** Transmits keep finding buffers exactly as long as no wake test wakes the queue of an empty pool. */
  lemma SafeExactlyWhen(napi: bool, d: bool, v: View, step: Step)
    requires BothSafe(v) && EnabledFor(v.me, step)
    ensures BothSafe(Act(napi, d, v, step)) <==> !WakesEmptyPool(v, d, step)
  {
  }

  /** A wake test of `p` is under way and has come this far. */
  predicate TestingAt(v: View, p: Pkt, stage: Stage) {
    || (v.me.tx.TWakeTest? && v.me.tx.p == p && v.me.tx.stage == stage)
    || (v.twin.tx.TWakeTest? && v.twin.tx.p == p && v.twin.tx.stage == stage)
    || (v.me.poll.PWakeTest? && v.me.poll.p == p && v.me.poll.stage == stage)
    || (v.twin.poll.PWakeTest? && v.twin.poll.p == p && v.twin.poll.stage == stage)
  }

  /** A wake test of `p` is under way that will wake its owner's queue if that stays stopped and the link stays null. */
  predicate WakePending(v: View, p: Pkt) {
    TestingAt(v, p, Waking) || (Linkless(v, p) && (TestingAt(v, p, Test) || TestingAt(v, p, SawStopped)))
  }

  /** A stopped queue with free buffers is about to be woken through one of them. */
  ghost predicate WakeDue(v: View, pool: Pool) {
    pool.stopped && pool.free != [] ==> exists p :: p in pool.free && WakePending(v, p)
  }

  /** A due wake-up stays due as long as the pool only grows and its packets' wake tests go on. */
  lemma DueKept(v: View, w: View, pool: Pool, pool': Pool)
    requires WakeDue(v, pool)
    requires pool'.stopped && pool'.free != [] ==> pool.stopped && pool.free != []
    requires forall p :: p in pool.free ==> p in pool'.free
    requires forall p :: p in pool.free && WakePending(v, p) ==> WakePending(w, p)
    ensures WakeDue(w, pool')
  {
    hide WakePending;
    if pool'.stopped && pool'.free != [] {
      var p :| p in pool.free && WakePending(v, p);
      assert p in pool'.free && WakePending(w, p);
    }
  }

  ghost predicate BothDue(v: View) { WakeDue(v, v.me.pool) && WakeDue(v, v.twin.pool) }

  /** Pending wake tests survive a step that leaves wake tests alone, and the links of the packet too. */
  lemma PendingKept(v: View, w: View, p: Pkt)
    requires WakePending(v, p) && (Linkless(v, p) ==> Linkless(w, p))
    requires v.me.tx.TWakeTest? ==> w.me.tx == v.me.tx
    requires v.twin.tx.TWakeTest? ==> w.twin.tx == v.twin.tx
    requires v.me.poll.PWakeTest? ==> w.me.poll == v.me.poll
    requires v.twin.poll.PWakeTest? ==> w.twin.poll == v.twin.poll
    ensures WakePending(w, p)
  {
  }

  /** Steps that touch neither links nor wake tests. */
  lemma DuePlain(napi: bool, d: bool, v: View, step: Step)
    requires BothDue(v) && BothSafe(v) && EnabledFor(v.me, step)
    requires MovesNothing(step) || step.GetBuffer? || step.InterruptTwin? || step.InterruptSelf? || step.PollOne?
    ensures BothDue(Act(napi, d, v, step))
  {
    hide Interrupted, WakeDue, WakePending;
    var w := Act(napi, d, v, step);
    if step.InterruptTwin? { InterruptEffect(napi, v.twin, v.me.tx.saw, step.alloc); }
    if step.InterruptSelf? { InterruptEffect(napi, v.me, v.me.tx.saw, step.alloc); }
    forall p | WakePending(v, p)
      ensures WakePending(w, p)
    {
      PendingKept(v, w, p);
    }
    if step.GetBuffer? {
      NothingDue(w, w.me.pool);
    } else {
      DueKept(v, w, v.me.pool, w.me.pool);
    }
    DueKept(v, w, v.twin.pool, w.twin.pool);
  }

  lemma NothingDue(v: View, pool: Pool)
    requires !pool.stopped || pool.free == []
    ensures WakeDue(v, pool)
  {
  }

  lemma DueEnqueue(v: View)
    requires BothDue(v) && Unique(v) && v.me.tx.TGot?
    ensures BothDue(DoEnqueue(v))
  {
    hide WakeDue, WakePending;
    var w := DoEnqueue(v);
    InHandNotInPool(v, v.me.tx.p);
    forall p | p != v.me.tx.p && WakePending(v, p)
      ensures WakePending(w, p)
    {
      PendingKept(v, w, p);
    }
    DueKept(v, w, v.me.pool, v.me.pool);
    DueKept(v, w, v.twin.pool, v.twin.pool);
  }

  /** After the release of `q` into `w`: its own wake test is due if it was the first in its pool. */
  lemma DueAfterRelease(v: View, d: bool, w: View, q: Pkt)
    requires BothDue(v) && q !in v.me.pool.free && q !in v.twin.pool.free
    requires w.me.pool == Released(v, d, q).me.pool && w.twin.pool == Released(v, d, q).twin.pool
    requires w.next == Released(v, d, q).next && TestingAt(w, q, Test)
    requires forall p :: p != q && WakePending(v, p) ==> WakePending(w, p)
    ensures BothDue(w)
  {
    hide WakeDue, TestingAt;
    var pool, pool' := OwnPool(v, d, q), OwnPool(w, d, q);
    if pool.free == [] {
      assert Linkless(w, q) && WakePending(w, q);
      hide WakePending;
      DueBorn(w, pool', q);
    } else {
      hide WakePending;
      DueKept(v, w, pool, pool');
    }
    hide WakePending;
    DueKept(v, w, if q.dev == d then v.twin.pool else v.me.pool, if q.dev == d then w.twin.pool else w.me.pool);
  }

  lemma DueBorn(w: View, pool: Pool, q: Pkt)
    requires q in pool.free && WakePending(w, q)
    ensures WakeDue(w, pool)
  {
  }

  /** The wake test of `q` takes a stage in `w`; every other wake test goes on. */
  lemma DueAfterWake(v: View, d: bool, w: View, q: Pkt)
    requires BothDue(v) && BothOwned(v, d)
    requires OwnPool(w, d, q).free == OwnPool(v, d, q).free && (OwnPool(w, d, q).stopped ==> OwnPool(v, d, q).stopped)
    requires q.dev == d ==> w.twin.pool == v.twin.pool
    requires q.dev != d ==> w.me.pool == v.me.pool
    requires forall p :: p != q && WakePending(v, p) ==> WakePending(w, p)
    requires OwnPool(w, d, q).stopped && WakePending(v, q) ==> WakePending(w, q)
    ensures BothDue(w)
  {
    hide WakeDue, WakePending, AllOf;
    var mine, others := OwnPool(v, d, q), if q.dev == d then v.twin.pool else v.me.pool;
    if OwnPool(w, d, q).stopped {
      DueKept(v, w, mine, OwnPool(w, d, q));
    } else {
      NothingDue(w, OwnPool(w, d, q));
    }
    forall p | p in others.free
      ensures p != q
    {
      AllOfMember(others.free, !q.dev, p);
    }
    DueKept(v, w, others, others);
  }

  lemma WakeKeepsTests(v: View, d: bool, w: View, q: Pkt, stage: Stage)
    requires w.next == v.next && TestingAt(v, q, stage)
    requires forall st :: TestingAt(v, q, st) ==> st == stage || TestingAt(w, q, st)
    requires match WakeStage(v, d, q, stage) { case Some(more) => TestingAt(w, q, more) case None => true }
    requires OwnPool(v, d, q).stopped && !stage.Waking? && WakePending(v, q)
    ensures WakePending(w, q)
  {
    hide TestingAt;
  }

  lemma DueTxWake(v: View, d: bool)
    requires BothDue(v) && BothOwned(v, d) && v.me.tx.TWakeTest?
    ensures BothDue(DoTxWake(v, d))
  {
    hide WakeDue, AllOf;
    var w, q, stage := DoTxWake(v, d), v.me.tx.p, v.me.tx.stage;
    if OwnPool(v, d, q).stopped && !stage.Waking? && WakePending(v, q) {
      WakeKeepsTests(v, d, w, q, stage);
    }
    DueAfterWake(v, d, w, q);
  }

  lemma DuePollWake(v: View, d: bool)
    requires BothDue(v) && BothOwned(v, d) && v.me.poll.PWakeTest?
    ensures BothDue(DoPollWake(v, d))
  {
    hide WakeDue, AllOf;
    var w, q, stage := DoPollWake(v, d), v.me.poll.p, v.me.poll.stage;
    if OwnPool(v, d, q).stopped && !stage.Waking? && WakePending(v, q) {
      WakeKeepsTests(v, d, w, q, stage);
    }
    DueAfterWake(v, d, w, q);
  }

  lemma DueTxRelease(v: View, d: bool)
    requires BothDue(v) && Unique(v) && v.me.tx.TRelease?
    ensures BothDue(DoTxRelease(v, d))
  {
    hide WakeDue;
    InHandNotInPool(v, v.me.tx.p);
    DueAfterRelease(v, d, DoTxRelease(v, d), v.me.tx.p);
  }

  lemma DuePollRelease(v: View, d: bool)
    requires BothDue(v) && Unique(v) && v.me.poll.PRelease?
    ensures BothDue(DoPollRelease(v, d))
  {
    hide WakeDue;
    InHandNotInPool(v, v.me.poll.p);
    DueAfterRelease(v, d, DoPollRelease(v, d), v.me.poll.p);
  }

  /** Every step keeps due wake-ups due: no interface stays stopped with free buffers and nobody to wake it. */
  lemma DueStep(napi: bool, d: bool, v: View, step: Step)
    requires BothDue(v) && BothSafe(v) && Unique(v) && BothOwned(v, d) && EnabledFor(v.me, step)
    ensures BothDue(Act(napi, d, v, step))
  {
    hide BothDue, BothSafe, BothOwned, Unique, DoTxRelease, DoPollRelease, DoTxWake, DoPollWake, DoEnqueue;
    match step
    case Enqueue(_) => DueEnqueue(v);
    case TxRelease(_) => DueTxRelease(v, d);
    case PollRelease(_) => DuePollRelease(v, d);
    case TxWake(_) => DueTxWake(v, d);
    case PollWake(_) => DuePollWake(v, d);
    case _ => DuePlain(napi, d, v, step);
  }
}
