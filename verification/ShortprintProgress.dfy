/** What becomes of the printer's producer and consumer: which way their steps lead, and who can take one. */
module ShortprintProgress {
  import opened Bytes
  import opened ByteRing
  import opened ShortpRing
  import opened ShortprintProtocol

  /**
    A look during which the tail stays finds room exactly when the queue is not full, and asks for
    all the data unless the queue or the page ends before. Without room the producer looks once
    more, then queues and looks, then sleeps.
    */
  lemma StillLookDecides(s: State)
    requires Sane(s) && s.prod.PLook?
    ensures Sane(Apply(s, LookFirst)) && Enabled(Apply(s, LookFirst), LookSecond)
    ensures var u, data := Apply(Apply(s, LookFirst), LookSecond), s.prod.data;
      if |Contents(s.ring)| == Page(s) - 1 then
        u.prod == match s.prod.phase case First => PLook(data, Before) case Before => PPrepare(data)
                                     case Queueing => PAsleep(data)
      else
        && u.prod.PCopy? && u.prod.data == data && 0 < u.prod.n <= |data|
        && (u.prod.n < |data| ==> |Contents(s.ring)| + u.prod.n == Page(s) - 1 || s.ring.wp + u.prod.n == Page(s))
  {
    QueuedIsLength(s.ring);
    SpaceWhenTailIsStill(Page(s), s.ring.wp, s.ring.rp);
    SpaceIsAllOrToTheEnd(Page(s), s.ring.wp, s.ring.rp);
  }

  /** A write begins with all its data; queueing and being woken lead to one more look, and a signal ends it. */
  lemma WritesGoOn(s: State, data: seq<Byte>)
    requires Sane(s)
    ensures s.prod.PIdle? ==> Apply(s, Begin(data)) == s.(prod := if data == [] then PIdle else PLook(data, First))
    ensures s.prod.PPrepare? ==> Apply(s, Prepare) == s.(prod := PLook(s.prod.data, Queueing), woken := false)
    ensures s.prod.PAsleep? && s.woken ==>
      Apply(s, Rewait) == s.(prod := PLook(s.prod.data, Queueing), woken := false)
    ensures s.prod.PAsleep? ==> Apply(s, Signal) == s.(prod := PIdle)
  {
  }

  /** A chunk that can be copied joins the queue, and output that was stopped is started by queueing work. */
  lemma ChunkGoesIn(s: State, copyable: nat)
    requires Inv(s) && s.prod.PCopy? && copyable >= s.prod.n && (s.cons.CIdle? || s.cons.CReady?)
    ensures Enabled(s, CopyIn(copyable)) && Inv(Apply(s, CopyIn(copyable)))
    ensures var t := Apply(s, CopyIn(copyable)); Enabled(t, MoveHead) && Inv(Apply(t, MoveHead))
    ensures var t := Apply(Apply(s, CopyIn(copyable)), MoveHead); Enabled(t, LockSection)
    ensures var u, n := Apply(Apply(Apply(s, CopyIn(copyable)), MoveHead), LockSection), s.prod.n;
      && Contents(u.ring) == Contents(s.ring) + s.prod.data[..n] && u.accepted == s.accepted + s.prod.data[..n]
      && u.active && (u.pending <==> s.pending || !s.active) && u.cons == s.cons && u.strobed == s.strobed
      && u.prod == (if n == |s.prod.data| then PIdle else PLook(s.prod.data[n..], First))
  {
    InvStep(s, CopyIn(copyable));
    var t := Apply(s, CopyIn(copyable));
    var bytes := s.prod.data[..s.prod.n];
    CopyKeepsQueue(s.ring, bytes);
    InvStep(t, MoveHead);
    FillAppends(t.ring, bytes);
  }

  /** One that cannot be copied in full is given up, with the queue as it was. */
  lemma ShortCopyFaults(s: State, copyable: nat)
    requires Inv(s) && s.prod.PCopy? && copyable < s.prod.n
    ensures var t := Apply(s, CopyIn(copyable));
      Sane(t) && t.prod == PIdle && Contents(t.ring) == Contents(s.ring) && t.accepted == s.accepted
  {
    InvStep(s, CopyIn(copyable));
    CopyKeepsQueue(s.ring, s.prod.data[..copyable]);
  }

  /** A round of the work item prints the oldest byte, or stops output for want of one. */
  lemma WorkGoesOn(s: State)
    requires Inv(s) && s.cons.CReady?
    ensures Enabled(s, LockAndWrite) && Inv(Apply(s, LockAndWrite))
    ensures var t := Apply(s, LockAndWrite);
      if Contents(s.ring) == [] then
        t.cons == CSawEmpty && Apply(t, ClearActive).cons == CChecking && !Apply(t, ClearActive).active
      else
        && t.cons == CChecking && t.active == s.active
        && t.strobed + Contents(t.ring) == s.strobed + Contents(s.ring) && |t.strobed| == |s.strobed| + 1
  {
    InvStep(s, LockAndWrite);
    EmptyExactlyWhen(s.ring);
  }

  /** The test at its end wakes a producer on the queue exactly when that is filled to less than half, and not empty. */
  lemma WorkWakesExactlyWhen(s: State)
    requires Sane(s) && s.cons.CChecking?
    ensures var t, k := Apply(s, WakeCheck), |Contents(s.ring)|;
      && t == s.(cons := CIdle, woken := t.woken)
      && (t.woken <==> s.woken || (s.prod.OnQueue() && 0 < k && Page(s) - k > Page(s) / 2))
  {
    QueuedIsLength(s.ring);
    WakesWritersMeans(Page(s), s.ring.wp, s.ring.rp);
  }

  ghost predicate ProducerCanGoOn(s: State) {
    exists step: Step :: !step.ByConsumer() && !step.Interrupt? && !step.Signal? && Enabled(s, step)
  }

  ghost predicate ConsumerCanGoOn(s: State) { exists step: Step :: step.ByConsumer() && Enabled(s, step) }

  /** Who can go on: all but a sleeper not woken and one that needs the lock; the work item once it is queued. */
  lemma CanGoOnExactlyWhen(s: State)
    ensures ProducerCanGoOn(s) <==>
      && (s.prod.PAsleep? ==> s.woken) && (s.prod.PAdvanced? ==> s.cons.CIdle? || s.cons.CReady?)
    ensures ConsumerCanGoOn(s) <==> (s.cons.CIdle? ==> s.pending)
  {
    var step := match s.prod
      case PIdle => Begin([]) case PLook(_, _) => LookFirst case PHalf(_, _, _) => LookSecond
      case PPrepare(_) => Prepare case PAsleep(_) => Rewait case PCopy(_, _) => CopyIn(0)
      case PCopied(_, _) => MoveHead case PAdvanced(_) => LockSection;
    assert !step.ByConsumer() && !step.Interrupt? && !step.Signal? && (Enabled(s, step) ==> ProducerCanGoOn(s));
    var work := match s.cons
      case CIdle => TakeWork case CReady => LockAndWrite case CSawEmpty => ClearActive case CChecking => WakeCheck;
    assert work.ByConsumer() && (Enabled(s, work) ==> ConsumerCanGoOn(s));
  }
}
