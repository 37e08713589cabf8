/** What becomes of each process on a scull pipe: which way its next step leads, and who can take one. */
module PipeProgress {
  import opened Bytes
  import opened ByteRing
  import opened PipeRing
  import opened PipeProtocol

  /** The bytes a process that holds the semaphore finds. */
  function Buffered(s: State): seq<Byte>
    requires Sane(s)
  {
    Contents(Settle(s.ring))
  }

  lemma PointersInBounds(s: State, p: nat)
    requires Sane(s) && p < |s.procs| && (s.procs[p].pc.RLocked? || s.procs[p].pc.WLocked?)
    ensures Ok(s.ring) && Settle(s.ring) == s.ring && s.sem == p
    ensures Full(s) <==> |Contents(s.ring)| == |s.ring.buf| - 1
    ensures s.ring.rp == s.ring.wp <==> Contents(s.ring) == []
  {
    SpaceFreeIsCapacityLeft(s.ring);
    EmptyExactlyWhen(s.ring);
  }

  /** A request reaches the semaphore as it was made. */
  lemma RequestsReachTheSemaphore(s: State, p: nat, count: nat, data: seq<Byte>, nonblock: bool)
    requires Sane(s) && p < |s.procs| && s.procs[p].pc.Idle? && s.sem == FREE
    ensures Enabled(s, StartRead(p, count, nonblock)) && Enabled(s, StartWrite(p, data, nonblock))
    ensures var r, w := Apply(s, StartRead(p, count, nonblock)), Apply(s, StartWrite(p, data, nonblock));
      && Sane(r) && Sane(w) && Enabled(r, Down(p)) && Enabled(w, Down(p))
      && Apply(r, Down(p)).procs[p].pc == RLocked(count, nonblock)
      && Apply(w, Down(p)).procs[p].pc == WLocked(data, nonblock)
  {
    SaneStep(s, StartRead(p, count, nonblock));
    SaneStep(s, StartWrite(p, data, nonblock));
  }

  /** Others are left alone by every step but a wake-up, and bytes by all but copies and opens. */
  lemma OthersStay(s: State, step: Step, q: nat)
    requires Sane(s) && Enabled(s, step) && !step.Wake?
    ensures var t := Apply(s, step);
      && |t.procs| == |s.procs| && (q < |s.procs| && q != step.p ==> t.procs[q] == s.procs[q])
      && (!step.Open? && !step.ReadCopy? && !step.WriteCopy? ==>
            Settle(t.ring) == Settle(s.ring) && t.accepted == s.accepted && t.returned == s.returned)
  {
  }

  /** A sleeper that was woken waits again for data, or tries again to write; a signal ends the call. */
  lemma SleepersGoOn(s: State, step: Step)
    requires Sane(s) && Enabled(s, step)
    ensures var me, t := s.procs[step.p].pc, Apply(s, step).procs[step.p];
      && (step.Signal? ==> t.pc == Idle)
      && (me.RAsleep? && !step.Signal? ==> t == Proc(RQueued(me.count), false))
      && (me.WAsleep? && !step.Signal? ==> t.pc == WDown(me.data, false))
  {
  }

  /**
    A reader with the semaphore takes the first bytes, or faults and leaves everything, exactly
    when there are any; otherwise it releases the semaphore and returns, or goes to wait.
    */
  lemma LockedReaderGoesOn(s: State, step: Step)
    requires Sane(s) && Enabled(s, step) && s.procs[step.p].pc.RLocked?
    ensures var t, me := Apply(s, step), s.procs[step.p].pc;
      if Buffered(s) == [] then
        && t.ring == s.ring && t.sem == FREE && t.returned == s.returned
        && if me.nonblock then t.procs[step.p].pc == Idle
           else t.procs[step.p].pc == RQueued(me.count) || t.procs[step.p].pc == RDown(me.count, false)
      else
        && step.ReadCopy?
        && if step.fault then t.ring == s.ring && t.sem == FREE && t.procs[step.p].pc == Idle
           else
             && t.procs[step.p].pc == RMoved && t.sem == step.p
             && t.returned + Contents(Settle(t.ring)) == s.returned + Buffered(s)
             && |s.returned| <= |t.returned| <= |s.returned| + me.count
             && (|t.returned| < |s.returned| + me.count ==>
                   Contents(Settle(t.ring)) == [] || Settle(t.ring).rp == 0)
  {
    PointersInBounds(s, step.p);
    if step.ReadCopy? && !step.fault {
      hide Contents, Full, Settle, AdvanceRead, ReadBytes;
      var count := s.procs[step.p].pc.count;
      ReadTakesPrefix(s.ring, count);
      ReadKeepsHistory(s.ring, count, s.returned, s.returned + Contents(s.ring));
    } else {
      hide Contents, Full;
    }
  }

  /**
    A writer with the semaphore appends what fits, or faults part of the way and leaves all that is
    buffered, exactly when there is room; otherwise it releases the semaphore and returns, or goes
    to wait.
    */
  lemma LockedWriterGoesOn(s: State, step: Step)
    requires Sane(s) && Enabled(s, step) && s.procs[step.p].pc.WLocked?
    ensures Sane(Apply(s, step)) && |Apply(s, step).ring.buf| == |s.ring.buf|
    ensures var t, me := Apply(s, step), s.procs[step.p].pc;
      if |Buffered(s)| == |s.ring.buf| - 1 then
        && t.ring == s.ring && t.sem == FREE && t.accepted == s.accepted
        && t.procs[step.p].pc == if me.nonblock then Idle else WQueued(me.data)
      else if t.sem == FREE then
        && step.WriteCopy? && step.copyable < |me.data| && t.procs[step.p].pc == Idle
        && Buffered(t) == Buffered(s) && t.accepted == s.accepted
      else
        var n := |t.accepted| - |s.accepted|;
        && step.WriteCopy? && 0 <= n <= |me.data| && n <= step.copyable && (me.data != [] ==> n > 0)
        && t.procs[step.p].pc == WMoved && t.sem == step.p
        && t.accepted == s.accepted + me.data[..n] && Buffered(t) == Buffered(s) + me.data[..n]
        && (n < |me.data| ==> |Buffered(t)| == |s.ring.buf| - 1 || Settle(t.ring).wp == 0)
  {
    PointersInBounds(s, step.p);
    SaneStep(s, step);
    if step.WriteCopy? {
      hide Contents, Settle, Sane;
      WriterCopies(s, step.p, step.copyable);
    } else {
      hide Contents, Settle, WriteCount;
    }
  }

  /** The copy of a writer that has found room. */
  lemma WriterCopies(s: State, p: nat, copyable: nat)
    requires Sane(s) && Ok(s.ring) && Settle(s.ring) == s.ring && Enabled(s, WriteCopy(p, copyable))
    requires Sane(Apply(s, WriteCopy(p, copyable)))
    ensures var t, data := Apply(s, WriteCopy(p, copyable)), s.procs[p].pc.data;
      var n := WriteCount(s.ring, |data|);
      && n <= |data| && (data != [] ==> n > 0) && |t.ring.buf| == |s.ring.buf|
      && if copyable < n then
           t.sem == FREE && t.procs[p].pc == Idle && t.accepted == s.accepted && Buffered(t) == Buffered(s)
         else
           && t.sem == s.sem && t.procs[p].pc == WMoved && t.accepted == s.accepted + data[..n]
           && Buffered(t) == Buffered(s) + data[..n]
           && (n < |data| ==> |Buffered(t)| == |s.ring.buf| - 1 || Settle(t.ring).wp == 0)
  {
    var data := s.procs[p].pc.data;
    hide Contents, Settle, Splice, Sane;
    SpaceFreeIsCapacityLeft(s.ring);
    WriteAppendsPrefix(s.ring, data);
    if copyable < WriteCount(s.ring, |data|) {
      PartialWriteKeepsContents(s.ring, data, copyable);
      SettledInBounds(s.ring, Apply(s, WriteCopy(p, copyable)).ring);
    }
  }

  lemma SettledInBounds(r: Ring, r': Ring)
    requires Ok(r) && |r'.buf| == |r.buf| && r'.rp == r.rp && r'.wp == r.wp
    ensures Settle(r') == r'
  {
  }

  // ------------------------------------------------------------------ looks, sleeps and wake-ups

  /** A look during which nothing moves leads to sleep exactly when the pipe is empty, or for a writer full. */
  lemma StillLookDecides(s: State, p: nat, rpFirst: bool)
    requires Sane(s) && Enabled(s, Fetch(p, rpFirst)) && s.ring.rp < |s.ring.buf| && s.ring.wp < |s.ring.buf|
    ensures var t := Apply(s, Fetch(p, rpFirst));
      && Sane(t) && Enabled(t, Decide(p, s.ring.rp == s.ring.wp))
      && var me, after := s.procs[p].pc, Apply(t, Decide(p, s.ring.rp == s.ring.wp)).procs[p].pc;
         if me.RQueued? then after == if Buffered(s) == [] then RAsleep(me.count) else RDown(me.count, false)
         else after == if |Buffered(s)| == |s.ring.buf| - 1 then WAsleep(me.data) else WDown(me.data, false)
  {
    SaneStep(s, Fetch(p, rpFirst));
    SpaceFreeIsCapacityLeft(s.ring);
    EmptyExactlyWhen(s.ring);
  }

  /** A wake-up makes runnable exactly those who wait for what its process has done, and moves nobody else. */
  lemma WakeReachesTheQueue(s: State, p: nat, q: nat)
    requires Sane(s) && Enabled(s, Wake(p)) && q < |s.procs| && q != p
    ensures var t, you := Apply(s, Wake(p)), s.procs[q];
      && t.procs[q].pc == you.pc && t.procs[p].pc == Idle && t.ring == s.ring && t.sem == s.sem
      && var waits := if s.procs[p].pc.ROwes? then you.pc.WQueued? || you.pc.WHalf? || you.pc.WAsleep?
                      else you.pc.RQueued? || you.pc.RHalf? || you.pc.RAsleep?;
         t.procs[q].woken == (you.woken || waits)
  {
  }

  /** A signal reaches exactly those that wait, for the semaphore or on a queue. */
  lemma SignalsReachExactly(s: State, p: nat)
    requires Sane(s) && p < |s.procs|
    ensures var me := s.procs[p].pc;
      Enabled(s, Signal(p)) <==> me.RDown? || me.WDown? || me.RAsleep? || me.WAsleep?
  {
  }

  /** The process can go on by itself, without a signal. */
  ghost predicate CanGoOn(s: State, p: nat)
    requires |s.ring.buf| > 0
  {
    exists step: Step :: step.p == p && !step.Signal? && Enabled(s, step)
  }

  /** Who cannot: those asleep and not woken, and, while the semaphore is held, those that need it. */
  lemma CanGoOnExactlyWhen(s: State, p: nat)
    requires Sane(s) && p < |s.procs|
    ensures var me := s.procs[p];
      CanGoOn(s, p) <==>
        && (me.pc.RAsleep? || me.pc.WAsleep? ==> me.woken)
        && (me.pc.RDown? || me.pc.WDown? ==> s.sem == FREE)
  {
    var me := s.procs[p].pc;
    var step := match me
      case Idle => StartRead(p, 0, false) case RDown(_, _) => Down(p) case WDown(_, _) => Down(p)
      case RLocked(_, nonblock) =>
        if s.ring.rp != s.ring.wp then ReadCopy(p, false) else if nonblock then GiveUp(p) else Queue(p)
      case WLocked(_, nonblock) => if !Full(s) then WriteCopy(p, 0) else if nonblock then GiveUp(p) else Queue(p)
      case RQueued(_) => Fetch(p, true) case WQueued(_) => Fetch(p, true)
      case RHalf(_, _, _) => Decide(p, false) case WHalf(_, _, _) => Decide(p, false)
      case RAsleep(_) => Queue(p) case WAsleep(_) => Retry(p)
      case RMoved => WrapAndUp(p) case WMoved => WrapAndUp(p) case ROwes => Wake(p) case WOwes => Wake(p);
    assert step.p == p && !step.Signal? && (Enabled(s, step) ==> CanGoOn(s, p));
  }
}
