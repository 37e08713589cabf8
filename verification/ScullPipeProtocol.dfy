/**
  Any number of processes on one scull pipe: the semaphore, the two wait queues and the
  unlocked checks made while going to sleep. One step is one access to shared memory or one
  critical section; runs interleave the steps of all processes freely.
  */
module PipeProtocol {
  import opened Bytes
  import opened ByteRing
  import opened PipeRing

  /**
    Where a process is. `R` states belong to a read, `W` states to a write. A queued process
    has called `prepare_to_wait`; a `Half` state has fetched one of the two pointers that its
    wake-up condition compares. A `Moved` state has advanced its pointer and still holds the
    semaphore; an `Owes` state has released it and has not yet called `wake_up`.
    */
  datatype Pc =
    | Idle
    | RDown(count: nat, nonblock: bool)
    | RLocked(count: nat, nonblock: bool)
    | RQueued(count: nat)
    | RHalf(count: nat, sawRp: bool, seen: nat)
    | RAsleep(count: nat)
    | RMoved
    | ROwes
    | WDown(data: seq<Byte>, nonblock: bool)
    | WLocked(data: seq<Byte>, nonblock: bool)
    | WQueued(data: seq<Byte>)
    | WHalf(data: seq<Byte>, sawRp: bool, seen: nat)
    | WAsleep(data: seq<Byte>)
    | WMoved
    | WOwes
  {
    predicate Holds() { RLocked? || RMoved? || WLocked? || WMoved? }
    predicate OnInq() { RQueued? || RHalf? || RAsleep? }
    predicate OnOutq() { WQueued? || WHalf? || WAsleep? }
    /** A reader that has moved `rp` and has not yet woken the writers. */
    predicate OwesOutq() { RMoved? || ROwes? }
    /** A writer that has moved `wp` and has not yet woken the readers. */
    predicate OwesInq() { WMoved? || WOwes? }
  }

  /** `woken`: since this process last queued itself, a wake-up has made it runnable again. */
  datatype Proc = Proc(pc: Pc, woken: bool)

  /** `accepted` and `returned` record the bytes moved since the last open. */
  datatype State = State(ring: Ring, sem: int, procs: seq<Proc>, accepted: seq<Byte>, returned: seq<Byte>)

  const FREE := -1

  datatype Step =
    | Open(p: nat)
    | StartRead(p: nat, count: nat, nonblock: bool)
    | StartWrite(p: nat, data: seq<Byte>, nonblock: bool)
    | Down(p: nat)
    | Signal(p: nat)
    | GiveUp(p: nat)
    | Queue(p: nat)
    | Retry(p: nat)
    | Fetch(p: nat, rpFirst: bool)
    | Decide(p: nat, comparedEqual: bool)
    | ReadCopy(p: nat, fault: bool)
    | WriteCopy(p: nat, copyable: nat)
    | WrapAndUp(p: nat)
    | Wake(p: nat)

  predicate Empty(s: State) { Wrap(s.ring.rp, |s.ring.buf|) == Wrap(s.ring.wp, |s.ring.buf|) }

  predicate Full(s: State)
    requires |s.ring.buf| > 0
  {
    FreeBetween(|s.ring.buf|, Wrap(s.ring.rp, |s.ring.buf|), Wrap(s.ring.wp, |s.ring.buf|)) == 0
  }

  /** The value of the unlocked condition from a pair of pointer values fetched at different times. */
  predicate SeesFull(size: nat, rp: nat, wp: nat, comparedEqual: bool)
    requires size > 0
  {
    if comparedEqual then size == 1 else (rp + size - wp) % size - 1 == 0
  }

  /** Waking a queue marks every process on it; none of the waits is exclusive. */
  function WakeProc(q: Proc, inq: bool): Proc {
    if (inq && q.pc.OnInq()) || (!inq && q.pc.OnOutq()) then q.(woken := true) else q
  }

  function WakeAll(procs: seq<Proc>, inq: bool): (r: seq<Proc>)
    ensures |r| == |procs|
    ensures forall i :: 0 <= i < |procs| ==> r[i] == WakeProc(procs[i], inq)
  {
    seq(|procs|, i requires 0 <= i < |procs| => WakeProc(procs[i], inq))
  }

  predicate Enabled(s: State, step: Step)
    requires |s.ring.buf| > 0
  {
    step.p < |s.procs| &&
    var me := s.procs[step.p].pc;
    var woken := s.procs[step.p].woken;
    match step
    case Open(_) => me.Idle? && s.sem == FREE
    case StartRead(_, _, _) => me.Idle?
    case StartWrite(_, _, _) => me.Idle?
    case Down(_) => (me.RDown? || me.WDown?) && s.sem == FREE
    case Signal(_) => me.RDown? || me.WDown? || me.RAsleep? || me.WAsleep?
    // locked and nothing to do: up, and return -EAGAIN
    case GiveUp(_) => (me.RLocked? && me.nonblock && s.ring.rp == s.ring.wp) || (me.WLocked? && me.nonblock && Full(s))
    // locked and nothing to do: up and prepare to wait; or woken by a wake-up, and prepare again
    case Queue(_) =>
      || (me.RLocked? && !me.nonblock && s.ring.rp == s.ring.wp)
      || (me.WLocked? && !me.nonblock && Full(s))
      || (me.RAsleep? && woken)
    // the condition held before or while queueing, or a writer was woken: take the semaphore again
    case Retry(_) =>
      || (me.RLocked? && !me.nonblock && s.ring.rp == s.ring.wp)
      || (me.WAsleep? && woken)
    case Fetch(_, _) => me.RQueued? || me.WQueued?
    case Decide(_, _) => me.RHalf? || me.WHalf?
    case ReadCopy(_, _) => me.RLocked? && s.ring.rp != s.ring.wp
    case WriteCopy(_, _) => me.WLocked? && !Full(s)
    case WrapAndUp(_) => me.RMoved? || me.WMoved?
    case Wake(_) => me.ROwes? || me.WOwes?
  }

  function Fetched(me: Pc, rpFirst: bool, ring: Ring): Pc
    requires me.RQueued? || me.WQueued?
  {
    var seen := if rpFirst then ring.rp else ring.wp;
    if me.RQueued? then RHalf(me.count, rpFirst, seen) else WHalf(me.data, rpFirst, seen)
  }

  /** The second pointer is fetched now; the pair decides between sleeping and trying again. */
  function Decided(me: Pc, comparedEqual: bool, ring: Ring): Pc
    requires |ring.buf| > 0 && (me.RHalf? || me.WHalf?)
  {
    var rp := if me.sawRp then me.seen else ring.rp;
    var wp := if me.sawRp then ring.wp else me.seen;
    if me.RHalf? then if rp == wp then RAsleep(me.count) else RDown(me.count, false)
    else if SeesFull(|ring.buf|, rp, wp, comparedEqual) then WAsleep(me.data) else WDown(me.data, false)
  }

  /** Runs keep the pointers inside the buffer whenever the semaphore holder is about to copy. */
  predicate Sane(s: State) {
    && |s.ring.buf| > 0 && s.ring.rp <= |s.ring.buf| && s.ring.wp <= |s.ring.buf|
    && (s.ring.rp == |s.ring.buf| ==> 0 <= s.sem < |s.procs| && s.procs[s.sem].pc.RMoved?)
    && (s.ring.wp == |s.ring.buf| ==> 0 <= s.sem < |s.procs| && s.procs[s.sem].pc.WMoved?)
    && FREE <= s.sem < |s.procs|
    && forall q :: 0 <= q < |s.procs| ==> (s.procs[q].pc.Holds() <==> s.sem == q)
  }

  function Apply(s: State, step: Step): State
    requires Sane(s) && Enabled(s, step)
  {
    var p := step.p;
    var me := s.procs[p].pc;
    match step
    case Open(_) => s.(ring := s.ring.(rp := 0, wp := 0), accepted := [], returned := [])
    case StartRead(_, count, nonblock) => s.(procs := s.procs[p := Proc(RDown(count, nonblock), s.procs[p].woken)])
    case StartWrite(_, data, nonblock) => s.(procs := s.procs[p := Proc(WDown(data, nonblock), s.procs[p].woken)])
    case Down(_) =>
      s.(sem := p, procs := s.procs[p := Proc(if me.RDown? then RLocked(me.count, me.nonblock)
        else WLocked(me.data, me.nonblock), s.procs[p].woken)])
    case Signal(_) => s.(procs := s.procs[p := Proc(Idle, s.procs[p].woken)])
    case GiveUp(_) => s.(sem := FREE, procs := s.procs[p := Proc(Idle, s.procs[p].woken)])
    case Queue(_) =>
      if me.RAsleep? then s.(procs := s.procs[p := Proc(RQueued(me.count), false)])
      else s.(sem := FREE, procs := s.procs[p := Proc(if me.RLocked? then RQueued(me.count)
        else WQueued(me.data), false)])
    case Retry(_) =>
      if me.WAsleep? then s.(procs := s.procs[p := Proc(WDown(me.data, false), s.procs[p].woken)])
      else s.(sem := FREE, procs := s.procs[p := Proc(RDown(me.count, false), s.procs[p].woken)])
    case Fetch(_, rpFirst) => s.(procs := s.procs[p := Proc(Fetched(me, rpFirst, s.ring), s.procs[p].woken)])
    case Decide(_, eq) => s.(procs := s.procs[p := Proc(Decided(me, eq, s.ring), s.procs[p].woken)])
    case ReadCopy(_, fault) =>
      if fault then s.(sem := FREE, procs := s.procs[p := Proc(Idle, s.procs[p].woken)])
      else s.(ring := AdvanceRead(s.ring, me.count),
              returned := s.returned + ReadBytes(s.ring, me.count),
              procs := s.procs[p := Proc(RMoved, s.procs[p].woken)])
    case WriteCopy(_, copyable) =>
      SpaceFreeIsCapacityLeft(s.ring);
      var n := WriteCount(s.ring, |me.data|);
      if copyable < n then
        s.(ring := PartialWrite(s.ring, me.data, copyable), sem := FREE,
          procs := s.procs[p := Proc(Idle, s.procs[p].woken)])
      else
        s.(ring := AdvanceWrite(s.ring, me.data),
           accepted := s.accepted + me.data[..n],
           procs := s.procs[p := Proc(WMoved, s.procs[p].woken)])
    case WrapAndUp(_) =>
      s.(ring := Settle(s.ring), sem := FREE, procs := s.procs[p := Proc(if me.RMoved? then ROwes
        else WOwes, s.procs[p].woken)])
    case Wake(_) => s.(procs := WakeAll(s.procs, me.WOwes?)[p := Proc(Idle, false)])
  }

  // ---------------------------------------------------------------- what every run keeps

  /** First in, first out: what was read, followed by what is buffered, is what was written. */
  predicate Fifo(s: State)
    requires Sane(s)
  {
    s.returned + Contents(Settle(s.ring)) == s.accepted
  }

  predicate SomeoneOwesInq(s: State) { exists q :: 0 <= q < |s.procs| && s.procs[q].pc.OwesInq() }
  predicate SomeoneOwesOutq(s: State) { exists q :: 0 <= q < |s.procs| && s.procs[q].pc.OwesOutq() }

  /** A reader asleep on a pipe that holds data will still be woken. */
  predicate NoLostReader(s: State) {
    forall q :: 0 <= q < |s.procs| && s.procs[q].pc.RAsleep? && !s.procs[q].woken && !Empty(s) ==> SomeoneOwesInq(s)
  }

  /** A writer asleep on a pipe with room will still be woken. */
  predicate NoLostWriter(s: State)
    requires |s.ring.buf| > 0
  {
    forall q :: 0 <= q < |s.procs| && s.procs[q].pc.WAsleep? && !s.procs[q].woken && !Full(s) ==> SomeoneOwesOutq(s)
  }

  /** What a half-done unlocked check must imply for the sleep it may lead to. */
  predicate ReaderCheckSound(q: Proc, s: State) {
    && (q.pc.RAsleep? && !q.woken ==> Empty(s))
    && (q.pc.RHalf? && !q.woken && q.pc.sawRp && q.pc.seen == s.ring.wp ==> Empty(s))
    && (q.pc.RHalf? && !q.woken && !q.pc.sawRp ==> q.pc.seen == s.ring.wp || Empty(s))
  }

  predicate WriterCheckSound(q: Proc, s: State)
    requires |s.ring.buf| > 0
  {
    && (q.pc.WAsleep? && !q.woken ==> Full(s))
    && (q.pc.WHalf? && !q.woken && q.pc.sawRp ==> q.pc.seen == s.ring.rp)
    && (q.pc.WHalf? && !q.woken && !q.pc.sawRp && SeesFull(|s.ring.buf|, s.ring.rp, q.pc.seen, false) ==> Full(s))
    && (q.pc.WHalf? && !q.pc.sawRp ==> q.pc.seen <= |s.ring.buf|)
  }

  predicate ReadersSound(s: State) {
    SomeoneOwesInq(s) || forall q :: 0 <= q < |s.procs| ==> ReaderCheckSound(s.procs[q], s)
  }

  predicate WritersSound(s: State)
    requires |s.ring.buf| > 0
  {
    && (forall q :: 0 <= q < |s.procs| && s.procs[q].pc.WHalf? && !s.procs[q].pc.sawRp ==>
      s.procs[q].pc.seen <= |s.ring.buf|)
    && (SomeoneOwesOutq(s) || forall q :: 0 <= q < |s.procs| ==> WriterCheckSound(s.procs[q], s))
  }

  /** Kept by every step, including opens. */
  predicate Inv(s: State) {
    Sane(s) && Fifo(s) && ReadersSound(s)
  }

  // ------------------------------------------------------------------------------- runs

  /** A fresh pipe of `size` bytes shared by `n` processes. */
  predicate Init(s: State, size: nat, n: nat) {
    && size > 0 && |s.ring.buf| == size && s.ring.rp == 0 && s.ring.wp == 0
    && s.sem == FREE && s.accepted == [] && s.returned == []
    && |s.procs| == n && forall q :: 0 <= q < n ==> s.procs[q].pc.Idle?
  }

  /** The steps can be taken one after the other from `s`. */
  predicate Possible(s: State, steps: seq<Step>)
    decreases |steps|
  {
    Sane(s) && (steps == [] || (Enabled(s, steps[0]) &&
      (SaneStep(s, steps[0]); Possible(Apply(s, steps[0]), steps[1..]))))
  }

  function Final(s: State, steps: seq<Step>): (e: State)
    requires Possible(s, steps)
    ensures Sane(e)
    decreases |steps|
  {
    if steps == [] then s else Final(Apply(s, steps[0]), steps[1..])
  }

  /**
    Resetting the pointers makes this writer wrong about the pipe: it sleeps on what is now
    empty, or it has fetched one pointer and the pair it will compare may read as full.
    */
  predicate Doomed(q: Proc, size: nat)
    requires size > 0
  {
    && !q.woken
    && match q.pc
       case WAsleep(_) => size > 1
       case WHalf(_, sawRp, seen) => if sawRp then seen != 0 else size > 1 && SeesFull(size, 0, seen, false)
       case _ => false
  }

  /** An open now misleads no writer, or a wake-up that will set it right is owed. */
  predicate OpenIsQuiet(s: State)
    requires |s.ring.buf| > 0
  {
    SomeoneOwesOutq(s) || forall q :: 0 <= q < |s.procs| ==> !Doomed(s.procs[q], |s.ring.buf|)
  }

  /** Every open in the run is quiet. */
  predicate QuietOpens(s: State, steps: seq<Step>)
    requires Possible(s, steps)
    decreases |steps|
  {
    steps == [] || ((steps[0].Open? ==> OpenIsQuiet(s)) && QuietOpens(Apply(s, steps[0]), steps[1..]))
  }

  /** Writers are right about the pipe, or owed a wake-up, at every point of the run. */
  predicate WritersAlwaysSound(s: State, steps: seq<Step>)
    requires Possible(s, steps)
    decreases |steps|
  {
    WritersSound(s) && (steps == [] || WritersAlwaysSound(Apply(s, steps[0]), steps[1..]))
  }

  predicate MovesPointers(step: Step) { step.Open? || step.ReadCopy? || step.WriteCopy? || step.WrapAndUp? }

  lemma SaneMove(s: State, step: Step)
    requires Sane(s) && Enabled(s, step) && MovesPointers(step)
    ensures Sane(Apply(s, step))
  {
  }

  lemma SaneOther(s: State, step: Step)
    requires Sane(s) && Enabled(s, step) && !MovesPointers(step)
    ensures Sane(Apply(s, step))
  {
  }

  lemma SaneStep(s: State, step: Step)
    requires Sane(s) && Enabled(s, step)
    ensures Sane(Apply(s, step))
  {
    hide Sane, Enabled, Apply;
    if MovesPointers(step) {
      SaneMove(s, step);
    } else {
      SaneOther(s, step);
    }
  }

  /** While some process other than a mover holds the semaphore, or none does, the pointers are settled. */
  lemma SettledUnlessMoving(s: State)
    requires Sane(s)
    requires s.sem == FREE || !(s.procs[s.sem].pc.RMoved? || s.procs[s.sem].pc.WMoved?)
    ensures Ok(s.ring) && Settle(s.ring) == s.ring
  {
  }

  lemma FifoReadCopy(s: State, p: nat, fault: bool)
    requires Sane(s) && Fifo(s) && Enabled(s, ReadCopy(p, fault))
    ensures Sane(Apply(s, ReadCopy(p, fault))) && Fifo(Apply(s, ReadCopy(p, fault)))
  {
    SaneStep(s, ReadCopy(p, fault));
    SettledUnlessMoving(s);
    if !fault {
      ReadKeepsHistory(s.ring, s.procs[p].pc.count, s.returned, s.accepted);
    }
  }

  lemma FifoWriteCopy(s: State, p: nat, copyable: nat)
    requires Sane(s) && Fifo(s) && Enabled(s, WriteCopy(p, copyable))
    ensures Sane(Apply(s, WriteCopy(p, copyable))) && Fifo(Apply(s, WriteCopy(p, copyable)))
  {
    SaneStep(s, WriteCopy(p, copyable));
    SettledUnlessMoving(s);
    var data := s.procs[p].pc.data;
    SpaceFreeIsCapacityLeft(s.ring);
    if copyable < WriteCount(s.ring, |data|) {
      PartialWriteKeepsContents(s.ring, data, copyable);
    } else {
      WriteKeepsHistory(s.ring, data, s.returned, s.accepted);
    }
  }

  lemma FifoStep(s: State, step: Step)
    requires Sane(s) && Fifo(s) && Enabled(s, step)
    ensures Sane(Apply(s, step)) && Fifo(Apply(s, step))
  {
    SaneStep(s, step);
    match step
    case ReadCopy(p, fault) => FifoReadCopy(s, p, fault);
    case WriteCopy(p, copyable) => FifoWriteCopy(s, p, copyable);
    case WrapAndUp(_) => assert Settle(Settle(s.ring)) == Settle(s.ring);
    case _ =>
  }

  // An owed wake-up stays owed until its own process delivers it.

  lemma OwedInqStays(s: State, step: Step)
    requires Sane(s) && Enabled(s, step)
    requires SomeoneOwesInq(s) && !(step.Wake? && s.procs[step.p].pc.WOwes?)
    ensures SomeoneOwesInq(Apply(s, step))
  {
    var q :| 0 <= q < |s.procs| && s.procs[q].pc.OwesInq();
    assert Apply(s, step).procs[q].pc.OwesInq();
  }

  lemma OwedOutqStays(s: State, step: Step)
    requires Sane(s) && Enabled(s, step)
    requires SomeoneOwesOutq(s) && !(step.Wake? && s.procs[step.p].pc.ROwes?)
    ensures SomeoneOwesOutq(Apply(s, step))
  {
    var q :| 0 <= q < |s.procs| && s.procs[q].pc.OwesOutq();
    assert Apply(s, step).procs[q].pc.OwesOutq();
  }

  lemma ReadersSoundStep(s: State, step: Step)
    requires Sane(s) && ReadersSound(s) && Enabled(s, step)
    ensures ReadersSound(Apply(s, step))
  {
    var s' := Apply(s, step);
    if step.Wake? && s.procs[step.p].pc.WOwes? {
      // every queued reader has just been woken
    } else if SomeoneOwesInq(s) {
      OwedInqStays(s, step);
    } else if step.WriteCopy? && s'.procs[step.p].pc.WMoved? {
      assert s'.procs[step.p].pc.OwesInq();
    } else {
      SaneStep(s, step);
      forall q | 0 <= q < |s'.procs|
        ensures ReaderCheckSound(s'.procs[q], s')
      {
        assert ReaderCheckSound(s.procs[q], s);
      }
    }
  }

  /** An unlocked look that says full means full, wherever in its update the writer is. */
  lemma SeesFullMeansFull(size: nat, rp: nat, wp: nat)
    requires rp < size && wp <= size
    ensures SeesFull(size, rp, wp, false) ==> FreeBetween(size, rp, Wrap(wp, size)) == 0
  {
    ModOnce(rp + size - wp, size);
    ModOnce(rp + size - Wrap(wp, size), size);
  }

  lemma WriterCheckKept(q: Pc, woken: bool, s: State, s': State)
    requires Sane(s) && Sane(s') && WriterCheckSound(Proc(q, woken), s)
    requires s'.ring.rp == s.ring.rp && |s'.ring.buf| == |s.ring.buf|
    requires Full(s) ==> Full(s')
    ensures WriterCheckSound(Proc(q, woken), s')
  {
  }

  lemma WriterLookKept(s: State, step: Step, q: nat)
    requires Sane(s) && Enabled(s, step) && (step.Fetch? || step.Decide?) && q < |s.procs|
    requires !SomeoneOwesOutq(s)
    requires forall q :: 0 <= q < |s.procs| ==> WriterCheckSound(s.procs[q], s)
    ensures WriterCheckSound(Apply(s, step).procs[q], Apply(s, step))
  {
    assert WriterCheckSound(s.procs[q], s);
    if s.ring.rp == |s.ring.buf| {
      assert s.procs[s.sem].pc.OwesOutq();
    }
    SeesFullMeansFull(|s.ring.buf|, s.ring.rp, s.ring.wp);
    if s.procs[q].pc.WHalf? && !s.procs[q].pc.sawRp {
      SeesFullMeansFull(|s.ring.buf|, s.ring.rp, s.procs[q].pc.seen);
    }
  }

  /** No other step moves the read pointer, and a full pipe stays full. */
  lemma ReadPointerStays(s: State, step: Step)
    requires Sane(s) && Enabled(s, step) && !step.Open? && !step.Fetch? && !step.Decide? && !SomeoneOwesOutq(s)
    requires !(step.ReadCopy? && Apply(s, step).procs[step.p].pc.RMoved?)
    ensures Apply(s, step).ring.rp == s.ring.rp && (Full(s) ==> Full(Apply(s, step)))
    ensures |Apply(s, step).ring.buf| == |s.ring.buf| && |Apply(s, step).procs| == |s.procs|
  {
    assert !(step.WrapAndUp? && s.procs[step.p].pc.RMoved?) by {
      assert s.procs[step.p].pc.OwesOutq() ==> SomeoneOwesOutq(s);
    }
  }

  lemma WriterChecksKept(s: State, step: Step)
    requires Sane(s) && WritersSound(s) && Enabled(s, step) && !step.Open? && !step.Fetch? && !step.Decide?
    requires !SomeoneOwesOutq(s) && Sane(Apply(s, step))
    requires !(step.ReadCopy? && Apply(s, step).procs[step.p].pc.RMoved?)
    ensures WritersSound(Apply(s, step))
  {
    var s' := Apply(s, step);
    ReadPointerStays(s, step);
    forall q | 0 <= q < |s'.procs|
      ensures WriterCheckSound(s'.procs[q], s')
    {
      assert WriterCheckSound(s.procs[q], s);
      WriterCheckKept(s.procs[q].pc, s.procs[q].woken, s, s');
    }
  }

  /** Every queued writer has just been woken. */
  lemma AllWritersWoken(s: State, p: nat)
    requires Sane(s) && WritersSound(s) && Enabled(s, Wake(p)) && s.procs[p].pc.ROwes?
    ensures WritersSound(Apply(s, Wake(p)))
  {
  }

  lemma WritersSoundStep(s: State, step: Step)
    requires Sane(s) && WritersSound(s) && Enabled(s, step) && !step.Open?
    ensures Sane(Apply(s, step)) && WritersSound(Apply(s, step))
  {
    var s' := Apply(s, step);
    SaneStep(s, step);
    if step.Wake? && s.procs[step.p].pc.ROwes? {
      AllWritersWoken(s, step.p);
    } else if SomeoneOwesOutq(s) {
      OwedOutqStays(s, step);
    } else if step.ReadCopy? && s'.procs[step.p].pc.RMoved? {
      assert s'.procs[step.p].pc.OwesOutq();
    } else if step.Fetch? || step.Decide? {
      forall q | 0 <= q < |s'.procs|
        ensures WriterCheckSound(s'.procs[q], s')
      {
        WriterLookKept(s, step, q);
      }
    } else {
      WriterChecksKept(s, step);
    }
  }

  // ------------------------------------------------------------------------ main results

  lemma {:induction false} RunKeepsInv(s: State, steps: seq<Step>)
    requires Inv(s) && Possible(s, steps)
    ensures Inv(Final(s, steps))
    decreases |steps|
  {
    if steps != [] {
      FifoStep(s, steps[0]);
      ReadersSoundStep(s, steps[0]);
      RunKeepsInv(Apply(s, steps[0]), steps[1..]);
    }
  }

  /** An open keeps the writers sound exactly when it is quiet. */
  lemma OpenKeepsWritersExactlyWhen(s: State, p: nat)
    requires Sane(s) && WritersSound(s) && Enabled(s, Open(p))
    ensures WritersSound(Apply(s, Open(p))) <==> OpenIsQuiet(s)
  {
    var e := Apply(s, Open(p));
    if SomeoneOwesOutq(s) {
      OwedOutqStays(s, Open(p));
    } else {
      assert !SomeoneOwesOutq(e);
      forall q | 0 <= q < |s.procs|
        ensures WriterCheckSound(e.procs[q], e) <==> !Doomed(s.procs[q], |s.ring.buf|)
      {
        assert WriterCheckSound(s.procs[q], s);
      }
    }
  }

  /** Over a run, writers stay sound throughout exactly when every open is quiet. */
  lemma {:induction false} WritersSoundExactlyWhen(s: State, steps: seq<Step>)
    requires Sane(s) && WritersSound(s) && Possible(s, steps)
    ensures WritersAlwaysSound(s, steps) <==> QuietOpens(s, steps)
    decreases |steps|
  {
    if steps != [] {
      if steps[0].Open? {
        OpenKeepsWritersExactlyWhen(s, steps[0].p);
      } else {
        WritersSoundStep(s, steps[0]);
      }
      SaneStep(s, steps[0]);
      if WritersSound(Apply(s, steps[0])) {
        WritersSoundExactlyWhen(Apply(s, steps[0]), steps[1..]);
      }
    }
  }

  lemma {:induction false} SoundAtTheEnd(s: State, steps: seq<Step>)
    requires Possible(s, steps) && WritersAlwaysSound(s, steps)
    ensures WritersSound(Final(s, steps))
    decreases |steps|
  {
    if steps != [] {
      SoundAtTheEnd(Apply(s, steps[0]), steps[1..]);
    }
  }

  /**
    Whatever any number of processes do, opens included: the bytes returned since the last
    open, followed by the bytes buffered, are the bytes accepted since then, in order; and a
    reader asleep on a pipe that holds data is owed a wake-up.
    */
  lemma PipeIsFifoAndWakesReaders(s: State, size: nat, n: nat, steps: seq<Step>)
    requires Init(s, size, n) && Possible(s, steps)
    ensures Inv(Final(s, steps))
    ensures NoLostReader(Final(s, steps))
  {
    assert forall q :: 0 <= q < n ==> ReaderCheckSound(s.procs[q], s);
    RunKeepsInv(s, steps);
    var e := Final(s, steps);
    forall q | 0 <= q < |e.procs| && e.procs[q].pc.RAsleep? && !e.procs[q].woken && !Empty(e)
      ensures SomeoneOwesInq(e)
    {
      assert !ReaderCheckSound(e.procs[q], e);
    }
  }

  /**
    From a fresh pipe, writers are right about it or owed a wake-up all along exactly when every
    open is quiet; and then a writer asleep on a pipe with room is owed one.
    */
  lemma PipeWakesWriters(s: State, size: nat, n: nat, steps: seq<Step>)
    requires Init(s, size, n) && Possible(s, steps)
    ensures WritersAlwaysSound(s, steps) <==> QuietOpens(s, steps)
    ensures QuietOpens(s, steps) ==> NoLostWriter(Final(s, steps))
  {
    assert forall q :: 0 <= q < n ==> WriterCheckSound(s.procs[q], s);
    WritersSoundExactlyWhen(s, steps);
    if QuietOpens(s, steps) {
      SoundAtTheEnd(s, steps);
      SoundLosesNobody(Final(s, steps));
    }
  }

  lemma SoundLosesNobody(e: State)
    requires Sane(e) && WritersSound(e)
    ensures NoLostWriter(e)
  {
    forall q | 0 <= q < |e.procs| && e.procs[q].pc.WAsleep? && !e.procs[q].woken && !Full(e)
      ensures SomeoneOwesOutq(e)
    {
      assert !WriterCheckSound(e.procs[q], e);
    }
  }

  /**
    An open empties the pipe without waking anybody. Right after it a writer sleeps with room and
    no wake-up owed exactly when one slept before, unwoken, and none was owed then. Writers that
    have not yet decided to sleep are the matter of `OpenKeepsWritersExactlyWhen`.
    */
  lemma OpenLosesWriterExactlyWhen(s: State, p: nat)
    requires Sane(s) && Enabled(s, Open(p))
    ensures NoLostWriter(Apply(s, Open(p))) <==>
      || |s.ring.buf| == 1
      || SomeoneOwesOutq(s)
      || forall q :: 0 <= q < |s.procs| && s.procs[q].pc.WAsleep? ==> s.procs[q].woken
  {
    var e := Apply(s, Open(p));
    assert Full(e) <==> |s.ring.buf| == 1;
    if SomeoneOwesOutq(s) {
      OwedOutqStays(s, Open(p));
    } else {
      assert !SomeoneOwesOutq(e);
      if q :| 0 <= q < |s.procs| && s.procs[q].pc.WAsleep? && !s.procs[q].woken {
        assert e.procs[q] == s.procs[q];
      }
    }
  }

  predicate RunsTo(s: State, steps: seq<Step>, t: State) { Possible(s, steps) && Final(s, steps) == t }

  lemma {:induction false} Join(s: State, a: seq<Step>, t: State, b: seq<Step>, u: State)
    requires RunsTo(s, a, t) && RunsTo(t, b, u)
    ensures RunsTo(s, a + b, u)
    decreases |a|
  {
    hide Apply, Enabled;
    if a == [] {
      assert a + b == b;
    } else {
      assert (a + b)[0] == a[0] && (a + b)[1..] == a[1..] + b;
      Join(Apply(s, a[0]), a[1..], t, b, u);
    }
  }

  lemma OneStep(s: State, x: Step)
    requires Sane(s) && Enabled(s, x)
    ensures RunsTo(s, [x], Apply(s, x))
  {
    SaneStep(s, x);
    assert [x][1..] == [] && Possible(Apply(s, x), []);
  }

  lemma TwoSteps(s: State, x: Step, y: Step)
    requires Sane(s) && Enabled(s, x) && Sane(Apply(s, x)) && Enabled(Apply(s, x), y)
    ensures RunsTo(s, [x, y], Apply(Apply(s, x), y))
  {
    hide Apply, Enabled;
    OneStep(s, x);
    OneStep(Apply(s, x), y);
    Join(s, [x], Apply(s, x), [y], Apply(Apply(s, x), y));
    assert [x] + [y] == [x, y];
  }

  lemma ThreeSteps(s: State, x: Step, y: Step, z: Step)
    requires Sane(s) && Enabled(s, x) && Sane(Apply(s, x)) && Enabled(Apply(s, x), y)
    requires Sane(Apply(Apply(s, x), y)) && Enabled(Apply(Apply(s, x), y), z)
    ensures RunsTo(s, [x, y, z], Apply(Apply(Apply(s, x), y), z))
  {
    hide Apply, Enabled;
    OneStep(s, x);
    TwoSteps(Apply(s, x), y, z);
    Join(s, [x], Apply(s, x), [y, z], Apply(Apply(Apply(s, x), y), z));
    assert [x] + [y, z] == [x, y, z];
  }

  // A writer fills a two-byte pipe and is about to fall asleep writing again when another process opens it.

  /** Two processes on a two-byte pipe that holds one byte at offset zero. */
  predicate FullPair(s: State) {
    Sane(s) && |s.ring.buf| == 2 && s.ring.rp == 0 && s.ring.wp == 1 && |s.procs| == 2 && s.sem == FREE
  }

  function FillAndBlock(b: Byte): seq<Step> {
    ([StartWrite(0, [b], false), Down(0), WriteCopy(0, 1)] + [WrapAndUp(0), Wake(0)])
      + [StartWrite(0, [b], false), Down(0), Queue(0)]
  }

  lemma FillPair(s: State, b: Byte) returns (t: State)
    requires Init(s, 2, 2)
    ensures RunsTo(s, [StartWrite(0, [b], false), Down(0), WriteCopy(0, 1)] + [WrapAndUp(0), Wake(0)], t)
    ensures FullPair(t) && t.procs[0].pc.Idle? && t.procs[1].pc.Idle?
  {
    var s1 := Apply(s, StartWrite(0, [b], false));
    var s2 := Apply(s1, Down(0));
    var s3 := Apply(s2, WriteCopy(0, 1));
    var s4 := Apply(s3, WrapAndUp(0));
    t := Apply(s4, Wake(0));
    ThreeSteps(s, StartWrite(0, [b], false), Down(0), WriteCopy(0, 1));
    TwoSteps(s3, WrapAndUp(0), Wake(0));
    Join(s, [StartWrite(0, [b], false), Down(0), WriteCopy(0, 1)], s3, [WrapAndUp(0), Wake(0)], t);
  }

  lemma BlockPair(s: State, b: Byte) returns (t: State)
    requires FullPair(s) && s.procs[0].pc.Idle? && s.procs[1].pc.Idle?
    ensures RunsTo(s, [StartWrite(0, [b], false), Down(0), Queue(0)], t)
    ensures FullPair(t) && t.procs[0] == Proc(WQueued([b]), false) && t.procs[1].pc.Idle?
  {
    var s1 := Apply(s, StartWrite(0, [b], false));
    var s2 := Apply(s1, Down(0));
    assert Full(s2);
    t := Apply(s2, Queue(0));
    ThreeSteps(s, StartWrite(0, [b], false), Down(0), Queue(0));
  }

  lemma FillAndBlockPair(s: State, b: Byte) returns (t: State)
    requires Init(s, 2, 2)
    ensures RunsTo(s, FillAndBlock(b), t)
    ensures FullPair(t) && t.procs[0] == Proc(WQueued([b]), false) && t.procs[1].pc.Idle?
  {
    hide Apply, Enabled;
    var u := FillPair(s, b);
    t := BlockPair(u, b);
    Join(s, [StartWrite(0, [b], false), Down(0), WriteCopy(0, 1)] + [WrapAndUp(0), Wake(0)], u,
         [StartWrite(0, [b], false), Down(0), Queue(0)], t);
  }

  /** The open comes when the writer is asleep. */
  lemma OpenCanLoseAWriter(s: State, b: Byte)
    requires Init(s, 2, 2)
    ensures var run := FillAndBlock(b) + [Fetch(0, true), Decide(0, false), Open(1)];
      Possible(s, run) && !NoLostWriter(Final(s, run))
  {
    var t := FillAndBlockPair(s, b);
    var t1 := Apply(t, Fetch(0, true));
    var t2 := Apply(t1, Decide(0, false));
    var t3 := Apply(t2, Open(1));
    assert t3.procs[0] == Proc(WAsleep([b]), false) && !Full(t3) && !SomeoneOwesOutq(t3);
    ThreeSteps(t, Fetch(0, true), Decide(0, false), Open(1));
    Join(s, FillAndBlock(b), t, [Fetch(0, true), Decide(0, false), Open(1)], t3);
  }

  /** The open comes when the writer has fetched `wp` and not yet `rp`: it goes to sleep on an empty pipe. */
  lemma OpenCanMisleadAHalfLook(s: State, b: Byte)
    requires Init(s, 2, 2)
    ensures var run := FillAndBlock(b) + [Fetch(0, false), Open(1), Decide(0, false)];
      Possible(s, run) && !NoLostWriter(Final(s, run))
  {
    var t := FillAndBlockPair(s, b);
    var t1 := Apply(t, Fetch(0, false));
    var t2 := Apply(t1, Open(1));
    var t3 := Apply(t2, Decide(0, false));
    assert t3.procs[0] == Proc(WAsleep([b]), false) && !Full(t3) && !SomeoneOwesOutq(t3);
    ThreeSteps(t, Fetch(0, false), Open(1), Decide(0, false));
    Join(s, FillAndBlock(b), t, [Fetch(0, false), Open(1), Decide(0, false)], t3);
  }

  // Every open that is not quiet can lose a writer: the opener writes just enough for a stale pair to read as full.

  predicate NoOpens(steps: seq<Step>) { forall k :: 0 <= k < |steps| ==> !steps[k].Open? }

  function Misleading(p: nat, q: nat, data: seq<Byte>): seq<Step> {
    [StartWrite(p, data, false), Down(p), WriteCopy(p, |data|)] + [WrapAndUp(p), Wake(p), Decide(q, false)]
  }

  /** Process `q` has fetched a stale `rp` that is one above `n`; the pipe holds at most `n` bytes from offset zero. */
  predicate Stale(e: State, q: nat, n: nat) {
    && Sane(e) && !SomeoneOwesOutq(e) && q < |e.procs| && e.ring.rp == 0
    && e.procs[q].pc.WHalf? && !e.procs[q].woken && e.procs[q].pc.sawRp && e.procs[q].pc.seen == n + 1 < |e.ring.buf|
  }

  lemma NobodyOwes(t: State, u: State)
    requires !SomeoneOwesOutq(t) && |u.procs| == |t.procs|
    requires forall k :: 0 <= k < |u.procs| && u.procs[k].pc.OwesOutq() ==> t.procs[k].pc.OwesOutq()
    ensures !SomeoneOwesOutq(u)
  {
  }

  lemma WriterEnds(t: State, p: nat, q: nat, n: nat) returns (u: State)
    requires Stale(t, q, n) && t.ring.wp == n && p < |t.procs| && t.procs[p].pc.WMoved?
    ensures RunsTo(t, [WrapAndUp(p), Wake(p)], u)
    ensures Stale(u, q, n) && u.ring.wp == n && |u.ring.buf| == |t.ring.buf|
  {
    var t1 := Apply(t, WrapAndUp(p));
    u := Apply(t1, Wake(p));
    assert u.procs[q] == t.procs[q];
    NobodyOwes(t, u);
    TwoSteps(t, WrapAndUp(p), Wake(p));
  }

  lemma DecideIsMisled(t: State, q: nat, n: nat) returns (u: State)
    requires Stale(t, q, n) && t.ring.wp == n
    ensures RunsTo(t, [Decide(q, false)], u) && !NoLostWriter(u)
  {
    u := Apply(t, Decide(q, false));
    FreeBetweenValue(|t.ring.buf|, n + 1, n);
    FreeBetweenValue(|t.ring.buf|, 0, n);
    assert u.procs[q].pc.WAsleep? && !u.procs[q].woken && !Full(u);
    NobodyOwes(t, u);
    OneStep(t, Decide(q, false));
  }

  lemma StaleRpMisleads(e: State, p: nat, q: nat, data: seq<Byte>)
    requires Stale(e, q, |data|) && e.ring.wp == 0 && e.sem == FREE && p < |e.procs| && e.procs[p].pc.Idle?
    ensures Possible(e, Misleading(p, q, data)) && !NoLostWriter(Final(e, Misleading(p, q, data)))
  {
    var t1 := Apply(e, StartWrite(p, data, false));
    var t2 := Apply(t1, Down(p));
    assert WriteCount(t2.ring, |data|) == |data| && FreeBetween(|t2.ring.buf|, 0, 0) != 0;
    var t3 := Apply(t2, WriteCopy(p, |data|));
    assert t3.ring.wp == |data| && t3.procs[p].pc.WMoved? && t3.procs[q] == e.procs[q];
    NobodyOwes(e, t3);
    ThreeSteps(e, StartWrite(p, data, false), Down(p), WriteCopy(p, |data|));
    var t5 := WriterEnds(t3, p, q, |data|);
    var t6 := DecideIsMisled(t5, q, |data|);
    Join(t3, [WrapAndUp(p), Wake(p)], t5, [Decide(q, false)], t6);
    assert [WrapAndUp(p), Wake(p)] + [Decide(q, false)] == [WrapAndUp(p), Wake(p), Decide(q, false)];
    Join(e, [StartWrite(p, data, false), Down(p), WriteCopy(p, |data|)], t3,
      [WrapAndUp(p), Wake(p), Decide(q, false)], t6);
  }

  lemma StaleWpMisleads(e: State, q: nat)
    requires Sane(e) && e.sem == FREE && !SomeoneOwesOutq(e) && q < |e.procs| && e.ring.rp == 0 && e.ring.wp == 0 &&
      |e.ring.buf| > 1
    requires e.procs[q].pc.WHalf? && !e.procs[q].woken && !e.procs[q].pc.sawRp &&
      SeesFull(|e.ring.buf|, 0, e.procs[q].pc.seen, false)
    ensures Possible(e, [Decide(q, false)]) && !NoLostWriter(Final(e, [Decide(q, false)]))
  {
    var t := Apply(e, Decide(q, false));
    assert t.procs[q].pc.WAsleep? && !t.procs[q].woken && !Full(t);
    NobodyOwes(e, t);
    OneStep(e, Decide(q, false));
  }

  lemma NoisyOpenCanLose(s: State, p: nat) returns (steps: seq<Step>)
    requires Sane(s) && WritersSound(s) && Enabled(s, Open(p)) && !OpenIsQuiet(s)
    ensures NoOpens(steps) && Possible(Apply(s, Open(p)), steps) && !NoLostWriter(Final(Apply(s, Open(p)), steps))
  {
    var e, size := Apply(s, Open(p)), |s.ring.buf|;
    assert !SomeoneOwesOutq(e);
    var q :| 0 <= q < |s.procs| && Doomed(s.procs[q], size);
    assert WriterCheckSound(s.procs[q], s) && e.procs[q] == s.procs[q];
    match s.procs[q].pc {
      case WAsleep(_) =>
        steps := [];
      case WHalf(_, sawRp, seen) =>
        if sawRp {
          steps := Misleading(p, q, seq(seen - 1, i => 0));
          StaleRpMisleads(e, p, q, seq(seen - 1, i => 0));
        } else {
          steps := [Decide(q, false)];
          StaleWpMisleads(e, q);
        }
      case _ =>
    }
  }

  lemma {:induction false} WithoutOpensQuiet(s: State, steps: seq<Step>)
    requires Possible(s, steps) && NoOpens(steps)
    ensures QuietOpens(s, steps)
    decreases |steps|
  {
    if steps != [] {
      WithoutOpensQuiet(Apply(s, steps[0]), steps[1..]);
    }
  }

  /** An open is quiet exactly when no way of going on, before the next open, can lose a writer. */
  lemma OpenIsQuietExactlyWhen(s: State, p: nat)
    requires Sane(s) && WritersSound(s) && Enabled(s, Open(p))
    ensures OpenIsQuiet(s) <==>
      forall steps :: NoOpens(steps) && Possible(Apply(s, Open(p)), steps) ==>
        NoLostWriter(Final(Apply(s, Open(p)), steps))
  {
    var e := Apply(s, Open(p));
    SaneStep(s, Open(p));
    if OpenIsQuiet(s) {
      OpenKeepsWritersExactlyWhen(s, p);
      forall steps | NoOpens(steps) && Possible(e, steps)
        ensures NoLostWriter(Final(e, steps))
      {
        WithoutOpensQuiet(e, steps);
        WritersSoundExactlyWhen(e, steps);
        SoundAtTheEnd(e, steps);
        SoundLosesNobody(Final(e, steps));
      }
    } else {
      var steps := NoisyOpenCanLose(s, p);
    }
  }

  /** At rest, when nobody owes a wake-up, a reader and a writer are never both asleep. */
  lemma NoStandstill(s: State, r: nat, w: nat)
    requires Sane(s) && ReadersSound(s) && WritersSound(s) && |s.ring.buf| > 1
    requires !SomeoneOwesInq(s) && !SomeoneOwesOutq(s)
    requires r < |s.procs| && w < |s.procs| && !s.procs[r].woken && !s.procs[w].woken
    ensures !(s.procs[r].pc.RAsleep? && s.procs[w].pc.WAsleep?)
  {
    assert ReaderCheckSound(s.procs[r], s) && WriterCheckSound(s.procs[w], s);
  }

  // The semaphore is released exactly as often as it is taken.

  /**
    Process `p` executes `up`: the semaphore was its own and is free afterwards. An open takes and
    releases in one step.
    */
  predicate Ups(s: State, step: Step, p: nat)
    requires Sane(s) && Enabled(s, step)
  {
    s.sem == p && Apply(s, step).sem == FREE
  }

  /** Process `p` executes `down`: the semaphore was free and is its own afterwards. */
  predicate Downs(s: State, step: Step, p: nat)
    requires Sane(s) && Enabled(s, step)
  {
    s.sem == FREE && Apply(s, step).sem == p
  }

  function UpCount(s: State, steps: seq<Step>, p: nat): nat
    requires Possible(s, steps)
    decreases |steps|
  {
    if steps == [] then 0
    else (if Ups(s, steps[0], p) then 1 else 0) + UpCount(Apply(s, steps[0]), steps[1..], p)
  }

  function DownCount(s: State, steps: seq<Step>, p: nat): nat
    requires Possible(s, steps)
    decreases |steps|
  {
    if steps == [] then 0
    else (if Downs(s, steps[0], p) then 1 else 0) + DownCount(Apply(s, steps[0]), steps[1..], p)
  }

  /**
    The semaphore passes from a holder to nobody and from nobody to a process; a process takes it by
    `down` and by nothing else.
    */
  lemma SemaphoreStep(s: State, step: Step, p: nat)
    requires Sane(s) && Enabled(s, step)
    ensures var sem' := Apply(s, step).sem; sem' == s.sem || s.sem == FREE || sem' == FREE
    ensures Downs(s, step, p) <==> step == Down(p)
    ensures Ups(s, step, p) ==> step.p == p
  {
  }

  /**
    Over every run each process releases the semaphore as often as it takes it, once less if it
    ends up holding it; a process that is back where it began, outside the driver, has released it exactly as often.
    */
  lemma {:induction false} UpsMatchDowns(s: State, steps: seq<Step>, p: nat)
    requires Possible(s, steps)
    ensures DownCount(s, steps, p) + (if s.sem == p then 1 else 0)
         == UpCount(s, steps, p) + (if Final(s, steps).sem == p then 1 else 0)
    ensures p < |s.procs| && s.procs[p].pc.Idle? && p < |Final(s, steps).procs| && Final(s, steps).procs[p].pc.Idle? ==>
      DownCount(s, steps, p) == UpCount(s, steps, p)
    decreases |steps|
  {
    if steps != [] {
      SaneStep(s, steps[0]);
      SemaphoreStep(s, steps[0], p);
      UpsMatchDowns(Apply(s, steps[0]), steps[1..], p);
      assert DownCount(s, steps, p) + (if s.sem == p then 1 else 0)
         == UpCount(s, steps, p) + (if Final(s, steps).sem == p then 1 else 0);
    }
  }
}
