/**
  The printer's output queue under concurrency. The producer is whichever writer holds
  `shortp_out_sem`; it looks at the tail without the lock. The consumer is the single work
  item; it moves the tail and decides `shortp_output_active` under `shortp_out_lock`.
  One step is one access to shared memory or one critical section that nobody can look into.
  */
module ShortprintProtocol {
  import opened Bytes
  import opened ByteRing
  import opened ShortpRing

  /** Which evaluation of the space is under way: the plain one, the first of the wait, the queued one. */
  datatype Phase = First | Before | Queueing

  datatype Producer =
    | PIdle
    | PLook(data: seq<Byte>, phase: Phase)
    | PHalf(data: seq<Byte>, phase: Phase, t1: nat)
    | PPrepare(data: seq<Byte>)
    | PAsleep(data: seq<Byte>)
    | PCopy(data: seq<Byte>, n: nat)
    | PCopied(data: seq<Byte>, n: nat)
    | PAdvanced(data: seq<Byte>)
  {
    /** On `shortp_out_queue`, so that a wake-up reaches it. */
    predicate OnQueue() { PAsleep? || (PLook? && phase == Queueing) || (PHalf? && phase == Queueing) }
  }

  /** `CSawEmpty` and `CChecking` hold the lock. */
  datatype Consumer = CIdle | CReady | CSawEmpty | CChecking

  /** `ring.rp` is the tail and `ring.wp` the head. */
  datatype State = State(
    ring: Ring,
    active: bool,
    pending: bool,
    cons: Consumer,
    prod: Producer,
    woken: bool,
    accepted: seq<Byte>,
    strobed: seq<Byte>)

  datatype Step =
    | Begin(data: seq<Byte>)
    | LookFirst
    | LookSecond
    | Prepare
    | Rewait
    | Signal
    | CopyIn(copyable: nat)
    | MoveHead
    | LockSection
    | Interrupt
    | TakeWork
    | LockAndWrite
    | ClearActive
    | WakeCheck
  {
    predicate ByConsumer() { TakeWork? || LockAndWrite? || ClearActive? || WakeCheck? }
  }

  function Page(s: State): nat { |s.ring.buf| }

  predicate Enabled(s: State, step: Step) {
    match step
    case Begin(_) => s.prod.PIdle?
    case LookFirst => s.prod.PLook?
    case LookSecond => s.prod.PHalf?
    case Prepare => s.prod.PPrepare?
    case Rewait => s.prod.PAsleep? && s.woken
    case Signal => s.prod.PAsleep?
    case CopyIn(_) => s.prod.PCopy?
    case MoveHead => s.prod.PCopied?
    case LockSection => s.prod.PAdvanced? && (s.cons.CIdle? || s.cons.CReady?)
    case Interrupt => s.active
    case TakeWork => s.cons.CIdle? && s.pending
    case LockAndWrite => s.cons.CReady?
    case ClearActive => s.cons.CSawEmpty?
    case WakeCheck => s.cons.CChecking?
  }

  /** What the producer is about to store must fit; the rest of the sanity is about bounds. */
  predicate Sane(s: State) {
    && Page(s) >= 4 && Ok(s.ring)
    && (s.prod.PCopy? ==> 0 < s.prod.n <= |s.prod.data| && Fits(Page(s), s.ring.wp, s.ring.rp, s.prod.n))
    && (s.prod.PCopied? ==>
      && 0 < s.prod.n <= |s.prod.data|
      && Fits(Page(s), s.ring.wp, s.ring.rp, s.prod.n)
      && s.ring.buf[s.ring.wp..s.ring.wp + s.prod.n] == s.prod.data[..s.prod.n])
    && (s.prod.PHalf? ==>
      && s.prod.t1 < Page(s)
      && Queued(Page(s), s.ring.wp, s.ring.rp) <= Queued(Page(s), s.ring.wp, s.prod.t1))
    && (s.prod.PLook? || s.prod.PHalf? || s.prod.PPrepare? || s.prod.PAsleep? ==> s.prod.data != [])
  }

  /** Back to the head of the loop, or out of it when everything has been written. */
  function LoopHead(data: seq<Byte>): Producer {
    if data == [] then PIdle else PLook(data, First)
  }

  /** The second look completes one evaluation of the space. */
  function AfterLook(s: State): Producer
    requires s.prod.PHalf?
  {
    var space := OutSpace(Page(s), s.ring.wp, s.prod.t1, s.ring.rp);
    if space > 0 then PCopy(s.prod.data, Min(space, |s.prod.data|))
    else match s.prod.phase
      case First => PLook(s.prod.data, Before)
      case Before => PPrepare(s.prod.data)
      case Queueing => PAsleep(s.prod.data)
  }

  function Apply(s: State, step: Step): State
    requires Sane(s) && Enabled(s, step)
  {
    match step
    case Begin(data) => s.(prod := LoopHead(data))
    case LookFirst => s.(prod := PHalf(s.prod.data, s.prod.phase, s.ring.rp))
    case LookSecond => s.(prod := AfterLook(s))
    case Prepare => s.(prod := PLook(s.prod.data, Queueing), woken := false)
    case Rewait => s.(prod := PLook(s.prod.data, Queueing), woken := false)
    case Signal => s.(prod := PIdle)
    case CopyIn(copyable) =>
      if copyable < s.prod.n then
        s.(ring := s.ring.(buf := Splice(s.ring.buf, s.ring.wp, s.prod.data[..copyable])), prod := PIdle)
      else
        s.(ring := s.ring.(buf := Splice(s.ring.buf, s.ring.wp, s.prod.data[..s.prod.n])),
           prod := PCopied(s.prod.data, s.prod.n))
    case MoveHead =>
      s.(ring := s.ring.(wp := IncrOutBp(Page(s), s.ring.wp, s.prod.n)),
         accepted := s.accepted + s.prod.data[..s.prod.n],
         prod := PAdvanced(s.prod.data[s.prod.n..]))
    case LockSection => s.(active := true, pending := s.pending || !s.active, prod := LoopHead(s.prod.data))
    case Interrupt => s.(pending := true)
    case TakeWork => s.(pending := false, cons := CReady)
    case LockAndWrite =>
      if s.ring.rp == s.ring.wp then s.(cons := CSawEmpty)
      else s.(strobed := s.strobed + [s.ring.buf[s.ring.rp]],
              ring := s.ring.(rp := IncrOutBp(Page(s), s.ring.rp, 1)),
              cons := CChecking)
    case ClearActive => s.(active := false, cons := CChecking)
    case WakeCheck =>
      s.(cons := CIdle, woken := s.woken || (WakesWriters(Page(s), s.ring.wp, s.ring.rp) && s.prod.OnQueue()))
  }

  // ---------------------------------------------------------------- what every run keeps

  /** Bytes strobed out, followed by bytes queued, are the bytes accepted. */
  predicate Fifo(s: State)
    requires Sane(s)
  {
    s.strobed + Contents(s.ring) == s.accepted
  }

  /** A queue with data has active output, or a producer on its way to start it. */
  predicate OutputDriven(s: State) {
    && (s.ring.rp != s.ring.wp ==> s.active || s.prod.PAdvanced?)
    && (s.cons.CSawEmpty? && s.ring.rp != s.ring.wp ==> s.prod.PAdvanced?)
  }

  predicate Inv(s: State) {
    Sane(s) && Fifo(s) && OutputDriven(s)
  }

  lemma CopyInStep(s: State, copyable: nat)
    requires Sane(s) && Fifo(s) && Enabled(s, CopyIn(copyable))
    ensures Sane(Apply(s, CopyIn(copyable))) && Fifo(Apply(s, CopyIn(copyable)))
  {
    var k := Min(copyable, s.prod.n);
    var bytes := s.prod.data[..k];
    CopyKeepsQueue(s.ring, bytes);
    assert Apply(s, CopyIn(copyable)).ring == s.ring.(buf := Splice(s.ring.buf, s.ring.wp, bytes));
  }

  lemma MoveHeadStep(s: State)
    requires Sane(s) && Fifo(s) && Enabled(s, MoveHead)
    ensures Sane(Apply(s, MoveHead)) && Fifo(Apply(s, MoveHead))
  {
    var bytes := s.prod.data[..s.prod.n];
    FillAppends(s.ring, bytes);
    assert s.strobed + (Contents(s.ring) + bytes) == (s.strobed + Contents(s.ring)) + bytes;
  }

  lemma StrobeKeepsHistory(r: Ring, strobed: seq<Byte>, accepted: seq<Byte>)
    requires Ok(r) && r.rp != r.wp && strobed + Contents(r) == accepted
    ensures Ok(r.(rp := IncrOutBp(|r.buf|, r.rp, 1)))
    ensures strobed + [r.buf[r.rp]] + Contents(r.(rp := IncrOutBp(|r.buf|, r.rp, 1))) == accepted
  {
    StrobeRemovesOldest(r);
  }

  lemma LockAndWriteSane(s: State)
    requires Sane(s) && Enabled(s, LockAndWrite)
    ensures Sane(Apply(s, LockAndWrite))
  {
    StrobeShrinksQueue(Page(s), s.ring.wp, s.ring.rp);
  }

  lemma SaneStep(s: State, step: Step)
    requires Sane(s) && Fifo(s) && Enabled(s, step)
    ensures Sane(Apply(s, step))
  {
    hide Sane, Fifo, Apply, Enabled;
    match step
    case LookSecond => LookSecondSane(s);
    case CopyIn(copyable) => CopyInStep(s, copyable);
    case MoveHead => MoveHeadStep(s);
    case LockAndWrite => LockAndWriteSane(s);
    case _ => OtherSane(s, step);
  }

  lemma LookSecondSane(s: State)
    requires Sane(s) && Enabled(s, LookSecond)
    ensures Sane(Apply(s, LookSecond))
  {
    SpaceIsNeverOverstated(Page(s), s.ring.wp, s.prod.t1, s.ring.rp, s.ring.rp);
  }

  lemma OtherSane(s: State, step: Step)
    requires Sane(s) && Enabled(s, step)
    requires !step.LookSecond? && !step.CopyIn? && !step.MoveHead? && !step.LockAndWrite?
    ensures Sane(Apply(s, step))
  {
  }

  lemma FifoStep(s: State, step: Step)
    requires Sane(s) && Fifo(s) && Enabled(s, step)
    ensures Sane(Apply(s, step)) && Fifo(Apply(s, step))
  {
    SaneStep(s, step);
    match step
    case CopyIn(copyable) => CopyInStep(s, copyable);
    case MoveHead => MoveHeadStep(s);
    case LockAndWrite =>
      if s.ring.rp != s.ring.wp {
        StrobeKeepsHistory(s.ring, s.strobed, s.accepted);
      }
    case _ =>
  }

  lemma OutputDrivenStep(s: State, step: Step)
    requires Sane(s) && OutputDriven(s) && Enabled(s, step)
    ensures OutputDriven(Apply(s, step))
  {
  }

  lemma InvStep(s: State, step: Step)
    requires Inv(s) && Enabled(s, step)
    ensures Inv(Apply(s, step))
  {
    FifoStep(s, step);
    OutputDrivenStep(s, step);
  }

  // ------------------------------------------------------------------------------- runs

  predicate Init(s: State, page: nat) {
    && page >= 4 && |s.ring.buf| == page && s.ring.rp == 0 && s.ring.wp == 0
    && !s.active && !s.pending && s.cons == CIdle && s.prod == PIdle
    && s.accepted == [] && s.strobed == []
  }

  predicate Runs(s: State, steps: seq<Step>)
    decreases |steps|
  {
    Inv(s) && (steps == [] || (Enabled(s, steps[0]) && Runs(Apply(s, steps[0]), steps[1..])))
  }

  function Final(s: State, steps: seq<Step>): (e: State)
    requires Runs(s, steps)
    ensures Inv(e)
    decreases |steps|
  {
    if steps == [] then s else Final(Apply(s, steps[0]), steps[1..])
  }

  /** Every step is enabled when its turn comes, with no other condition. */
  predicate Possible(s: State, steps: seq<Step>)
    decreases |steps|
  {
    steps == [] || (Enabled(s, steps[0]) && (Sane(s) ==> Possible(Apply(s, steps[0]), steps[1..])))
  }

  /**
    Every possible run from the initial state keeps the queue's promises: no byte is lost,
    duplicated or reordered, no store overruns the free space (`Sane`), and while bytes are
    queued output is active or about to be started.
    */
  lemma {:induction false} PossibleRunsKeepInv(s: State, steps: seq<Step>)
    requires Inv(s) && Possible(s, steps)
    ensures Runs(s, steps) && Inv(Final(s, steps))
    decreases |steps|
  {
    if steps != [] {
      InvStep(s, steps[0]);
      PossibleRunsKeepInv(Apply(s, steps[0]), steps[1..]);
    }
  }

  lemma QueueKeepsItsPromises(s: State, page: nat, steps: seq<Step>)
    requires Init(s, page) && Possible(s, steps)
    ensures Runs(s, steps)
    ensures var e := Final(s, steps);
      && e.strobed + Contents(e.ring) == e.accepted
      && (Contents(e.ring) != [] ==> e.active || e.prod.PAdvanced?)
      && (e.prod.PCopy? ==> Fits(Page(e), e.ring.wp, e.ring.rp, e.prod.n))
  {
    PossibleRunsKeepInv(s, steps);
    QueuedIsLength(Final(s, steps).ring);
  }

  // --------------------------------------------------------- when a sleeping writer wakes

  predicate Sleeping(s: State) { s.prod.PAsleep? && !s.woken }

  function Backlog(s: State): nat
    requires Ok(s.ring)
  {
    Queued(Page(s), s.ring.wp, s.ring.rp)
  }

  /** Some wake-up test that will succeed still lies ahead. */
  predicate WakeIsDue(s: State)
    requires Ok(s.ring)
  {
    Backlog(s) >= 2 || (Backlog(s) == 1 && s.cons.CChecking?)
  }

  /** The second look came after the tail had wrapped, and at most the last byte was still queued. */
  predicate TornAtTheEnd(s: State)
    requires s.prod.PHalf?
  {
    && s.prod.t1 > s.ring.wp && s.ring.rp <= s.ring.wp
    && (s.ring.wp == s.ring.rp || (s.ring.wp == s.ring.rp + 1 && !s.cons.CChecking?))
  }

  /** A writer that decides to sleep is due a wake-up exactly when its two looks were not torn in this way. */
  lemma SleepIsDueExactlyWhen(s: State)
    requires Inv(s) && s.prod.PHalf? && AfterLook(s).PAsleep?
    ensures WakeIsDue(Apply(s, LookSecond)) <==> !TornAtTheEnd(s)
  {
  }

  /** A sleeper with no wake-up due stays asleep whatever happens, short of a signal. */
  lemma NotDueStays(s: State, step: Step)
    requires Inv(s) && Sleeping(s) && !WakeIsDue(s) && Enabled(s, step) && !step.Signal?
    ensures Inv(Apply(s, step)) && Sleeping(Apply(s, step)) && !WakeIsDue(Apply(s, step))
  {
    InvStep(s, step);
    StrobeShrinksQueue(Page(s), s.ring.wp, s.ring.rp);
    WakesWritersMeans(Page(s), s.ring.wp, s.ring.rp);
  }

  /** Consumer steps left, at most, before a due wake-up is delivered. */
  function Distance(s: State): nat
    requires Ok(s.ring)
  {
    4 * Backlog(s) + match s.cons { case CIdle => 2 case CReady => 1 case CSawEmpty => 0 case CChecking => 3 }
  }

  lemma DueStays(s: State, step: Step)
    requires Inv(s) && Sleeping(s) && WakeIsDue(s) && Enabled(s, step) && !step.Signal?
    ensures Inv(Apply(s, step)) && Apply(s, step).prod == s.prod
    ensures !Apply(s, step).woken ==> WakeIsDue(Apply(s, step))
    ensures Distance(Apply(s, step)) + (if step.ByConsumer() then 1 else 0) <= Distance(s)
  {
    InvStep(s, step);
    StrobeShrinksQueue(Page(s), s.ring.wp, s.ring.rp);
    WakesWritersMeans(Page(s), s.ring.wp, s.ring.rp);
  }

  predicate NoSignal(steps: seq<Step>) { forall k :: 0 <= k < |steps| ==> !steps[k].Signal? }

  function ConsumerSteps(steps: seq<Step>): nat {
    if steps == [] then 0 else (if steps[0].ByConsumer() then 1 else 0) + ConsumerSteps(steps[1..])
  }

  /** Somewhere along the run the sleeper is marked runnable. */
  predicate GetsWoken(s: State, steps: seq<Step>)
    requires Runs(s, steps)
    decreases |steps|
  {
    s.woken || (steps != [] && GetsWoken(Apply(s, steps[0]), steps[1..]))
  }

  /** If a wake-up is due, output is active, and every run that gives the consumer enough steps delivers it. */
  lemma {:induction false} DueIsDelivered(s: State, steps: seq<Step>)
    requires Runs(s, steps) && NoSignal(steps) && Sleeping(s) && WakeIsDue(s)
    requires ConsumerSteps(steps) > Distance(s)
    ensures s.active && GetsWoken(s, steps)
    decreases |steps|
  {
    DueStays(s, steps[0]);
    var s' := Apply(s, steps[0]);
    if !s'.woken {
      DueIsDelivered(s', steps[1..]);
    }
  }

  /** If none is due, no run without a signal ever wakes the sleeper. */
  lemma {:induction false} NotDueIsNeverWoken(s: State, steps: seq<Step>)
    requires Runs(s, steps) && NoSignal(steps) && Sleeping(s) && !WakeIsDue(s)
    ensures !GetsWoken(s, steps) && Sleeping(Final(s, steps))
    decreases |steps|
  {
    if steps != [] {
      NotDueStays(s, steps[0]);
      NotDueIsNeverWoken(Apply(s, steps[0]), steps[1..]);
    }
  }

  // ------------------------------------------------------- the sleep that never ends is real

  ghost predicate Reaches(s: State, t: State) {
    exists steps :: Runs(s, steps) && Final(s, steps) == t
  }

  lemma {:induction false} RunsConcat(s: State, a: seq<Step>, b: seq<Step>)
    requires Runs(s, a) && Runs(Final(s, a), b)
    ensures Runs(s, a + b) && Final(s, a + b) == Final(Final(s, a), b)
    decreases |a|
  {
    hide Apply, Enabled;
    if a == [] {
      assert a + b == b;
    } else {
      assert (a + b)[0] == a[0] && (a + b)[1..] == a[1..] + b;
      RunsConcat(Apply(s, a[0]), a[1..], b);
    }
  }

  lemma ReachesTrans(s: State, t: State, u: State)
    requires Reaches(s, t) && Reaches(t, u)
    ensures Reaches(s, u)
  {
    var a :| Runs(s, a) && Final(s, a) == t;
    var b :| Runs(t, b) && Final(t, b) == u;
    RunsConcat(s, a, b);
  }

  /** Take one more step. */
  lemma Go(s: State, t: State, step: Step) returns (u: State)
    requires Inv(s) && Inv(t) && Reaches(s, t) && Enabled(t, step)
    ensures u == Apply(t, step) && Inv(u) && Reaches(s, u)
  {
    InvStep(t, step);
    u := Apply(t, step);
    assert Runs(u, []);
    assert [step][1..] == [];
    assert Runs(t, [step]) && Final(t, [step]) == u;
    ReachesTrans(s, t, u);
  }

  lemma Stay(s: State)
    requires Inv(s)
    ensures Reaches(s, s)
  {
    assert Runs(s, []) && Final(s, []) == s;
  }

  /** The pointers and who is where; contents do not matter here. */
  predicate At(s: State, page: nat, tail: nat, head: nat, cons: Consumer) {
    Inv(s) && Page(s) == page && s.ring.rp == tail && s.ring.wp == head && s.cons == cons
  }

  /** One byte is queued. */
  lemma OneByteIn(s: State, page: nat, b: Byte) returns (t: State)
    requires Init(s, page)
    ensures Inv(s) && Reaches(s, t) && At(t, page, 0, 1, CIdle) && t.prod.PIdle? && t.active && t.pending
  {
    Stay(s);
    t := Go(s, s, Begin([b]));
    t := Go(s, t, LookFirst);
    t := Go(s, t, LookSecond);
    assert t.prod == PCopy([b], 1);
    t := Go(s, t, CopyIn(1));
    t := Go(s, t, MoveHead);
    t := Go(s, t, LockSection);
  }

  /** The printer takes one byte while nobody is queued for space. */
  lemma OneByteOut(s: State, page: nat, tail: nat, head: nat) returns (t: State)
    requires At(s, page, tail, head, CIdle) && tail != head && s.active && !s.prod.OnQueue()
    ensures Reaches(s, t) && At(t, page, IncrOutBp(page, tail, 1), head, CIdle) && t.active && t.prod == s.prod
  {
    Stay(s);
    t := Go(s, s, Interrupt);
    t := Go(s, t, TakeWork);
    t := Go(s, t, LockAndWrite);
    t := Go(s, t, WakeCheck);
  }

  /** A page-long write fills the queue and, refused twice, is about to queue itself. */
  lemma FillPage(s: State, page: nat, data: seq<Byte>) returns (t: State)
    requires At(s, page, 1, 1, CIdle) && s.prod.PIdle? && s.active && |data| == page
    ensures Reaches(s, t) && At(t, page, 1, 0, CIdle) && t.active && t.prod.PPrepare?
  {
    Stay(s);
    t := Go(s, s, Begin(data));
    t := Go(s, t, LookFirst);
    t := Go(s, t, LookSecond);
    assert t.prod == PCopy(data, page - 1);
    t := Go(s, t, CopyIn(page - 1));
    t := Go(s, t, MoveHead);
    t := Go(s, t, LockSection);
    assert t.prod == PLook(data[page - 1..], First);
    t := Go(s, t, LookFirst);
    t := Go(s, t, LookSecond);
    t := Go(s, t, LookFirst);
    t := Go(s, t, LookSecond);
  }

  /** Meanwhile the printer takes all but the last byte. */
  lemma {:induction false} DrainToLast(s: State, page: nat, tail: nat) returns (t: State)
    requires At(s, page, tail, 0, CIdle) && s.active && s.prod.PPrepare? && 1 <= tail < page
    ensures Reaches(s, t) && At(t, page, page - 1, 0, CIdle) && t.active && t.prod.PPrepare?
    decreases page - tail
  {
    Stay(s);
    if tail == page - 1 {
      t := s;
    } else {
      t := OneByteOut(s, page, tail, 0);
      var u := DrainToLast(t, page, tail + 1);
      ReachesTrans(s, t, u);
      t := u;
    }
  }

  /** The writer queues itself and looks; the last byte goes out between its two looks. */
  lemma TornSleep(s: State, page: nat) returns (t: State)
    requires page > 0 && At(s, page, page - 1, 0, CIdle) && s.active && s.prod.PPrepare?
    ensures Reaches(s, t) && At(t, page, 0, 0, CIdle) && Sleeping(t) && !t.active && !t.pending
  {
    Stay(s);
    t := Go(s, s, Prepare);
    t := Go(s, t, LookFirst);
    t := Go(s, t, Interrupt);
    t := Go(s, t, TakeWork);
    t := Go(s, t, LockAndWrite);
    WakesWritersMeans(page, 0, 0);
    t := Go(s, t, WakeCheck);
    t := Go(s, t, LookSecond);
    assert Sleeping(t);
    t := Go(s, t, Interrupt);
    t := Go(s, t, TakeWork);
    t := Go(s, t, LockAndWrite);
    t := Go(s, t, ClearActive);
    t := Go(s, t, WakeCheck);
  }

  /**
    For every page size a run exists that leaves a writer asleep on an empty queue, holding the
    semaphore, with output stopped and no work queued: nothing but a signal can happen any more.
    */
  lemma WriterCanSleepForever(s: State, page: nat, data: seq<Byte>) returns (t: State)
    requires Init(s, page) && |data| == page
    ensures Inv(s) && Reaches(s, t)
    ensures Inv(t) && Sleeping(t) && Backlog(t) == 0
    ensures forall step :: Enabled(t, step) ==> step.Signal?
  {
    hide Reaches, Fifo;
    var a0 := OneByteIn(s, page, data[0]);
    var a := OneByteOut(a0, page, 0, 1);
    ReachesTrans(s, a0, a);
    var b := FillPage(a, page, data);
    var c := DrainToLast(b, page, 1);
    t := TornSleep(c, page);
    ReachesTrans(s, a, b);
    ReachesTrans(s, b, c);
    ReachesTrans(s, c, t);
  }
}
