/**
  Two snull interfaces wired back to back. Each has one transmit context (the kernel serialises
  calls of `hard_start_xmit`) and one poll context; the four run concurrently. A step is one
  locked section or one unlocked access. The status word is changed without the lock, so that
  setting a bit is a load and a store; a handler loads it and stores zero, and does its work in
  the section between. Interrupt handlers run inside the transmit context that raises them. The
  poll's unlocked look at its queue is taken together with what it leads to: a queue that was
  seen non-empty is still non-empty when a packet is taken, since only the poll takes packets.
  */
module SnullProtocol {
  import opened Options

  /** A packet remembers the interface whose pool it came from: false is sn0, true is sn1. */
  datatype Pkt = Pkt(dev: bool, id: nat)

  /** The status word. */
  datatype Word = Word(rx: bool, tx: bool)

  const CLEAR := Word(false, false)

  /** What a transmit does after an interrupt handler it ran has released a packet. */
  datatype After = ThenComplete | ThenIdle

  /** How far a wake test has come: the flag, the link, and then the waking. */
  datatype Stage = Test | SawStopped | Waking

  /** `TServe` and `TServeSelf` run a handler on the twin or on the sender itself, and hold that interface's lock. */
  datatype Tx =
    | TIdle
    | TGet
    | TGot(p: Pkt)
    | TQueued
    | TSetRx
    | THalfRx(saw: Word)
    | TRaised
    | TServe(saw: Word)
    | TRelease(p: Pkt, after: After)
    | TWakeTest(p: Pkt, after: After, stage: Stage)
    | TComplete
    | THalfTx(saw: Word)
    | TRaisedSelf
    | TServeSelf(saw: Word)

  datatype Poll =
    | PIdle
    | PLoop(left: nat)
    | PRelease(p: Pkt, left: nat)
    | PWakeTest(p: Pkt, left: nat, stage: Stage)
    | PLoopDone
    | PSawEmpty
    | PCompleted

  /** The transmit pool and whether the transmit queue is stopped. */
  datatype Pool = Pool(free: seq<Pkt>, stopped: bool)

  /** The status word, the receive-interrupt switch, and whether a poll is scheduled. */
  datatype Irq = Irq(word: Word, intEnabled: bool, scheduled: bool)

  /** `sent` counts buffers handed to the twin; the others are the driver's statistics. */
  datatype Stats = Stats(sent: nat, txPackets: nat, rxPackets: nat, rxDropped: nat)

  datatype Dev = Dev(pool: Pool, rxq: seq<Pkt>, irq: Irq, stats: Stats, tx: Tx, poll: Poll)

  /** `next` is the link field of every packet, wherever the packet is. */
  datatype State = State(napi: bool, poolSize: nat, sn0: Dev, sn1: Dev, next: map<Pkt, Option<Pkt>>)

  function Head(list: seq<Pkt>): Option<Pkt> { if list == [] then None else Some(list[0]) }

  datatype Step =
    | StartTx(d: bool)
    | GetBuffer(d: bool)
    | Enqueue(d: bool)
    | TestInts(d: bool)
    | LoadRx(d: bool)
    | StoreRx(d: bool)
    | FetchTwin(d: bool)
    | InterruptTwin(d: bool, alloc: bool)
    | LoadTx(d: bool)
    | StoreTx(d: bool)
    | FetchSelf(d: bool)
    | InterruptSelf(d: bool, alloc: bool)
    | TxRelease(d: bool)
    | TxWake(d: bool)
    | StartPoll(d: bool, quota: nat)
    | PollOne(d: bool, alloc: bool)
    | PollEnd(d: bool)
    | PollVerdict(d: bool)
    | PollRelease(d: bool)
    | PollWake(d: bool)
    | RxComplete(d: bool)
    | EnableInts(d: bool)

  predicate Enabled(s: State, step: Step) {
    EnabledFor(See(s, step.d).me, step) && LockFree(See(s, step.d), step.d, step)
  }

  predicate EnabledFor(x: Dev, step: Step) {
    match step
    case StartTx(_) => x.tx.TIdle? && !x.pool.stopped
    // popping an empty pool would follow a null pointer
    case GetBuffer(_) => x.tx.TGet? && x.pool.free != []
    case Enqueue(_) => x.tx.TGot?
    case TestInts(_) => x.tx.TQueued?
    case LoadRx(_) => x.tx.TSetRx?
    case StoreRx(_) => x.tx.THalfRx?
    case FetchTwin(_) => x.tx.TRaised?
    case InterruptTwin(_, _) => x.tx.TServe?
    case LoadTx(_) => x.tx.TComplete?
    case StoreTx(_) => x.tx.THalfTx?
    case FetchSelf(_) => x.tx.TRaisedSelf?
    case InterruptSelf(_, _) => x.tx.TServeSelf?
    case TxRelease(_) => x.tx.TRelease?
    case TxWake(_) => x.tx.TWakeTest?
    case StartPoll(_, _) => x.poll.PIdle? && x.irq.scheduled
    case PollOne(_, _) => x.poll.PLoop? && x.poll.left > 0 && x.rxq != []
    case PollEnd(_) => x.poll.PLoop? && (x.poll.left == 0 || x.rxq == [])
    case PollVerdict(_) => x.poll.PLoopDone?
    case PollRelease(_) => x.poll.PRelease?
    case PollWake(_) => x.poll.PWakeTest?
    case RxComplete(_) => x.poll.PSawEmpty?
    case EnableInts(_) => x.poll.PCompleted?
  }

  /** A handler on `x` is under way, run by `x` itself or by its twin `y`. */
  predicate Locked(x: Dev, y: Dev) { x.tx.TServeSelf? || y.tx.TServe? }

  /** The lock that the step takes is free. */
  predicate LockFree(v: View, d: bool, step: Step) {
    match step
    case GetBuffer(_) => !Locked(v.me, v.twin)
    case FetchSelf(_) => !Locked(v.me, v.twin)
    case PollOne(_, _) => !Locked(v.me, v.twin)
    case Enqueue(_) => !Locked(v.twin, v.me)
    case FetchTwin(_) => !Locked(v.twin, v.me)
    case TxRelease(_) => v.me.tx.TRelease? && OwnerFree(v, d, v.me.tx.p)
    case PollRelease(_) => v.me.poll.PRelease? && OwnerFree(v, d, v.me.poll.p)
    case _ => true
  }

  predicate OwnerFree(v: View, d: bool, p: Pkt) {
    if p.dev == d then !Locked(v.me, v.twin) else !Locked(v.twin, v.me)
  }

  /** A handler on `x` that fetched `saw`: the word is cleared, and what was seen is acted on. */
  function Interrupted(napi: bool, x: Dev, saw: Word, alloc: bool): Dev {
    var irq := x.irq.(word := CLEAR);
    var y := x.(irq := if saw.rx && napi then irq.(intEnabled := false, scheduled := true) else irq,
                stats := x.stats.(txPackets := x.stats.txPackets + Plus(saw.tx)));
    if saw.rx && !napi && x.rxq != [] then y.(rxq := x.rxq[1..], stats := Received(y.stats, alloc)) else y
  }

  /** One packet less in the queue: delivered upwards, or dropped for want of a buffer. */
  function Received(t: Stats, alloc: bool): Stats {
    if alloc then t.(rxPackets := t.rxPackets + 1) else t.(rxDropped := t.rxDropped + 1)
  }

  function Plus(b: bool): nat { if b then 1 else 0 }

  /** The packet a regular interrupt takes off the receive queue and must release, if any. */
  function Taken(napi: bool, x: Dev, saw: Word): Option<Pkt> {
    if saw.rx && !napi then Head(x.rxq) else None
  }

  function AfterInterrupt(taken: Option<Pkt>, after: After): Tx {
    match taken
    case Some(p) => TRelease(p, after)
    case None => Resume(after)
  }

  function Resume(after: After): Tx { if after == ThenComplete then TComplete else TIdle }

  /** The acting interface, its twin, and the link fields. */
  datatype View = View(me: Dev, twin: Dev, next: map<Pkt, Option<Pkt>>)

  function See(s: State, d: bool): View {
    if d then View(s.sn1, s.sn0, s.next) else View(s.sn0, s.sn1, s.next)
  }

  function OwnPool(v: View, d: bool, p: Pkt): Pool { if p.dev == d then v.me.pool else v.twin.pool }

  function SetPool(v: View, d: bool, p: Pkt, pool: Pool): View {
    if p.dev == d then v.(me := v.me.(pool := pool)) else v.(twin := v.twin.(pool := pool))
  }

  /** Push a packet back on its owner's pool; the link is written under the lock. */
  function Released(v: View, d: bool, p: Pkt): View {
    var o := OwnPool(v, d, p);
    SetPool(v, d, p, o.(free := [p] + o.free)).(next := v.next[p := Head(o.free)])
  }

  /** The link of `p` is null, as the wake test reads it after the lock has been dropped. */
  predicate Linkless(v: View, p: Pkt) { p in v.next && v.next[p] == None }

  /** The next stage of a wake test of `p`, or none when it is over. */
  function WakeStage(v: View, d: bool, p: Pkt, stage: Stage): Option<Stage> {
    match stage
    case Test => if OwnPool(v, d, p).stopped then Some(SawStopped) else None
    case SawStopped => if Linkless(v, p) then Some(Waking) else None
    case Waking => None
  }

  /** What the stage does to the queue of the packet's owner. */
  function WakeTested(v: View, d: bool, p: Pkt, stage: Stage): View {
    if stage.Waking? then SetPool(v, d, p, OwnPool(v, d, p).(stopped := false)) else v
  }

  function SetTx(v: View, tx: Tx): View { v.(me := v.me.(tx := tx)) }

  function SetPoll(v: View, poll: Poll): View { v.(me := v.me.(poll := poll)) }

  // The steps of interface `me`, one function each.

  function DoGetBuffer(v: View): View
    requires v.me.pool.free != []
  {
    var free := v.me.pool.free;
    v.(me := v.me.(pool := Pool(free[1..], v.me.pool.stopped || free[1..] == []), tx := TGot(free[0])))
  }

  function DoEnqueue(v: View): View
    requires v.me.tx.TGot?
  {
    var p := v.me.tx.p;
    View(v.me.(tx := TQueued, stats := v.me.stats.(sent := v.me.stats.sent + 1)),
         v.twin.(rxq := [p] + v.twin.rxq),
         v.next[p := Head(v.twin.rxq)])
  }

  function DoTestInts(v: View): View { SetTx(v, if v.twin.irq.intEnabled then TSetRx else TComplete) }

  function DoLoadRx(v: View): View { SetTx(v, THalfRx(v.twin.irq.word)) }

  function DoStoreRx(v: View): View
    requires v.me.tx.THalfRx?
  {
    SetTx(v.(twin := v.twin.(irq := v.twin.irq.(word := Word(true, v.me.tx.saw.tx)))), TRaised)
  }

  function DoInterruptTwin(napi: bool, v: View, alloc: bool): View
    requires v.me.tx.TServe?
  {
    var saw := v.me.tx.saw;
    SetTx(v.(twin := Interrupted(napi, v.twin, saw, alloc)), AfterInterrupt(Taken(napi, v.twin, saw), ThenComplete))
  }

  function DoStoreTx(v: View): View
    requires v.me.tx.THalfTx?
  {
    SetTx(v.(me := v.me.(irq := v.me.irq.(word := Word(v.me.tx.saw.rx, true)))), TRaisedSelf)
  }

  function DoInterruptSelf(napi: bool, v: View, alloc: bool): View
    requires v.me.tx.TServeSelf?
  {
    var saw := v.me.tx.saw;
    SetTx(v.(me := Interrupted(napi, v.me, saw, alloc)), AfterInterrupt(Taken(napi, v.me, saw), ThenIdle))
  }

  function DoTxRelease(v: View, d: bool): View
    requires v.me.tx.TRelease?
  {
    SetTx(Released(v, d, v.me.tx.p), TWakeTest(v.me.tx.p, v.me.tx.after, Test))
  }

  function DoTxWake(v: View, d: bool): View
    requires v.me.tx.TWakeTest?
  {
    var p, after, stage := v.me.tx.p, v.me.tx.after, v.me.tx.stage;
    SetTx(WakeTested(v, d, p, stage),
          match WakeStage(v, d, p, stage) { case Some(more) => TWakeTest(p, after, more) case None => Resume(after) })
  }

  function DoPollOne(v: View, alloc: bool): View
    requires v.me.poll.PLoop? && v.me.poll.left > 0 && v.me.rxq != []
  {
    v.(me := v.me.(rxq := v.me.rxq[1..],
                   stats := Received(v.me.stats, alloc),
                   poll := PRelease(v.me.rxq[0], v.me.poll.left - Plus(alloc))))
  }

  function DoRxComplete(v: View): View {
    SetPoll(v.(me := v.me.(irq := v.me.irq.(scheduled := false))), PCompleted)
  }

  function DoEnableInts(v: View): View {
    SetPoll(v.(me := v.me.(irq := v.me.irq.(intEnabled := true))), PIdle)
  }

  function DoPollRelease(v: View, d: bool): View
    requires v.me.poll.PRelease?
  {
    SetPoll(Released(v, d, v.me.poll.p), PWakeTest(v.me.poll.p, v.me.poll.left, Test))
  }

  function DoPollWake(v: View, d: bool): View
    requires v.me.poll.PWakeTest?
  {
    var p, left, stage := v.me.poll.p, v.me.poll.left, v.me.poll.stage;
    SetPoll(WakeTested(v, d, p, stage),
            match WakeStage(v, d, p, stage) { case Some(more) => PWakeTest(p, left, more) case None => PLoop(left) })
  }

  /** One step of interface `d`. */
  function Act(napi: bool, d: bool, v: View, step: Step): View
    requires EnabledFor(v.me, step)
  {
    match step
    case StartTx(_) => SetTx(v, TGet)
    case GetBuffer(_) => DoGetBuffer(v)
    case Enqueue(_) => DoEnqueue(v)
    case TestInts(_) => DoTestInts(v)
    case LoadRx(_) => DoLoadRx(v)
    case StoreRx(_) => DoStoreRx(v)
    case FetchTwin(_) => SetTx(v, TServe(v.twin.irq.word))
    case InterruptTwin(_, alloc) => DoInterruptTwin(napi, v, alloc)
    case LoadTx(_) => SetTx(v, THalfTx(v.me.irq.word))
    case StoreTx(_) => DoStoreTx(v)
    case FetchSelf(_) => SetTx(v, TServeSelf(v.me.irq.word))
    case InterruptSelf(_, alloc) => DoInterruptSelf(napi, v, alloc)
    case TxRelease(_) => DoTxRelease(v, d)
    case TxWake(_) => DoTxWake(v, d)
    case StartPoll(_, quota) => SetPoll(v, PLoop(quota))
    case PollOne(_, alloc) => DoPollOne(v, alloc)
    case PollEnd(_) => SetPoll(v, PLoopDone)
    case PollVerdict(_) => SetPoll(v, if v.me.rxq == [] then PSawEmpty else PIdle)
    case PollRelease(_) => DoPollRelease(v, d)
    case PollWake(_) => DoPollWake(v, d)
    case RxComplete(_) => DoRxComplete(v)
    case EnableInts(_) => DoEnableInts(v)
  }

  function Apply(s: State, step: Step): State
    requires Enabled(s, step)
  {
    var v := Act(s.napi, step.d, See(s, step.d), step);
    if step.d then s.(sn1 := v.me, sn0 := v.twin, next := v.next) else s.(sn0 := v.me, sn1 := v.twin, next := v.next)
  }

  /** The transmit context of `x`, interface `d`, has a step to take, locks permitting. */
  ghost predicate TxMoves(x: Dev, d: bool) { exists step: Step :: step.d == d && !ByPoll(step) && EnabledFor(x, step) }

  ghost predicate PollMoves(x: Dev, d: bool) { exists step: Step :: step.d == d && ByPoll(step) && EnabledFor(x, step) }

  // ------------------------------------------------------------------ kinds of steps, and what they leave alone

  predicate WritesWord(step: Step) { step.StoreRx? || step.StoreTx? || step.InterruptTwin? || step.InterruptSelf? }

  predicate ByPoll(step: Step) {
    step.StartPoll? || step.PollOne? || step.PollEnd? || step.PollVerdict? || step.PollRelease? || step.PollWake?
    || step.RxComplete? || step.EnableInts?
  }

  predicate MovesNothing(step: Step) {
    step.StartTx? || step.TestInts? || step.LoadRx? || step.StoreRx? || step.FetchTwin? || step.LoadTx? || step.StoreTx?
    || step.FetchSelf? || step.StartPoll? || step.PollEnd? || step.PollVerdict? || step.RxComplete? || step.EnableInts?
  }

  /** A transmit begins exactly while the queue runs, and stops halfway only for want of a buffer. */
  lemma TransmitsGoOn(x: Dev, d: bool)
    ensures TxMoves(x, d) <==> if x.tx.TIdle? then !x.pool.stopped else x.tx.TGet? ==> x.pool.free != []
  {
    var tx := match x.tx
      case TIdle => StartTx(d) case TGet => GetBuffer(d) case TGot(_) => Enqueue(d) case TQueued => TestInts(d)
      case TSetRx => LoadRx(d) case THalfRx(_) => StoreRx(d) case TRaised => FetchTwin(d)
      case TServe(_) => InterruptTwin(d, true) case TRelease(_, _) => TxRelease(d) case TWakeTest(_, _, _) => TxWake(d)
      case TComplete => LoadTx(d) case THalfTx(_) => StoreTx(d) case TRaisedSelf => FetchSelf(d)
      case TServeSelf(_) => InterruptSelf(d, true);
    assert tx.d == d && !ByPoll(tx) && (EnabledFor(x, tx) ==> TxMoves(x, d));
  }

  /** A poll begins exactly when one is scheduled, and stops nowhere. */
  lemma PollsGoOn(x: Dev, d: bool)
    ensures PollMoves(x, d) <==> (x.poll.PIdle? ==> x.irq.scheduled)
  {
    var poll := match x.poll
      case PIdle => StartPoll(d, 0)
      case PLoop(left) => if left == 0 || x.rxq == [] then PollEnd(d) else PollOne(d, true)
      case PRelease(_, _) => PollRelease(d) case PWakeTest(_, _, _) => PollWake(d) case PLoopDone => PollVerdict(d)
      case PSawEmpty => RxComplete(d) case PCompleted => EnableInts(d);
    assert poll.d == d && ByPoll(poll) && (EnabledFor(x, poll) ==> PollMoves(x, d));
  }

  /** What a handler does to the word and the statistics; nothing else of this matters to the transmit side. */
  lemma InterruptEffect(napi: bool, x: Dev, saw: Word, alloc: bool)
    ensures var y := Interrupted(napi, x, saw, alloc);
      && y.irq.word == CLEAR && y.stats.sent == x.stats.sent && y.stats.txPackets == x.stats.txPackets + Plus(saw.tx)
      && y.tx == x.tx && y.poll == x.poll && y.pool == x.pool
  {
  }

  /** Two interfaces that differ in their pools at most. */
  predicate SameButPool(x: Dev, y: Dev) { x == y.(pool := x.pool) }

  lemma ReleaseKeepsRest(v: View, d: bool, p: Pkt)
    ensures SameButPool(Released(v, d, p).me, v.me) && SameButPool(Released(v, d, p).twin, v.twin)
  {
  }

  lemma WakeKeepsRest(v: View, d: bool, p: Pkt, stage: Stage)
    ensures SameButPool(WakeTested(v, d, p, stage).me, v.me) && SameButPool(WakeTested(v, d, p, stage).twin, v.twin)
    ensures WakeTested(v, d, p, stage).next == v.next
  {
  }
}
