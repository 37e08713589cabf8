/** Runs of the two snull interfaces: what holds at the end of each, and in which. */
module SnullRuns {
  import opened SnullProtocol
  import opened SnullCounts
  import opened SnullEmptyPools
  import opened SnullWakeups

  // ------------------------------------------------------------- NAPI: packets left behind

  /**
    Which interface takes which part here: `tx` sends, `rx` receives. A queued packet has a poll
    to come, or a receive bit that stands or is to be raised and a handler to come that acts on it.
    */
  predicate Attended(tx: Dev, rx: Dev) {
    && (rx.rxq != [] ==> rx.irq.scheduled || rx.poll.PCompleted? || Unraised(tx.tx) || rx.irq.word.rx)
    && (rx.irq.word.rx ==> rx.irq.intEnabled && (tx.tx.TRaised? || tx.tx.TServe?))
    && (tx.tx.TSetRx? || tx.tx.THalfRx? ==> rx.irq.intEnabled)
    && (rx.irq.intEnabled <==> !rx.irq.scheduled && !rx.poll.PCompleted?)
    && (!rx.poll.PIdle? ==> !rx.irq.intEnabled)
    && (rx.poll.PCompleted? ==> !rx.irq.scheduled)
  }

  predicate BothAttended(v: View) { Attended(v.me, v.twin) && Attended(v.twin, v.me) }

  /** Re-enabling interrupts leaves packets behind that arrived since the poll saw none and whose sender has looked. */
  predicate Strands(v: View, step: Step) {
    step.EnableInts? && v.me.rxq != [] && !v.twin.tx.TQueued?
  }

  /** `tx` has raised the receive bit of `rx`, and its handler there is still to come and will act on it. */
  predicate Expected(tx: Dev, rx: Dev) { rx.irq.intEnabled && (tx.tx.TRaised? || tx.tx.TServe?) }

  /**
    The step stores or acts on a receive bit that is not what the word now holds. Losing a bit
    matters if a packet waits. Bringing one back matters if no handler is expected that would see
    it; and acting on one that is gone, if it schedules a poll beside an end of another or turns
    off the interrupts that the sender has found on.
    */
  predicate Misattends(v: View, step: Step) {
    DisturbsRx(v, step) &&
    match step
    case StoreTx(_) => if v.me.irq.word.rx then v.me.rxq != [] else !Expected(v.twin, v.me)
    case InterruptTwin(_, _) => if v.twin.irq.word.rx then v.twin.rxq != [] else v.twin.poll.PCompleted?
    case InterruptSelf(_, _) =>
      if v.me.irq.word.rx then v.me.rxq != []
      else v.me.poll.PCompleted? || v.twin.tx.TSetRx? || v.twin.tx.THalfRx?
    case _ => false
  }

  lemma AttendedWord(d: bool, v: View, step: Step)
    requires BothAttended(v) && EnabledFor(v.me, step) && WritesWord(step)
    ensures BothAttended(Act(true, d, v, step)) <==> !Misattends(v, step)
  {
  }

  lemma AttendedPoll(d: bool, v: View, step: Step)
    requires BothAttended(v) && EnabledFor(v.me, step) && ByPoll(step)
    ensures BothAttended(Act(true, d, v, step)) <==> !Strands(v, step)
  {
    hide Released, SetPool, WakeTested, WakeStage;
    if step.PollRelease? {
      ReleaseKeepsRest(v, d, v.me.poll.p);
    } else if step.PollWake? {
      WakeKeepsRest(v, d, v.me.poll.p, v.me.poll.stage);
    }
  }

  lemma AttendedTx(d: bool, v: View, step: Step)
    requires BothAttended(v) && EnabledFor(v.me, step) && !WritesWord(step) && !ByPoll(step)
    ensures BothAttended(Act(true, d, v, step))
  {
    hide Released, SetPool, WakeTested, WakeStage;
    if step.TxRelease? {
      ReleaseKeepsRest(v, d, v.me.tx.p);
    } else if step.TxWake? {
      WakeKeepsRest(v, d, v.me.tx.p, v.me.tx.stage);
    }
  }

  /**
    Under NAPI queued packets stay attended to exactly across the steps that strand none and
    misattend to none.
    */
  lemma AttendedStepExactlyWhen(d: bool, v: View, step: Step)
    requires BothAttended(v) && EnabledFor(v.me, step)
    ensures BothAttended(Act(true, d, v, step)) <==> !Strands(v, step) && !Misattends(v, step)
  {
    hide BothAttended, Act;
    if WritesWord(step) {
      AttendedWord(d, v, step);
    } else if ByPoll(step) {
      AttendedPoll(d, v, step);
    } else {
      AttendedTx(d, v, step);
    }
  }

  /** Of the last step of a poll this is exact. */
  lemma EnableIntsStrandsExactlyWhen(v: View)
    requires BothAttended(v) && v.me.poll.PCompleted?
    ensures BothAttended(DoEnableInts(v)) <==> v.me.rxq == [] || v.twin.tx.TQueued?
  {
  }

  // ------------------------------------------------------------------------------- runs

  /** What holds in every run, seen from interface `d`. */
  ghost predicate InvFor(napi: bool, d: bool, v: View, n: nat) {
    && Counts(napi, v) && BothOwned(v, d) && Unique(v)
    && Total(v, OfOwner(d)) == n && Total(v, OfOwner(!d)) == n
  }

  ghost predicate Inv(s: State) { InvFor(s.napi, false, See(s, false), s.poolSize) }

  lemma InvFromEitherSide(s: State, d: bool)
    ensures Inv(s) <==> InvFor(s.napi, d, See(s, d), s.poolSize)
  {
    var v, w := See(s, false), See(s, true);
    assert forall q: Weight :: Total(v, q) == Total(w, q);
  }

  lemma InvStep(s: State, step: Step)
    requires Inv(s) && Enabled(s, step)
    ensures Inv(Apply(s, step))
  {
    hide Counts, BothOwned, Total, Act, InvFor;
    var d := step.d;
    var v := See(s, d);
    InvFromEitherSide(s, d);
    InvForStep(s.napi, d, v, s.poolSize, step);
    InvFromEitherSide(Apply(s, step), d);
  }

  lemma InvForStep(napi: bool, d: bool, v: View, n: nat, step: Step)
    requires InvFor(napi, d, v, n) && EnabledFor(v.me, step)
    ensures InvFor(napi, d, Act(napi, d, v, step), n)
  {
    hide Counts, BothOwned, Total, Act;
    CountsStep(napi, d, v, step);
    OwnedStep(napi, d, v, step);
    forall w: Weight
      ensures Total(Act(napi, d, v, step), w) == Total(v, w)
    {
      TotalStep(napi, d, v, step, w);
    }
  }

  /** `snull_setup_pool` pushes packets one by one. */
  function FreshPool(d: bool, n: nat): seq<Pkt> {
    if n == 0 then [] else [Pkt(d, n - 1)] + FreshPool(d, n - 1)
  }

  function FreshDev(d: bool, n: nat): Dev {
    Dev(Pool(FreshPool(d, n), false), [], Irq(CLEAR, true, false), Stats(0, 0, 0, 0), TIdle, PIdle)
  }

  predicate Init(s: State) {
    s.poolSize > 0 && s.sn0 == FreshDev(false, s.poolSize) && s.sn1 == FreshDev(true, s.poolSize)
  }

  lemma {:induction false} FreshPoolSums(d: bool, n: nat, p: Pkt)
    ensures AllOf(FreshPool(d, n), d)
    ensures Sum(FreshPool(d, n), OfOwner(d)) == n && Sum(FreshPool(d, n), OfOwner(!d)) == 0
    ensures Sum(FreshPool(d, n), Of(p)) == Plus(p.dev == d && p.id < n)
  {
    if n > 0 {
      FreshPoolSums(d, n - 1, p);
    }
  }

  lemma InitInv(s: State)
    requires Init(s)
    ensures Inv(s) && SafeIn(s)
  {
    var v := See(s, false);
    forall p: Pkt
      ensures Total(v, Of(p)) <= 1
    {
      FreshPoolSums(false, s.poolSize, p);
      FreshPoolSums(true, s.poolSize, p);
    }
    FreshPoolSums(false, s.poolSize, Pkt(false, 0));
    FreshPoolSums(true, s.poolSize, Pkt(false, 0));
    NothingDue(v, v.me.pool);
    NothingDue(v, v.twin.pool);
  }

  lemma InitFair(s: State)
    requires Init(s)
    ensures TxCountedIn(s) && PromptIn(s) && AttendedIn(s)
  {
  }

  predicate Possible(s: State, steps: seq<Step>)
    decreases |steps|
  {
    steps == [] || (Enabled(s, steps[0]) && Possible(Apply(s, steps[0]), steps[1..]))
  }

  function Final(s: State, steps: seq<Step>): State
    requires Possible(s, steps)
    decreases |steps|
  {
    if steps == [] then s else Final(Apply(s, steps[0]), steps[1..])
  }

  lemma {:induction false} RunKeepsInv(s: State, steps: seq<Step>)
    requires Inv(s) && Possible(s, steps)
    ensures Inv(Final(s, steps)) && Final(s, steps).poolSize == s.poolSize
    decreases |steps|
  {
    hide Inv;
    if steps != [] {
      InvStep(s, steps[0]);
      RunKeepsInv(Apply(s, steps[0]), steps[1..]);
    }
  }

  /** The property holds at every point of the run. */
  ghost predicate Throughout(s: State, steps: seq<Step>, good: State -> bool)
    requires Possible(s, steps)
    decreases |steps|
  {
    good(s) && (steps != [] ==> Throughout(Apply(s, steps[0]), steps[1..], good))
  }

  /** No step of the run is of this kind. */
  ghost predicate Never(s: State, steps: seq<Step>, bad: (State, Step) -> bool)
    requires Possible(s, steps)
    decreases |steps|
  {
    steps != [] ==> !bad(s, steps[0]) && Never(Apply(s, steps[0]), steps[1..], bad)
  }

  /** A property that single steps lose exactly when they are bad holds throughout a run exactly when none is. */
  lemma {:induction false} ThroughoutExactlyWhen(s: State, steps: seq<Step>, good: State -> bool,
      bad: (State, Step) -> bool)
    requires Possible(s, steps) && good(s)
    requires forall t, x :: good(t) && Enabled(t, x) ==> (good(Apply(t, x)) <==> !bad(t, x))
    ensures Throughout(s, steps, good) <==> Never(s, steps, bad)
    ensures Never(s, steps, bad) ==> good(Final(s, steps))
    decreases |steps|
  {
    if steps != [] && good(Apply(s, steps[0])) {
      ThroughoutExactlyWhen(Apply(s, steps[0]), steps[1..], good, bad);
    }
  }

  /** No step is bad in a run through states in which none can be. */
  lemma {:induction false} NeverAmong(s: State, steps: seq<Step>, good: State -> bool, bad: (State, Step) -> bool)
    requires Possible(s, steps) && good(s)
    requires forall t, x :: good(t) && Enabled(t, x) ==> good(Apply(t, x)) && !bad(t, x)
    ensures Never(s, steps, bad)
    decreases |steps|
  {
    if steps != [] {
      NeverAmong(Apply(s, steps[0]), steps[1..], good, bad);
    }
  }

  /**
    Empty pools have their queues stopped, transmits under way find a buffer, and stopped queues
    over free buffers are due to be woken.
    */
  ghost predicate SafeIn(s: State) { Inv(s) && BothSafe(See(s, false)) && BothDue(See(s, false)) }

  predicate EmptyPoolWoken(s: State, step: Step) { WakesEmptyPool(See(s, step.d), step.d, step) }

  lemma SafeInStep(s: State, step: Step)
    requires SafeIn(s) && Enabled(s, step)
    ensures SafeIn(Apply(s, step)) <==> !EmptyPoolWoken(s, step)
  {
    hide Inv, BothSafe, BothDue, Act, LockFree, WakesEmptyPool;
    var d := step.d;
    InvStep(s, step);
    InvFromEitherSide(s, d);
    DueFromEitherSide(s, d);
    SafeExactlyWhen(s.napi, d, See(s, d), step);
    DueStep(s.napi, d, See(s, d), step);
    DueFromEitherSide(Apply(s, step), d);
  }

  lemma DueFromEitherSide(s: State, d: bool)
    ensures BothSafe(See(s, false)) <==> BothSafe(See(s, d))
    ensures BothDue(See(s, false)) <==> BothDue(See(s, d))
  {
    var v, w := See(s, false), See(s, true);
    assert forall p :: WakePending(v, p) <==> WakePending(w, p);
  }

  /**
    Over every run, queues stop and restart as they should all along exactly when no wake test wakes
    the queue of an empty pool.
    */
  lemma QueuesAreSafeExactlyWhen(s: State, steps: seq<Step>)
    requires Init(s) && Possible(s, steps)
    ensures Throughout(s, steps, SafeIn) <==> Never(s, steps, EmptyPoolWoken)
    ensures Never(s, steps, EmptyPoolWoken) ==> SafeIn(Final(s, steps))
  {
    InitInv(s);
    hide SafeIn, EmptyPoolWoken;
    forall t, x | SafeIn(t) && Enabled(t, x)
      ensures SafeIn(Apply(t, x)) <==> !EmptyPoolWoken(t, x)
    {
      SafeInStep(t, x);
    }
    ThroughoutExactlyWhen(s, steps, SafeIn, EmptyPoolWoken);
  }

  /** Without NAPI, or with one buffer per pool. */
  ghost predicate SecureIn(s: State) {
    && Inv(s) && (!s.napi || s.poolSize == 1)
    && if s.napi then BothSingle(See(s, false), false) else BothSecure(See(s, false), false)
  }

  lemma SecureInStep(s: State, step: Step)
    requires SecureIn(s) && Enabled(s, step)
    ensures SecureIn(Apply(s, step)) && !EmptyPoolWoken(s, step)
  {
    hide BothSingle, BothSecure, Counts, BothOwned, Unique, Total, Act, LockFree, WakesEmptyPool;
    var d := step.d;
    InvStep(s, step);
    InvFromEitherSide(s, d);
    SecureFromEitherSide(s, d);
    if s.napi {
      SingleStep(s.napi, d, See(s, d), step);
    } else {
      SecureStep(d, See(s, d), step);
    }
    SecureFromEitherSide(Apply(s, step), d);
  }

  lemma SecureFromEitherSide(s: State, d: bool)
    ensures BothSingle(See(s, false), false) <==> BothSingle(See(s, d), d)
    ensures BothSecure(See(s, false), false) <==> BothSecure(See(s, d), d)
  {
  }

  /** Without NAPI, or with one buffer per pool, no run wakes the queue of an empty pool. */
  lemma NoEmptyPoolIsWoken(s: State, steps: seq<Step>)
    requires Init(s) && Possible(s, steps) && (!s.napi || s.poolSize == 1)
    ensures Never(s, steps, EmptyPoolWoken)
  {
    InitInv(s);
    assert SecureIn(s);
    hide SecureIn, EmptyPoolWoken;
    forall t, x | SecureIn(t) && Enabled(t, x)
      ensures SecureIn(Apply(t, x)) && !EmptyPoolWoken(t, x)
    {
      SecureInStep(t, x);
    }
    NeverAmong(s, steps, SecureIn, EmptyPoolWoken);
  }

  predicate TxCountedIn(s: State) { BothTxCounted(See(s, false)) }

  predicate TxDisturbed(s: State, step: Step) { DisturbsTx(See(s, step.d), step) }

  /**
    Over every run, the statistics of transmitted packets are right all along exactly when no
    transmit bit is lost or brought back.
    */
  lemma TransmitsAreCountedExactlyWhen(s: State, steps: seq<Step>)
    requires Init(s) && Possible(s, steps)
    ensures Throughout(s, steps, TxCountedIn) <==> Never(s, steps, TxDisturbed)
    ensures Never(s, steps, TxDisturbed) ==> TxCountedIn(Final(s, steps))
  {
    InitFair(s);
    forall t, x | TxCountedIn(t) && Enabled(t, x)
      ensures TxCountedIn(Apply(t, x)) <==> !TxDisturbed(t, x)
    {
      hide Act, DisturbsTx, TxCounted;
      TxCountedStepExactlyWhen(t.napi, x.d, See(t, x.d), x);
    }
    hide TxCountedIn, TxDisturbed;
    ThroughoutExactlyWhen(s, steps, TxCountedIn, TxDisturbed);
  }

  predicate PromptIn(s: State) { s.napi || BothPrompt(See(s, false), [], []) }

  predicate ReceiveMisled(s: State, step: Step) { !s.napi && MisleadsReceive(See(s, step.d), step) }

  /** Without NAPI: these packets lie at sn0 and sn1 unreceived, and every other is received promptly. */
  predicate LeftLying(s: State, at0: seq<Pkt>, at1: seq<Pkt>) { !s.napi && BothPrompt(See(s, false), at0, at1) }

  /** They stay all along, the last of their queues, exactly in the runs in which no receive is misled. */
  lemma LeftPacketsStayExactlyWhen(s: State, at0: seq<Pkt>, at1: seq<Pkt>, steps: seq<Step>)
    requires LeftLying(s, at0, at1) && Possible(s, steps)
    ensures Throughout(s, steps, (t: State) => LeftLying(t, at0, at1)) <==> Never(s, steps, ReceiveMisled)
    ensures Never(s, steps, ReceiveMisled) ==> LeftLying(Final(s, steps), at0, at1)
  {
    var lying := (t: State) => LeftLying(t, at0, at1);
    forall t, x | lying(t) && Enabled(t, x)
      ensures lying(Apply(t, x)) <==> !ReceiveMisled(t, x)
    {
      hide Act, MisleadsReceive, Prompt;
      PromptStepExactlyWhen(x.d, See(t, x.d), x, if x.d then at1 else at0, if x.d then at0 else at1);
    }
    hide LeftLying, ReceiveMisled;
    ThroughoutExactlyWhen(s, steps, lying, ReceiveMisled);
  }

  /**
    Over every run without NAPI, packets are received promptly all along exactly when no handler
    misses or imagines one.
    */
  lemma PacketsAreReceivedExactlyWhen(s: State, steps: seq<Step>)
    requires Init(s) && Possible(s, steps)
    ensures Throughout(s, steps, PromptIn) <==> Never(s, steps, ReceiveMisled)
    ensures Never(s, steps, ReceiveMisled) ==> PromptIn(Final(s, steps))
  {
    InitFair(s);
    forall t, x | PromptIn(t) && Enabled(t, x)
      ensures PromptIn(Apply(t, x)) <==> !ReceiveMisled(t, x)
    {
      if !t.napi {
        hide Act, MisleadsReceive, Prompt;
        PromptStepExactlyWhen(x.d, See(t, x.d), x, [], []);
      }
    }
    hide PromptIn, ReceiveMisled;
    ThroughoutExactlyWhen(s, steps, PromptIn, ReceiveMisled);
  }

  predicate AttendedIn(s: State) { s.napi ==> BothAttended(See(s, false)) }

  predicate LeftBehind(s: State, step: Step) {
    s.napi && (Strands(See(s, step.d), step) || Misattends(See(s, step.d), step))
  }

  /** Over every run under NAPI, packets are attended to all along exactly when no step leaves one behind. */
  lemma PacketsAreAttendedExactlyWhen(s: State, steps: seq<Step>)
    requires Init(s) && Possible(s, steps)
    ensures Throughout(s, steps, AttendedIn) <==> Never(s, steps, LeftBehind)
    ensures Never(s, steps, LeftBehind) ==> AttendedIn(Final(s, steps))
  {
    InitFair(s);
    forall t, x | AttendedIn(t) && Enabled(t, x)
      ensures AttendedIn(Apply(t, x)) <==> !LeftBehind(t, x)
    {
      if t.napi {
        hide Act, Strands, Misattends, Attended;
        AttendedStepExactlyWhen(x.d, See(t, x.d), x);
      }
    }
    hide AttendedIn, LeftBehind;
    ThroughoutExactlyWhen(s, steps, AttendedIn, LeftBehind);
  }

  lemma {:induction false} OwnersCounted(list: seq<Pkt>, d: bool)
    requires AllOf(list, d)
    ensures Sum(list, OfOwner(d)) == |list| && Sum(list, OfOwner(!d)) == 0
  {
    if list != [] {
      OwnersCounted(list[1..], d);
    }
  }

  /** Packets of `d` in a context's hands. */
  function InHand(v: View, d: bool): nat {
    TxHand(v.me.tx, OfOwner(d)) + TxHand(v.twin.tx, OfOwner(d)) + PollHand(v.me.poll, OfOwner(d))
      + PollHand(v.twin.poll, OfOwner(d))
  }

  lemma AddsUp(napi: bool, d: bool, v: View, n: nat)
    requires InvFor(napi, d, v, n)
    ensures |v.me.pool.free| + |v.twin.rxq| + InHand(v, d) == n
  {
    OwnersCounted(v.me.pool.free, d);
    OwnersCounted(v.twin.rxq, d);
    OwnersCounted(v.twin.pool.free, !d);
    OwnersCounted(v.me.rxq, !d);
  }

  lemma {:induction false} RunConserves(s: State, steps: seq<Step>, w: Weight)
    requires Possible(s, steps)
    ensures Total(See(Final(s, steps), false), w) == Total(See(s, false), w)
    decreases |steps|
  {
    if steps != [] {
      var t := Apply(s, steps[0]);
      TotalStep(s.napi, steps[0].d, See(s, steps[0].d), steps[0], w);
      RunConserves(t, steps[1..], w);
    }
  }

  /** In every run, races and all, each packet is in exactly one list or one context's hands. */
  lemma EachPacketInOnePlace(s: State, steps: seq<Step>, d: bool, i: nat)
    requires Init(s) && Possible(s, steps) && i < s.poolSize
    ensures Total(See(Final(s, steps), d), Of(Pkt(d, i))) == 1
  {
    RunConserves(s, steps, Of(Pkt(d, i)));
    FreshPoolSums(false, s.poolSize, Pkt(d, i));
    FreshPoolSums(true, s.poolSize, Pkt(d, i));
  }

  /**
    In every run, races and all, for either interface: its pool, its packets queued at the twin
    and those in hand make up the pool size; and what it sent has been received, dropped or is
    still queued at the twin.
    */
  lemma PacketsAreConserved(s: State, steps: seq<Step>, d: bool)
    requires Init(s) && Possible(s, steps)
    ensures var v := See(Final(s, steps), d);
      && |v.me.pool.free| + |v.twin.rxq| + InHand(v, d) == s.poolSize
      && v.me.stats.sent == v.twin.stats.rxPackets + v.twin.stats.rxDropped + |v.twin.rxq|
  {
    hide BothOwned, Unique, Total, InHand;
    InitInv(s);
    RunKeepsInv(s, steps);
    var e := Final(s, steps);
    InvFromEitherSide(e, d);
    AddsUp(e.napi, d, See(e, d), s.poolSize);
  }

  /** The step takes a packet off the receive queue of `d`. */
  predicate Takes(s: State, step: Step, d: bool)
    requires Enabled(s, step)
    ensures Takes(s, step, d) ==> step.InterruptTwin? || step.InterruptSelf? || step.PollOne?
  {
    ReceivedStep(s.napi, step.d, See(s, step.d), step);
    |See(Apply(s, step), d).me.rxq| < |See(s, d).me.rxq|
  }

  /** How many steps of the run take a packet off the queue of `d`, with a buffer granted, or refused. */
  function Takings(s: State, steps: seq<Step>, d: bool, granted: bool): nat
    requires Possible(s, steps)
    decreases |steps|
  {
    if steps == [] then 0
    else
      var first := Takes(s, steps[0], d) && steps[0].alloc == granted;
      Takings(Apply(s, steps[0]), steps[1..], d, granted) + if first then 1 else 0
  }

  /** Over every run: packets received are those taken with a buffer granted, packets dropped those with one refused. */
  lemma {:induction false} ReceivedAreTheGranted(s: State, steps: seq<Step>, d: bool)
    requires Possible(s, steps)
    ensures var x, e := See(s, d).me.stats, See(Final(s, steps), d).me.stats;
      && e.rxPackets == x.rxPackets + Takings(s, steps, d, true)
      && e.rxDropped == x.rxDropped + Takings(s, steps, d, false)
    decreases |steps|
  {
    if steps != [] {
      hide Act;
      ReceivedStep(s.napi, steps[0].d, See(s, steps[0].d), steps[0]);
      ReceivedAreTheGranted(Apply(s, steps[0]), steps[1..], d);
    }
  }

  // ------------------------------------------------------------------------ the locks

  /** No interface is served by two handlers at once. */
  predicate OneHandler(v: View) {
    !(v.me.tx.TServeSelf? && v.twin.tx.TServe?) && !(v.twin.tx.TServeSelf? && v.me.tx.TServe?)
  }

  /** The step ends the handler that serves `x`, interface `e`. */
  predicate EndsHandler(x: Dev, e: bool, step: Step) {
    if x.tx.TServeSelf? then step.InterruptSelf? && step.d == e else step.InterruptTwin? && step.d != e
  }

  lemma PollLeavesTx(napi: bool, d: bool, v: View, step: Step)
    requires EnabledFor(v.me, step) && ByPoll(step)
    ensures Act(napi, d, v, step).twin.tx == v.twin.tx && Act(napi, d, v, step).me.tx == v.me.tx
  {
    hide Released, SetPool, WakeTested, WakeStage;
    if step.PollRelease? {
      ReleaseKeepsRest(v, d, v.me.poll.p);
    } else if step.PollWake? {
      WakeKeepsRest(v, d, v.me.poll.p, v.me.poll.stage);
    }
  }

  lemma TxLeavesTwin(napi: bool, d: bool, v: View, step: Step)
    requires EnabledFor(v.me, step) && !ByPoll(step)
    ensures Act(napi, d, v, step).twin.tx == v.twin.tx
    ensures Act(napi, d, v, step).me.tx.TServe? ==> step.FetchTwin?
    ensures Act(napi, d, v, step).me.tx.TServeSelf? ==> step.FetchSelf?
  {
    hide Released, SetPool, WakeTested, WakeStage;
    if step.TxRelease? {
      ReleaseKeepsRest(v, d, v.me.tx.p);
    } else if step.TxWake? {
      WakeKeepsRest(v, d, v.me.tx.p, v.me.tx.stage);
    }
  }

  lemma OneHandlerStep(s: State, step: Step)
    requires OneHandler(See(s, false)) && Enabled(s, step)
    ensures OneHandler(See(Apply(s, step), false))
  {
    hide Act;
    if ByPoll(step) {
      PollLeavesTx(s.napi, step.d, See(s, step.d), step);
    } else {
      TxLeavesTwin(s.napi, step.d, See(s, step.d), step);
    }
  }

  /** In every run no interface is served by two handlers at once. */
  lemma {:induction false} HandlersExclude(s: State, steps: seq<Step>)
    requires OneHandler(See(s, false)) && Possible(s, steps)
    ensures OneHandler(See(Final(s, steps), false))
    decreases |steps|
  {
    hide OneHandler;
    if steps != [] {
      OneHandlerStep(s, steps[0]);
      HandlersExclude(Apply(s, steps[0]), steps[1..]);
    }
  }

  /** While a handler serves an interface nobody else touches that one's lists. */
  lemma ServedIsLeftAlone(s: State, step: Step, e: bool)
    requires Enabled(s, step) && Locked(See(s, e).me, See(s, e).twin) && !EndsHandler(See(s, e).me, e, step)
    requires OneHandler(See(s, false))
    ensures var x, y := See(s, e).me, See(Apply(s, step), e).me;
      y.pool.free == x.pool.free && y.rxq == x.rxq
  {
    ListsStay(s.napi, step.d, See(s, step.d), step, e);
  }

  lemma ListsStay(napi: bool, d: bool, v: View, step: Step, e: bool)
    requires EnabledFor(v.me, step) && LockFree(v, d, step) && OneHandler(v) && step.d == d
    requires var x, y := if e == d then v.me else v.twin, if e == d then v.twin else v.me;
      Locked(x, y) && !EndsHandler(x, e, step)
    ensures var w := Act(napi, d, v, step);
      if e == d then w.me.pool.free == v.me.pool.free && w.me.rxq == v.me.rxq
      else w.twin.pool.free == v.twin.pool.free && w.twin.rxq == v.twin.rxq
  {
  }

  // ------------------------------------------------------------------------ the quota of a poll

  /** How many packets the polls of `d` receive in the run. */
  function PollReceives(steps: seq<Step>, d: bool): nat {
    if steps == [] then 0
    else
      var first := steps[0].PollOne? && steps[0].d == d && steps[0].alloc;
      PollReceives(steps[1..], d) + if first then 1 else 0
  }

  predicate InLoop(poll: Poll, left: int) {
    || (poll.PLoop? && poll.left == left)
    || (poll.PRelease? && poll.left == left)
    || (poll.PWakeTest? && poll.left == left)
  }

  /** Only its own context moves a poll. */
  lemma PollStays(napi: bool, d: bool, v: View, step: Step)
    requires EnabledFor(v.me, step)
    ensures Act(napi, d, v, step).twin.poll == v.twin.poll
    ensures !ByPoll(step) ==> Act(napi, d, v, step).me.poll == v.me.poll
  {
    hide Released, SetPool, WakeTested, WakeStage;
    if step.TxRelease? {
      ReleaseKeepsRest(v, d, v.me.tx.p);
    } else if step.TxWake? {
      WakeKeepsRest(v, d, v.me.tx.p, v.me.tx.stage);
    } else if step.PollRelease? {
      ReleaseKeepsRest(v, d, v.me.poll.p);
    } else if step.PollWake? {
      WakeKeepsRest(v, d, v.me.poll.p, v.me.poll.stage);
    }
  }

  lemma LoopGoesOn(napi: bool, d: bool, v: View, step: Step, left: int)
    requires EnabledFor(v.me, step) && ByPoll(step) && !step.PollEnd? && InLoop(v.me.poll, left)
    ensures InLoop(Act(napi, d, v, step).me.poll, left - if step.PollOne? && step.alloc then 1 else 0)
    ensures step.PollOne? ==> left > 0
  {
    hide Released, SetPool, WakeTested, WakeStage;
  }

  lemma LoopStep(s: State, step: Step, d: bool, left: int)
    requires Enabled(s, step) && InLoop(See(s, d).me.poll, left) && !(step.d == d && step.PollEnd?)
    ensures InLoop(See(Apply(s, step), d).me.poll, left - PollReceives([step], d))
    ensures left >= PollReceives([step], d)
  {
    hide Act, LockFree;
    assert [step][1..] == [];
    PollStays(s.napi, step.d, See(s, step.d), step);
    if step.d == d && ByPoll(step) {
      LoopGoesOn(s.napi, d, See(s, d), step, left);
    }
  }

  /**
    A poll that ends undisturbed with packets left stays scheduled and comes again; one that has
    taken all is over, and interrupts are on again.
    */
  lemma PollAloneEnds(s: State, d: bool)
    requires Enabled(s, PollEnd(d))
    ensures var t, x := Apply(s, PollEnd(d)), See(s, d).me;
      && Enabled(t, PollVerdict(d))
      && var u := Apply(t, PollVerdict(d));
         if x.rxq != [] then See(u, d).me == x.(poll := PIdle)
         else
           && Enabled(u, RxComplete(d)) && Enabled(Apply(u, RxComplete(d)), EnableInts(d))
           && See(Apply(Apply(u, RxComplete(d)), EnableInts(d)), d).me ==
                x.(poll := PIdle, irq := Irq(x.irq.word, true, false))
  {
  }

  lemma PollBegins(s: State, d: bool, quota: nat)
    requires Enabled(s, StartPoll(d, quota))
    ensures InLoop(See(Apply(s, StartPoll(d, quota)), d).me.poll, quota)
  {
  }

  lemma PollEndsFor(s: State, d: bool, left: int)
    requires InLoop(See(s, d).me.poll, left)
    ensures Enabled(s, PollEnd(d)) ==> left == 0 || See(s, d).me.rxq == []
  {
  }

  /**
    As long as a poll has not ended, its quota is what it has received and what is left; it ends
    when nothing is left or nothing is queued.
    */
  lemma {:induction false} PollKeepsToItsQuota(s: State, quota: nat, steps: seq<Step>, d: bool)
    requires InLoop(See(s, d).me.poll, quota) && Possible(s, steps)
    requires forall x :: x in steps ==> !(x.d == d && x.PollEnd?)
    ensures PollReceives(steps, d) <= quota
    ensures InLoop(See(Final(s, steps), d).me.poll, quota - PollReceives(steps, d))
    ensures Enabled(Final(s, steps), PollEnd(d)) ==>
      PollReceives(steps, d) == quota || See(Final(s, steps), d).me.rxq == []
    decreases |steps|
  {
    hide InLoop, Apply, Enabled, See;
    if steps == [] {
      PollEndsFor(s, d, quota);
    } else {
      LoopStep(s, steps[0], d, quota);
      assert [steps[0]][1..] == [];
      PollKeepsToItsQuota(Apply(s, steps[0]), quota - PollReceives([steps[0]], d), steps[1..], d);
    }
  }

  predicate AtRest(s: State) {
    s.sn0.tx.TIdle? && s.sn0.poll.PIdle? && s.sn1.tx.TIdle? && s.sn1.poll.PIdle?
  }

  /**
    When nothing is under way, every packet is free or queued at the twin. If no transmit bit was
    disturbed, every packet sent is counted as transmitted; if, without NAPI, no receive was
    misled, none is queued; if, with NAPI, no packet was left behind, any that is queued has a poll
    to come; and if no wake test woke the queue of an empty pool, a queue is
    stopped exactly when its pool is empty.
    */
  lemma AtRestStoppedExactlyWhenEmpty(s: State, steps: seq<Step>, d: bool)
    requires Init(s) && Possible(s, steps) && AtRest(Final(s, steps))
    ensures var v := See(Final(s, steps), d);
      && |v.me.pool.free| + |v.twin.rxq| == s.poolSize
      && (Never(s, steps, TxDisturbed) ==> v.me.stats.txPackets == v.me.stats.sent)
      && (!s.napi && Never(s, steps, ReceiveMisled) ==> v.twin.rxq == [])
      && (s.napi && Never(s, steps, LeftBehind) && v.twin.rxq != [] ==> v.twin.irq.scheduled)
      && (Never(s, steps, EmptyPoolWoken) ==> (v.me.pool.stopped <==> v.me.pool.free == []))
  {
    hide Throughout, Never, Init;
    PacketsAreConserved(s, steps, d);
    NapiStays(s, steps);
    QueuesAreSafeExactlyWhen(s, steps);
    TransmitsAreCountedExactlyWhen(s, steps);
    PacketsAreReceivedExactlyWhen(s, steps);
    PacketsAreAttendedExactlyWhen(s, steps);
    StoppedAtRest(Final(s, steps), d);
  }

  lemma StoppedAtRest(e: State, d: bool)
    requires AtRest(e)
    ensures SafeIn(e) ==> (See(e, d).me.pool.stopped <==> See(e, d).me.pool.free == [])
  {
    DueFromEitherSide(e, d);
  }

  lemma {:induction false} NapiStays(s: State, steps: seq<Step>)
    requires Possible(s, steps)
    ensures Final(s, steps).napi == s.napi && Final(s, steps).poolSize == s.poolSize
    decreases |steps|
  {
    if steps != [] {
      NapiStays(Apply(s, steps[0]), steps[1..]);
    }
  }
}
