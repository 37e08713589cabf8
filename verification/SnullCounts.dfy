/** What steps of the snull interfaces keep: packets and statistics, and the status bits they can lose. */
module SnullCounts {
  import opened SnullProtocol

  // ------------------------------------------------- what every step keeps, races included

  /** Packets sent are received, dropped or queued at the twin. */
  predicate Sent(me: Dev, twin: Dev) {
    me.stats.sent == twin.stats.rxPackets + twin.stats.rxDropped + |twin.rxq|
  }

  /** Without NAPI there is no polling. */
  predicate Plain(napi: bool, x: Dev) {
    !napi ==> x.irq.intEnabled && !x.irq.scheduled && x.poll.PIdle?
  }

  predicate Counts(napi: bool, v: View) {
    Sent(v.me, v.twin) && Sent(v.twin, v.me) && Plain(napi, v.me) && Plain(napi, v.twin)
  }

  lemma CountsWord(napi: bool, d: bool, v: View, step: Step)
    requires Counts(napi, v) && EnabledFor(v.me, step) && WritesWord(step)
    ensures Counts(napi, Act(napi, d, v, step))
  {
  }

  lemma CountsOther(napi: bool, d: bool, v: View, step: Step)
    requires Counts(napi, v) && EnabledFor(v.me, step) && !WritesWord(step)
    ensures Counts(napi, Act(napi, d, v, step))
  {
    hide Released, SetPool, WakeTested, WakeStage;
    if step.TxRelease? {
      ReleaseKeepsRest(v, d, v.me.tx.p);
    } else if step.TxWake? {
      WakeKeepsRest(v, d, v.me.tx.p, v.me.tx.stage);
    } else if step.PollRelease? {
      ReleaseKeepsRest(v, d, v.me.poll.p);
    } else if step.PollWake? {
      WakeKeepsRest(v, d, v.me.poll.p, v.me.poll.stage);
    }
  }

  lemma CountsStep(napi: bool, d: bool, v: View, step: Step)
    requires Counts(napi, v) && EnabledFor(v.me, step)
    ensures Counts(napi, Act(napi, d, v, step))
  {
    hide Counts, Act;
    if WritesWord(step) {
      CountsWord(napi, d, v, step);
    } else {
      CountsOther(napi, d, v, step);
    }
  }

  // ------------------------------------------------- which counter a received packet goes to

  /** If a packet leaves the queue of `x` in this step, it is received when a buffer is granted, else dropped. */
  predicate CountedAs(x: Dev, y: Dev, step: Step) {
    if |y.rxq| < |x.rxq| then
      && |y.rxq| == |x.rxq| - 1 && (step.InterruptTwin? || step.InterruptSelf? || step.PollOne?)
      && y.stats.rxPackets == x.stats.rxPackets + (if step.alloc then 1 else 0)
      && y.stats.rxDropped == x.stats.rxDropped + (if step.alloc then 0 else 1)
    else y.stats.rxPackets == x.stats.rxPackets && y.stats.rxDropped == x.stats.rxDropped
  }

  lemma ReceivedByHandler(napi: bool, d: bool, v: View, step: Step)
    requires EnabledFor(v.me, step) && (step.InterruptTwin? || step.InterruptSelf?)
    ensures CountedAs(v.me, Act(napi, d, v, step).me, step) && CountedAs(v.twin, Act(napi, d, v, step).twin, step)
  {
  }

  lemma ReceivedOtherwise(napi: bool, d: bool, v: View, step: Step)
    requires EnabledFor(v.me, step) && !step.InterruptTwin? && !step.InterruptSelf?
    ensures CountedAs(v.me, Act(napi, d, v, step).me, step) && CountedAs(v.twin, Act(napi, d, v, step).twin, step)
  {
    hide Released, SetPool, WakeTested, WakeStage;
    if step.TxRelease? {
      ReleaseKeepsRest(v, d, v.me.tx.p);
    } else if step.TxWake? {
      WakeKeepsRest(v, d, v.me.tx.p, v.me.tx.stage);
    } else if step.PollRelease? {
      ReleaseKeepsRest(v, d, v.me.poll.p);
    } else if step.PollWake? {
      WakeKeepsRest(v, d, v.me.poll.p, v.me.poll.stage);
    }
  }

  /** A packet is received exactly when one leaves the interface's queue and a buffer is granted, else dropped. */
  lemma ReceivedStep(napi: bool, d: bool, v: View, step: Step)
    requires EnabledFor(v.me, step)
    ensures CountedAs(v.me, Act(napi, d, v, step).me, step) && CountedAs(v.twin, Act(napi, d, v, step).twin, step)
  {
    hide Act, CountedAs;
    if step.InterruptTwin? || step.InterruptSelf? {
      ReceivedByHandler(napi, d, v, step);
    } else {
      ReceivedOtherwise(napi, d, v, step);
    }
  }

  // ------------------------------------------------- bits of the status word that are lost or brought back

  /** A packet has been queued on the twin and the transmit-done status bit is still to be raised. */
  predicate BeforeDone(tx: Tx) {
    match tx
    case TQueued => true
    case TSetRx => true
    case THalfRx(_) => true
    case TRaised => true
    case TServe(_) => true
    case TComplete => true
    case THalfTx(_) => true
    case TRelease(_, after) => after == ThenComplete
    case TWakeTest(_, after, _) => after == ThenComplete
    case _ => false
  }

  /** Packets sent are counted as transmitted, marked as such in the status word, or about to be marked. */
  predicate TxCounted(x: Dev) {
    && (x.irq.word.tx ==> x.tx.TRaisedSelf? || x.tx.TServeSelf?)
    && x.stats.sent == x.stats.txPackets + Plus(x.irq.word.tx) + Plus(BeforeDone(x.tx))
  }

  predicate BothTxCounted(v: View) { TxCounted(v.me) && TxCounted(v.twin) }

  /** The step overwrites or acts on a transmit bit that is not what the word now holds. */
  predicate DisturbsTx(v: View, step: Step) {
    || (step.StoreRx? && v.me.tx.THalfRx? && v.me.tx.saw.tx != v.twin.irq.word.tx)
    || (step.InterruptTwin? && v.me.tx.TServe? && v.me.tx.saw.tx != v.twin.irq.word.tx)
    || (step.InterruptSelf? && v.me.tx.TServeSelf? && v.me.tx.saw.tx != v.me.irq.word.tx)
  }

  lemma TxCountedStore(napi: bool, d: bool, v: View, step: Step)
    requires BothTxCounted(v) && EnabledFor(v.me, step) && (step.StoreRx? || step.StoreTx?)
    ensures BothTxCounted(Act(napi, d, v, step)) <==> !DisturbsTx(v, step)
  {
  }

  lemma TxCountedInterrupt(napi: bool, d: bool, v: View, step: Step)
    requires BothTxCounted(v) && EnabledFor(v.me, step) && (step.InterruptTwin? || step.InterruptSelf?)
    ensures BothTxCounted(Act(napi, d, v, step)) <==> !DisturbsTx(v, step)
  {
    hide Interrupted, Taken;
    InterruptEffect(napi, if step.InterruptTwin? then v.twin else v.me, v.me.tx.saw, step.alloc);
  }

  lemma TxCountedPoll(napi: bool, d: bool, v: View, step: Step)
    requires BothTxCounted(v) && EnabledFor(v.me, step) && ByPoll(step)
    ensures BothTxCounted(Act(napi, d, v, step)) && !DisturbsTx(v, step)
  {
    hide Released, SetPool, WakeTested, WakeStage;
    if step.PollRelease? {
      ReleaseKeepsRest(v, d, v.me.poll.p);
    } else if step.PollWake? {
      WakeKeepsRest(v, d, v.me.poll.p, v.me.poll.stage);
    }
  }

  lemma TxCountedTx(napi: bool, d: bool, v: View, step: Step)
    requires BothTxCounted(v) && EnabledFor(v.me, step) && !WritesWord(step) && !ByPoll(step)
    ensures BothTxCounted(Act(napi, d, v, step)) && !DisturbsTx(v, step)
  {
    hide Released, SetPool, WakeTested, WakeStage;
    if step.TxRelease? {
      ReleaseKeepsRest(v, d, v.me.tx.p);
    } else if step.TxWake? {
      WakeKeepsRest(v, d, v.me.tx.p, v.me.tx.stage);
    }
  }

  /** The statistics of transmitted packets stay right exactly across the steps that disturb no transmit bit. */
  lemma TxCountedStepExactlyWhen(napi: bool, d: bool, v: View, step: Step)
    requires BothTxCounted(v) && EnabledFor(v.me, step)
    ensures BothTxCounted(Act(napi, d, v, step)) <==> !DisturbsTx(v, step)
  {
    hide Act, BothTxCounted, DisturbsTx;
    if WritesWord(step) {
      if step.StoreRx? || step.StoreTx? {
        TxCountedStore(napi, d, v, step);
      } else {
        TxCountedInterrupt(napi, d, v, step);
      }
    } else if ByPoll(step) {
      TxCountedPoll(napi, d, v, step);
    } else {
      TxCountedTx(napi, d, v, step);
    }
  }

  /** The receive bit for a queued packet is still to be raised. */
  predicate Unraised(tx: Tx) { tx.TQueued? || tx.TSetRx? || tx.THalfRx? }

  /**
    Without NAPI, with `left` lying at the twin unreceived: any other packet waits there only while
    its receive bit is to be raised or stands. Packets come and go at the front.
    */
  predicate Prompt(me: Dev, twin: Dev, left: seq<Pkt>) {
    && Plain(false, twin)
    && (twin.irq.word.rx ==> me.tx.TRaised? || me.tx.TServe?)
    && |twin.rxq| == |left| + Plus(Unraised(me.tx)) + Plus(twin.irq.word.rx)
    && Last(twin.rxq, left)
  }

  /** The list ends in `left`. */
  predicate Last(list: seq<Pkt>, left: seq<Pkt>) { |left| <= |list| && list[|list| - |left|..] == left }

  lemma LastAfterMore(list: seq<Pkt>, left: seq<Pkt>, p: Pkt)
    requires Last(list, left)
    ensures Last([p] + list, left)
  {
  }

  lemma LastAfterOne(list: seq<Pkt>, left: seq<Pkt>)
    requires Last(list, left)
    ensures |list| > |left| ==> Last(list[1..], left)
  {
  }

  /** `mine` lie at `me`, and `others` at the twin. */
  predicate BothPrompt(v: View, mine: seq<Pkt>, others: seq<Pkt>) {
    Prompt(v.me, v.twin, others) && Prompt(v.twin, v.me, mine)
  }

  /** The step overwrites or acts on a receive bit that is not what the word now holds. */
  predicate DisturbsRx(v: View, step: Step) {
    || (step.StoreTx? && v.me.tx.THalfTx? && v.me.tx.saw.rx != v.me.irq.word.rx)
    || (step.InterruptTwin? && v.me.tx.TServe? && v.me.tx.saw.rx != v.twin.irq.word.rx)
    || (step.InterruptSelf? && v.me.tx.TServeSelf? && v.me.tx.saw.rx != v.me.irq.word.rx)
  }

  /** And it matters: a handler that finds no packet does no harm. */
  predicate MisleadsReceive(v: View, step: Step) {
    DisturbsRx(v, step) && (step.InterruptTwin? ==> v.twin.rxq != []) && (step.InterruptSelf? ==> v.me.rxq != [])
  }

  lemma PromptStore(d: bool, v: View, step: Step, mine: seq<Pkt>, others: seq<Pkt>)
    requires BothPrompt(v, mine, others) && EnabledFor(v.me, step) && (step.StoreRx? || step.StoreTx?)
    ensures BothPrompt(Act(false, d, v, step), mine, others) <==> !MisleadsReceive(v, step)
  {
    hide Last;
  }

  lemma PromptInterruptTwin(v: View, alloc: bool, mine: seq<Pkt>, others: seq<Pkt>)
    requires BothPrompt(v, mine, others) && v.me.tx.TServe?
    ensures BothPrompt(DoInterruptTwin(false, v, alloc), mine, others) <==>
      !(v.me.tx.saw.rx != v.twin.irq.word.rx && v.twin.rxq != [])
  {
    hide Last;
    LastAfterOne(v.twin.rxq, others);
  }

  lemma PromptInterruptSelf(v: View, alloc: bool, mine: seq<Pkt>, others: seq<Pkt>)
    requires BothPrompt(v, mine, others) && v.me.tx.TServeSelf?
    ensures BothPrompt(DoInterruptSelf(false, v, alloc), mine, others) <==>
      !(v.me.tx.saw.rx != v.me.irq.word.rx && v.me.rxq != [])
  {
    hide Last;
    LastAfterOne(v.me.rxq, mine);
  }

  lemma PromptHandler(d: bool, v: View, step: Step, mine: seq<Pkt>, others: seq<Pkt>)
    requires BothPrompt(v, mine, others) && EnabledFor(v.me, step) && (step.InterruptTwin? || step.InterruptSelf?)
    ensures BothPrompt(Act(false, d, v, step), mine, others) <==> !MisleadsReceive(v, step)
  {
    hide BothPrompt, DoInterruptTwin, DoInterruptSelf;
    if step.InterruptTwin? {
      PromptInterruptTwin(v, step.alloc, mine, others);
    } else {
      PromptInterruptSelf(v, step.alloc, mine, others);
    }
  }

  lemma PromptOther(d: bool, v: View, step: Step, mine: seq<Pkt>, others: seq<Pkt>)
    requires BothPrompt(v, mine, others) && EnabledFor(v.me, step) && !WritesWord(step)
    ensures BothPrompt(Act(false, d, v, step), mine, others) && !MisleadsReceive(v, step)
  {
    hide Released, SetPool, WakeTested, WakeStage, Last;
    if step.Enqueue? {
      LastAfterMore(v.twin.rxq, others, v.me.tx.p);
    } else if step.TxRelease? {
      ReleaseKeepsRest(v, d, v.me.tx.p);
    } else if step.TxWake? {
      WakeKeepsRest(v, d, v.me.tx.p, v.me.tx.stage);
    }
  }

  /**
    Without NAPI packets are received promptly, but for those that lie there already, exactly
    across the steps that do not mislead a receive.
    */
  lemma PromptStepExactlyWhen(d: bool, v: View, step: Step, mine: seq<Pkt>, others: seq<Pkt>)
    requires BothPrompt(v, mine, others) && EnabledFor(v.me, step)
    ensures BothPrompt(Act(false, d, v, step), mine, others) <==> !MisleadsReceive(v, step)
  {
    hide Act, BothPrompt, MisleadsReceive;
    if step.StoreRx? || step.StoreTx? {
      PromptStore(d, v, step, mine, others);
    } else if WritesWord(step) {
      PromptHandler(d, v, step, mine, others);
    } else {
      PromptOther(d, v, step, mine, others);
    }
  }

  // --------------------------------------------------------- no packet is lost or duplicated

  /** A weight per packet: one packet counted, or one owner's packets counted. */
  type Weight = Pkt -> nat

  function Sum(list: seq<Pkt>, w: Weight): nat {
    if list == [] then 0 else w(list[0]) + Sum(list[1..], w)
  }

  /** Weight of the packet a context has in hand, off every list. */
  function TxHand(tx: Tx, w: Weight): nat { if tx.TGot? || tx.TRelease? then w(tx.p) else 0 }

  function PollHand(poll: Poll, w: Weight): nat { if poll.PRelease? then w(poll.p) else 0 }

  function InDev(x: Dev, w: Weight): nat {
    Sum(x.pool.free, w) + Sum(x.rxq, w) + TxHand(x.tx, w) + PollHand(x.poll, w)
  }

  /** Total weight over the four lists and the four contexts' hands. */
  function Total(v: View, w: Weight): nat { InDev(v.me, w) + InDev(v.twin, w) }

  lemma TotalReleased(v: View, d: bool, q: Pkt, w: Weight)
    ensures Total(Released(v, d, q), w) == Total(v, w) + w(q)
  {
  }

  lemma TotalWoken(v: View, d: bool, q: Pkt, stage: Stage, w: Weight)
    ensures Total(WakeTested(v, d, q, stage), w) == Total(v, w)
  {
  }

  lemma TotalInterrupt(napi: bool, v: View, alloc: bool, w: Weight)
    ensures v.me.tx.TServe? ==> Total(DoInterruptTwin(napi, v, alloc), w) == Total(v, w)
    ensures v.me.tx.TServeSelf? ==> Total(DoInterruptSelf(napi, v, alloc), w) == Total(v, w)
  {
  }

  lemma TotalMove(v: View, w: Weight, alloc: bool)
    ensures v.me.tx.TGet? && v.me.pool.free != [] ==> Total(DoGetBuffer(v), w) == Total(v, w)
    ensures v.me.tx.TGot? ==> Total(DoEnqueue(v), w) == Total(v, w)
    ensures v.me.poll.PLoop? && v.me.poll.left > 0 && v.me.rxq != [] ==> Total(DoPollOne(v, alloc), w) == Total(v, w)
  {
  }

  lemma TotalPlain(napi: bool, d: bool, v: View, step: Step, w: Weight)
    requires EnabledFor(v.me, step) && MovesNothing(step)
    ensures Total(Act(napi, d, v, step), w) == Total(v, w)
  {
  }

  /** Every step conserves every weight, whatever races with it. */
  lemma TotalStep(napi: bool, d: bool, v: View, step: Step, w: Weight)
    requires EnabledFor(v.me, step)
    ensures Total(Act(napi, d, v, step), w) == Total(v, w)
  {
    hide Released, WakeTested, WakeStage, DoInterruptTwin, DoInterruptSelf, DoGetBuffer, DoEnqueue, DoPollOne;
    match step
    case TxRelease(_) =>
      TotalReleased(v, d, v.me.tx.p, w);
      ReleaseKeepsRest(v, d, v.me.tx.p);
    case TxWake(_) =>
      TotalWoken(v, d, v.me.tx.p, v.me.tx.stage, w);
      WakeKeepsRest(v, d, v.me.tx.p, v.me.tx.stage);
    case PollRelease(_) =>
      TotalReleased(v, d, v.me.poll.p, w);
      ReleaseKeepsRest(v, d, v.me.poll.p);
    case PollWake(_) =>
      TotalWoken(v, d, v.me.poll.p, v.me.poll.stage, w);
      WakeKeepsRest(v, d, v.me.poll.p, v.me.poll.stage);
    case InterruptTwin(_, alloc) => TotalInterrupt(napi, v, alloc, w);
    case InterruptSelf(_, alloc) => TotalInterrupt(napi, v, alloc, w);
    case PollOne(_, alloc) => TotalMove(v, w, alloc);
    case GetBuffer(_) => TotalMove(v, w, false);
    case Enqueue(_) => TotalMove(v, w, false);
    case _ => TotalPlain(napi, d, v, step, w);
  }

  predicate AllOf(list: seq<Pkt>, d: bool) { list == [] || (list[0].dev == d && AllOf(list[1..], d)) }

  /** `me` is interface `d`: its pool and the twin's receive queue hold only its own packets. */
  predicate Owned(me: Dev, twin: Dev, d: bool) {
    AllOf(me.pool.free, d) && AllOf(twin.rxq, d) && (me.tx.TGot? ==> me.tx.p.dev == d)
  }

  predicate BothOwned(v: View, d: bool) { Owned(v.me, v.twin, d) && Owned(v.twin, v.me, !d) }

  lemma OwnedReleased(v: View, d: bool, p: Pkt, stage: Stage)
    requires BothOwned(v, d)
    ensures BothOwned(Released(v, d, p), d) && BothOwned(WakeTested(v, d, p, stage), d)
  {
  }

  lemma OwnedPlain(napi: bool, d: bool, v: View, step: Step)
    requires BothOwned(v, d) && EnabledFor(v.me, step) && MovesNothing(step)
    ensures BothOwned(Act(napi, d, v, step), d)
  {
    hide AllOf;
  }

  lemma OwnedMove(napi: bool, d: bool, v: View, step: Step)
    requires BothOwned(v, d) && EnabledFor(v.me, step)
    requires step.GetBuffer? || step.Enqueue? || step.InterruptTwin? || step.InterruptSelf? || step.PollOne?
    ensures BothOwned(Act(napi, d, v, step), d)
  {
  }

  lemma OwnedStep(napi: bool, d: bool, v: View, step: Step)
    requires BothOwned(v, d) && EnabledFor(v.me, step)
    ensures BothOwned(Act(napi, d, v, step), d)
  {
    if MovesNothing(step) {
      hide Act, BothOwned;
      OwnedPlain(napi, d, v, step);
    } else {
      hide Released, WakeTested, WakeStage, AllOf;
      match step
      case TxRelease(_) => OwnedReleased(v, d, v.me.tx.p, Test);
      case TxWake(_) => OwnedReleased(v, d, v.me.tx.p, v.me.tx.stage);
      case PollRelease(_) => OwnedReleased(v, d, v.me.poll.p, Test);
      case PollWake(_) => OwnedReleased(v, d, v.me.poll.p, v.me.poll.stage);
      case _ => OwnedMove(napi, d, v, step);
    }
  }

  function OfOwner(d: bool): Weight { (p: Pkt) => Plus(p.dev == d) }

  function Of(q: Pkt): Weight { (p: Pkt) => Plus(p == q) }

  /** No packet is in two places. */
  ghost predicate Unique(v: View) { forall p: Pkt :: Total(v, Of(p)) <= 1 }

  lemma {:induction false} SumOfMember(list: seq<Pkt>, p: Pkt)
    requires p in list
    ensures Sum(list, Of(p)) >= 1
  {
    if list[0] != p {
      SumOfMember(list[1..], p);
    }
  }

  lemma {:induction false} AllOfMember(list: seq<Pkt>, d: bool, p: Pkt)
    requires AllOf(list, d) && p in list
    ensures p.dev == d
  {
    if list[0] != p {
      AllOfMember(list[1..], d, p);
    }
  }

  /** A packet in hand is not in a pool as well. */
  lemma InHandNotInPool(v: View, p: Pkt)
    requires Unique(v)
    requires TxHand(v.me.tx, Of(p)) >= 1 || PollHand(v.me.poll, Of(p)) >= 1
    ensures p !in v.me.pool.free && p !in v.twin.pool.free
  {
    assert Total(v, Of(p)) <= 1;
    if p in v.me.pool.free { SumOfMember(v.me.pool.free, p); }
    if p in v.twin.pool.free { SumOfMember(v.twin.pool.free, p); }
  }
}
