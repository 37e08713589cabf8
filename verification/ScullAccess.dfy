/** The single-open device: one atomic counter, any number of processes opening and closing. */
module SingleOpen {

  /** A refused opener has decremented the counter and not yet undone it. */
  datatype Proc = Idle | Refused | Holder

  datatype State = State(available: int, procs: seq<Proc>)

  datatype Step = Open(p: nat) | Undo(p: nat) | Release(p: nat)

  function Count(procs: seq<Proc>, what: Proc): nat {
    if procs == [] then 0 else (if procs[0] == what then 1 else 0) + Count(procs[1..], what)
  }

  predicate Enabled(s: State, step: Step) {
    step.p < |s.procs| &&
    match step
    case Open(p) => s.procs[p].Idle?
    case Undo(p) => s.procs[p].Refused?
    case Release(p) => s.procs[p].Holder?
  }

  /** `atomic_dec_and_test` hits zero only for the opener that takes the device. */
  function Apply(s: State, step: Step): State
    requires Enabled(s, step)
  {
    match step
    case Open(p) => State(s.available - 1, s.procs[p := if s.available - 1 == 0 then Holder else Refused])
    case Undo(p) => State(s.available + 1, s.procs[p := Idle])
    case Release(p) => State(s.available + 1, s.procs[p := Idle])
  }

  /** The counter is one, less every holder and every refused opener that has yet to undo. */
  predicate Inv(s: State) {
    && s.available == 1 - Count(s.procs, Holder) - Count(s.procs, Refused)
    && Count(s.procs, Holder) <= 1
  }

  lemma {:induction false} CountUpdate(procs: seq<Proc>, p: nat, now: Proc, what: Proc)
    requires p < |procs|
    ensures Count(procs[p := now], what)
         == Count(procs, what) - (if procs[p] == what then 1 else 0) + (if now == what then 1 else 0)
  {
    if p > 0 {
      CountUpdate(procs[1..], p - 1, now, what);
      assert procs[p := now][1..] == procs[1..][p - 1 := now];
    } else {
      assert procs[p := now][1..] == procs[1..];
    }
  }

  lemma {:induction false} CountZero(procs: seq<Proc>, what: Proc, p: nat)
    requires p < |procs| && procs[p] == what
    ensures Count(procs, what) >= 1
  {
    if p > 0 {
      CountZero(procs[1..], what, p - 1);
    }
  }

  lemma InvStep(s: State, step: Step)
    requires Inv(s) && Enabled(s, step)
    ensures Inv(Apply(s, step))
  {
    var now := Apply(s, step).procs[step.p];
    CountUpdate(s.procs, step.p, now, Holder);
    CountUpdate(s.procs, step.p, now, Refused);
    CountZero(s.procs, s.procs[step.p], step.p);
  }

  predicate Possible(s: State, steps: seq<Step>)
    decreases |steps|
  {
    steps == [] || (Enabled(s, steps[0]) && Possible(Apply(s, steps[0]), steps[1..]))
  }

  function Final(s: State, steps: seq<Step>): State
    requires Possible(s, steps)
    decreases |steps|
  {
    if steps == [] then s else Final(Apply(s, steps[0]), steps[1..])
  }

  lemma {:induction false} RunKeepsInv(s: State, steps: seq<Step>)
    requires Inv(s) && Possible(s, steps)
    ensures Inv(Final(s, steps))
    decreases |steps|
  {
    if steps != [] {
      InvStep(s, steps[0]);
      RunKeepsInv(Apply(s, steps[0]), steps[1..]);
    }
  }

  lemma {:induction false} AllIdle(procs: seq<Proc>)
    requires forall p :: 0 <= p < |procs| ==> procs[p].Idle?
    ensures Count(procs, Holder) == 0 && Count(procs, Refused) == 0
  {
    if procs != [] {
      AllIdle(procs[1..]);
    }
  }

  /** From a free device, however the opens interleave: at most one process ever holds it. */
  lemma AtMostOneHolder(s: State, steps: seq<Step>, p: nat, q: nat)
    requires s.available == 1 && (forall k :: 0 <= k < |s.procs| ==> s.procs[k].Idle?) && Possible(s, steps)
    requires p < q < |Final(s, steps).procs|
    ensures !(Final(s, steps).procs[p].Holder? && Final(s, steps).procs[q].Holder?)
  {
    AllIdle(s.procs);
    RunKeepsInv(s, steps);
    var procs := Final(s, steps).procs;
    if procs[p].Holder? && procs[q].Holder? {
      CountUpdate(procs, p, Idle, Holder);
      CountZero(procs[p := Idle], Holder, q);
    }
  }

  /** An open and its close, or its undoing when it is refused, leave everything as it was. */
  lemma OpenThenCloseIsNothing(s: State, p: nat)
    requires Enabled(s, Open(p))
    ensures var t := Apply(s, Open(p));
      && (t.procs[p].Holder? ==> Enabled(t, Release(p)) && Apply(t, Release(p)) == s)
      && (!t.procs[p].Holder? ==> Enabled(t, Undo(p)) && Apply(t, Undo(p)) == s)
  {
    assert s.procs[p := Holder][p := Idle] == s.procs && s.procs[p := Refused][p := Idle] == s.procs;
  }

  /** An open takes the device exactly when nobody holds it and no refused opener is still undoing. */
  lemma OpenSucceedsExactlyWhen(s: State, p: nat)
    requires Inv(s) && Enabled(s, Open(p))
    ensures Apply(s, Open(p)).procs[p].Holder? <==>
      forall q :: 0 <= q < |s.procs| ==> s.procs[q].Idle?
  {
    if forall q :: 0 <= q < |s.procs| ==> s.procs[q].Idle? {
      AllIdle(s.procs);
    } else {
      var q :| 0 <= q < |s.procs| && !s.procs[q].Idle?;
      CountZero(s.procs, s.procs[q], q);
    }
  }
}

/** The device that blocks opens by other users until the last close: a counter and an owner under a spin lock. */
module BlockingOpen {

  /** Who a process runs as; fixed for the run. */
  datatype Creds = Creds(uid: nat, euid: nat, override: bool)

  /**
    `WHalf` has seen a non-zero count, `WHalfOwner` also an owner other than its uid: the condition
    of the wait is evaluated without the lock, one field at a time.
    */
  datatype Pc = Idle | WTry(nonblock: bool) | WQueued | WHalf | WHalfOwner | WAsleep | Holder | Owes

  datatype Proc = Proc(creds: Creds, pc: Pc, woken: bool)

  datatype State = State(count: int, owner: nat, procs: seq<Proc>)

  datatype Step =
    | Start(p: nat, nonblock: bool)
    | LockAndTest(p: nat, precheckFails: bool)
    | SeeCount(p: nat)
    | SeeOwner(p: nat)
    | SeeOwnerAgain(p: nat)
    | Rewait(p: nat)
    | Signal(p: nat)
    | Release(p: nat)
    | Wake(p: nat)

  predicate Available(s: State, c: Creds) {
    s.count == 0 || s.owner == c.uid || s.owner == c.euid || c.override
  }

  predicate Enabled(s: State, step: Step) {
    step.p < |s.procs| &&
    var me := s.procs[step.p];
    match step
    case Start(_, _) => me.pc.Idle?
    case LockAndTest(_, _) => me.pc.WTry?
    case SeeCount(_) => me.pc.WQueued?
    case SeeOwner(_) => me.pc.WHalf?
    case SeeOwnerAgain(_) => me.pc.WHalfOwner?
    case Rewait(_) => me.pc.WAsleep? && me.woken
    case Signal(_) => me.pc.WAsleep?
    case Release(_) => me.pc.Holder?
    case Wake(_) => me.pc.Owes?
  }

  function SetPc(s: State, p: nat, pc: Pc): State
    requires p < |s.procs|
  {
    s.(procs := s.procs[p := s.procs[p].(pc := pc)])
  }

  predicate OnQueue(pc: Pc) { pc.WQueued? || pc.WHalf? || pc.WHalfOwner? || pc.WAsleep? }

  function WakeAll(procs: seq<Proc>): (r: seq<Proc>)
    ensures |r| == |procs|
    ensures forall i :: 0 <= i < |procs| ==> r[i] == if OnQueue(procs[i].pc) then procs[i].(woken := true) else procs[i]
  {
    seq(|procs|, i requires 0 <= i < |procs| => if OnQueue(procs[i].pc) then procs[i].(woken := true) else procs[i])
  }

  function Apply(s: State, step: Step): State
    requires Enabled(s, step)
  {
    var p := step.p;
    var me := s.procs[p];
    match step
    case Start(_, nonblock) => SetPc(s, p, WTry(nonblock))
    case LockAndTest(_, precheckFails) =>
      if Available(s, me.creds) then
        SetPc(s, p, Holder).(count := s.count + 1, owner := if s.count == 0 then me.creds.uid else s.owner)
      else if me.pc.nonblock then SetPc(s, p, Idle)
      else if precheckFails then s.(procs := s.procs[p := Proc(me.creds, WQueued, false)])
      else SetPc(s, p, WTry(false))
    case SeeCount(_) => SetPc(s, p, if s.count == 0 then WTry(false) else WHalf)
    case SeeOwner(_) => SetPc(s, p, if s.owner == me.creds.uid then WTry(false) else WHalfOwner)
    case SeeOwnerAgain(_) =>
      SetPc(s, p, if s.owner == me.creds.euid || me.creds.override then WTry(false) else WAsleep)
    case Rewait(_) => s.(procs := s.procs[p := Proc(me.creds, WQueued, false)])
    case Signal(_) => SetPc(s, p, Idle)
    case Release(_) => SetPc(s, p, if s.count - 1 == 0 then Owes else Idle).(count := s.count - 1)
    case Wake(_) => State(s.count, s.owner, WakeAll(s.procs)[p := Proc(me.creds, Idle, false)])
  }

  function Holders(procs: seq<Proc>): nat {
    if procs == [] then 0 else (if procs[0].pc.Holder? then 1 else 0) + Holders(procs[1..])
  }

  ghost predicate SomeoneOwes(s: State) { exists q :: 0 <= q < |s.procs| && s.procs[q].pc.Owes? }

  /** What an unlocked, possibly half-done, look at the device must imply for the sleep it leads to. */
  predicate LookSound(s: State, q: Proc) {
    !q.woken ==>
      && (q.pc.WHalf? ==> s.count > 0)
      && (q.pc.WHalfOwner? ==> s.count > 0 && s.owner != q.creds.uid)
      && (q.pc.WAsleep? ==> !Available(s, q.creds) && s.count > 0)
  }

  ghost predicate Inv(s: State) {
    && s.count == Holders(s.procs)
    && (forall q :: 0 <= q < |s.procs| && s.procs[q].pc.Holder? ==> Available(s, s.procs[q].creds))
    && (SomeoneOwes(s) || forall q :: 0 <= q < |s.procs| ==> LookSound(s, s.procs[q]))
  }

  lemma {:induction false} HoldersUpdate(procs: seq<Proc>, p: nat, now: Proc)
    requires p < |procs|
    ensures Holders(procs[p := now])
         == Holders(procs) - (if procs[p].pc.Holder? then 1 else 0) + (if now.pc.Holder? then 1 else 0)
  {
    if p > 0 {
      HoldersUpdate(procs[1..], p - 1, now);
      assert procs[p := now][1..] == procs[1..][p - 1 := now];
    } else {
      assert procs[p := now][1..] == procs[1..];
    }
  }

  lemma {:induction false} HoldersWake(procs: seq<Proc>)
    ensures Holders(WakeAll(procs)) == Holders(procs)
  {
    if procs != [] {
      HoldersWake(procs[1..]);
      assert WakeAll(procs)[1..] == WakeAll(procs[1..]);
    }
  }

  lemma {:induction false} NoHolders(procs: seq<Proc>, q: nat)
    requires q < |procs| && procs[q].pc.Holder?
    ensures Holders(procs) >= 1
  {
    if q > 0 {
      NoHolders(procs[1..], q - 1);
    }
  }

  lemma CountStep(s: State, step: Step)
    requires s.count == Holders(s.procs) && Enabled(s, step)
    ensures Apply(s, step).count == Holders(Apply(s, step).procs)
  {
    var procs := if step.Wake? then WakeAll(s.procs) else s.procs;
    HoldersWake(s.procs);
    HoldersUpdate(procs, step.p, Apply(s, step).procs[step.p]);
  }

  lemma AccessStep(s: State, step: Step)
    requires Inv(s) && Enabled(s, step)
    ensures var t := Apply(s, step);
      forall q :: 0 <= q < |t.procs| && t.procs[q].pc.Holder? ==> Available(t, t.procs[q].creds)
  {
    var t := Apply(s, step);
    forall q | 0 <= q < |t.procs| && t.procs[q].pc.Holder?
      ensures Available(t, t.procs[q].creds)
    {
      if q != step.p {
        NoHolders(s.procs, q);
        assert s.procs[q].pc.Holder?;
      }
    }
  }

  lemma LookStep(s: State, step: Step)
    requires Inv(s) && Enabled(s, step)
    ensures var t := Apply(s, step);
      SomeoneOwes(t) || forall q :: 0 <= q < |t.procs| ==> LookSound(t, t.procs[q])
  {
    var t := Apply(s, step);
    if step.Wake? {
    } else if SomeoneOwes(s) {
      var q :| 0 <= q < |s.procs| && s.procs[q].pc.Owes?;
      assert t.procs[q].pc.Owes?;
    } else if step.Release? && s.count - 1 == 0 {
      assert t.procs[step.p].pc.Owes?;
    } else {
      if step.Release? { NoHolders(s.procs, step.p); }
      forall q | 0 <= q < |t.procs|
        ensures LookSound(t, t.procs[q])
      {
        assert LookSound(s, s.procs[q]);
      }
    }
  }

  lemma InvStep(s: State, step: Step)
    requires Inv(s) && Enabled(s, step)
    ensures Inv(Apply(s, step))
  {
    CountStep(s, step);
    AccessStep(s, step);
    LookStep(s, step);
  }

  // ------------------------------------------------------------ which way each step leads

  /**
    An open takes the device exactly when it is closed, or the opener runs as its owner or may
    override; whoever opens a closed device becomes its owner. Otherwise a non-blocking opener
    returns, and a blocking one queues or tries again.
    */
  lemma OpenSucceedsExactlyWhen(s: State, p: nat, precheckFails: bool)
    requires Enabled(s, LockAndTest(p, precheckFails))
    ensures var t, me := Apply(s, LockAndTest(p, precheckFails)), s.procs[p];
      var opens := s.count == 0 || s.owner == me.creds.uid || s.owner == me.creds.euid || me.creds.override;
      && (t.procs[p].pc == Holder <==> opens)
      && t.count == s.count + (if opens then 1 else 0)
      && t.owner == (if s.count == 0 then me.creds.uid else s.owner)
      && (!opens && me.pc.nonblock ==> t.procs[p].pc == Idle)
      && (!opens && !me.pc.nonblock ==> t.procs[p].pc == WTry(false) || (t.procs[p].pc == WQueued && !t.procs[p].woken))
  {
  }

  /** A look at the condition that nobody disturbs leads to sleep exactly when the device is not to be had. */
  lemma StillLookDecides(s: State, p: nat)
    requires Enabled(s, SeeCount(p))
    ensures var me, t := s.procs[p].creds, Apply(s, SeeCount(p));
      if s.count == 0 then t.procs[p].pc == WTry(false)
      else
        && Enabled(t, SeeOwner(p))
        && var u := Apply(t, SeeOwner(p));
           if s.owner == me.uid then u.procs[p].pc == WTry(false)
           else
             && Enabled(u, SeeOwnerAgain(p))
             && var available := s.owner == me.euid || me.override;
                Apply(u, SeeOwnerAgain(p)).procs[p].pc == if available then WTry(false) else WAsleep
  {
  }

  /** A call asks as it was made, one that was woken looks again, and a signal ends it. */
  lemma CallsGoOn(s: State, p: nat, nonblock: bool)
    requires p < |s.procs|
    ensures Enabled(s, Start(p, nonblock)) ==>
      Apply(s, Start(p, nonblock)) == s.(procs := s.procs[p := s.procs[p].(pc := WTry(nonblock))])
    ensures Enabled(s, Rewait(p)) ==> Apply(s, Rewait(p)).procs[p] == Proc(s.procs[p].creds, WQueued, false)
    ensures Enabled(s, Signal(p)) <==> s.procs[p].pc == WAsleep
    ensures s.procs[p].pc == WAsleep ==> Apply(s, Signal(p)).procs[p].pc == Idle
  {
  }

  /** A close wakes the others exactly when nobody holds the device any more. */
  lemma CloseWakesExactlyWhen(s: State, p: nat)
    requires Inv(s) && Enabled(s, Release(p))
    ensures var t := Apply(s, Release(p));
      && t.count == s.count - 1 && t.owner == s.owner && (t.procs[p].pc == Owes || t.procs[p].pc == Idle)
      && (t.procs[p].pc == Owes <==> forall q :: 0 <= q < |t.procs| ==> t.procs[q].pc != Holder)
  {
    var t := Apply(s, Release(p));
    CountStep(s, Release(p));
    HoldersExactly(t.procs);
  }

  lemma {:induction false} HoldersExactly(procs: seq<Proc>)
    ensures Holders(procs) == 0 <==> forall q :: 0 <= q < |procs| ==> procs[q].pc != Holder
  {
    if procs != [] {
      HoldersExactly(procs[1..]);
      assert forall q :: 0 < q < |procs| ==> procs[q] == procs[1..][q - 1];
    }
  }

  /** A wake-up makes runnable exactly those who wait, and moves nobody. */
  lemma WakeReachesTheQueue(s: State, p: nat, q: nat)
    requires Enabled(s, Wake(p)) && q < |s.procs| && q != p
    ensures var t, you := Apply(s, Wake(p)), s.procs[q];
      && t.procs[q].pc == you.pc && t.procs[q].creds == you.creds && t.procs[p].pc == Idle
      && t.count == s.count && t.owner == s.owner
      && t.procs[q].woken == (you.woken || you.pc.WQueued? || you.pc.WHalf? || you.pc.WHalfOwner? || you.pc.WAsleep?)
  {
  }

  /** The process can go on by itself, without a signal. */
  ghost predicate CanGoOn(s: State, p: nat) { exists step: Step :: step.p == p && !step.Signal? && Enabled(s, step) }

  /** Everybody can but those asleep and not woken. */
  lemma CanGoOnExactlyWhen(s: State, p: nat)
    requires p < |s.procs|
    ensures CanGoOn(s, p) <==> (s.procs[p].pc.WAsleep? ==> s.procs[p].woken)
  {
    var step := match s.procs[p].pc
      case Idle => Start(p, false) case WTry(_) => LockAndTest(p, false) case WQueued => SeeCount(p)
      case WHalf => SeeOwner(p) case WHalfOwner => SeeOwnerAgain(p) case WAsleep => Rewait(p)
      case Holder => Release(p) case Owes => Wake(p);
    assert step.p == p && !step.Signal? && (Enabled(s, step) ==> CanGoOn(s, p));
  }

  predicate Possible(s: State, steps: seq<Step>)
    decreases |steps|
  {
    steps == [] || (Enabled(s, steps[0]) && Possible(Apply(s, steps[0]), steps[1..]))
  }

  function Final(s: State, steps: seq<Step>): State
    requires Possible(s, steps)
    decreases |steps|
  {
    if steps == [] then s else Final(Apply(s, steps[0]), steps[1..])
  }

  lemma {:induction false} RunKeepsInv(s: State, steps: seq<Step>)
    requires Inv(s) && Possible(s, steps)
    ensures Inv(Final(s, steps))
    decreases |steps|
  {
    if steps != [] {
      InvStep(s, steps[0]);
      RunKeepsInv(Apply(s, steps[0]), steps[1..]);
    }
  }

  lemma {:induction false} IdleHolders(procs: seq<Proc>)
    requires forall p :: 0 <= p < |procs| ==> procs[p].pc.Idle?
    ensures Holders(procs) == 0
  {
    if procs != [] {
      IdleHolders(procs[1..]);
    }
  }

  /**
    From a closed device, in every run: the counter is the number of holders; every holder is the
    owner by uid or euid, or may override; and a sleeper that could now open is owed a wake-up.
    */
  lemma BlockingOpenKeeps(s: State, steps: seq<Step>)
    requires s.count == 0 && (forall p :: 0 <= p < |s.procs| ==> s.procs[p].pc.Idle?) && Possible(s, steps)
    ensures var e := Final(s, steps);
      && e.count == Holders(e.procs)
      && (forall q :: 0 <= q < |e.procs| && e.procs[q].pc.Holder? ==>
            e.owner == e.procs[q].creds.uid || e.owner == e.procs[q].creds.euid || e.procs[q].creds.override)
      && (forall q :: 0 <= q < |e.procs| ==>
            e.procs[q].pc.WAsleep? && !e.procs[q].woken && Available(e, e.procs[q].creds) ==> SomeoneOwes(e))
  {
    IdleHolders(s.procs);
    RunKeepsInv(s, steps);
    var e := Final(s, steps);
    forall q | 0 <= q < |e.procs| && e.procs[q].pc.Holder?
      ensures e.count > 0
    {
      NoHolders(e.procs, q);
    }
    forall q | 0 <= q < |e.procs| && e.procs[q].pc.WAsleep? && !e.procs[q].woken && Available(e, e.procs[q].creds)
      ensures SomeoneOwes(e)
    {
      assert !LookSound(e, e.procs[q]);
    }
  }
}

/** The cloned device: one private device per controlling terminal, found by its key or made. */
module ClonedDevices {

  class Item {
    const key: int
    var size: nat
    var next: Item?

    constructor (key: int)
      ensures this.key == key && size == 0 && next == null
    {
      this.key, size, next := key, 0, null;
    }
  }

  class DeviceList {
    var head: Item?
    ghost var items: seq<Item>

    /** The items are linked in order and no key occurs twice. */
    ghost predicate Valid()
      reads this, items
    {
      && (items == [] ==> head == null)
      && (items != [] ==> head == items[0] && items[|items| - 1].next == null)
      && (forall i, j :: 0 <= i < |items| && 0 <= j < |items| && j == i + 1 ==> items[i].next == items[j])
      && (forall i, j :: 0 <= i < j < |items| ==> items[i].key != items[j].key)
    }

    constructor ()
      ensures Valid() && items == []
    {
      head, items := null, [];
    }

    /**
      The one device with this key. An existing one is returned and nothing changes; otherwise a
      fresh one goes to the front of the list, or, when its allocation is refused, nothing changes
      and none is returned.
      */
    method LookFor(key: int, granted: bool) returns (dev: Item?)
      requires Valid()
      modifies this`head, this`items
      ensures Valid()
      ensures (exists i :: 0 <= i < |old(items)| && old(items)[i].key == key) ==>
        items == old(items) && dev in items && dev.key == key
      ensures (forall i :: 0 <= i < |old(items)| ==> old(items)[i].key != key) ==>
        if !granted then dev == null && items == old(items)
        else dev != null && fresh(dev) && dev.key == key && dev.size == 0 && items == [dev] + old(items)
    {
      dev := head;
      ghost var i := 0;
      while dev != null
        invariant i <= |items| && dev == (if i < |items| then items[i] else null)
        invariant forall j :: 0 <= j < i ==> items[j].key != key
        decreases |items| - i
      {
        if dev.key == key {
          return;
        }
        if i + 1 < |items| {
          assert items[i].next == items[i + 1];
        }
        dev := dev.next;
        i := i + 1;
      }
      if granted {
        dev := new Item(key);
        dev.next := head;
        head := dev;
        items := [dev] + items;
      }
    }
  }
}
