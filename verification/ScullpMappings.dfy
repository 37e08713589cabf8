/**
  Mapping a page-based scull device takes several steps without the semaphore: look at the order,
  then read the count of mappings and write it back one higher. Unmapping changes the count the
  same way. Emptying the device looks at the count and later sets a new order. One step is one
  access to shared memory; any number of processes.
  */
module ScullpMappings {

  /**
    `Looked` saw order 0. `Adding` and `Removing` have read the count and not yet written it back.
    `Trimming` saw a count of zero and is freeing pages; it has not yet set the new order.
    */
  datatype Pc = Idle | Looked | Adding(saw: int) | Holding | Removing(saw: int) | Trimming
  {
    /** Has a mapping of the device. */
    predicate Maps() { Holding? || Removing? }
    /** Has one or is about to. */
    predicate WillMap() { Maps() || Looked? || Adding? }
  }

  datatype State = State(order: nat, vmas: int, procs: seq<Pc>)

  datatype Step =
    | Look(p: nat)
    | Fetch(p: nat)
    | Inherit(p: nat)
    | Count(p: nat)
    | CloseFetch(p: nat)
    | Close(p: nat)
    | TrimLook(p: nat)
    | TrimReset(p: nat, newOrder: nat)

  /** `Inherit` begins to count a copy of an existing mapping. A trim holds the semaphore, so there is one at a time. */
  predicate Enabled(s: State, step: Step) {
    && step.p < |s.procs|
    && match step
       case Look(p) => s.procs[p].Idle?
       case Fetch(p) => s.procs[p].Looked?
       case Inherit(p) => s.procs[p].Idle? && Holding in s.procs
       case Count(p) => s.procs[p].Adding?
       case CloseFetch(p) => s.procs[p].Holding?
       case Close(p) => s.procs[p].Removing?
       case TrimLook(p) => s.procs[p].Idle? && Trimming !in s.procs
       case TrimReset(p, _) => s.procs[p].Trimming?
  }

  function Apply(s: State, step: Step): State
    requires Enabled(s, step)
  {
    match step
    case Look(p) => if s.order != 0 then s else s.(procs := s.procs[p := Looked])
    case Fetch(p) => s.(procs := s.procs[p := Adding(s.vmas)])
    case Inherit(p) => s.(procs := s.procs[p := Adding(s.vmas)])
    case Count(p) => s.(vmas := s.procs[p].saw + 1, procs := s.procs[p := Holding])
    case CloseFetch(p) => s.(procs := s.procs[p := Removing(s.vmas)])
    case Close(p) => s.(vmas := s.procs[p].saw - 1, procs := s.procs[p := Idle])
    case TrimLook(p) => if s.vmas != 0 then s else s.(procs := s.procs[p := Trimming])
    case TrimReset(p, newOrder) => s.(order := newOrder, procs := s.procs[p := Idle])
  }

  // ------------------------------------------------------------------ with nobody else acting

  /** A mapping is refused exactly when the order is not 0; otherwise it is counted, and unmapping undoes it. */
  lemma MapAlone(s: State, p: nat)
    requires Enabled(s, Look(p))
    ensures s.order != 0 ==> Apply(s, Look(p)) == s
    ensures s.order == 0 ==>
      var looked := Apply(s, Look(p));
      && Enabled(looked, Fetch(p)) && Enabled(Apply(looked, Fetch(p)), Count(p))
      && var mapped := Apply(Apply(looked, Fetch(p)), Count(p));
         && mapped == State(0, s.vmas + 1, s.procs[p := Holding]) && Enabled(mapped, CloseFetch(p))
         && Enabled(Apply(mapped, CloseFetch(p)), Close(p))
         && Apply(Apply(mapped, CloseFetch(p)), Close(p)) == s
  {
    var procs := s.procs[p := Looked][p := Adding(s.vmas)][p := Holding];
    assert procs == s.procs[p := Holding];
    assert procs[p := Removing(s.vmas + 1)][p := Idle] == s.procs;
  }

  /** So is the copy of a mapping that a process inherits. */
  lemma InheritAlone(s: State, p: nat)
    requires Enabled(s, Inherit(p))
    ensures Enabled(Apply(s, Inherit(p)), Count(p))
    ensures Apply(Apply(s, Inherit(p)), Count(p)) == State(s.order, s.vmas + 1, s.procs[p := Holding])
  {
    assert s.procs[p := Adding(s.vmas)][p := Holding] == s.procs[p := Holding];
  }

  /** The semaphore keeps trims apart. */
  lemma OneTrimAtATime(s: State, step: Step)
    requires forall p, q :: 0 <= p < q < |s.procs| ==> !(s.procs[p].Trimming? && s.procs[q].Trimming?)
    requires Enabled(s, step)
    ensures var procs := Apply(s, step).procs;
      forall p, q :: 0 <= p < q < |procs| ==> !(procs[p].Trimming? && procs[q].Trimming?)
  {
  }

  /** A trim is refused exactly while mappings are counted; otherwise it sets the new order and changes nothing else. */
  lemma TrimAlone(s: State, p: nat, newOrder: nat)
    requires Enabled(s, TrimLook(p))
    ensures s.vmas != 0 ==> Apply(s, TrimLook(p)) == s
    ensures s.vmas == 0 ==>
      && Enabled(Apply(s, TrimLook(p)), TrimReset(p, newOrder))
      && Apply(Apply(s, TrimLook(p)), TrimReset(p, newOrder)) == s.(order := newOrder)
  {
    assert s.procs[p := Trimming][p := Idle] == s.procs;
  }

  // ------------------------------------------------------------------ what should hold, and when a step keeps it

  function Mappings(procs: seq<Pc>): nat {
    if procs == [] then 0 else Mappings(procs[..|procs| - 1]) + if procs[|procs| - 1].Maps() then 1 else 0
  }

  predicate SomeoneMaps(s: State) { exists i :: 0 <= i < |s.procs| && s.procs[i].Maps() }

  predicate SomeoneWillMap(s: State) { exists i :: 0 <= i < |s.procs| && s.procs[i].WillMap() }

  /** The count is the number of mappings. */
  predicate Counted(s: State) { s.vmas == Mappings(s.procs) }

  /** Whoever maps the device, or is about to, has a device of order 0. */
  predicate OrderSound(s: State) { SomeoneWillMap(s) ==> s.order == 0 }

  /** Nobody frees pages while somebody maps the device. */
  predicate Apart(s: State) { !(SomeoneMaps(s) && Trimming in s.procs) }

  /** The count has changed since this step's process read it. */
  predicate LosesCount(s: State, step: Step)
    requires Enabled(s, step)
  {
    (step.Count? || step.Close?) && s.procs[step.p].saw != s.vmas
  }

  /** A mapping is counted while a trim is under way. */
  predicate CountsDuringTrim(s: State, step: Step) { step.Count? && Trimming in s.procs }

  /** A trim sets another order although a mapping exists or is under way. */
  predicate Overtaken(s: State, step: Step) { step.TrimReset? && step.newOrder != 0 && SomeoneWillMap(s) }

  lemma {:induction false} MappingsUpdate(procs: seq<Pc>, p: nat, pc: Pc)
    requires p < |procs|
    ensures Mappings(procs[p := pc]) == Mappings(procs) + (if pc.Maps() then 1 else 0) - if procs[p].Maps() then 1
      else 0
  {
    var last := |procs| - 1;
    if p < last {
      MappingsUpdate(procs[..last], p, pc);
      assert procs[p := pc][..last] == procs[..last][p := pc];
    } else {
      assert procs[p := pc][..last] == procs[..last];
    }
  }

  lemma {:induction false} MappingsPositive(procs: seq<Pc>)
    ensures Mappings(procs) > 0 <==> exists i :: 0 <= i < |procs| && procs[i].Maps()
  {
    if procs != [] {
      var last := |procs| - 1;
      MappingsPositive(procs[..last]);
      if i :| 0 <= i < last && procs[i].Maps() {
        assert procs[..last][i].Maps();
      }
    }
  }

  /** A step keeps the count right exactly when it does not write back a stale one. */
  lemma CountedStepExactlyWhen(s: State, step: Step)
    requires Counted(s) && Enabled(s, step)
    ensures Counted(Apply(s, step)) <==> !LosesCount(s, step)
  {
    MappingsUpdate(s.procs, step.p, Apply(s, step).procs[step.p]);
    assert s.procs[step.p := s.procs[step.p]] == s.procs;
  }

  /**
    A step makes the order of a device that is mapped, or about to be, non-zero exactly when it is
    an overtaken reset.
    */
  lemma OrderSoundStepExactlyWhen(s: State, step: Step)
    requires OrderSound(s) && Enabled(s, step)
    ensures OrderSound(Apply(s, step)) <==> !Overtaken(s, step)
  {
    var t := Apply(s, step);
    assert forall i :: 0 <= i < |s.procs| && i != step.p ==> t.procs[i] == s.procs[i];
    if step.TrimReset? {
      assert forall i :: 0 <= i < |s.procs| ==> (t.procs[i].WillMap() <==> s.procs[i].WillMap());
    } else if step.Inherit? {
      var i := FindPc(s.procs, Holding);
      assert s.procs[i].WillMap();
    } else if !step.Look? && !step.TrimLook? {
      assert s.procs[step.p].WillMap();
    }
  }

  lemma FindPc(procs: seq<Pc>, pc: Pc) returns (i: nat)
    requires pc in procs
    ensures i < |procs| && procs[i] == pc
  {
    i :| 0 <= i < |procs| && procs[i] == pc;
  }

  /** With the count right, a step lets pages be freed under a mapping exactly when it counts one during a trim. */
  lemma ApartStepExactlyWhen(s: State, step: Step)
    requires Counted(s) && Apart(s) && Enabled(s, step)
    ensures Apart(Apply(s, step)) <==> !CountsDuringTrim(s, step)
  {
    var t := Apply(s, step);
    MappingsPositive(s.procs);
    assert forall i :: 0 <= i < |s.procs| && i != step.p ==> t.procs[i] == s.procs[i];
    if CountsDuringTrim(s, step) {
      var i := FindPc(s.procs, Trimming);
      assert t.procs[i].Trimming? && t.procs[step.p].Maps();
    } else if Trimming in t.procs && !step.TrimLook? {
      var i := FindPc(t.procs, Trimming);
      assert s.procs[i].Trimming?;
    }
  }

  // ------------------------------------------------------------------ runs

  predicate Possible(s: State, steps: seq<Step>)
    decreases |steps|
  {
    steps != [] ==> Enabled(s, steps[0]) && Possible(Apply(s, steps[0]), steps[1..])
  }

  function Final(s: State, steps: seq<Step>): State
    requires Possible(s, steps)
    decreases |steps|
  {
    if steps == [] then s else Final(Apply(s, steps[0]), steps[1..])
  }

  /** No step of the run writes back a stale count. */
  predicate NoStaleCount(s: State, steps: seq<Step>)
    requires Possible(s, steps)
    decreases |steps|
  {
    steps != [] ==> !LosesCount(s, steps[0]) && NoStaleCount(Apply(s, steps[0]), steps[1..])
  }

  /** No step of the run counts a mapping during a trim. */
  predicate NoCountDuringTrim(s: State, steps: seq<Step>)
    requires Possible(s, steps)
    decreases |steps|
  {
    steps != [] ==> !CountsDuringTrim(s, steps[0]) && NoCountDuringTrim(Apply(s, steps[0]), steps[1..])
  }

  /** No reset of the run is overtaken. */
  predicate NeverOvertaken(s: State, steps: seq<Step>)
    requires Possible(s, steps)
    decreases |steps|
  {
    steps != [] ==> !Overtaken(s, steps[0]) && NeverOvertaken(Apply(s, steps[0]), steps[1..])
  }

  predicate AlwaysCounted(s: State, steps: seq<Step>)
    requires Possible(s, steps)
    decreases |steps|
  {
    Counted(s) && (steps != [] ==> AlwaysCounted(Apply(s, steps[0]), steps[1..]))
  }

  predicate AlwaysApart(s: State, steps: seq<Step>)
    requires Possible(s, steps)
    decreases |steps|
  {
    Apart(s) && (steps != [] ==> AlwaysApart(Apply(s, steps[0]), steps[1..]))
  }

  predicate AlwaysOrderSound(s: State, steps: seq<Step>)
    requires Possible(s, steps)
    decreases |steps|
  {
    OrderSound(s) && (steps != [] ==> AlwaysOrderSound(Apply(s, steps[0]), steps[1..]))
  }

  lemma {:induction false} CountedExactlyWhen(s: State, steps: seq<Step>)
    requires Possible(s, steps) && Counted(s)
    ensures AlwaysCounted(s, steps) <==> NoStaleCount(s, steps)
    decreases |steps|
  {
    if steps != [] {
      CountedStepExactlyWhen(s, steps[0]);
      if Counted(Apply(s, steps[0])) {
        CountedExactlyWhen(Apply(s, steps[0]), steps[1..]);
      }
    }
  }

  lemma {:induction false} OrderSoundExactlyWhen(s: State, steps: seq<Step>)
    requires Possible(s, steps) && OrderSound(s)
    ensures AlwaysOrderSound(s, steps) <==> NeverOvertaken(s, steps)
    decreases |steps|
  {
    if steps != [] {
      OrderSoundStepExactlyWhen(s, steps[0]);
      if OrderSound(Apply(s, steps[0])) {
        OrderSoundExactlyWhen(Apply(s, steps[0]), steps[1..]);
      }
    }
  }

  lemma {:induction false} ApartExactlyWhen(s: State, steps: seq<Step>)
    requires Possible(s, steps) && Counted(s) && NoStaleCount(s, steps) && Apart(s)
    ensures AlwaysApart(s, steps) <==> NoCountDuringTrim(s, steps)
    decreases |steps|
  {
    if steps != [] {
      CountedStepExactlyWhen(s, steps[0]);
      ApartStepExactlyWhen(s, steps[0]);
      if Apart(Apply(s, steps[0])) {
        ApartExactlyWhen(Apply(s, steps[0]), steps[1..]);
      }
    }
  }

  lemma {:induction false} AtTheEnd(s: State, steps: seq<Step>)
    requires Possible(s, steps)
    ensures AlwaysCounted(s, steps) ==> Counted(Final(s, steps))
    ensures AlwaysApart(s, steps) ==> Apart(Final(s, steps))
    ensures AlwaysOrderSound(s, steps) ==> OrderSound(Final(s, steps))
    decreases |steps|
  {
    if steps != [] {
      AtTheEnd(Apply(s, steps[0]), steps[1..]);
    }
  }

  predicate Start(s: State) {
    s.vmas == 0 && forall i :: 0 <= i < |s.procs| ==> s.procs[i].Idle?
  }

  lemma StartIsGood(s: State)
    requires Start(s)
    ensures Counted(s) && Apart(s) && OrderSound(s)
  {
    MappingsPositive(s.procs);
  }

  /**
    Over every run the count is right all along exactly when no stale count is written back; if so,
    no page is freed under a mapping exactly when no mapping is counted during a trim; and a device
    that is mapped, or about to be, has order 0 all along exactly when no reset is overtaken.
    */
  lemma MappingIsSafeExactlyWhen(s: State, steps: seq<Step>)
    requires Start(s) && Possible(s, steps)
    ensures AlwaysCounted(s, steps) <==> NoStaleCount(s, steps)
    ensures NoStaleCount(s, steps) ==> (AlwaysApart(s, steps) <==> NoCountDuringTrim(s, steps))
    ensures AlwaysOrderSound(s, steps) <==> NeverOvertaken(s, steps)
  {
    StartIsGood(s);
    CountedExactlyWhen(s, steps);
    OrderSoundExactlyWhen(s, steps);
    if NoStaleCount(s, steps) {
      ApartExactlyWhen(s, steps);
    }
  }

  /** At the end of such a run a mapped device has order 0, nobody is freeing its pages, and nobody can begin to. */
  lemma MappedDevicesAreLeftAlone(s: State, steps: seq<Step>)
    requires Start(s) && Possible(s, steps)
    requires NoStaleCount(s, steps) && NoCountDuringTrim(s, steps) && NeverOvertaken(s, steps)
    ensures var t := Final(s, steps);
      SomeoneMaps(t) ==> t.order == 0 && Trimming !in t.procs && forall p :: Enabled(t, TrimLook(p)) ==>
        Apply(t, TrimLook(p)) == t
  {
    MappingIsSafeExactlyWhen(s, steps);
    AtTheEnd(s, steps);
    MappingsPositive(Final(s, steps).procs);
  }

  // ------------------------------------------------------------------ each condition is needed

  lemma Take(s: State, step: Step, rest: seq<Step>)
    requires Enabled(s, step) && Possible(Apply(s, step), rest)
    ensures Possible(s, [step] + rest) && Final(s, [step] + rest) == Final(Apply(s, step), rest)
  {
    assert ([step] + rest)[1..] == rest;
  }

  /** A mapping looks while a trim is between its look and its reset; the trim then sets order 2. */
  lemma MappingCanOvertakeTrim()
    ensures var s, steps := State(0, 0, [Idle, Idle]), [TrimLook(0), Look(1), TrimReset(0, 2), Fetch(1), Count(1)];
      Start(s) && Possible(s, steps) && Final(s, steps) == State(2, 1, [Idle, Holding])
  {
    var s := State(0, 0, [Idle, Idle]);
    var s1, s2, s3 := State(0, 0, [Trimming, Idle]), State(0, 0, [Trimming, Looked]), State(2, 0, [Idle, Looked]);
    var s4 := State(2, 0, [Idle, Adding(0)]);
    Take(s4, Count(1), []);
    Take(s3, Fetch(1), [Count(1)]);
    Take(s2, TrimReset(0, 2), [Fetch(1), Count(1)]);
    Take(s1, Look(1), [TrimReset(0, 2), Fetch(1), Count(1)]);
    Take(s, TrimLook(0), [Look(1), TrimReset(0, 2), Fetch(1), Count(1)]);
  }

  /** A mapping is counted while a trim is freeing the pages. */
  lemma TrimCanFreeUnderAMapping()
    ensures var s, steps := State(0, 0, [Idle, Idle]), [TrimLook(0), Look(1), Fetch(1), Count(1)];
      Start(s) && Possible(s, steps) && Final(s, steps) == State(0, 1, [Trimming, Holding])
  {
    var s := State(0, 0, [Idle, Idle]);
    var s1, s2, s3 := State(0, 0, [Trimming, Idle]), State(0, 0, [Trimming, Looked]),
      State(0, 0, [Trimming, Adding(0)]);
    Take(s3, Count(1), []);
    Take(s2, Fetch(1), [Count(1)]);
    Take(s1, Look(1), [Fetch(1), Count(1)]);
    Take(s, TrimLook(0), [Look(1), Fetch(1), Count(1)]);
  }

  lemma {:induction false} Join(s: State, a: seq<Step>, b: seq<Step>)
    requires Possible(s, a) && Possible(Final(s, a), b)
    ensures Possible(s, a + b) && Final(s, a + b) == Final(Final(s, a), b)
    decreases |a|
  {
    if a == [] {
      assert a + b == b;
    } else {
      assert (a + b)[0] == a[0] && (a + b)[1..] == a[1..] + b;
      Join(Apply(s, a[0]), a[1..], b);
    }
  }

  lemma BothLook()
    ensures var s, steps := State(0, 0, [Idle, Idle]), [Look(0), Look(1), Fetch(0)];
      Possible(s, steps) && Final(s, steps) == State(0, 0, [Adding(0), Looked])
  {
    var s := State(0, 0, [Idle, Idle]);
    var s1, s2 := State(0, 0, [Looked, Idle]), State(0, 0, [Looked, Looked]);
    Take(s2, Fetch(0), []);
    Take(s1, Look(1), [Fetch(0)]);
    Take(s, Look(0), [Look(1), Fetch(0)]);
  }

  lemma BothCount()
    ensures var s, steps := State(0, 0, [Adding(0), Looked]), [Fetch(1), Count(0), Count(1)];
      Possible(s, steps) && Final(s, steps) == State(0, 1, [Holding, Holding])
  {
    var s := State(0, 0, [Adding(0), Looked]);
    var s1, s2 := State(0, 0, [Adding(0), Adding(0)]), State(0, 1, [Holding, Adding(0)]);
    Take(s2, Count(1), []);
    Take(s1, Count(0), [Count(1)]);
    Take(s, Fetch(1), [Count(0), Count(1)]);
  }

  lemma OneUnmapsAndTrims()
    ensures var s, steps := State(0, 1, [Holding, Holding]), [CloseFetch(0), Close(0), TrimLook(0)];
      Possible(s, steps) && Final(s, steps) == State(0, 0, [Trimming, Holding])
  {
    var s := State(0, 1, [Holding, Holding]);
    var s1, s2 := State(0, 1, [Removing(1), Holding]), State(0, 0, [Idle, Holding]);
    Take(s2, TrimLook(0), []);
    Take(s1, Close(0), [TrimLook(0)]);
    Take(s, CloseFetch(0), [Close(0), TrimLook(0)]);
  }

  /**
    Two processes count at once and one of them unmaps: the count is zero, and a trim begins under
    the other's mapping.
    */
  lemma CountCanBeLost()
    ensures var s := State(0, 0, [Idle, Idle]);
      var steps := [Look(0), Look(1), Fetch(0)]
        + ([Fetch(1), Count(0), Count(1)] + [CloseFetch(0), Close(0), TrimLook(0)]);
      Start(s) && Possible(s, steps) && Final(s, steps) == State(0, 0, [Trimming, Holding])
  {
    BothLook();
    BothCount();
    OneUnmapsAndTrims();
    Join(State(0, 0, [Adding(0), Looked]), [Fetch(1), Count(0), Count(1)], [CloseFetch(0), Close(0), TrimLook(0)]);
    Join(State(0, 0, [Idle, Idle]), [Look(0), Look(1), Fetch(0)],
         [Fetch(1), Count(0), Count(1)] + [CloseFetch(0), Close(0), TrimLook(0)]);
  }
}
