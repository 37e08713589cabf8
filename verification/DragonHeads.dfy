/** UVA 11292: hire the cheapest knights to cut off every dragon head. */
module DragonHeads {
  import opened Sorting

  datatype Verdict = Doomed | Pay(money: int)

  /** One hired knight and the head he cuts: strong enough, and paid his strength. */
  datatype Hire = Hire(head: int, knight: int)

  function HeadsOf(hires: seq<Hire>): multiset<int> {
    if hires == [] then multiset{} else multiset{hires[0].head} + HeadsOf(hires[1..])
  }

  function KnightsOf(hires: seq<Hire>): multiset<int> {
    if hires == [] then multiset{} else multiset{hires[0].knight} + KnightsOf(hires[1..])
  }

  function Cost(hires: seq<Hire>): int {
    if hires == [] then 0 else hires[0].knight + Cost(hires[1..])
  }

  /** Every head is cut by a strong enough knight, and no knight is used more often than he is there. */
  predicate Plan(hires: seq<Hire>, heads: multiset<int>, knights: multiset<int>) {
    && (forall h :: h in hires ==> h.knight >= h.head)
    && HeadsOf(hires) == heads
    && KnightsOf(hires) <= knights
  }

  /** The two-pointer loop, with `d` the heads and `k` the knights not yet passed. */
  function Greedy(d: seq<int>, k: seq<int>, money: int): Verdict {
    if d == [] then Pay(money)
    else if k == [] then Doomed
    else if k[0] >= d[0] then Greedy(d[1..], k[1..], money + k[0])
    else Greedy(d, k[1..], money)
  }

  predicate Sorted(s: seq<int>) { forall i, j :: 0 <= i < j < |s| ==> s[i] <= s[j] }

  lemma {:induction false} RemoveHead(hires: seq<Hire>, i: nat)
    requires i < |hires|
    ensures HeadsOf(hires) == multiset{hires[i].head} + HeadsOf(Without(hires, i))
  {
    if i == 0 {
      assert Without(hires, 0) == hires[1..];
    } else {
      RemoveHead(hires[1..], i - 1);
      assert Without(hires, i)[1..] == Without(hires[1..], i - 1);
    }
  }

  lemma {:induction false} RemoveKnight(hires: seq<Hire>, i: nat)
    requires i < |hires|
    ensures KnightsOf(hires) == multiset{hires[i].knight} + KnightsOf(Without(hires, i))
  {
    if i == 0 {
      assert Without(hires, 0) == hires[1..];
    } else {
      RemoveKnight(hires[1..], i - 1);
      assert Without(hires, i)[1..] == Without(hires[1..], i - 1);
    }
  }

  lemma {:induction false} RemovePay(hires: seq<Hire>, i: nat)
    requires i < |hires|
    ensures Cost(hires) == hires[i].knight + Cost(Without(hires, i))
  {
    if i == 0 {
      assert Without(hires, 0) == hires[1..];
    } else {
      RemovePay(hires[1..], i - 1);
      assert Without(hires, i)[1..] == Without(hires[1..], i - 1);
    }
  }

  /** Removing one hire removes its head, its knight and its pay. */
  lemma RemoveHire(hires: seq<Hire>, i: nat)
    requires i < |hires|
    ensures HeadsOf(hires) == multiset{hires[i].head} + HeadsOf(Without(hires, i))
    ensures KnightsOf(hires) == multiset{hires[i].knight} + KnightsOf(Without(hires, i))
    ensures Cost(hires) == hires[i].knight + Cost(Without(hires, i))
    ensures forall h :: h in Without(hires, i) ==> h in hires
  {
    RemoveHead(hires, i);
    RemoveKnight(hires, i);
    RemovePay(hires, i);
  }

  lemma Cancel(a: multiset<int>, b: multiset<int>, x: int)
    requires multiset{x} + a == multiset{x} + b
    ensures a == b
  {
    assert a == (multiset{x} + a) - multiset{x};
    assert b == (multiset{x} + b) - multiset{x};
  }

  lemma SubCancel(a: multiset<int>, b: multiset<int>, x: int)
    requires multiset{x} + a <= multiset{x} + b
    ensures a <= b
  {
    forall y
      ensures a[y] <= b[y]
    {
      assert (multiset{x} + a)[y] <= (multiset{x} + b)[y];
    }
  }

  lemma SubDrop(a: multiset<int>, b: multiset<int>, x: int)
    requires a <= multiset{x} + b && x !in a
    ensures a <= b
  {
    forall y
      ensures a[y] <= b[y]
    {
      assert a[y] <= (multiset{x} + b)[y];
    }
  }

  lemma {:induction false} HireOf(hires: seq<Hire>, head: int) returns (i: nat)
    requires head in HeadsOf(hires)
    ensures i < |hires| && hires[i].head == head
  {
    if hires[0].head == head {
      i := 0;
    } else {
      i := HireOf(hires[1..], head);
      i := i + 1;
    }
  }

  lemma {:induction false} HirerOf(hires: seq<Hire>, knight: int) returns (i: nat)
    requires knight in KnightsOf(hires)
    ensures i < |hires| && hires[i].knight == knight
  {
    if hires[0].knight == knight {
      i := 0;
    } else {
      i := HirerOf(hires[1..], knight);
      i := i + 1;
    }
  }

  /** Every knight in a plan is strong enough for the smallest head. */
  lemma StrongEnough(hires: seq<Hire>, d: seq<int>, knights: multiset<int>, x: int)
    requires Sorted(d) && Plan(hires, multiset(d), knights) && x in KnightsOf(hires)
    ensures d != [] && x >= d[0]
  {
    var i := HirerOf(hires, x);
    RemoveHire(hires, i);
    var j := PlaceIn(d, hires[i].head);
  }

  /** A knight too weak for the smallest head takes no part in any plan. */
  lemma WeakKnightUnused(hires: seq<Hire>, d: seq<int>, k: seq<int>)
    requires Sorted(d) && d != [] && k != [] && k[0] < d[0]
    requires Plan(hires, multiset(d), multiset(k))
    ensures Plan(hires, multiset(d), multiset(k[1..]))
  {
    HeadMultiset(k);
    if k[0] in KnightsOf(hires) {
      StrongEnough(hires, d, multiset(k), k[0]);
    }
  }

  /** Two hires trade knights when the one on the smallest head is stronger than need be. */
  lemma Trade(rest: seq<Hire>, weak: int, x: int) returns (traded: seq<Hire>)
    requires weak in KnightsOf(rest) && weak <= x
    requires forall h :: h in rest ==> h.knight >= h.head
    ensures forall h :: h in traded ==> h.knight >= h.head
    ensures HeadsOf(traded) == HeadsOf(rest)
    ensures multiset{weak} + KnightsOf(traded) == multiset{x} + KnightsOf(rest)
    ensures weak + Cost(traded) == x + Cost(rest)
  {
    var j := HirerOf(rest, weak);
    RemoveHire(rest, j);
    var others := Without(rest, j);
    traded := [Hire(rest[j].head, x)] + others;
    assert traded[1..] == others;
  }

  /**
    The exchange: any plan can be changed, at no extra cost, into one that gives the smallest head
    to the weakest knight able to take it; what remains is a plan for the rest.
    */
  lemma Exchange(hires: seq<Hire>, d: seq<int>, k: seq<int>) returns (rest: seq<Hire>)
    requires Sorted(k) && d != [] && k != [] && k[0] >= d[0]
    requires Plan(hires, multiset(d), multiset(k))
    ensures Plan(rest, multiset(d[1..]), multiset(k[1..]))
    ensures k[0] + Cost(rest) <= Cost(hires)
  {
    HeadMultiset(d);
    HeadMultiset(k);
    var i := HireOf(hires, d[0]);
    var x := hires[i].knight;
    RemoveHire(hires, i);
    rest := Without(hires, i);
    Cancel(HeadsOf(rest), multiset(d[1..]), d[0]);
    WeakestKnight(k, x);
    if k[0] in KnightsOf(rest) {
      rest := Trade(rest, k[0], x);
      SubCancel(KnightsOf(rest), multiset(k[1..]), k[0]);
    } else {
      SubDrop(KnightsOf(rest), multiset(k[1..]), k[0]);
    }
  }

  lemma WeakestKnight(k: seq<int>, x: int)
    requires Sorted(k) && x in multiset(k)
    ensures k != [] && k[0] <= x
  {
    var place := PlaceIn(k, x);
  }

  /** The greedy finds a plan whenever there is one, and no plan is cheaper. */
  lemma {:induction false} GreedyBeatsPlans(hires: seq<Hire>, d: seq<int>, k: seq<int>, money: int)
    requires Sorted(d) && Sorted(k) && Plan(hires, multiset(d), multiset(k))
    ensures Greedy(d, k, money).Pay? && Greedy(d, k, money).money <= money + Cost(hires)
    decreases |k|
  {
    hide Plan, HeadsOf, KnightsOf;
    if d == [] {
      NoHeadsNoHires(hires, multiset(k));
    } else if k == [] {
      NoKnightsNoPlan(hires, d);
    } else if k[0] >= d[0] {
      var rest := Exchange(hires, d, k);
      GreedyBeatsPlans(rest, d[1..], k[1..], money + k[0]);
    } else {
      WeakKnightUnused(hires, d, k);
      GreedyBeatsPlans(hires, d, k[1..], money);
    }
  }

  lemma NoKnightsNoPlan(hires: seq<Hire>, d: seq<int>)
    requires d != []
    ensures !Plan(hires, multiset(d), multiset([]))
  {
    PlanSize(hires);
  }

  lemma NoHeadsNoHires(hires: seq<Hire>, knights: multiset<int>)
    requires Plan(hires, multiset([]), knights)
    ensures hires == []
  {
    PlanSize(hires);
  }

  /** What the greedy pays is the cost of an actual plan. */
  lemma {:induction false} GreedyIsAPlan(d: seq<int>, k: seq<int>, money: int) returns (hires: seq<Hire>)
    requires Greedy(d, k, money).Pay?
    ensures Plan(hires, multiset(d), multiset(k)) && Greedy(d, k, money).money == money + Cost(hires)
    decreases |k|
  {
    if d == [] {
      hires := [];
    } else {
      HeadMultiset(d);
      HeadMultiset(k);
      if k[0] >= d[0] {
        var rest := GreedyIsAPlan(d[1..], k[1..], money + k[0]);
        hires := [Hire(d[0], k[0])] + rest;
        assert hires[1..] == rest;
      } else {
        hires := GreedyIsAPlan(d, k[1..], money);
      }
    }
  }

  ghost predicate Answers(v: Verdict, heads: multiset<int>, knights: multiset<int>) {
    match v
    case Doomed => forall hires :: !Plan(hires, heads, knights)
    case Pay(money) =>
      && (exists hires :: Plan(hires, heads, knights) && Cost(hires) == money)
      && (forall hires :: Plan(hires, heads, knights) ==> money <= Cost(hires))
  }

  /** No heads cost nothing. */
  lemma NoHeadsAreFree(v: Verdict, knights: multiset<int>)
    requires Answers(v, multiset{}, knights)
    ensures v == Pay(0)
  {
    assert Plan([], multiset{}, knights);
    match v
    case Doomed =>
    case Pay(money) =>
      var hires :| Plan(hires, multiset{}, knights) && Cost(hires) == money;
      PlanSize(hires);
  }

  lemma OnlyHire(hires: seq<Hire>, head: int, knight: int)
    requires Plan(hires, multiset{head}, multiset{knight})
    ensures hires == [Hire(head, knight)] && knight >= head && Cost(hires) == knight
  {
    PlanSize(hires);
    assert hires == [hires[0]] && hires[1..] == [];
    assert HeadsOf(hires) == multiset{hires[0].head} && KnightsOf(hires) == multiset{hires[0].knight};
    assert hires[0].head in multiset{head};
    assert hires[0].knight in KnightsOf(hires) && hires[0].knight in multiset{knight};
  }

  lemma HireHim(head: int, knight: int)
    requires knight >= head
    ensures Plan([Hire(head, knight)], multiset{head}, multiset{knight})
  {
    assert [Hire(head, knight)][1..] == [];
  }

  /** One knight can cut one head exactly when he is at least as strong as that is big, and is paid his strength. */
  lemma OneHeadOneKnight(v: Verdict, head: int, knight: int)
    requires Answers(v, multiset{head}, multiset{knight})
    ensures v == if knight >= head then Pay(knight) else Doomed
  {
    hide Plan, Cost;
    if knight >= head {
      HireHim(head, knight);
    }
    if v.Pay? {
      var hires :| Plan(hires, multiset{head}, multiset{knight}) && Cost(hires) == v.money;
      OnlyHire(hires, head, knight);
    }
  }

  lemma GreedyAnswers(d: seq<int>, k: seq<int>)
    requires Sorted(d) && Sorted(k)
    ensures Answers(Greedy(d, k, 0), multiset(d), multiset(k))
  {
    forall hires | Plan(hires, multiset(d), multiset(k))
      ensures Greedy(d, k, 0).Pay? && Greedy(d, k, 0).money <= Cost(hires)
    {
      GreedyBeatsPlans(hires, d, k, 0);
    }
    if Greedy(d, k, 0).Pay? {
      var hires := GreedyIsAPlan(d, k, 0);
      assert Plan(hires, multiset(d), multiset(k)) && Cost(hires) == Greedy(d, k, 0).money;
    }
  }

  lemma {:induction false} PlanSize(hires: seq<Hire>)
    ensures |HeadsOf(hires)| == |KnightsOf(hires)| == |hires|
  {
    if hires != [] {
      PlanSize(hires[1..]);
    }
  }

  /** The two-pointer loop over sorted heads and knights. */
  method HireInOrder(dra: array<int>, loo: array<int>) returns (v: Verdict)
    ensures v == Greedy(dra[..], loo[..], 0)
  {
    var n, m := dra.Length, loo.Length;
    var i, j, money := 0, 0, 0;
    while i < n && j < m
      invariant i <= n && j <= m
      invariant Greedy(dra[i..], loo[j..], money) == Greedy(dra[..], loo[..], 0)
    {
      if loo[j] >= dra[i] {
        money := money + loo[j];
        i := i + 1;
      }
      j := j + 1;
    }
    v := if i != n then Doomed else Pay(money);
  }

  /** One input case: the verdict printed is doom exactly when no plan exists, else the least pay of any plan. */
  method Solve(dra: array<int>, loo: array<int>) returns (v: Verdict)
    requires dra != loo
    modifies dra, loo
    ensures Answers(v, multiset(old(dra[..])), multiset(old(loo[..])))
  {
    hide Answers, Greedy;
    ghost var heads, knights := multiset(dra[..]), multiset(loo[..]);
    if dra.Length > loo.Length {
      TooFewKnights(heads, knights);
      return Doomed;
    }
    Sort(dra, x => x);
    Sort(loo, x => x);
    GreedyAnswers(dra[..], loo[..]);
    v := HireInOrder(dra, loo);
  }

  lemma TooFewKnights(heads: multiset<int>, knights: multiset<int>)
    requires |heads| > |knights|
    ensures Answers(Doomed, heads, knights)
  {
    forall hires
      ensures !Plan(hires, heads, knights)
    {
      PlanSize(hires);
      if Plan(hires, heads, knights) {
        SubMultisetSize(KnightsOf(hires), knights);
      }
    }
  }

  lemma SubMultisetSize(a: multiset<int>, b: multiset<int>)
    requires a <= b
    ensures |a| <= |b|
  {
    assert b == a + (b - a);
  }
}
