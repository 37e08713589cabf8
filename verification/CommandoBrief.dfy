/** UVA 11729: brief soldiers one by one, each then working on his own; finish as early as possible. */
module CommandoBrief {
  import opened Bytes
  import opened Sorting

  /** `wait` minutes of briefing, then `work` minutes of work. */
  datatype Node = Node(wait: int, work: int)

  /** The loop over one case: `sum` is the briefing time so far, `ans` the latest finish so far. */
  function Latest(order: seq<Node>, sum: int, ans: int): int {
    if order == [] then ans
    else
      var s := sum + order[0].wait;
      Latest(order[1..], s, Max(ans, s + order[0].work))
  }

  /** How long the first `k` briefings take. */
  function Briefing(order: seq<Node>, k: nat): int
    requires k <= |order|
  {
    if k == 0 then 0 else Briefing(order, k - 1) + order[k - 1].wait
  }

  lemma {:induction false} BriefingOfRest(order: seq<Node>, k: nat)
    requires k < |order|
    ensures Briefing(order, k + 1) == order[0].wait + Briefing(order[1..], k)
  {
    if k > 0 {
      BriefingOfRest(order, k - 1);
    }
  }

  /** The largest of `ans` and of each soldier's own finish: when he has been briefed, and then his work. */
  lemma {:induction false} LatestIsTheLargest(order: seq<Node>, sum: int, ans: int)
    ensures ans <= Latest(order, sum, ans)
    ensures forall i :: 0 <= i < |order| ==> sum + Briefing(order, i + 1) + order[i].work <= Latest(order, sum, ans)
    ensures Latest(order, sum, ans) == ans || exists i ::
      0 <= i < |order| && sum + Briefing(order, i + 1) + order[i].work == Latest(order, sum, ans)
    decreases |order|
  {
    if order != [] {
      var s, rest := sum + order[0].wait, order[1..];
      var ans' := Max(ans, s + order[0].work);
      LatestIsTheLargest(rest, s, ans');
      BriefingOfRest(order, 0);
      forall i | 0 <= i < |rest|
        ensures sum + Briefing(order, i + 2) + order[i + 1].work == s + Briefing(rest, i + 1) + rest[i].work
      {
        BriefingOfRest(order, i + 1);
      }
      if Latest(rest, s, ans') != ans' {
        var i :| 0 <= i < |rest| && s + Briefing(rest, i + 1) + rest[i].work == Latest(rest, s, ans');
        assert sum + Briefing(order, i + 2) + order[i + 1].work == Latest(order, sum, ans);
      }
      forall i | 0 < i < |order|
        ensures sum + Briefing(order, i + 1) + order[i].work <= Latest(order, sum, ans)
      {
        assert sum + Briefing(order, (i - 1) + 2) + order[(i - 1) + 1].work == s + Briefing(rest, i) + rest[i - 1].work;
      }
    }
  }

  /** The comparator puts longer work first. */
  function Rank(x: Node): int { -x.work }

  predicate Patient(order: seq<Node>) { forall x :: x in order ==> x.wait >= 0 }

  lemma {:induction false} LatestMonotone(order: seq<Node>, sum: int, ans: int, ans': int)
    requires ans <= ans'
    ensures ans <= Latest(order, sum, ans) <= Latest(order, sum, ans')
    decreases |order|
  {
    if order != [] {
      var s := sum + order[0].wait;
      LatestMonotone(order[1..], s, Max(ans, s + order[0].work), Max(ans', s + order[0].work));
    }
  }

  /** Starting from a later `ans` only raises the result to it. */
  lemma {:induction false} LatestIsMax(order: seq<Node>, sum: int, ans: int, more: int)
    ensures Latest(order, sum, Max(ans, more)) == Max(Latest(order, sum, ans), more)
    decreases |order|
  {
    if order != [] {
      var s := sum + order[0].wait;
      LatestIsMax(order[1..], s, Max(ans, s + order[0].work), more);
    }
  }

  /** Briefing the longer worker before a neighbour with less work finishes no later. */
  lemma SwapNeighbours(x: Node, y: Node, rest: seq<Node>, sum: int, ans: int)
    requires x.work <= y.work && x.wait >= 0 && y.wait >= 0
    ensures Latest([y, x] + rest, sum, ans) <= Latest([x, y] + rest, sum, ans)
  {
    var s := sum + x.wait + y.wait;
    assert ([x, y] + rest)[1..] == [y] + rest && ([y, x] + rest)[1..] == [x] + rest;
    assert ([y] + rest)[1..] == rest && ([x] + rest)[1..] == rest;
    var ansXY := Max(Max(ans, sum + x.wait + x.work), s + y.work);
    var ansYX := Max(Max(ans, sum + y.wait + y.work), s + x.work);
    LatestMonotone(rest, s, ansYX, ansXY);
  }

  lemma LatestStep(x: Node, rest: seq<Node>, sum: int, ans: int)
    ensures Latest([x] + rest, sum, ans) == Latest(rest, sum + x.wait, Max(ans, sum + x.wait + x.work))
  {
    assert ([x] + rest)[1..] == rest;
  }

  /** So does moving him to the very front past people who all have less work. */
  lemma {:induction false} MoveToFront(before: seq<Node>, x: Node, after: seq<Node>, sum: int, ans: int)
    requires x.wait >= 0 && Patient(before) && forall y :: y in before ==> y.work <= x.work
    ensures Latest([x] + before + after, sum, ans) <= Latest(before + [x] + after, sum, ans)
    decreases |before|
  {
    hide Latest;
    if before == [] {
      assert [x] + before + after == before + [x] + after;
    } else {
      var y, tail := before[0], before[1..];
      MoveToFront(tail, x, after, sum + y.wait, Max(ans, sum + y.wait + y.work));
      LatestStep(y, tail + [x] + after, sum, ans);
      LatestStep(y, [x] + tail + after, sum, ans);
      assert before + [x] + after == [y] + (tail + [x] + after);
      SwapNeighbours(y, x, tail + after, sum, ans);
      assert [y, x] + (tail + after) == [y] + ([x] + tail + after);
      assert [x, y] + (tail + after) == [x] + before + after;
    }
  }

  /** Briefing someone first whose work nobody exceeds finishes no later. */
  lemma PullToFront(order: seq<Node>, i: nat, sum: int, ans: int)
    requires i < |order| && Patient(order) && forall y :: y in order ==> y.work <= order[i].work
    ensures Latest([order[i]] + Without(order, i), sum, ans) <= Latest(order, sum, ans)
  {
    var before, x, after := order[..i], order[i], order[i + 1..];
    assert order == before + [x] + after && [x] + Without(order, i) == [x] + before + after;
    MoveToFront(before, x, after, sum, ans);
  }

  lemma TakeSame<T>(a: seq<T>, b: seq<T>, i: nat)
    requires a != [] && i < |b| && b[i] == a[0] && multiset(a) == multiset(b)
    ensures multiset(Without(b, i)) == multiset(a[1..])
  {
    HeadMultiset(a);
    WithoutMultiset(b, i);
    assert multiset(a[1..]) == multiset(a) - multiset{a[0]};
    assert multiset(Without(b, i)) == multiset(b) - multiset{b[i]};
  }

  lemma FirstWorksLongest(sorted: seq<Node>, order: seq<Node>)
    requires sorted != [] && Ascending(sorted, Rank) && multiset(order) == multiset(sorted)
    ensures forall y :: y in order ==> y.work <= sorted[0].work
  {
    forall y | y in order
      ensures y.work <= sorted[0].work
    {
      assert y in multiset(order);
      var j := PlaceIn(sorted, y);
      assert Rank(sorted[0]) <= Rank(sorted[j]);
    }
  }

  /** Descending work is at least as good as any other order of the same people. */
  lemma {:induction false} DescendingIsBest(sorted: seq<Node>, order: seq<Node>, sum: int, ans: int)
    requires Ascending(sorted, Rank) && multiset(order) == multiset(sorted) && Patient(order)
    ensures Latest(sorted, sum, ans) <= Latest(order, sum, ans)
    decreases |sorted|
  {
    hide Latest;
    if sorted == [] {
      assert |multiset(order)| == 0;
    } else {
      var x := sorted[0];
      assert x in multiset(sorted);
      var i := PlaceIn(order, x);
      FirstWorksLongest(sorted, order);
      PullToFront(order, i, sum, ans);
      TakeSame(sorted, order, i);
      var rest := Without(order, i);
      assert sorted == [x] + sorted[1..];
      LatestStep(x, rest, sum, ans);
      LatestStep(x, sorted[1..], sum, ans);
      DescendingIsBest(sorted[1..], rest, sum + x.wait, Max(ans, sum + x.wait + x.work));
    }
  }

  /** `best` is the earliest possible moment by which everyone, and whatever finished at `floor`, is done. */
  ghost predicate Earliest(people: multiset<Node>, floor: int, best: int) {
    && (exists order :: multiset(order) == people && Latest(order, 0, floor) == best)
    && (forall order :: multiset(order) == people ==> best <= Latest(order, 0, floor))
  }

  /** The loop over a sorted case. */
  method Finish(war: array<Node>, ans0: int) returns (ans: int)
    ensures ans == Latest(war[..], 0, ans0)
  {
    var sum := 0;
    ans := ans0;
    var i := 0;
    while i < war.Length
      invariant i <= war.Length
      invariant Latest(war[i..], sum, ans) == Latest(war[..], 0, ans0)
    {
      assert war[i..][1..] == war[i + 1..];
      sum := sum + war[i].wait;
      ans := Max(ans, sum + war[i].work);
      i := i + 1;
    }
  }

  /** Sorting a case and running the loop leaves `ans` at the optimum above the `ans` it started with. */
  method SolveCase(war: array<Node>, ans0: int) returns (ans: int, ghost best: int)
    requires Patient(war[..])
    modifies war
    ensures Earliest(multiset(old(war[..])), ans0, ans)
    ensures Optimum(old(war[..]), best)
  {
    hide Latest, Patient, Earliest;
    ghost var given := war[..];
    Sort(war, Rank);
    ans := Finish(war, ans0);
    SortedIsEarliest(war[..], given, ans0);
    SortedIsEarliest(war[..], given, 0);
    best := Latest(war[..], 0, 0);
  }

  lemma SortedIsEarliest(sorted: seq<Node>, given: seq<Node>, floor: int)
    requires Ascending(sorted, Rank) && multiset(sorted) == multiset(given) && Patient(given)
    ensures Earliest(multiset(given), floor, Latest(sorted, 0, floor))
  {
    forall order | multiset(order) == multiset(given)
      ensures Latest(sorted, 0, floor) <= Latest(order, 0, floor)
    {
      forall x: Node | x in order
        ensures x.wait >= 0
      {
        assert x in multiset(order);
        assert x in given;
      }
      DescendingIsBest(sorted, order, 0, floor);
    }
  }

  /** The optimum of case `k` by itself, over a floor of zero. */
  ghost predicate Optimum(people: seq<Node>, best: int) { Earliest(multiset(people), 0, best) }

  /** The largest of the first `k` optima, and zero. */
  function Running(best: seq<int>, k: nat): int
    requires k <= |best|
  {
    if k == 0 then 0 else Max(Running(best, k - 1), best[k - 1])
  }

  /** An optimum over a higher floor is the optimum, raised to the floor. */
  lemma FloorsCombine(given: seq<Node>, floor: int, best: int, raised: int)
    requires floor >= 0 && Optimum(given, best) && Earliest(multiset(given), floor, raised)
    ensures raised == Max(best, floor)
  {
    var people := multiset(given);
    var order :| multiset(order) == people && Latest(order, 0, 0) == best;
    LatestIsMax(order, 0, 0, floor);
    var order' :| multiset(order') == people && Latest(order', 0, floor) == raised;
    LatestIsMax(order', 0, 0, floor);
  }

  /**
    All cases. `ans` is never reset, so the number printed for a case is the largest optimum of the
    cases so far; the case's own optimum is printed exactly when no earlier case has a larger one.
    */
  method SolveAll(cases: seq<array<Node>>) returns (printed: seq<int>, ghost best: seq<int>)
    requires forall i, j :: 0 <= i < j < |cases| ==> cases[i] != cases[j]
    requires forall i :: 0 <= i < |cases| ==> Patient(cases[i][..])
    modifies cases
    ensures |printed| == |best| == |cases|
    ensures forall k :: 0 <= k < |cases| ==> Optimum(old(cases[k][..]), best[k])
    ensures forall k :: 0 <= k < |cases| ==> printed[k] == Running(best, k + 1)
    ensures forall k :: 0 <= k < |cases| ==> (printed[k] == best[k] <==> Running(best, k) <= best[k])
  {
    hide Patient, Earliest, Optimum;
    printed, best := [], [];
    var ans := 0;
    var c := 0;
    while c < |cases|
      invariant c <= |cases| && |printed| == |best| == c
      invariant forall k :: c <= k < |cases| ==> cases[k][..] == old(cases[k][..])
      invariant forall k :: 0 <= k < c ==> Optimum(old(cases[k][..]), best[k])
      invariant forall k :: 0 <= k < c ==> printed[k] == Running(best, k + 1)
      invariant 0 <= ans == Running(best, c)
    {
      ghost var given := cases[c][..];
      ghost var floor := ans;
      ghost var b;
      ans, b := SolveCase(cases[c], ans);
      FloorsCombine(given, floor, b, ans);
      RunningExtends(best, b);
      printed, best := printed + [ans], best + [b];
      c := c + 1;
    }
  }

  /**
    A case of one soldier who works five minutes, then one who works one: five is printed twice, the
    second optimum is one.
    */
  lemma SecondCaseCanBeWrong()
    ensures Optimum([Node(0, 5)], 5) && Optimum([Node(0, 1)], 1) && Running([5, 1], 2) == 5
  {
    SingleOptimum(Node(0, 5));
    SingleOptimum(Node(0, 1));
    assert Running([5, 1], 1) == 5;
  }

  lemma SingleOptimum(x: Node)
    requires x.wait == 0 && x.work >= 0
    ensures Optimum([x], x.work)
  {
    assert Latest([x], 0, 0) == x.work;
    forall order | multiset(order) == multiset([x])
      ensures Latest(order, 0, 0) == x.work
    {
      assert |order| == |multiset(order)| == 1;
      assert order[0] in multiset(order);
      assert order == [x];
    }
  }

  lemma RunningExtends(best: seq<int>, b: int)
    ensures forall k :: 0 <= k <= |best| ==> Running(best + [b], k) == Running(best, k)
  {
    forall k | 0 <= k <= |best|
      ensures Running(best + [b], k) == Running(best, k)
    {
      RunningPrefix(best, b, k);
    }
  }

  lemma {:induction false} RunningPrefix(best: seq<int>, b: int, k: nat)
    requires k <= |best|
    ensures Running(best + [b], k) == Running(best, k)
  {
    if k > 0 {
      RunningPrefix(best, b, k - 1);
    }
  }
}
