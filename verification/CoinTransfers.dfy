/** UVA 11300: people round a table even out their coins with the fewest coins changing hands. */
module CoinTransfers {
  import opened Arithmetic
  import opened Sorting

  function Sum(s: seq<int>): int {
    if s == [] then 0 else Sum(s[..|s| - 1]) + s[|s| - 1]
  }

  /** Sum of the distances from `t` to the elements of `c`. */
  function Distances(c: seq<int>, t: int): nat {
    if c == [] then 0 else Distances(c[..|c| - 1], t) + Abs(t - c[|c| - 1])
  }

  /**
    `x[i]` coins (negative: the other way) go from person `i` to the neighbour before; person `i`
    receives `x[i+1]` from the neighbour behind, round the table. Everyone ends with `m` coins.
    */
  predicate Balanced(a: seq<int>, x: seq<int>, m: int) {
    && |x| == |a|
    && forall i, j :: 0 <= i < |a| && 0 <= j < |a| && (j == i + 1 || (i == |a| - 1 && j == 0)) ==>
      a[i] - x[i] + x[j] == m
  }

  /** Coins that change hands. */
  function Moved(x: seq<int>): nat { Distances(x, 0) }

  /** None move for nobody, and one person more moves his own, whichever way they go. */
  lemma MovedAddsUp(x: seq<int>, y: int)
    ensures Moved([]) == 0
    ensures Moved(x + [y]) == Moved(x) + (if y < 0 then 0 - y else y)
  {
    assert (x + [y])[..|x|] == x;
  }

  /** No coins change hands exactly when nobody passes any on. */
  lemma {:induction false} NoneMovedExactlyWhen(x: seq<int>)
    ensures Moved(x) == 0 <==> forall i :: 0 <= i < |x| ==> x[i] == 0
  {
    if x != [] {
      NoneMovedExactlyWhen(x[..|x| - 1]);
    }
  }

  /** The program's prefix sums: `c[0] = 0`, `c[i] = c[i-1] + m - a` of the person before. */
  function Prefix(a: seq<int>, m: int, i: nat): int
    requires i <= |a|
  {
    if i == 0 then 0 else Prefix(a, m, i - 1) + m - a[i - 1]
  }

  function Prefixes(a: seq<int>, m: int): (c: seq<int>)
    ensures |c| == |a|
  {
    seq(|a|, i requires 0 <= i < |a| => Prefix(a, m, i))
  }

  // ------------------------------------------------------- transfers are shifted prefix sums

  /** A balanced transfer is the prefix sums plus whatever person 0 passes on. */
  lemma {:induction false} TransferIsShift(a: seq<int>, x: seq<int>, m: int, i: nat)
    requires Balanced(a, x, m) && i < |a|
    ensures x[i] == x[0] + Prefix(a, m, i)
  {
    if i > 0 {
      TransferIsShift(a, x, m, i - 1);
      assert a[i - 1] - x[i - 1] + x[i] == m;
    }
  }

  lemma {:induction false} PrefixIsSum(a: seq<int>, m: int, i: nat)
    requires i <= |a|
    ensures Prefix(a, m, i) == i * m - Sum(a[..i])
  {
    if i > 0 {
      PrefixIsSum(a, m, i - 1);
      assert a[..i][..i - 1] == a[..i - 1];
      assert i * m == (i - 1) * m + m;
    }
  }

  /** Everyone can end with the same number of coins only if that number times the people is the total. */
  lemma BalancedNeedsDivisibility(a: seq<int>, x: seq<int>, m: int)
    requires a != [] && Balanced(a, x, m)
    ensures |a| * m == Sum(a)
  {
    var n := |a|;
    TransferIsShift(a, x, m, n - 1);
    PrefixIsSum(a, m, n);
    assert a[..n] == a;
    assert a[n - 1] - x[n - 1] + x[0] == m;
  }

  /** Shifted prefix sums balance the table when the total is shared out exactly. */
  lemma ShiftIsBalanced(a: seq<int>, m: int, t: int, x: seq<int>)
    requires a != [] && |a| * m == Sum(a)
    requires |x| == |a| && forall i :: 0 <= i < |a| ==> x[i] == Prefix(a, m, i) - t
    ensures Balanced(a, x, m)
  {
    var n := |a|;
    PrefixIsSum(a, m, n);
    assert a[..n] == a;
    forall i, j | 0 <= i < n && 0 <= j < n && (j == i + 1 || (i == n - 1 && j == 0))
      ensures a[i] - x[i] + x[j] == m
    {
      assert Prefix(a, m, i + 1) == Prefix(a, m, i) + m - a[i];
    }
  }

  lemma {:induction false} ShiftedDistances(c: seq<int>, x: seq<int>, t: int)
    requires |x| == |c| && forall i :: 0 <= i < |c| ==> x[i] == c[i] - t
    ensures Moved(x) == Distances(c, t)
  {
    if c != [] {
      ShiftedDistances(c[..|c| - 1], x[..|x| - 1], t);
    }
  }

  // ------------------------------------------------------------------- the median argument

  lemma {:induction false} DistancesFront(c: seq<int>, t: int)
    requires c != []
    ensures Distances(c, t) == Abs(t - c[0]) + Distances(c[1..], t)
  {
    if |c| > 1 {
      DistancesFront(c[..|c| - 1], t);
      assert c[1..][..|c| - 2] == c[..|c| - 1][1..];
    }
  }

  /** The middle element of a sorted sequence is nearest to all of it; peel off the two ends. */
  lemma {:induction false} MedianIsNearest(c: seq<int>, t: int)
    requires c != [] && forall i, j :: 0 <= i < j < |c| ==> c[i] <= c[j]
    ensures Distances(c, c[|c| / 2]) <= Distances(c, t)
    decreases |c|
  {
    var n := |c|;
    var m := c[n / 2];
    if n >= 2 {
      var inner := c[1..n - 1];
      assert c[1..][..n - 2] == inner;
      DistancesFront(c, t);
      DistancesFront(c, m);
      if n >= 3 {
        assert inner[(n - 2) / 2] == m;
        MedianIsNearest(inner, t);
      }
    }
  }

  lemma {:induction false} DistancesWithout(c: seq<int>, i: nat, t: int)
    requires i < |c|
    ensures Distances(c, t) == Abs(t - c[i]) + Distances(Without(c, i), t)
    decreases |c|
  {
    var last := |c| - 1;
    if i == last {
      assert Without(c, i) == c[..last];
    } else {
      DistancesWithout(c[..last], i, t);
      assert Without(c, i)[..last - 1] == Without(c[..last], i);
    }
  }

  lemma SameRest(c: seq<int>, i: nat, d: seq<int>, j: nat)
    requires i < |c| && j < |d| && c[i] == d[j] && multiset(c) == multiset(d)
    ensures |Without(c, i)| < |c| && multiset(Without(c, i)) == multiset(Without(d, j))
  {
    WithoutMultiset(c, i);
    WithoutMultiset(d, j);
    assert multiset(Without(c, i)) == multiset(c) - multiset{c[i]};
    assert multiset(Without(d, j)) == multiset(d) - multiset{d[j]};
  }

  /** The sum does not depend on the order. */
  lemma {:induction false} DistancesPermute(c: seq<int>, d: seq<int>, t: int)
    requires multiset(c) == multiset(d)
    ensures Distances(c, t) == Distances(d, t)
    decreases |c|
  {
    if c == [] {
      assert |multiset(d)| == 0;
    } else {
      hide Distances, Without;
      var j := PlaceIn(d, c[0]);
      WithoutMultiset(c, 0);
      WithoutMultiset(d, j);
      DistancesWithout(c, 0, t);
      DistancesWithout(d, j, t);
      SameRest(c, 0, d, j);
      DistancesPermute(Without(c, 0), Without(d, j), t);
    }
  }

  // ----------------------------------------------------------------------------- the answer

  /** `ans` coins must move, and `ans` coins suffice. */
  ghost predicate Least(a: seq<int>, m: int, ans: int) {
    && (forall x :: Balanced(a, x, m) ==> ans <= Moved(x))
    && (exists x :: Balanced(a, x, m) && Moved(x) == ans)
  }

  lemma TransferIsShiftOfPrefixes(a: seq<int>, x: seq<int>, m: int)
    requires a != [] && Balanced(a, x, m)
    ensures |x| == |a| && forall i :: 0 <= i < |a| ==> x[i] == Prefixes(a, m)[i] - (-x[0])
  {
    forall i | 0 <= i < |a|
      ensures x[i] == x[0] + Prefix(a, m, i)
    {
      TransferIsShift(a, x, m, i);
    }
  }

  /** Any balanced transfer moves at least as many coins as the median distance sum. */
  lemma MedianIsLeast(a: seq<int>, m: int, c: seq<int>, x: seq<int>)
    requires a != [] && Balanced(a, x, m)
    requires multiset(c) == multiset(Prefixes(a, m)) && |c| == |a|
    requires forall i, j :: 0 <= i < j < |c| ==> c[i] <= c[j]
    ensures Distances(c, c[|c| / 2]) <= Moved(x)
  {
    hide Balanced;
    var p := Prefixes(a, m);
    TransferIsShiftOfPrefixes(a, x, m);
    ShiftedDistances(p, x, -x[0]);
    DistancesPermute(c, p, -x[0]);
    MedianIsNearest(c, -x[0]);
  }

  /** The transfer that starts from the median moves exactly that many. */
  lemma MedianSuffices(a: seq<int>, m: int, c: seq<int>) returns (x: seq<int>)
    requires a != [] && |a| * m == Sum(a)
    requires multiset(c) == multiset(Prefixes(a, m)) && |c| == |a|
    ensures Balanced(a, x, m) && Moved(x) == Distances(c, c[|c| / 2])
  {
    hide Balanced;
    var p := Prefixes(a, m);
    var t := c[|c| / 2];
    x := seq(|a|, i requires 0 <= i < |a| => p[i] - t);
    ShiftIsBalanced(a, m, t, x);
    ShiftedDistances(p, x, t);
    DistancesPermute(c, p, t);
  }

  lemma MedianAnswers(a: seq<int>, m: int, c: seq<int>)
    requires a != [] && |a| * m == Sum(a)
    requires multiset(c) == multiset(Prefixes(a, m)) && |c| == |a|
    requires forall i, j :: 0 <= i < j < |c| ==> c[i] <= c[j]
    ensures Least(a, m, Distances(c, c[|c| / 2]))
  {
    hide Balanced;
    forall x | Balanced(a, x, m)
      ensures Distances(c, c[|c| / 2]) <= Moved(x)
    {
      MedianIsLeast(a, m, c, x);
    }
    var best := MedianSuffices(a, m, c);
  }

  /** On a table where everyone has the share the answer is zero, and on any other it is not. */
  lemma ZeroExactlyWhenEven(a: seq<int>, m: int, ans: int)
    requires Least(a, m, ans)
    ensures ans == 0 <==> forall i :: 0 <= i < |a| ==> a[i] == m
  {
    if forall i :: 0 <= i < |a| ==> a[i] == m {
      var x := seq(|a|, i => 0);
      NoneMovedExactlyWhen(x);
      assert Balanced(a, x, m);
    }
    if ans == 0 {
      var x :| Balanced(a, x, m) && Moved(x) == 0;
      NoneMovedExactlyWhen(x);
      forall i | 0 <= i < |a|
        ensures a[i] == m
      {
        assert a[i] - x[i] + x[if i == |a| - 1 then 0 else i + 1] == m;
      }
    }
  }

  method Total(a: array<int>) returns (tot: int)
    ensures tot == Sum(a[..])
  {
    tot := 0;
    var i := 0;
    while i < a.Length
      invariant i <= a.Length && tot == Sum(a[..i])
    {
      assert a[..i + 1][..i] == a[..i];
      tot := tot + a[i];
      i := i + 1;
    }
    assert a[..a.Length] == a[..];
  }

  method FillPrefixes(a: array<int>, m: int) returns (c: array<int>)
    requires a.Length > 0
    ensures fresh(c) && c[..] == Prefixes(a[..], m)
  {
    var n := a.Length;
    c := new int[n];
    c[0] := 0;
    var i := 1;
    while i < n
      invariant 1 <= i <= n && a[..] == old(a[..])
      invariant forall k :: 0 <= k < i ==> c[k] == Prefix(a[..], m, k)
    {
      c[i] := c[i - 1] + m - a[i - 1];
      i := i + 1;
    }
  }

  method SumDistances(c: array<int>) returns (ans: int)
    requires c.Length > 0
    ensures ans == Distances(c[..], c[c.Length / 2])
  {
    ans := 0;
    var i := 0;
    while i < c.Length
      invariant i <= c.Length && ans == Distances(c[..i], c[c.Length / 2])
    {
      assert c[..i + 1][..i] == c[..i];
      ans := ans + Abs(c[c.Length / 2] - c[i]);
      i := i + 1;
    }
    assert c[..c.Length] == c[..];
  }

  /**
    One input case. The number printed is the least number of coins that must move when the
    total can be shared out exactly; when it cannot, no transfer evens the table at all.
    */
  method Solve(a: array<int>) returns (ans: int)
    requires a.Length > 0
    ensures var m := CDiv(Sum(a[..]), a.Length);
      if Sum(a[..]) == a.Length * m then Least(a[..], m, ans)
      else forall x, k :: !Balanced(a[..], x, k)
  {
    hide Balanced, Distances, Sum, Prefix, Prefixes;
    ghost var people := a[..];
    var tot := Total(a);
    var m := CDiv(tot, a.Length);
    var c := FillPrefixes(a, m);
    Sort(c, x => x);
    assert |multiset(c[..])| == |multiset(Prefixes(people, m))|;
    ans := SumDistances(c);
    if tot == a.Length * m {
      MedianAnswers(people, m, c[..]);
    } else {
      NoExactShare(people, m);
    }
    assert a[..] == people;
  }

  lemma NoExactShare(a: seq<int>, m: int)
    requires a != [] && m == CDiv(Sum(a), |a|) && Sum(a) != |a| * m
    ensures forall x, k :: !Balanced(a, x, k)
  {
    hide Balanced;
    forall x, k
      ensures !Balanced(a, x, k)
    {
      if Balanced(a, x, k) {
        BalancedNeedsDivisibility(a, x, k);
        ExactShareIsQuotient(Sum(a), |a|, k);
      }
    }
  }

  lemma ExactShareIsQuotient(tot: int, n: nat, k: int)
    requires n > 0 && tot == n * k
    ensures CDiv(tot, n) == k
  {
    var q := if k >= 0 then k else -k;
    assert n * q == (if k >= 0 then tot else -tot);
    assert (n * q >= 0) && q * n + 0 == n * q;
    DivModUnique(n * q, n, q, 0);
    if k < 0 { assert tot <= 0; }
  }
}
