/**
  Three programs that print primes: one flattened loop, the same as a recursion, and nested loops
  with a square root bound. The first two print the same; the third prints a little more.
  */
module PrimePrinters {
  import opened Arithmetic
  import opened Bytes
  import opened PrimeNumbers

  // ------------------------------------------------------------------ what the flattened steps do

  /** Before step `t` in row `i` and column `j`: the divisors of the row counted so far. */
  predicate Counted(i: nat, j: nat, composite: int) {
    i >= 2 && j >= 1 ==> composite == Divisors(i, Min(i, j))
  }

  /** What has been printed by then. */
  function Printed(i: nat, j: nat): seq<nat> {
    PrimesBelow(i) + if j > i && Prime(i) then [i] else []
  }

  /** The row and column after a step. */
  function NextRow(cap: nat, i: nat, j: nat): nat { if j + 1 == cap then i + 1 else i }

  function NextColumn(cap: nat, j: nat): nat { if j + 1 == cap then 0 else j + 1 }

  lemma RowAndColumn(cap: nat, t: nat, i: nat, j: nat)
    requires t == i * cap + j && j < cap
    ensures CDiv(t, cap) == i && CMod(t, cap) == j
    ensures t + 1 == NextRow(cap, i, j) * cap + NextColumn(cap, j)
  {
    DivModUnique(t, cap, i, j);
    assert (i + 1) * cap == i * cap + cap;
  }

  /** What one step adds to the output and does to the count, by the program's five cases. */
  function StepOutput(i: int, j: nat, composite: int): seq<int> {
    if i > 1 && j != 0 && j == i && composite == 0 then [i] else []
  }

  function StepCount(i: int, j: nat, composite: int): int {
    if i <= 1 then composite
    else if j == 0 then 0
    else if j == i && composite == 0 then composite
    else if 1 < j < i then composite + (if i % j == 0 then 1 else 0)
    else composite
  }

  /** A step inside the square keeps the count and extends the output. */
  lemma StepKeeps(cap: nat, i: nat, j: nat, composite: int)
    requires i < cap && j < cap && Counted(i, j, composite)
    ensures Counted(NextRow(cap, i, j), NextColumn(cap, j), StepCount(i, j, composite))
    ensures Printed(NextRow(cap, i, j), NextColumn(cap, j)) == Printed(i, j) + StepOutput(i, j, composite)
  {
    NoDivisors(i, i);
    if i >= 2 {
      assert j == i ==> Prime(i) == (composite == 0);
    }
  }

  lemma InSquare(cap: nat, t: nat, i: nat, j: nat)
    requires t == i * cap + j && j < cap && t <= cap * cap
    ensures t < cap * cap ==> i < cap
    ensures t == cap * cap ==> i == cap && j == 0
  {
    if t < cap * cap && i >= cap {
      MulMono(cap, i, cap);
    }
    if t == cap * cap {
      DivModUnique(t, cap, i, j);
      DivModUnique(t, cap, cap, 0);
    }
  }

  lemma NoPrimesBelowZero()
    ensures PrimesBelow(0) == []
  {
  }

  lemma NegativeRows(cap: int, t: nat)
    requires cap < 0
    ensures CDiv(t, cap) <= 0
  {
    hide PrimesBelow, Divisors, Printed, Counted;
    if t == 0 {
      assert CDiv(t, cap) == -(0 / Abs(cap));
    } else {
      var rows: nat := t / Abs(cap);
      assert CDiv(t, cap) == 0 - rows;
    }
  }

  /** The flattened loop prints the primes below `cap`, whatever `composite` held before. */
  method Flattened(cap: int, garbage: int) returns (out: seq<int>)
    ensures out == PrimesBelow(Max(cap, 0))
  {
    hide CDiv, CMod, PrimesBelow, Divisors;
    var composite, t := garbage, 0;
    out := [];
    ghost var row: nat, col: nat := 0, 0;
    NoPrimesBelowZero();
    while t < cap * cap
      invariant t >= 0 && (cap == 0 ==> t == 0)
      invariant cap > 0 ==> t == row * cap + col && col < cap && t <= cap * cap
      invariant cap > 0 ==> Counted(row, col, composite) && out == Printed(row, col)
      invariant cap <= 0 ==> out == []
      decreases cap * cap - t
    {
      var i, j := CDiv(t, cap), CMod(t, cap);
      if cap > 0 {
        InSquare(cap, t, row, col);
        RowAndColumn(cap, t, row, col);
        StepKeeps(cap, row, col, composite);
        row, col := NextRow(cap, row, col), NextColumn(cap, col);
      } else {
        NegativeRows(cap, t);
      }
      t := t + 1;
      if i <= 1 {
      } else if j == 0 {
        composite := j;
      } else if j == i && composite == 0 {
        out := out + [i];
      } else if 1 < j < i {
        composite := composite + if i % j == 0 then 1 else 0;
      }
    }
    if cap > 0 {
      InSquare(cap, t, row, col);
    }
  }

  // ------------------------------------------------------------------ the recursion

  datatype Call = Stop | Again(printed: seq<int>, composite: int)

  /** One call: what it prints and the count it hands on, or that it makes no further call. */
  function Body(cap: int, t: nat, composite: int): Call
    requires cap != 0
  {
    var i, j := CDiv(t, cap), CMod(t, cap);
    if i <= 1 then Again([], composite)
    else if j == 0 then Again([], j)
    else if j == i && composite == 0 then Again([i], composite)
    else if 1 < j < i then Again([], composite + if i % j == 0 then 1 else 0)
    else if t < cap * cap then Again([], composite)
    else Stop
  }

  /** The second call past the square makes no further call; none before it stops. */
  lemma LastCall(cap: int, t: nat, composite: int)
    requires cap >= 2 && t <= cap * cap + 1
    ensures Body(cap, t, composite) == Stop <==> t == cap * cap + 1
  {
    if t >= cap * cap {
      RowAndColumn(cap, t, cap, t - cap * cap);
    }
  }

  function Recursive(cap: int, t: nat, composite: int): seq<int>
    requires cap >= 2 && t <= cap * cap + 1
    decreases cap * cap + 1 - t
  {
    LastCall(cap, t, composite);
    match Body(cap, t, composite)
    case Stop => []
    case Again(printed, c) => printed + Recursive(cap, t + 1, c)
  }

  lemma {:induction false} RecursiveFrom(cap: nat, t: nat, i: nat, j: nat, composite: int)
    requires cap >= 2 && t == i * cap + j && j < cap && t <= cap * cap && Counted(i, j, composite)
    ensures Printed(i, j) + Recursive(cap, t, composite) == PrimesBelow(cap)
    decreases cap * cap - t
  {
    hide PrimesBelow, Divisors;
    InSquare(cap, t, i, j);
    RowAndColumn(cap, t, i, j);
    LastCall(cap, t, composite);
    if t < cap * cap {
      StepKeeps(cap, i, j, composite);
      var out, c := StepOutput(i, j, composite), StepCount(i, j, composite);
      assert Body(cap, t, composite) == Again(out, c);
      RecursiveFrom(cap, t + 1, NextRow(cap, i, j), NextColumn(cap, j), c);
      assert Printed(i, j) + (out + Recursive(cap, t + 1, c)) == (Printed(i, j) + out) + Recursive(cap, t + 1, c);
    } else {
      LastCall(cap, t + 1, 0);
      assert Recursive(cap, t + 1, 0) == [];
    }
  }

  /** The recursion prints what the loop prints, whatever `composite` it is first given. */
  lemma RecursionPrintsTheSame(cap: nat, garbage: int)
    requires cap >= 2
    ensures Recursive(cap, 0, garbage) == PrimesBelow(cap)
  {
    RecursiveFrom(cap, 0, 0, 0, garbage);
    assert PrimesBelow(0) == [];
  }

  /** `n` nested calls are made from here on. */
  predicate Goes(cap: int, t: nat, composite: int, n: nat)
    requires cap != 0
    decreases n
  {
    n == 0 ||
    match Body(cap, t, composite)
    case Stop => false
    case Again(_, c) => Goes(cap, t + 1, c, n - 1)
  }

  lemma {:induction false} StopsAfterTheSquare(cap: int, t: nat, composite: int, n: nat)
    requires cap >= 2 && t + n == cap * cap + 2 && n > 0
    ensures !Goes(cap, t, composite, n)
    decreases n
  {
    LastCall(cap, t, composite);
    if t <= cap * cap {
      StopsAfterTheSquare(cap, t + 1, Body(cap, t, composite).composite, n - 1);
    }
  }

  lemma {:induction false} NeverStops(cap: int, t: nat, composite: int, n: nat)
    requires cap != 0 && cap < 2
    ensures Goes(cap, t, composite, n)
    decreases n
  {
    if n > 0 {
      assert CDiv(t, cap) <= 1 || CMod(t, cap) == 0;
      NeverStops(cap, t + 1, Body(cap, t, composite).composite, n - 1);
    }
  }

  /** The recursion ends exactly for a `cap` of 2 or more. */
  lemma StopsExactlyWhen(cap: int, composite: int)
    requires cap != 0
    ensures (exists n: nat :: !Goes(cap, 0, composite, n)) <==> cap >= 2
  {
    if cap >= 2 {
      StopsAfterTheSquare(cap, 0, composite, cap * cap + 2);
    } else {
      forall n: nat
        ensures Goes(cap, 0, composite, n)
      {
        NeverStops(cap, 0, composite, n);
      }
    }
  }

  // ------------------------------------------------------------------ nested loops

  /** Primes and squares of primes below `n`, in order. */
  function PrimesAndSquaresBelow(n: nat): seq<nat> {
    if n == 0 then [] else PrimesAndSquaresBelow(n - 1) + if Prime(n - 1) || PrimeSquare(n - 1) then [n - 1] else []
  }

  /** All of them, and nothing else, each after the smaller ones. */
  lemma {:induction false} PrimesAndSquaresInOrder(n: nat)
    ensures forall k: nat :: k in PrimesAndSquaresBelow(n) <==> k < n && (Prime(k) || PrimeSquare(k))
    ensures forall i, j :: 0 <= i < j < |PrimesAndSquaresBelow(n)| ==>
      PrimesAndSquaresBelow(n)[i] < PrimesAndSquaresBelow(n)[j]
  {
    if n > 0 {
      hide Prime, PrimeSquare;
      PrimesAndSquaresInOrder(n - 1);
      var before := PrimesAndSquaresBelow(n - 1);
      assert forall i :: 0 <= i < |before| ==> before[i] in before;
    }
  }

  /** No divisor found with a square below `n` is what `Passes` says. */
  lemma CountedAll(i: nat, j: nat)
    requires i >= 2 && j >= 2 && j * j >= i && forall d :: 2 <= d < j ==> d * d < i
    ensures Divisors(i, j) == 0 <==> Passes(i)
  {
    NoDivisors(i, j);
    forall d | 2 <= d < i && d * d < i
      ensures d < j
    {
      if d >= j { MulMono(j, d, j); MulMono(j, d, d); }
    }
    forall d | 2 <= d < j
      ensures d * d < i && d < i
    {
      MulMono(1, d, d);
    }
  }

  /** The inner loop: divisors whose square is less than `i`. */
  method CountDivisors(i: int) returns (composite: int)
    requires i >= 2
    ensures composite == 0 <==> Passes(i)
  {
    composite := 0;
    var j := 2;
    while j * j < i
      invariant 2 <= j && composite == Divisors(i, j)
      invariant forall d :: 2 <= d < j ==> d * d < i
      decreases i - j
    {
      MulMono(1, j, j);
      composite := composite + if i % j == 0 then 1 else 0;
      j := j + 1;
    }
    CountedAll(i, j);
  }

  lemma NoneBelowTwo()
    ensures PrimesAndSquaresBelow(0) == PrimesAndSquaresBelow(1) == PrimesAndSquaresBelow(2) == []
  {
    assert PrimesAndSquaresBelow(1) == PrimesAndSquaresBelow(0) + [];
  }

  /** The nested loops print the squares of primes too. */
  method Nested(cap: int) returns (out: seq<int>)
    ensures out == PrimesAndSquaresBelow(Max(cap, 0))
  {
    hide Passes, Prime, PrimeSquare;
    out := [];
    var i := 2;
    NoneBelowTwo();
    while i < cap
      invariant 2 <= i <= Max(cap, 2)
      invariant out == PrimesAndSquaresBelow(i)
    {
      var composite := CountDivisors(i);
      PassesExactlyWhen(i);
      if composite == 0 {
        out := out + [i];
      }
      i := i + 1;
    }
  }

  /** Four is printed by the nested loops, though it is no prime. */
  lemma NestedPrintsFour()
    ensures 4 in PrimesAndSquaresBelow(5) && !Prime(4)
  {
    assert Divides(2, 4);
    assert Prime(2);
    assert PrimeSquare(4) by { assert 4 == 2 * 2; }
  }
}
