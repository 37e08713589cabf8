/**
  Nine dials, nine moves; a move turns its dials by a quarter. What moves do to the dials, apart
  from any search.
  */
module ClockMoves {
  import opened Arithmetic

  /** The dials each move turns. Moves and dials are numbered from 1. */
  const WITH: seq<seq<nat>> := [
    [], [1, 2, 4, 5], [1, 2, 3], [2, 3, 5, 6], [1, 4, 7], [2, 4, 5, 6, 8], [3, 6, 9], [4, 5, 7, 8], [7, 8, 9],
      [5, 6, 8, 9]]

  /** Positions 1 to 9 count; position 0 is unused. */
  type Dials = t: seq<nat> | |t| == 10 && forall i :: 1 <= i <= 9 ==> t[i] < 12 witness [0, 0, 0, 0, 0, 0, 0, 0, 0, 0]

  predicate Solved(t: Dials) {
    forall i :: 1 <= i <= 9 ==> t[i] == 0
  }

  type Move = k: nat | 1 <= k <= 9 witness 1

  function Turn(t: Dials, k: Move): Dials {
    seq(10, i requires 0 <= i < 10 => if i in WITH[k] then (t[i] + 3) % 12 else t[i])
  }

  /** Dials and moves are laid out in three rows of three. */
  function RowOf(i: nat): int { (i - 1) / 3 }

  function ColumnOf(i: nat): int { (i - 1) % 3 }

  /**
    Move `k` turns dials around dial `k`: in a corner the four there, in the middle the cross, and on
    an edge the whole edge.
    */
  predicate Around(k: Move, i: nat) {
    var rows, columns := Abs(RowOf(i) - RowOf(k)), Abs(ColumnOf(i) - ColumnOf(k));
    if k == 5 then rows + columns <= 1
    else if RowOf(k) == 1 then columns == 0
    else if ColumnOf(k) == 1 then rows == 0
    else rows <= 1 && columns <= 1
  }

  lemma TableIsTheLayout(k: Move, i: nat)
    requires 1 <= i <= 9
    ensures i in WITH[k] <==> Around(k, i)
  {
  }

  /** A move takes its dials three hours on, past twelve to where they began; the others stay. */
  lemma TurnIsThreeHours(t: Dials, k: Move, i: nat)
    requires 1 <= i <= 9
    ensures Turn(t, k)[i] == if !Around(k, i) then t[i] else if t[i] < 9 then t[i] + 3 else t[i] - 9
  {
    TableIsTheLayout(k, i);
  }

  function Play(t: Dials, ms: seq<Move>): Dials {
    if ms == [] then t else Turn(Play(t, ms[..|ms| - 1]), ms[|ms| - 1])
  }

  // ------------------------------------------------------------------ counting moves instead

  /** How often each move is used; position 0 is unused. */
  type Uses = u: seq<nat> | |u| == 10 && u[0] == 0 witness [0, 0, 0, 0, 0, 0, 0, 0, 0, 0]

  const NONE: Uses := [0, 0, 0, 0, 0, 0, 0, 0, 0, 0]

  function Plus(u: Uses, k: Move): Uses {
    u[k := u[k] + 1]
  }

  /** Uses of moves 1 to `n` that turn dial `i`. */
  function Hits(u: Uses, i: nat, n: nat): nat
    requires n <= 9
  {
    if n == 0 then 0 else Hits(u, i, n - 1) + if i in WITH[n] then u[n] else 0
  }

  /** Where the dials stand after moves used that often, in whatever order. */
  function After(t: Dials, u: Uses): Dials {
    seq(10, i requires 0 <= i < 10 => if i == 0 then t[0] else (t[i] + 3 * Hits(u, i, 9)) % 12)
  }

  function Total(u: Uses, n: nat): nat
    requires n <= 9
  {
    if n == 0 then 0 else Total(u, n - 1) + u[n]
  }

  function Size(u: Uses): nat { Total(u, 9) }

  function Counts(ms: seq<Move>): Uses {
    if ms == [] then NONE else Plus(Counts(ms[..|ms| - 1]), ms[|ms| - 1])
  }

  lemma {:induction false} HitsPlus(u: Uses, k: Move, i: nat, n: nat)
    requires n <= 9
    ensures Hits(Plus(u, k), i, n) == Hits(u, i, n) + if k <= n && i in WITH[k] then 1 else 0
  {
    if n > 0 {
      HitsPlus(u, k, i, n - 1);
    }
  }

  lemma {:induction false} TotalPlus(u: Uses, k: Move, n: nat)
    requires n <= 9
    ensures Total(Plus(u, k), n) == Total(u, n) + if k <= n then 1 else 0
  {
    if n > 0 {
      TotalPlus(u, k, n - 1);
    }
  }

  lemma ModAdd(x: nat, y: nat, d: nat)
    requires d > 0
    ensures (x % d + y) % d == (x + y) % d
  {
    var q := x / d;
    assert x == q * d + x % d;
    var z := x % d + y;
    assert z == (z / d) * d + z % d;
    assert x + y == (q + z / d) * d + z % d by {
      assert (q + z / d) * d == q * d + (z / d) * d;
    }
    DivModUnique(x + y, d, q + z / d, z % d);
  }

  /** One more move, anywhere in the order. */
  lemma AfterPlus(t: Dials, u: Uses, k: Move)
    ensures Turn(After(t, u), k) == After(t, Plus(u, k))
  {
    forall i | 1 <= i <= 9
      ensures Turn(After(t, u), k)[i] == After(t, Plus(u, k))[i]
    {
      HitsPlus(u, k, i, 9);
      ModAdd(t[i] + 3 * Hits(u, i, 9), 3, 12);
    }
    assert 0 !in WITH[k];
  }

  lemma {:induction false} NoHits(i: nat, n: nat)
    requires n <= 9
    ensures Hits(NONE, i, n) == 0 && Total(NONE, n) == 0
  {
    if n > 0 {
      NoHits(i, n - 1);
    }
  }

  lemma AfterNone(t: Dials)
    ensures After(t, NONE) == t
  {
    forall i | 1 <= i <= 9
      ensures After(t, NONE)[i] == t[i]
    {
      NoHits(i, 9);
    }
  }

  /** Moves commute: only how often each is used matters. */
  lemma {:induction false} PlayIsAfterCounts(t: Dials, ms: seq<Move>)
    ensures Play(t, ms) == After(t, Counts(ms))
    ensures Size(Counts(ms)) == |ms|
  {
    if ms == [] {
      AfterNone(t);
      NoHits(0, 9);
    } else {
      var init, last := ms[..|ms| - 1], ms[|ms| - 1];
      PlayIsAfterCounts(t, init);
      AfterPlus(t, Counts(init), last);
      TotalPlus(Counts(init), last, 9);
    }
  }

  // ------------------------------------------------------- four uses of a move are no use

  /** At most three uses of each move. */
  predicate Reduced(u: Uses) { forall k :: 1 <= k <= 9 ==> u[k] <= 3 }

  function Reduce(u: Uses): (r: Uses)
    ensures Reduced(r)
  {
    seq(10, k requires 0 <= k < 10 => u[k] % 4)
  }

  lemma {:induction false} ReduceHits(u: Uses, i: nat, n: nat) returns (whole: nat)
    requires n <= 9
    ensures Hits(u, i, n) == 4 * whole + Hits(Reduce(u), i, n)
    ensures Total(Reduce(u), n) <= Total(u, n)
  {
    whole := 0;
    if n > 0 {
      whole := ReduceHits(u, i, n - 1);
      if i in WITH[n] {
        whole := whole + u[n] / 4;
      }
    }
  }

  lemma AfterReduce(t: Dials, u: Uses)
    ensures After(t, Reduce(u)) == After(t, u)
    ensures Size(Reduce(u)) <= Size(u)
  {
    var _ := ReduceHits(u, 1, 9);
    forall i | 1 <= i <= 9
      ensures After(t, Reduce(u))[i] == After(t, u)[i]
    {
      var w := ReduceHits(u, i, 9);
      var x := t[i] + 3 * Hits(Reduce(u), i, 9);
      assert t[i] + 3 * Hits(u, i, 9) == x + 12 * w;
      assert x == (x / 12) * 12 + x % 12;
      DivModUnique(x + 12 * w, 12, x / 12 + w, x % 12);
    }
  }

  /** Every way of solving the dials is matched by a reduced one that is no longer. */
  lemma SolutionsReduce(t: Dials, ms: seq<Move>) returns (u: Uses)
    requires Solved(Play(t, ms))
    ensures Reduced(u) && Solved(After(t, u)) && Size(u) <= |ms|
  {
    PlayIsAfterCounts(t, ms);
    u := Reduce(Counts(ms));
    AfterReduce(t, Counts(ms));
  }
}
