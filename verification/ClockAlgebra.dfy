/**
  The nine moves are independent and together reach everything: each position of the dials that
  is solvable at all has exactly one solution with at most three uses of each move.
  */
module ClockAlgebra {
  import opened Arithmetic
  import opened ClockMoves
  import opened ClockSearch

  /** The table of moves as a case distinction on literals. */
  predicate Turns(k: Move, i: nat) {
    match k
    case 1 => i == 1 || i == 2 || i == 4 || i == 5
    case 2 => i == 1 || i == 2 || i == 3
    case 3 => i == 2 || i == 3 || i == 5 || i == 6
    case 4 => i == 1 || i == 4 || i == 7
    case 5 => i == 2 || i == 4 || i == 5 || i == 6 || i == 8
    case 6 => i == 3 || i == 6 || i == 9
    case 7 => i == 4 || i == 5 || i == 7 || i == 8
    case 8 => i == 7 || i == 8 || i == 9
    case _ => i == 5 || i == 6 || i == 8 || i == 9
  }

  lemma TableIsTurns(k: Move, i: nat)
    ensures i in WITH[k] <==> Turns(k, i)
  {
    assert WITH[k] ==
      match k {
        case 1 => [1, 2, 4, 5]
        case 2 => [1, 2, 3]
        case 3 => [2, 3, 5, 6]
        case 4 => [1, 4, 7]
        case 5 => [2, 4, 5, 6, 8]
        case 6 => [3, 6, 9]
        case 7 => [4, 5, 7, 8]
        case 8 => [7, 8, 9]
        case _ => [5, 6, 8, 9]
      };
  }

  function One(u: Uses, i: nat, k: Move): nat { if Turns(k, i) then u[k] else 0 }

  /** The uses that turn dial `i`, spelled out. */
  function Spread(u: Uses, i: nat): nat {
    One(u, i, 1) + One(u, i, 2) + One(u, i, 3) + One(u, i, 4) + One(u, i, 5) + One(u, i, 6) + One(u, i, 7)
      + One(u, i, 8) + One(u, i, 9)
  }

  lemma HitsStep(u: Uses, i: nat, n: Move)
    ensures Hits(u, i, n) == Hits(u, i, n - 1) + One(u, i, n)
  {
    TableIsTurns(n, i);
  }

  lemma HitsSpread(u: Uses, i: nat)
    ensures Hits(u, i, 9) == Spread(u, i)
  {
    hide Turns;
    HitsStep(u, i, 1); HitsStep(u, i, 2); HitsStep(u, i, 3);
    HitsStep(u, i, 4); HitsStep(u, i, 5); HitsStep(u, i, 6);
    HitsStep(u, i, 7); HitsStep(u, i, 8); HitsStep(u, i, 9);
  }

  /** One number for each dial, or one for each move; place 0 is not used. */
  type Vector = v: seq<int> | |v| == 10 witness [0, 0, 0, 0, 0, 0, 0, 0, 0, 0]

  /** The quarter turns of the dials, from the uses of the moves. */
  function Turned(u: Vector): Vector {
    [0,
     u[1] + u[2] + u[4],
     u[1] + u[2] + u[3] + u[5],
     u[2] + u[3] + u[6],
     u[1] + u[4] + u[5] + u[7],
     u[1] + u[3] + u[5] + u[7] + u[9],
     u[3] + u[5] + u[6] + u[9],
     u[4] + u[7] + u[8],
     u[5] + u[7] + u[8] + u[9],
     u[6] + u[8] + u[9]]
  }

  lemma HitsAreTurned(u: Uses, i: nat)
    requires 1 <= i <= 9
    ensures Hits(u, i, 9) == Turned(u)[i]
  {
    hide Hits;
    HitsSpread(u, i);
  }

  // Nine equations in nine unknowns, solved by the inverse modulo four. Both products of the
  // table and its inverse are the identity and four times a remainder.

  /** The inverse of the table modulo four. */
  function Undone(h: Vector): Vector {
    [0,
     3 * h[1] + 2 * h[2] + 3 * h[3] + 2 * h[4] + 2 * h[5] + h[6] + 3 * h[7] + h[8],
     3 * h[1] + 3 * h[2] + 3 * h[3] + 3 * h[4] + 3 * h[5] + 3 * h[6] + 2 * h[7] + 2 * h[9],
     3 * h[1] + 2 * h[2] + 3 * h[3] + h[4] + 2 * h[5] + 2 * h[6] + h[8] + 3 * h[9],
     3 * h[1] + 3 * h[2] + 2 * h[3] + 3 * h[4] + 3 * h[5] + 3 * h[7] + 3 * h[8] + 2 * h[9],
     3 * h[1] + 2 * h[2] + 3 * h[3] + 2 * h[4] + h[5] + 2 * h[6] + 3 * h[7] + 2 * h[8] + 3 * h[9],
     2 * h[1] + 3 * h[2] + 3 * h[3] + 3 * h[5] + 3 * h[6] + 2 * h[7] + 3 * h[8] + 3 * h[9],
     3 * h[1] + h[2] + 2 * h[4] + 2 * h[5] + h[6] + 3 * h[7] + 2 * h[8] + 3 * h[9],
     2 * h[1] + 2 * h[3] + 3 * h[4] + 3 * h[5] + 3 * h[6] + 3 * h[7] + 3 * h[8] + 3 * h[9],
     h[2] + 3 * h[3] + h[4] + 2 * h[5] + 2 * h[6] + 3 * h[7] + 2 * h[8] + 3 * h[9]]
  }

  /** What `Undone` after `Turned` leaves over. */
  function LeftOfUses(u: Vector): Vector {
    [0,
     2 * u[1] + 2 * u[2] + 2 * u[3] + 2 * u[4] + 2 * u[5] + u[6] + 2 * u[7] + u[8] + u[9],
     3 * u[1] + 2 * u[2] + 3 * u[3] + 2 * u[4] + 3 * u[5] + 2 * u[6] + 2 * u[7] + u[8] + 2 * u[9],
     2 * u[1] + 2 * u[2] + 2 * u[3] + u[4] + 2 * u[5] + 2 * u[6] + u[7] + u[8] + 2 * u[9],
     3 * u[1] + 2 * u[2] + 2 * u[3] + 2 * u[4] + 3 * u[5] + u[6] + 3 * u[7] + 2 * u[8] + 2 * u[9],
     2 * u[1] + 2 * u[2] + 2 * u[3] + 2 * u[4] + 2 * u[5] + 2 * u[6] + 2 * u[7] + 2 * u[8] + 2 * u[9],
     2 * u[1] + 2 * u[2] + 3 * u[3] + u[4] + 3 * u[5] + 2 * u[6] + 2 * u[7] + 2 * u[8] + 3 * u[9],
     2 * u[1] + u[2] + u[3] + 2 * u[4] + 2 * u[5] + u[6] + 2 * u[7] + 2 * u[8] + 2 * u[9],
     2 * u[1] + u[2] + 2 * u[3] + 2 * u[4] + 3 * u[5] + 2 * u[6] + 3 * u[7] + 2 * u[8] + 3 * u[9],
     u[1] + u[2] + 2 * u[3] + u[4] + 2 * u[5] + 2 * u[6] + 2 * u[7] + 2 * u[8] + 2 * u[9]]
  }

  /** What `Turned` after `Undone` leaves over. */
  function LeftOfTurns(h: Vector): Vector {
    [0,
     2 * h[1] + 2 * h[2] + 2 * h[3] + 2 * h[4] + 2 * h[5] + h[6] + 2 * h[7] + h[8] + h[9],
     3 * h[1] + 2 * h[2] + 3 * h[3] + 2 * h[4] + 2 * h[5] + 2 * h[6] + 2 * h[7] + h[8] + 2 * h[9],
     2 * h[1] + 2 * h[2] + 2 * h[3] + h[4] + 2 * h[5] + 2 * h[6] + h[7] + h[8] + 2 * h[9],
     3 * h[1] + 2 * h[2] + 2 * h[3] + 2 * h[4] + 2 * h[5] + h[6] + 3 * h[7] + 2 * h[8] + 2 * h[9],
     3 * h[1] + 2 * h[2] + 3 * h[3] + 2 * h[4] + 2 * h[5] + 2 * h[6] + 3 * h[7] + 2 * h[8] + 3 * h[9],
     2 * h[1] + 2 * h[2] + 3 * h[3] + h[4] + 2 * h[5] + 2 * h[6] + 2 * h[7] + 2 * h[8] + 3 * h[9],
     2 * h[1] + h[2] + h[3] + 2 * h[4] + 2 * h[5] + h[6] + 2 * h[7] + 2 * h[8] + 2 * h[9],
     2 * h[1] + h[2] + 2 * h[3] + 2 * h[4] + 2 * h[5] + 2 * h[6] + 3 * h[7] + 2 * h[8] + 3 * h[9],
     h[1] + h[2] + 2 * h[3] + h[4] + 2 * h[5] + 2 * h[6] + 2 * h[7] + 2 * h[8] + 2 * h[9]]
  }

  lemma UndoTurning(u: Vector, k: Move)
    ensures Undone(Turned(u))[k] == u[k] + 4 * LeftOfUses(u)[k]
  {
  }

  lemma TurnUndoing(h: Vector, i: Move)
    ensures Turned(Undone(h))[i] == h[i] + 4 * LeftOfTurns(h)[i]
  {
  }

  lemma UndoneIsLinear(h: Vector, q: Vector, k: Move)
    requires forall i :: 1 <= i <= 9 ==> h[i] == 4 * q[i]
    ensures Undone(h)[k] == 4 * Undone(q)[k]
  {
  }

  lemma TurnedIsLinear(a: Vector, b: Vector, q: Vector, i: Move)
    requires forall k :: 1 <= k <= 9 ==> b[k] == a[k] - 4 * q[k]
    ensures Turned(b)[i] == Turned(a)[i] - 4 * Turned(q)[i]
  {
  }

  function Difference(u: Vector, v: Vector): Vector {
    seq(10, k requires 0 <= k < 10 => u[k] - v[k])
  }

  lemma TurnedDifference(u: Vector, v: Vector, w: Vector, i: Move)
    requires forall k :: 1 <= k <= 9 ==> w[k] == u[k] - v[k]
    ensures Turned(w)[i] == Turned(u)[i] - Turned(v)[i]
  {
  }

  /** Reduced uses that turn the dials alike, give or take whole turns, are the same. */
  lemma SameTurnsSameUses(u: Uses, v: Uses, q: Vector)
    requires Reduced(u) && Reduced(v) && forall i :: 1 <= i <= 9 ==> Hits(u, i, 9) - Hits(v, i, 9) == 4 * q[i]
    ensures u == v
  {
    hide Hits, Turned, Undone, LeftOfUses;
    var w := Difference(u, v);
    forall i | 1 <= i <= 9
      ensures Turned(w)[i] == 4 * q[i]
    {
      HitsAreTurned(u, i);
      HitsAreTurned(v, i);
      TurnedDifference(u, v, w, i);
    }
    forall k | 1 <= k <= 9
      ensures u[k] == v[k]
    {
      UndoTurning(w, k);
      UndoneIsLinear(Turned(w), q, k);
    }
  }

  /** The quarters each dial still has to turn. */
  function Need(t: Dials): Vector {
    seq(10, i requires 0 <= i < 10 => if i == 0 then 0 else 4 - t[i] / 3)
  }

  /** The solution, read off the inverse. */
  function Solution(t: Dials): (u: Uses)
    ensures Reduced(u)
  {
    seq(10, k requires 0 <= k < 10 => if k == 0 then 0 else Undone(Need(t))[k] % 4)
  }

  /** Dial `i` gets what it needs, give or take whole turns. */
  lemma DialSolved(t: Dials, i: Move) returns (whole: int)
    ensures Hits(Solution(t), i, 9) == Need(t)[i] + 4 * whole
  {
    hide Hits, Need, Undone, Turned;
    var w := Undone(Need(t));
    var q: Vector := seq(10, k requires 0 <= k < 10 => w[k] / 4);
    HitsAreTurned(Solution(t), i);
    TurnedIsLinear(w, Solution(t), q, i);
    TurnUndoing(Need(t), i);
    whole := LeftOfTurns(Need(t))[i] - Turned(q)[i];
  }

  lemma TurnsToZero(x: nat, whole: int)
    requires x % 3 == 0 && x < 12 && 4 - x / 3 + 4 * whole >= 0
    ensures (x + 3 * (4 - x / 3 + 4 * whole)) % 12 == 0
  {
    assert x + 3 * (4 - x / 3 + 4 * whole) == (1 + whole) * 12 + 0;
    DivModUnique(x + 3 * (4 - x / 3 + 4 * whole), 12, 1 + whole, 0);
  }

  predicate OnQuarters(t: Dials) { forall i :: 1 <= i <= 9 ==> t[i] % 3 == 0 }

  /** Dials that stand on quarters can be solved. */
  lemma QuartersAreSolvable(t: Dials)
    requires OnQuarters(t)
    ensures Solved(After(t, Solution(t)))
  {
    forall i | 1 <= i <= 9
      ensures After(t, Solution(t))[i] == 0
    {
      var w := DialSolved(t, i);
      TurnsToZero(t[i], w);
    }
  }

  /** Moves turn dials by quarters, so dials that can be solved stand on quarters. */
  lemma SolvableIsOnQuarters(t: Dials, u: Uses)
    requires Solved(After(t, u))
    ensures OnQuarters(t)
  {
    forall i | 1 <= i <= 9
      ensures t[i] % 3 == 0
    {
      assert After(t, u)[i] == 0;
      var x := t[i] + 3 * Hits(u, i, 9);
      assert x == (x / 12) * 12;
    }
  }

  /** No position has two reduced solutions. */
  lemma SolutionIsUnique(t: Dials, u: Uses, v: Uses)
    requires Reduced(u) && Reduced(v) && Solved(After(t, u)) && Solved(After(t, v))
    ensures u == v
  {
    var q := seq(10, i requires 0 <= i < 10 => (Hits(u, i, 9) - Hits(v, i, 9)) / 4);
    forall i | 1 <= i <= 9
      ensures Hits(u, i, 9) - Hits(v, i, 9) == 4 * q[i]
    {
      assert After(t, u)[i] == 0 && After(t, v)[i] == 0;
      WholeTurnsApart(t[i], Hits(u, i, 9), Hits(v, i, 9));
    }
    SameTurnsSameUses(u, v, q);
  }

  lemma WholeTurnsApart(x: nat, a: nat, b: nat)
    requires (x + 3 * a) % 12 == 0 && (x + 3 * b) % 12 == 0
    ensures (a - b) % 4 == 0
  {
    assert x + 3 * a == ((x + 3 * a) / 12) * 12 && x + 3 * b == ((x + 3 * b) / 12) * 12;
  }

  /** Solved dials are left solved by no reduced vector but the empty one. */
  lemma SolvedStaysOnlyByNone(t: Dials, u: Uses)
    requires Solved(t) && Reduced(u) && Solved(After(t, u))
    ensures u == NONE
  {
    forall i | 1 <= i <= 9
      ensures After(t, NONE)[i] == 0
    {
      NoHits(i, 9);
    }
    SolutionIsUnique(t, u, NONE);
  }

  lemma SomeMoves(ms: seq<Move>)
    ensures ms != [] ==> Counts(ms) != NONE
  {
    PlayIsAfterCounts([0, 0, 0, 0, 0, 0, 0, 0, 0, 0], ms);
    NoHits(1, 9);
  }

  /** A sequence of moves with the given uses. */
  lemma {:induction false} Spelled(u: Uses) returns (ms: seq<Move>)
    ensures Counts(ms) == u
    decreases Size(u)
  {
    var k := FindTop(u, 9);
    if k == 0 {
      ms := [];
      assert u == NONE;
    } else {
      var p: Uses := u[k := u[k] - 1];
      assert u == Plus(p, k);
      SizePlus(p, k);
      var rest := Spelled(p);
      ms := rest + [k];
      assert ms[..|ms| - 1] == rest;
    }
  }

  /**
    The whole program: dials not all at twelve and all on quarters get a shortest solution, in
    which no move is smaller than the one before; for any others nothing is printed, and
    unless they are at twelve already, nothing would have helped.
    */
  method Solve(start: Dials) returns (r: Answer)
    ensures r.Moves? <==> OnQuarters(start) && !Solved(start)
    ensures r.Moves? ==> NonDecreasing(r.path) && Solved(Play(start, r.path)) && NoneShorter(start, |r.path|)
    ensures r.NoAnswer? && !Solved(start) ==> forall ms: seq<Move> :: !Solved(Play(start, ms))
  {
    r := Bfs(start);
    if r.Moves? {
      PlayIsAfterCounts(start, r.path);
      SolvableIsOnQuarters(start, Counts(r.path));
      SomeMoves(r.path);
      if Solved(start) {
        SolvedStaysOnlyByNone(start, Counts(r.path));
      }
    } else if OnQuarters(start) && !Solved(start) {
      QuartersAreSolvable(start);
      var ms := Spelled(Solution(start));
      PlayIsAfterCounts(start, ms);
    }
  }
}
