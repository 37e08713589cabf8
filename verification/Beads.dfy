/** Breaking a necklace: how many beads of one colour come off both ends, white counting as any. */
module Beads {
  import opened Arithmetic
  import opened Bytes

  type Necklace = s: string | s != [] witness ['w']

  const WHITE := 'w'

  /** The bead after `k` others, from a break before bead `p`, forwards (`dir` 1) or backwards. */
  function Bead(s: Necklace, p: int, dir: int, k: int): char {
    s[(if dir > 0 then p + k else p - 1 - k) % |s|]
  }

  /** The first `n` beads can be taken together. */
  predicate OneColor(s: Necklace, p: int, dir: int, n: nat) {
    forall j, k :: 0 <= j < n && 0 <= k < n && Bead(s, p, dir, j) != WHITE && Bead(s, p, dir, k) != WHITE ==>
      Bead(s, p, dir, j) == Bead(s, p, dir, k)
  }

  lemma AddLen(n: int, m: int)
    requires m > 0
    ensures (n + m) % m == n % m
  {
    var q, r := n / m, n % m;
    assert n + m == (q + 1) * m + r;
    var q', r' := (n + m) / m, (n + m) % m;
    assert (q' - (q + 1)) * m == r - r';
    SmallMultiple(q' - (q + 1), m);
  }

  /** The program's remainder, which is not negative. */
  method Mod(n0: int, m: int) returns (r: int)
    requires m > 0
    ensures r == n0 % m
  {
    var n := n0;
    while n < 0
      invariant n % m == n0 % m
      decreases -n
    {
      AddLen(n, m);
      n := n + m;
    }
    r := n % m;
  }

  lemma StepMod(x: int, dir: int, m: int)
    requires m > 0
    ensures (x % m + dir) % m == (x + dir) % m
  {
    var q, r := x / m, x % m;
    var q1, r1 := (r + dir) / m, (r + dir) % m;
    var q2, r2 := (x + dir) / m, (x + dir) % m;
    assert x + dir == q * m + (r + dir);
    assert (q2 - q - q1) * m == r1 - r2;
    SmallMultiple(q2 - q - q1, m);
  }

  // ------------------------------------------------------------------ positions, and their colours

  function At(len: nat, start: int, k: nat): int
    requires len > 0
  {
    (start + k) % len
  }

  /** `n` positions in a row. */
  function Arc(len: nat, start: int, n: nat): set<int>
    requires len > 0
  {
    if n == 0 then {} else Arc(len, start, n - 1) + {At(len, start, n - 1)}
  }

  lemma {:induction false} InArc(len: nat, start: int, n: nat, x: int)
    requires len > 0 && x in Arc(len, start, n)
    ensures exists k: nat :: k < n && x == At(len, start, k)
  {
    if x != At(len, start, n - 1) {
      InArc(len, start, n - 1, x);
    }
  }

  lemma {:induction false} AtInArc(len: nat, start: int, k: nat, n: nat)
    requires 0 < len && k < n
    ensures At(len, start, k) in Arc(len, start, n)
  {
    if k < n - 1 {
      AtInArc(len, start, k, n - 1);
    }
  }

  /** No two beads at these positions have different colours, white apart. */
  predicate SameColor(s: Necklace, positions: set<int>) {
    forall x, y :: x in positions && y in positions && 0 <= x < |s| && 0 <= y < |s| && s[x] != 'w' && s[y] != 'w' ==>
      s[x] == s[y]
  }

  /** The `n` positions on one side of a break before bead `p`. */
  function Side(len: nat, p: int, dir: int, n: nat): set<int>
    requires len > 0
  {
    if dir > 0 then Arc(len, p, n) else Arc(len, p - n, n)
  }

  /** Where the bead after `k` others is. */
  function Place(len: nat, p: int, dir: int, k: nat): (x: int)
    requires len > 0
    ensures 0 <= x < len
  {
    if dir > 0 then (p + k) % len else (p - 1 - k) % len
  }

  /** The beads in the order in which they come off are those at the positions of that side. */
  lemma BeadsOfSide(s: Necklace, p: int, dir: int, n: nat)
    ensures OneColor(s, p, dir, n) <==> SameColor(s, Side(|s|, p, dir, n))
  {
    var len, side := |s|, Side(|s|, p, dir, n);
    forall k: nat | k < n
      ensures Place(len, p, dir, k) in side && Bead(s, p, dir, k) == s[Place(len, p, dir, k)]
    {
      AtInArc(len, if dir > 0 then p else p - n, if dir > 0 then k else n - 1 - k, n);
    }
    forall x | x in side
      ensures exists k: nat :: k < n && x == Place(len, p, dir, k)
    {
      var start := if dir > 0 then p else p - n;
      InArc(len, start, n, x);
      var j: nat :| j < n && x == At(len, start, j);
      var k := if dir > 0 then j else n - 1 - j;
      assert x == Place(len, p, dir, k);
    }
    hide Bead, Place, Side;
    if SameColor(s, side) {
      forall j, k | 0 <= j < n && 0 <= k < n && Bead(s, p, dir, j) != WHITE && Bead(s, p, dir, k) != WHITE
        ensures Bead(s, p, dir, j) == Bead(s, p, dir, k)
      {
        assert Place(len, p, dir, j) in side && Place(len, p, dir, k) in side;
      }
    }
    if OneColor(s, p, dir, n) {
      forall x, y | x in side && y in side && 0 <= x < len && 0 <= y < len && s[x] != 'w' && s[y] != 'w'
        ensures s[x] == s[y]
      {
        var j: nat :| j < n && x == Place(len, p, dir, j);
        var k: nat :| k < n && y == Place(len, p, dir, k);
        assert Bead(s, p, dir, j) == Bead(s, p, dir, k);
      }
    }
  }

  /** The longest run from a break. */
  method NBreak(s: Necklace, p: nat, dir: int) returns (n: nat)
    requires p < |s| && (dir == 1 || dir == -1)
    ensures n <= |s| && SameColor(s, Side(|s|, p, dir, n))
    ensures n < |s| ==> !SameColor(s, Side(|s|, p, dir, n + 1))
  {
    hide SameColor, Side;
    var color, i := WHITE, p;
    if dir <= 0 {
      i := Mod(p - 1, |s|);
    }
    n := 0;
    while n < |s|
      invariant n <= |s| && i == (if dir > 0 then p + n else p - 1 - n) % |s|
      invariant forall k :: 0 <= k < n ==>
        Bead(s, p, dir, k) == WHITE || (Bead(s, p, dir, k) == color && color != WHITE)
      invariant color != WHITE ==> exists k :: 0 <= k < n && Bead(s, p, dir, k) == color
    {
      assert s[i] == Bead(s, p, dir, n);
      if color == WHITE && s[i] != WHITE {
        color := s[i];
      }
      if color != WHITE && s[i] != WHITE && s[i] != color {
        break;
      }
      StepMod(if dir > 0 then p + n else p - 1 - n, dir, |s|);
      i := Mod(i + dir, |s|);
      n := n + 1;
    }
    BeadsOfSide(s, p, dir, n);
    BeadsOfSide(s, p, dir, n + 1);
  }

  // ------------------------------------------------------------------ what is taken, as positions

  lemma SameRemainder(a: int, b: int, m: int)
    requires m > 0 && a % m == b % m && 0 - m < a - b < m
    ensures a == b
  {
    assert (a / m - b / m) * m == a - b;
    SmallMultiple(a / m - b / m, m);
  }

  lemma {:induction false} ArcSize(len: nat, start: int, n: nat)
    requires 0 < len && n <= len
    ensures |Arc(len, start, n)| == n
  {
    if n > 0 {
      ArcSize(len, start, n - 1);
      var x := At(len, start, n - 1);
      if x in Arc(len, start, n - 1) {
        InArc(len, start, n - 1, x);
        var k: nat :| k < n - 1 && x == At(len, start, k);
        SameRemainder(start + n - 1, start + k, len);
      }
    }
  }

  lemma {:induction false} ArcsJoin(len: nat, start: int, m: nat, n: nat)
    requires len > 0
    ensures Arc(len, start, m) + Arc(len, start + m, n) == Arc(len, start, m + n)
  {
    if n > 0 {
      ArcsJoin(len, start, m, n - 1);
      assert At(len, start + m, n - 1) == At(len, start, m + n - 1);
    }
  }

  /** A whole turn is every position, and more turns add none. */
  lemma {:induction false} WholeTurns(len: nat, start: int, n: nat)
    requires 0 < len <= n
    ensures Arc(len, start, n) == Arc(len, start, len)
  {
    if len < n {
      WholeTurns(len, start, n - 1);
      AddLen(start + (n - 1 - len), len);
      assert At(len, start, n - 1) == At(len, start, n - 1 - len);
      AtInArc(len, start, n - 1 - len, n - 1);
    }
  }

  /** The positions taken by breaking before `p` and taking `f` beads forwards and `b` backwards. */
  function Taken(s: Necklace, p: int, f: nat, b: nat): set<int> {
    Arc(|s|, p, f) + Arc(|s|, p - b, b)
  }

  /** Beads that both ends can take are counted once. */
  lemma TakenSize(s: Necklace, p: int, f: nat, b: nat)
    ensures |Taken(s, p, f, b)| == Min(|s|, f + b)
  {
    ArcsJoin(|s|, p - b, b, f);
    assert Taken(s, p, f, b) == Arc(|s|, p - b, b + f);
    if f + b <= |s| {
      ArcSize(|s|, p - b, b + f);
    } else {
      WholeTurns(|s|, p - b, b + f);
      ArcSize(|s|, p - b, |s|);
    }
  }

  /** A break at `p` that gives `f` and `b` beads. */
  predicate Allowed(s: Necklace, p: nat, f: nat, b: nat) {
    p < |s| && f <= |s| && b <= |s| && SameColor(s, Arc(|s|, p, f)) && SameColor(s, Arc(|s|, p - b, b))
  }

  lemma Longest(s: Necklace, p: nat, dir: int, n: nat, m: nat)
    requires SameColor(s, Side(|s|, p, dir, m)) && !SameColor(s, Side(|s|, p, dir, n + 1))
    ensures m <= n
  {
    BeadsOfSide(s, p, dir, m);
    BeadsOfSide(s, p, dir, n + 1);
  }

  /** The number printed is the largest number of beads any break can give. */
  method MostBeads(s: Necklace) returns (m: nat)
    ensures forall p: nat, f: nat, b: nat :: Allowed(s, p, f, b) ==> |Taken(s, p, f, b)| <= m
    ensures exists p: nat, f: nat, b: nat :: Allowed(s, p, f, b) && |Taken(s, p, f, b)| == m
  {
    hide SameColor, Taken, Arc;
    m := 0;
    ghost var p0: nat, f0: nat, b0: nat := 0, 0, 0;
    NoneTaken(s);
    for i := 0 to |s|
      invariant Allowed(s, p0, f0, b0) && m == f0 + b0
      invariant forall p: nat, f: nat, b: nat :: p < i && Allowed(s, p, f, b) ==> f + b <= m
    {
      var forwards := NBreak(s, i, 1);
      var backwards := NBreak(s, i, -1);
      forall f: nat, b: nat | Allowed(s, i, f, b)
        ensures f + b <= forwards + backwards
      {
        if forwards < |s| { Longest(s, i, 1, forwards, f); }
        if backwards < |s| { Longest(s, i, -1, backwards, b); }
      }
      var n := forwards + backwards;
      if n > m {
        m := n;
        p0, f0, b0 := i, forwards, backwards;
      }
    }
    TakenSize(s, p0, f0, b0);
    if m > |s| {
      m := |s|;
    }
    forall p: nat, f: nat, b: nat | Allowed(s, p, f, b)
      ensures |Taken(s, p, f, b)| <= m
    {
      TakenSize(s, p, f, b);
    }
  }

  lemma NoneTaken(s: Necklace)
    ensures Allowed(s, 0, 0, 0)
  {
  }
}
