/** The breadth-first search over move sequences in which no move is smaller than the one before it. */
module ClockSearch {
  import opened ClockMoves

  /** Queue entries: how often each move is used, the last move added, and the entry it was added to. */
  datatype Queue = Queue(vecs: seq<Uses>, ways: seq<Move>, pres: seq<nat>)

  /** No move above `k` is used. */
  predicate TopIs(u: Uses, k: nat) { forall j :: k < j <= 9 ==> u[j] == 0 }

  predicate EntryOk(q: Queue, j: nat)
    requires |q.vecs| == |q.ways| == |q.pres| && j < |q.vecs|
  {
    Reduced(q.vecs[j]) && TopIs(q.vecs[j], q.ways[j])
  }

  /** Entry `j` is its parent with one more use of a move not below the parent's. */
  predicate LinkOk(q: Queue, j: nat)
    requires |q.vecs| == |q.ways| == |q.pres| && 0 < j < |q.vecs|
  {
    && q.pres[j] < j
    && q.ways[q.pres[j]] <= q.ways[j]
    && q.vecs[j] == Plus(q.vecs[q.pres[j]], q.ways[j])
  }

  predicate WellFormed(q: Queue) {
    && |q.vecs| == |q.ways| == |q.pres| > 0
    && q.vecs[0] == NONE && q.ways[0] == 1
    && (forall j :: 0 <= j < |q.vecs| ==> EntryOk(q, j))
    && (forall j :: 0 < j < |q.vecs| ==> LinkOk(q, j))
  }

  /** Entries before `h` have all their children in the queue, entry `h` those for moves below `i`. */
  predicate Expanded(q: Queue, h: nat, i: nat, p: nat, k: nat) {
    p < h || (p == h && k < i)
  }

  predicate Complete(q: Queue, h: nat, i: nat)
    requires WellFormed(q)
  {
    forall p, k :: 0 <= p < |q.vecs| && q.ways[p] <= k <= 9 && q.vecs[p][k] < 3 && Expanded(q, h, i, p, k) ==>
      Plus(q.vecs[p], k) in q.vecs
  }

  /** Nothing else is in the queue, and nothing twice. */
  predicate Fresh(q: Queue, h: nat, i: nat)
    requires WellFormed(q)
  {
    && (forall j :: 0 < j < |q.vecs| ==> Expanded(q, h, i, q.pres[j], q.ways[j]))
    && Distinct(q.vecs)
  }

  /** Sizes never decrease along the queue, and at most one level beyond the head is present. */
  predicate Layered(q: Queue, h: nat)
    requires |q.vecs| > 0
  {
    && (forall j, k :: 0 <= j < k < |q.vecs| ==> Size(q.vecs[j]) <= Size(q.vecs[k]))
    && (h < |q.vecs| ==> forall j :: 0 <= j < |q.vecs| ==> Size(q.vecs[j]) <= Size(q.vecs[h]) + 1)
  }

  predicate Inv(q: Queue, h: nat, i: nat) {
    WellFormed(q) && h <= |q.vecs| && Complete(q, h, i) && Fresh(q, h, i) && Layered(q, h)
  }

  // --------------------------------------------------------------------------- queue steps

  function Push(q: Queue, h: nat, i: nat): Queue
    requires h < |q.vecs| && 1 <= i <= 9
  {
    Queue(q.vecs + [Plus(q.vecs[h], i)], q.ways + [i], q.pres + [h])
  }

  lemma PushWellFormed(q: Queue, h: nat, i: nat)
    requires WellFormed(q) && h < |q.vecs| && q.ways[h] <= i <= 9 && q.vecs[h][i] < 3
    ensures WellFormed(Push(q, h, i))
  {
    var r := Push(q, h, i);
    forall j | 0 <= j < |r.vecs|
      ensures EntryOk(r, j)
    {
      if j < |q.vecs| { assert EntryOk(q, j); } else { assert EntryOk(q, h); }
    }
    forall j | 0 < j < |r.vecs|
      ensures LinkOk(r, j)
    {
      if j < |q.vecs| { assert LinkOk(q, j); }
    }
  }

  predicate Distinct(vecs: seq<Uses>) { forall j, k :: 0 <= j < k < |vecs| ==> vecs[j] != vecs[k] }

  /** An entry equal to a child of `h` is that child of `h`. */
  lemma SameChild(q: Queue, h: nat, i: nat, j: nat)
    requires WellFormed(q) && Distinct(q.vecs) && h < |q.vecs| && q.ways[h] <= i <= 9
    requires 0 < j < |q.vecs| && q.vecs[j] == Plus(q.vecs[h], i)
    ensures q.ways[j] == i && q.pres[j] == h
  {
    assert EntryOk(q, h) && LinkOk(q, j) && EntryOk(q, j);
    var v := q.vecs[j];
    assert v[i] > 0 && TopIs(v, i) && v[q.ways[j]] > 0;
    assert q.ways[j] == i;
    assert q.vecs[q.pres[j]] == v[i := v[i] - 1] == q.vecs[h];
  }

  /** The child about to be pushed is not in the queue yet. */
  lemma ChildIsNew(q: Queue, h: nat, i: nat)
    requires WellFormed(q) && Fresh(q, h, i) && h < |q.vecs| && q.ways[h] <= i <= 9 && q.vecs[h][i] < 3
    ensures Plus(q.vecs[h], i) !in q.vecs
  {
    var v := Plus(q.vecs[h], i);
    forall j | 0 <= j < |q.vecs|
      ensures q.vecs[j] != v
    {
      assert j > 0 ==> Expanded(q, h, i, q.pres[j], q.ways[j]);
      if j > 0 && q.vecs[j] == v {
        SameChild(q, h, i, j);
      }
    }
  }

  lemma PushComplete(q: Queue, h: nat, i: nat)
    requires WellFormed(q) && Complete(q, h, i) && h < |q.vecs| && q.ways[h] <= i <= 9 && q.vecs[h][i] < 3
    requires WellFormed(Push(q, h, i))
    ensures Complete(Push(q, h, i), h, i + 1)
  {
    var r := Push(q, h, i);
    assert r.vecs[|q.vecs|] == Plus(q.vecs[h], i);
    forall p, k: nat | 0 <= p < |r.vecs| && r.ways[p] <= k <= 9 && r.vecs[p][k] < 3 && Expanded(r, h, i + 1, p, k)
      ensures Plus(r.vecs[p], k) in r.vecs
    {
      if p == h && k == i {
      } else {
        assert Expanded(q, h, i, p, k);
        assert Plus(q.vecs[p], k) in q.vecs;
      }
    }
  }

  lemma PushFresh(q: Queue, h: nat, i: nat)
    requires WellFormed(q) && Fresh(q, h, i) && h < |q.vecs| && q.ways[h] <= i <= 9 && q.vecs[h][i] < 3
    requires WellFormed(Push(q, h, i))
    ensures Fresh(Push(q, h, i), h, i + 1)
  {
    var r := Push(q, h, i);
    ChildIsNew(q, h, i);
    forall j | 0 < j < |r.vecs|
      ensures Expanded(r, h, i + 1, r.pres[j], r.ways[j])
    {
      if j < |q.vecs| {
        assert Expanded(q, h, i, q.pres[j], q.ways[j]);
      }
    }
  }

  lemma PushLayered(q: Queue, h: nat, i: nat)
    requires h < |q.vecs| == |q.ways| == |q.pres| && 1 <= i <= 9 && Layered(q, h)
    ensures Layered(Queue(q.vecs + [Plus(q.vecs[h], i)], q.ways + [i], q.pres + [h]), h)
  {
    hide Size;
    SizePlus(q.vecs[h], i);
  }

  lemma SizePlus(u: Uses, k: Move)
    ensures Size(Plus(u, k)) == Size(u) + 1
  {
    TotalPlus(u, k, 9);
  }

  lemma PushInv(q: Queue, h: nat, i: nat)
    requires Inv(q, h, i) && h < |q.vecs| && q.ways[h] <= i <= 9 && q.vecs[h][i] < 3
    ensures Inv(Push(q, h, i), h, i + 1)
  {
    hide Complete, Fresh, Layered;
    PushWellFormed(q, h, i);
    PushComplete(q, h, i);
    PushFresh(q, h, i);
    PushLayered(q, h, i);
  }

  lemma SkipComplete(q: Queue, h: nat, i: nat)
    requires WellFormed(q) && Complete(q, h, i) && h < |q.vecs| && 1 <= i <= 9 && q.vecs[h][i] >= 3
    ensures Complete(q, h, i + 1)
  {
    forall p, k: nat | 0 <= p < |q.vecs| && q.ways[p] <= k <= 9 && q.vecs[p][k] < 3 && Expanded(q, h, i + 1, p, k)
      ensures Plus(q.vecs[p], k) in q.vecs
    {
      assert Expanded(q, h, i, p, k);
    }
  }

  lemma NextComplete(q: Queue, h: nat, i: nat)
    requires WellFormed(q) && Complete(q, h, 10) && h < |q.vecs|
    requires i == if h + 1 < |q.vecs| then q.ways[h + 1] else 1
    ensures Complete(q, h + 1, i)
  {
    forall p, k: nat | 0 <= p < |q.vecs| && q.ways[p] <= k <= 9 && q.vecs[p][k] < 3 && Expanded(q, h + 1, i, p, k)
      ensures Plus(q.vecs[p], k) in q.vecs
    {
      assert Expanded(q, h, 10, p, k);
    }
  }

  /** Letting more children in leaves the ones there accounted for. */
  lemma FreshLater(q: Queue, h: nat, i: nat, h': nat, i': nat)
    requires WellFormed(q) && Fresh(q, h, i) && (h' > h || (h' == h && i' >= i))
    ensures Fresh(q, h', i')
  {
    forall j | 0 < j < |q.vecs|
      ensures Expanded(q, h', i', q.pres[j], q.ways[j])
    {
      assert Expanded(q, h, i, q.pres[j], q.ways[j]);
    }
  }

  /** A move already used three times has no child to push. */
  lemma SkipInv(q: Queue, h: nat, i: nat)
    requires Inv(q, h, i) && h < |q.vecs| && q.ways[h] <= i <= 9 && q.vecs[h][i] >= 3
    ensures Inv(q, h, i + 1)
  {
    hide WellFormed, Complete, Fresh, Layered;
    SkipComplete(q, h, i);
    FreshLater(q, h, i, h, i + 1);
  }

  lemma NextLayered(q: Queue, h: nat)
    requires |q.vecs| > 0 && Layered(q, h) && h < |q.vecs|
    ensures Layered(q, h + 1)
  {
    hide Size;
    if h + 1 < |q.vecs| {
      assert Size(q.vecs[h]) <= Size(q.vecs[h + 1]);
    }
  }

  /** Entry `h` is done; the next one starts with its own last move. */
  lemma NextInv(q: Queue, h: nat)
    requires Inv(q, h, 10) && h < |q.vecs| == |q.ways|
    ensures Inv(q, h + 1, if h + 1 < |q.vecs| then q.ways[h + 1] else 1)
  {
    var i: nat := if h + 1 < |q.vecs| then q.ways[h + 1] else 1;
    NextLayered(q, h);
    hide WellFormed, Complete, Fresh, Layered;
    NextComplete(q, h, i);
    FreshLater(q, h, 10, h + 1, i);
  }

  function Start(): Queue { Queue([NONE], [1], [0]) }

  lemma StartInv()
    ensures Inv(Start(), 0, 1)
  {
    NoHits(0, 9);
  }

  // ------------------------------------------------------------------------ what is covered

  /** The largest move used, among the first `n`. */
  lemma {:induction false} FindTop(u: Uses, n: nat) returns (k: nat)
    requires n <= 9 && forall j :: n < j <= 9 ==> u[j] == 0
    ensures k <= 9 && TopIs(u, k) && (k > 0 ==> u[k] > 0)
  {
    if n == 0 || u[n] > 0 {
      k := n;
    } else {
      k := FindTop(u, n - 1);
    }
  }

  lemma RootIsNone(q: Queue, v: Uses)
    requires WellFormed(q)
    ensures TopIs(v, 0) ==> v in q.vecs
  {
    if TopIs(v, 0) {
      assert v == NONE == q.vecs[0];
    }
  }

  lemma TakeOne(v: Uses, k: Move) returns (p: Uses)
    requires v[k] > 0 && Reduced(v) && TopIs(v, k)
    ensures v == Plus(p, k) && Size(v) == Size(p) + 1 && Reduced(p) && TopIs(p, k) && p[k] < 3
  {
    p := v[k := v[k] - 1];
    assert v == Plus(p, k);
    SizePlus(p, k);
  }

  /**
    Every reduced use vector no larger than the head's is in the queue; every one at all once the
    queue is exhausted.
    */
  lemma {:induction false} Covers(q: Queue, h: nat, i: nat, v: Uses)
    requires Inv(q, h, i) && Reduced(v) && (h < |q.vecs| ==> Size(v) <= Size(q.vecs[h]))
    ensures v in q.vecs
    decreases Size(v)
  {
    hide Size, WellFormed, Complete, Fresh, Layered;
    var k := FindTop(v, 9);
    if k == 0 {
      RootIsNone(q, v);
    } else {
      var p := TakeOne(v, k);
      Covers(q, h, i, p);
      var j :| 0 <= j < |q.vecs| && q.vecs[j] == p;
      ParentBefore(q, h, i, j, p, k);
    }
  }

  lemma SmallerIsEarlier(q: Queue, h: nat, j: nat)
    requires |q.vecs| > 0 && Layered(q, h) && j < |q.vecs|
    requires h < |q.vecs| ==> Size(q.vecs[j]) < Size(q.vecs[h])
    requires h <= |q.vecs|
    ensures j < h
  {
    hide Size;
  }

  lemma WayAtMostTop(q: Queue, j: nat, k: Move)
    requires WellFormed(q) && j < |q.vecs| && TopIs(q.vecs[j], k)
    ensures q.ways[j] <= k
  {
    if j > 0 {
      assert LinkOk(q, j) && EntryOk(q, j);
      assert q.vecs[j][q.ways[j]] > 0;
    }
  }

  lemma ParentBefore(q: Queue, h: nat, i: nat, j: nat, p: Uses, k: Move)
    requires Inv(q, h, i) && j < |q.vecs| && q.vecs[j] == p && p[k] < 3 && TopIs(p, k)
    requires h < |q.vecs| ==> Size(p) < Size(q.vecs[h])
    ensures Plus(q.vecs[j], k) in q.vecs
  {
    SmallerIsEarlier(q, h, j);
    WayAtMostTop(q, j, k);
    hide Size, Fresh, Layered, EntryOk, LinkOk;
    assert Expanded(q, h, i, j, k);
  }

  // ------------------------------------------------------------------ how long it can get

  function Pow4(n: nat): nat { if n == 0 then 1 else 4 * Pow4(n - 1) }

  /** Base-four number of a reduced vector. */
  function Code(u: Uses, n: nat): nat
    requires n <= 9
  {
    if n == 0 then 0 else 4 * Code(u, n - 1) + u[n]
  }

  lemma {:induction false} CodeBound(u: Uses, n: nat)
    requires n <= 9 && Reduced(u)
    ensures Code(u, n) < Pow4(n)
  {
    if n > 0 {
      CodeBound(u, n - 1);
    }
  }

  lemma {:induction false} CodeInjective(u: Uses, v: Uses, n: nat)
    requires n <= 9 && Reduced(u) && Reduced(v) && Code(u, n) == Code(v, n)
    ensures forall k :: 1 <= k <= n ==> u[k] == v[k]
  {
    if n > 0 {
      assert u[n] == v[n] && Code(u, n - 1) == Code(v, n - 1);
      CodeInjective(u, v, n - 1);
    }
  }

  lemma DistinctCodes(u: Uses, v: Uses)
    requires Reduced(u) && Reduced(v) && u != v
    ensures Code(u, 9) != Code(v, 9)
  {
    if Code(u, 9) == Code(v, 9) {
      CodeInjective(u, v, 9);
    }
  }

  lemma {:induction false} Pigeonhole(s: seq<nat>, n: nat)
    requires forall i :: 0 <= i < |s| ==> s[i] < n
    requires forall i, j :: 0 <= i < j < |s| ==> s[i] != s[j]
    ensures |s| <= n
    decreases n
  {
    if s != [] {
      assert s[0] < n;
      if i :| 0 <= i < |s| && s[i] == n - 1 {
        var t := s[..i] + s[i + 1..];
        assert forall j :: 0 <= j < |t| ==> t[j] == if j < i then s[j] else s[j + 1];
        Pigeonhole(t, n - 1);
      } else {
        Pigeonhole(s, n - 1);
      }
    }
  }

  /** Distinct reduced vectors: at most four to the ninth of them. */
  lemma QueueBound(vecs: seq<Uses>)
    requires forall j :: 0 <= j < |vecs| ==> Reduced(vecs[j])
    requires Distinct(vecs)
    ensures |vecs| <= 262144
  {
    var codes := seq(|vecs|, j requires 0 <= j < |vecs| => Code(vecs[j], 9));
    forall j | 0 <= j < |codes|
      ensures codes[j] < Pow4(9)
    {
      CodeBound(vecs[j], 9);
    }
    forall j, k | 0 <= j < k < |codes|
      ensures codes[j] != codes[k]
    {
      DistinctCodes(vecs[j], vecs[k]);
    }
    Pigeonhole(codes, Pow4(9));
    assert Pow4(9) == 262144 by {
      assert Pow4(4) == 256;
      assert Pow4(8) == 65536;
    }
  }

  // -------------------------------------------------------------------------- the program

  datatype Answer = NoAnswer | Moves(path: seq<Move>)

  /** The moves from the root to entry `j`. */
  function PathOf(q: Queue, j: nat): seq<Move>
    requires WellFormed(q) && j < |q.vecs|
    decreases j
  {
    if j == 0 then []
    else
      assert LinkOk(q, j);
      PathOf(q, q.pres[j]) + [q.ways[j]]
  }

  predicate NonDecreasing(ms: seq<Move>) { forall i, j :: 0 <= i < j < |ms| ==> ms[i] <= ms[j] }

  lemma {:induction false} PathCounts(q: Queue, j: nat)
    requires WellFormed(q) && j < |q.vecs|
    ensures Counts(PathOf(q, j)) == q.vecs[j]
    ensures NonDecreasing(PathOf(q, j)) && forall k :: 0 <= k < |PathOf(q, j)| ==> PathOf(q, j)[k] <= q.ways[j]
    decreases j
  {
    if j > 0 {
      assert LinkOk(q, j);
      PathCounts(q, q.pres[j]);
      assert PathOf(q, j)[..|PathOf(q, j)| - 1] == PathOf(q, q.pres[j]);
    }
  }

  /** The arrays hold the queue: entry `j`'s dials, last move, uses and parent. */
  ghost predicate Stored(start: Dials, q: Queue, t: array<Dials>, way: array<Move>, use: array<Uses>, pre: array<nat>)
    reads t, way, use, pre
  {
    && t.Length == way.Length == use.Length == pre.Length == 270000
    && |q.vecs| == |q.ways| == |q.pres| <= 270000
    && (forall j :: 0 <= j < |q.vecs| ==> t[j] == After(start, q.vecs[j]))
    && (forall j :: 0 <= j < |q.vecs| ==> way[j] == q.ways[j])
    && (forall j :: 0 <= j < |q.vecs| ==> use[j] == q.vecs[j])
    && (forall j :: 0 < j < |q.vecs| ==> pre[j] == q.pres[j])
  }

  /** Copy the dials of `from` and turn those of move `k` by a quarter. */
  method Work(t: array<Dials>, k: Move, from: nat, cur: nat)
    requires from < cur < t.Length
    modifies t
    ensures t[cur] == Turn(old(t[from]), k)
    ensures forall j :: 0 <= j < t.Length && j != cur ==> t[j] == old(t[j])
  {
    t[cur] := t[from];
    var dials := WITH[k];
    var i := 0;
    while i < |dials|
      invariant i <= |dials|
      invariant forall j :: 0 <= j < t.Length && j != cur ==> t[j] == old(t[j])
      invariant forall d :: 0 <= d < 10 ==> t[cur][d] == if d in dials[..i] then (t[from][d] + 3) % 12 else t[from][d]
    {
      var d := dials[i];
      t[cur] := t[cur][d := (t[from][d] + 3) % 12];
      i := i + 1;
    }
    assert dials[..i] == dials;
  }

  method Check(t: Dials) returns (ok: bool)
    ensures ok <==> Solved(t)
  {
    var i := 1;
    while i <= 9
      invariant 1 <= i <= 10 && forall j :: 1 <= j < i ==> t[j] == 0
    {
      if t[i] != 0 {
        return false;
      }
      i := i + 1;
    }
    return true;
  }

  /** Follow the parents back to the root, putting each move in front. */
  method Trace(ghost q: Queue, way: array<Move>, pre: array<nat>, tail: nat) returns (path: seq<Move>)
    requires WellFormed(q) && 0 < tail < |q.vecs| <= way.Length && |q.vecs| <= pre.Length
    requires forall j :: 0 <= j < |q.vecs| ==> way[j] == q.ways[j]
    requires forall j :: 0 < j < |q.vecs| ==> pre[j] == q.pres[j]
    ensures path == PathOf(q, tail)
  {
    assert LinkOk(q, tail);
    path := [way[tail]];
    var j: nat := pre[tail];
    while j != 0
      invariant 0 <= j < tail && PathOf(q, tail) == PathOf(q, j) + path
      decreases j
    {
      assert LinkOk(q, j);
      assert PathOf(q, j) == PathOf(q, q.pres[j]) + [way[j]];
      path := [way[j]] + path;
      j := pre[j];
    }
  }

  /** No sequence of moves, of any kind and in any order, solves `start` in fewer than `n` moves. */
  ghost predicate NoneShorter(start: Dials, n: nat) {
    forall ms: seq<Move> :: Solved(Play(start, ms)) ==> n <= |ms|
  }

  /** With the root unsolved and only the last entry solved, no vector of the head's size or less solves. */
  lemma SmallOnesFail(start: Dials, q: Queue, h: nat, i: nat, tail: nat, v: Uses)
    requires Inv(q, h, i) && h < |q.vecs| == tail + 1 && Size(q.vecs[tail]) > Size(q.vecs[h])
    requires !Solved(start) && forall j :: 0 < j < tail ==> !Solved(After(start, q.vecs[j]))
    requires Reduced(v) && Size(v) <= Size(q.vecs[h])
    ensures !Solved(After(start, v))
  {
    AfterNone(start);
    hide Complete, Fresh, Layered, Size, After, Solved;
    Covers(q, h, i, v);
    var j :| 0 <= j < |q.vecs| && q.vecs[j] == v;
  }

  /** When entry `tail` is the first solved one beyond the root, nothing shorter solves. */
  lemma FirstSolvedIsShortest(start: Dials, q: Queue, h: nat, i: nat, tail: nat)
    requires Inv(q, h, i) && h < |q.vecs| == tail + 1 && Size(q.vecs[tail]) == Size(q.vecs[h]) + 1
    requires !Solved(start) && forall j :: 0 < j < tail ==> !Solved(After(start, q.vecs[j]))
    ensures NoneShorter(start, Size(q.vecs[tail]))
  {
    hide Inv, Size, After, Solved;
    forall ms: seq<Move> | Solved(Play(start, ms))
      ensures Size(q.vecs[tail]) <= |ms|
    {
      var v := SolutionsReduce(start, ms);
      if Size(v) <= Size(q.vecs[h]) {
        SmallOnesFail(start, q, h, i, tail, v);
      }
    }
  }

  /** When the queue runs out with nothing beyond the root solved, only no moves at all could solve. */
  lemma SolverIsRoot(start: Dials, q: Queue, h: nat, i: nat, v: Uses)
    requires Inv(q, h, i) && h == |q.vecs| && forall j :: 0 < j < |q.vecs| ==> !Solved(After(start, q.vecs[j]))
    requires Reduced(v)
    ensures Solved(After(start, v)) ==> Solved(start)
  {
    AfterNone(start);
    hide Complete, Fresh, Layered, Size, After, Solved;
    Covers(q, h, i, v);
    var j :| 0 <= j < |q.vecs| && q.vecs[j] == v;
  }

  lemma ExhaustedMeansNone(start: Dials, q: Queue, h: nat, i: nat)
    requires Inv(q, h, i) && h == |q.vecs| && forall j :: 0 < j < |q.vecs| ==> !Solved(After(start, q.vecs[j]))
    requires !Solved(start)
    ensures forall ms: seq<Move> :: !Solved(Play(start, ms))
  {
    hide Inv, Size, After, Solved;
    forall ms: seq<Move>
      ensures !Solved(Play(start, ms))
    {
      if Solved(Play(start, ms)) {
        var v := SolutionsReduce(start, ms);
        SolverIsRoot(start, q, h, i, v);
      }
    }
  }

  /** The answer traced from the last entry. */
  lemma TracedAnswer(start: Dials, q: Queue, tail: nat, path: seq<Move>)
    requires WellFormed(q) && 0 < tail < |q.vecs| && path == PathOf(q, tail) && Solved(After(start, q.vecs[tail]))
    ensures path != [] && NonDecreasing(path) && Solved(Play(start, path)) && |path| == Size(q.vecs[tail])
    ensures Reduced(Counts(path))
  {
    assert EntryOk(q, tail);
    PathCounts(q, tail);
    PlayIsAfterCounts(start, path);
  }

  /** There is room for one more entry. */
  lemma RoomForChild(q: Queue, h: nat, i: nat)
    requires Inv(q, h, i) && h < |q.vecs| && q.ways[h] <= i <= 9 && q.vecs[h][i] < 3
    ensures |q.vecs| + 1 <= 262144
  {
    PushInv(q, h, i);
    var r := Push(q, h, i);
    forall j | 0 <= j < |r.vecs|
      ensures Reduced(r.vecs[j])
    {
      assert EntryOk(r, j);
    }
    QueueBound(r.vecs);
  }

  /** Add the child of `head` by move `i` behind the last entry. */
  method PushChild(start: Dials, ghost q: Queue, t: array<Dials>, way: array<Move>, use: array<Uses>, pre: array<nat>,
                   head: nat, i: Move, tail: nat)
    requires Stored(start, q, t, way, use, pre) && head < |q.vecs| == tail < 270000
    modifies t, way, use, pre
    ensures Stored(start, Push(q, head, i), t, way, use, pre)
  {
    Work(t, i, head, tail);
    AfterPlus(start, q.vecs[head], i);
    way[tail] := i;
    pre[tail] := head;
    use[tail] := Plus(use[head], i);
  }

  /** One round of the inner loop; `ok` says that the new last entry is solved. */
  method TryMove(start: Dials, ghost q: Queue, t: array<Dials>, way: array<Move>, use: array<Uses>, pre: array<nat>,
                 head: nat, i: nat, tail: nat) returns (tail': nat, ok: bool, ghost q': Queue)
    requires Inv(q, head, i) && Stored(start, q, t, way, use, pre) && head <= tail && |q.vecs| == tail + 1
    requires q.ways[head] <= i <= 9
    modifies t, way, use, pre
    ensures Inv(q', head, i + 1) && Stored(start, q', t, way, use, pre)
    ensures tail <= tail' && |q'.vecs| == tail' + 1 == |q'.ways| && q'.ways[head] == q.ways[head]
    ensures forall j :: 0 <= j <= tail ==> q'.vecs[j] == q.vecs[j]
    ensures !ok ==> forall j :: tail < j <= tail' ==> !Solved(After(start, q'.vecs[j]))
    ensures ok ==> tail' == tail + 1 && Solved(After(start, q'.vecs[tail']))
    ensures ok ==> Size(q'.vecs[tail']) == Size(q'.vecs[head]) + 1
  {
    hide WellFormed, Complete, Fresh, Layered, Solved, Size, After;
    tail', ok, q' := tail, false, q;
    if use[head][i] < 3 {
      RoomForChild(q, head, i);
      PushInv(q, head, i);
      SizePlus(q.vecs[head], i);
      tail' := tail + 1;
      PushChild(start, q, t, way, use, pre, head, i, tail');
      q' := Push(q, head, i);
      ok := Check(t[tail']);
    } else {
      SkipInv(q, head, i);
    }
  }

  /** The answer read off the arrays once the last entry is the first solved one. */
  method Report(start: Dials, ghost q: Queue, t: array<Dials>, way: array<Move>, use: array<Uses>, pre: array<nat>,
                ghost head: nat, ghost i: nat, tail: nat) returns (path: seq<Move>)
    requires Inv(q, head, i) && Stored(start, q, t, way, use, pre) && 0 < tail && head < |q.vecs| == tail + 1
    requires Solved(After(start, q.vecs[tail])) && Size(q.vecs[tail]) == Size(q.vecs[head]) + 1
    requires forall j :: 0 < j < tail ==> !Solved(After(start, q.vecs[j]))
    ensures path != [] && NonDecreasing(path) && Reduced(Counts(path)) && Solved(Play(start, path))
    ensures !Solved(start) ==> NoneShorter(start, |path|)
  {
    hide Complete, Fresh, Layered, Solved, Size, After, NonDecreasing, NoneShorter, Play;
    path := Trace(q, way, pre, tail);
    TracedAnswer(start, q, tail, path);
    if !Solved(start) {
      FirstSolvedIsShortest(start, q, head, i, tail);
    }
  }

  /** The global arrays, with the given dials in entry 0. */
  method Tables(start: Dials) returns (t: array<Dials>, way: array<Move>, use: array<Uses>, pre: array<nat>)
    ensures Stored(start, Start(), t, way, use, pre)
    ensures fresh(t) && fresh(way) && fresh(use) && fresh(pre)
  {
    t := new Dials[270000](_ => start);
    way := new Move[270000](_ => 1);
    use := new Uses[270000](_ => NONE);
    pre := new nat[270000](_ => 0);
    AfterNone(start);
  }

  lemma HeadsMove(start: Dials, q: Queue, t: array<Dials>, way: array<Move>, use: array<Uses>, pre: array<nat>,
      head: nat)
    requires Stored(start, q, t, way, use, pre) && head < |q.vecs|
    ensures head < way.Length && |q.ways| == |q.vecs| && way[head] == q.ways[head]
  {
  }

  /**
    The search. An answer solves the dials, and for unsolved dials no sequence of moves that does
    is shorter; without an answer no sequence of moves solves unsolved dials. The arrays of 270000
    entries are never overrun.
    */
  method Bfs(start: Dials) returns (r: Answer)
    ensures r.Moves? ==> r.path != [] && NonDecreasing(r.path) && Reduced(Counts(r.path)) && Solved(Play(start, r.path))
    ensures r.Moves? && !Solved(start) ==> NoneShorter(start, |r.path|)
    ensures r.NoAnswer? && !Solved(start) ==> forall ms: seq<Move> :: !Solved(Play(start, ms))
  {
    hide Inv, Stored, Solved, Size, After, NonDecreasing, NoneShorter, Play;
    var t, way, use, pre := Tables(start);
    ghost var q := Start();
    StartInv();
    var tail: nat, head := 0, -1;
    while tail > head
      invariant -1 <= head <= tail && |q.vecs| == tail + 1 == |q.ways|
      invariant Inv(q, head + 1, if head + 1 <= tail then q.ways[head + 1] else 1)
      invariant Stored(start, q, t, way, use, pre)
      invariant forall j :: 0 < j <= tail ==> !Solved(After(start, q.vecs[j]))
      decreases 262144 - head
    {
      head := head + 1;
      HeadsMove(start, q, t, way, use, pre, head);
      var i: nat := way[head];
      while i <= 9
        invariant 0 <= head <= tail && |q.vecs| == tail + 1 == |q.ways| && q.ways[head] <= i <= 10
        invariant Inv(q, head, i)
        invariant Stored(start, q, t, way, use, pre)
        invariant forall j :: 0 < j <= tail ==> !Solved(After(start, q.vecs[j]))
      {
        var ok;
        tail, ok, q := TryMove(start, q, t, way, use, pre, head, i, tail);
        if ok {
          var path := Report(start, q, t, way, use, pre, head, i + 1, tail);
          return Moves(path);
        }
        i := i + 1;
      }
      EntriesBound(q, head, 10);
      NextInv(q, head);
    }
    if !Solved(start) {
      ExhaustedMeansNone(start, q, head + 1, 1);
    }
    r := NoAnswer;
  }

  lemma EntriesBound(q: Queue, h: nat, i: nat)
    requires Inv(q, h, i) && h < |q.vecs|
    ensures h < 262144
  {
    forall j | 0 <= j < |q.vecs|
      ensures Reduced(q.vecs[j])
    {
      assert EntryOk(q, j);
    }
    QueueBound(q.vecs);
  }
}
