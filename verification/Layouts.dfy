/**
  What a device of quantum sets has allocated, and what a stretch of positions needs in all: the
  list items up to the last one touched, a table for each item touched, and each quantum touched.
  */
module Layouts {
  import opened Allocation
  import opened Arithmetic
  import opened Bytes
  import opened ScullGeometry
  import opened SparseBytes

  datatype Layout = Layout(items: nat, tabled: set<nat>, filled: set<(nat, nat)>)

  function Size(l: Layout): nat { l.items + |l.tabled| + |l.filled| }

  /** One more slot, with its table and the list as far as it. */
  function With(l: Layout, key: (nat, nat)): Layout {
    Layout(Max(l.items, key.0 + 1), l.tabled + {key.0}, l.filled + {key})
  }

  function Slots(quantum: nat, qset: nat, pos: nat, count: nat): set<(nat, nat)>
    requires quantum > 0 && qset > 0
  {
    set p: nat | pos <= p < pos + count :: Key(quantum, qset, p)
  }

  function Items(quantum: nat, qset: nat, pos: nat, count: nat): set<nat>
    requires quantum > 0 && qset > 0
  {
    set p: nat | pos <= p < pos + count :: Key(quantum, qset, p).0
  }

  /** With everything that the bytes from `pos` on need. */
  function Covering(l: Layout, quantum: nat, qset: nat, pos: nat, count: nat): Layout
    requires quantum > 0 && qset > 0
  {
    if count == 0 then l
    else Layout(Max(l.items, Key(quantum, qset, pos + count - 1).0 + 1),
                l.tabled + Items(quantum, qset, pos, count),
                l.filled + Slots(quantum, qset, pos, count))
  }

  /** How many allocations that takes. */
  function Allocations(l: Layout, quantum: nat, qset: nat, pos: nat, count: nat): (n: nat)
    requires quantum > 0 && qset > 0
  {
    CoveringCostsNoLess(l, quantum, qset, pos, count);
    Size(Covering(l, quantum, qset, pos, count)) - Size(l)
  }

  lemma WithCosts(l: Layout, key: (nat, nat))
    ensures Size(With(l, key)) - Size(l) ==
      Max(0, key.0 + 1 - l.items) + OneIf(key.0 !in l.tabled) + OneIf(key !in l.filled)
  {
    if key.0 in l.tabled { assert l.tabled + {key.0} == l.tabled; }
    if key in l.filled { assert l.filled + {key} == l.filled; }
  }

  lemma ItemsAscend(quantum: nat, qset: nat, p: nat, q: nat)
    requires quantum > 0 && qset > 0 && p <= q
    ensures Key(quantum, qset, p).0 <= Key(quantum, qset, q).0
  {
    ItemSizePositive(quantum, qset);
    var d := quantum * qset;
    var i, j := p / d, q / d;
    assert p == i * d + p % d && q == j * d + q % d;
    if j < i {
      MulMono(j + 1, i, d);
    }
  }

  lemma SlotsStep(quantum: nat, qset: nat, pos: nat, n: nat, count: nat)
    requires quantum > 0 && qset > 0 && 0 < n <= count
    requires forall p: nat :: pos <= p < pos + n ==> Key(quantum, qset, p) == Key(quantum, qset, pos)
    ensures Slots(quantum, qset, pos, count) ==
      {Key(quantum, qset, pos)} + Slots(quantum, qset, pos + n, count - n)
    ensures Items(quantum, qset, pos, count) ==
      {Key(quantum, qset, pos).0} + Items(quantum, qset, pos + n, count - n)
  {
    hide Key;
    assert Key(quantum, qset, pos) in Slots(quantum, qset, pos, count);
    assert Key(quantum, qset, pos).0 in Items(quantum, qset, pos, count);
    forall p: nat | pos <= p < pos + count
      ensures Key(quantum, qset, p) in {Key(quantum, qset, pos)} + Slots(quantum, qset, pos + n, count - n)
      ensures Key(quantum, qset, p).0 in {Key(quantum, qset, pos).0} + Items(quantum, qset, pos + n, count - n)
    {
      if p >= pos + n {
        assert Key(quantum, qset, p) in Slots(quantum, qset, pos + n, count - n);
        assert Key(quantum, qset, p).0 in Items(quantum, qset, pos + n, count - n);
      }
    }
  }

  /** A write's share is its own slot; the rest is what a device that has it still needs. */
  lemma CoveringSteps(l: Layout, quantum: nat, qset: nat, pos: nat, count: nat)
    requires quantum > 0 && qset > 0 && count > 0
    ensures var n, key := InQuantum(quantum, qset, pos, count), Key(quantum, qset, pos);
      Covering(l, quantum, qset, pos, count) == Covering(With(l, key), quantum, qset, pos + n, count - n)
  {
    var n, key := InQuantum(quantum, qset, pos, count), Key(quantum, qset, pos);
    PlaceIsBijective(quantum, qset, pos);
    forall p: nat | pos <= p < pos + n
      ensures Key(quantum, qset, p) == key
    {
      SameQuantum(quantum, qset, pos, p - pos);
    }
    hide PlaceOf, InQuantum, Slots, Items, Key;
    ItemsAscend(quantum, qset, pos, pos + count - 1);
    SlotsStep(quantum, qset, pos, n, count);
    if n == count {
      assert Key(quantum, qset, pos + count - 1) == key;
      NoSlots(quantum, qset, pos + n);
    }
    assert l.tabled + Items(quantum, qset, pos, count) ==
      l.tabled + {key.0} + Items(quantum, qset, pos + n, count - n);
    assert l.filled + Slots(quantum, qset, pos, count) ==
      l.filled + {key} + Slots(quantum, qset, pos + n, count - n);
  }

  lemma NoSlots(quantum: nat, qset: nat, pos: nat)
    requires quantum > 0 && qset > 0
    ensures Slots(quantum, qset, pos, 0) == {} && Items(quantum, qset, pos, 0) == {}
  {
  }

  lemma CoveringNothing(l: Layout, quantum: nat, qset: nat, pos: nat)
    requires quantum > 0 && qset > 0
    ensures Covering(l, quantum, qset, pos, 0) == l
  {
  }

  lemma CoveringCostsNoLess(l: Layout, quantum: nat, qset: nat, pos: nat, count: nat)
    requires quantum > 0 && qset > 0
    ensures Size(Covering(l, quantum, qset, pos, count)) >= Size(l)
  {
    hide Key, Slots, Items;
    if count > 0 {
      Grows(l.tabled, Items(quantum, qset, pos, count));
      Grows(l.filled, Slots(quantum, qset, pos, count));
    }
  }

  lemma {:induction false} Grows<T>(a: set<T>, b: set<T>)
    ensures |a + b| >= |a|
  {
    assert a + b == a + (b - a) && |a + (b - a)| == |a| + |b - a|;
  }
}
