/** Where a file position lives in a device of quantum sets: list item, slot in the set, byte in the quantum. */
module ScullGeometry {
  import opened Arithmetic

  datatype Place = Place(item: nat, slot: nat, offset: nat)

  /** The driver's divisions and remainders. */
  function PlaceOf(quantum: nat, qset: nat, pos: nat): Place
    requires quantum > 0 && qset > 0
  {
    ItemSizePositive(quantum, qset);
    var itemsize := quantum * qset;
    var rest := pos % itemsize;
    Place(pos / itemsize, rest / quantum, rest % quantum)
  }

  function PosOf(quantum: nat, qset: nat, p: Place): nat {
    p.item * (quantum * qset) + p.slot * quantum + p.offset
  }

  lemma ItemSizePositive(quantum: nat, qset: nat)
    requires quantum > 0 && qset > 0
    ensures quantum * qset > 0
  {
  }

  lemma SlotInRange(quantum: nat, qset: nat, rest: nat)
    requires quantum > 0 && rest < quantum * qset
    ensures rest / quantum < qset
  {
    var q := rest / quantum;
    assert q * quantum <= rest;
    assert q < qset by {
      assert (q - qset) * quantum == q * quantum - qset * quantum < 0;
    }
  }

  /** Positions and in-range places correspond one to one. */
  lemma PlaceIsBijective(quantum: nat, qset: nat, pos: nat)
    requires quantum > 0 && qset > 0
    ensures PlaceOf(quantum, qset, pos).slot < qset && PlaceOf(quantum, qset, pos).offset < quantum
    ensures PosOf(quantum, qset, PlaceOf(quantum, qset, pos)) == pos
  {
    ItemSizePositive(quantum, qset);
    var itemsize := quantum * qset;
    SlotInRange(quantum, qset, pos % itemsize);
    assert pos == (pos / itemsize) * itemsize + pos % itemsize;
    var rest := pos % itemsize;
    assert rest == (rest / quantum) * quantum + rest % quantum;
  }

  lemma PosIsBijective(quantum: nat, qset: nat, p: Place)
    requires quantum > 0 && qset > 0 && p.slot < qset && p.offset < quantum
    ensures PlaceOf(quantum, qset, PosOf(quantum, qset, p)) == p
  {
    ItemSizePositive(quantum, qset);
    var itemsize, rest := quantum * qset, p.slot * quantum + p.offset;
    assert rest < itemsize by {
      MulMono(p.slot, qset - 1, quantum);
      assert (qset - 1) * quantum == itemsize - quantum;
    }
    var pos := p.item * itemsize + rest;
    assert PosOf(quantum, qset, p) == pos;
    DivModUnique(pos, itemsize, p.item, rest);
    DivModUnique(rest, quantum, p.slot, p.offset);
    assert pos / itemsize == p.item && pos % itemsize == rest;
  }

  /** Positions up to the end of the quantum share its slot and follow each other in it. */
  lemma SameQuantum(quantum: nat, qset: nat, pos: nat, k: nat)
    requires quantum > 0 && qset > 0
    requires PlaceOf(quantum, qset, pos).offset + k < quantum
    ensures PlaceOf(quantum, qset, pos + k)
         == PlaceOf(quantum, qset, pos).(offset := PlaceOf(quantum, qset, pos).offset + k)
  {
    PlaceIsBijective(quantum, qset, pos);
    var p := PlaceOf(quantum, qset, pos);
    PosIsBijective(quantum, qset, p.(offset := p.offset + k));
  }

  /** Positions in the same slot differ by the difference of their offsets. */
  lemma SlotMates(quantum: nat, qset: nat, a: nat, b: nat)
    requires quantum > 0 && qset > 0
    requires PlaceOf(quantum, qset, a).item == PlaceOf(quantum, qset, b).item
    requires PlaceOf(quantum, qset, a).slot == PlaceOf(quantum, qset, b).slot
    ensures a - PlaceOf(quantum, qset, a).offset == b - PlaceOf(quantum, qset, b).offset
  {
    PlaceIsBijective(quantum, qset, a);
    PlaceIsBijective(quantum, qset, b);
  }
}
