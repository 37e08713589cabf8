/**
  A scull device as a value: which quanta exist, by list item and slot, and what they hold.
  A file position has a byte when its quantum exists.
  */
module SparseBytes {
  import opened Arithmetic
  import opened Options
  import opened Bytes
  import opened ByteRing
  import opened ScullGeometry

  type Quanta = map<(nat, nat), seq<Byte>>

  function Lookup(m: Quanta, key: (nat, nat)): Option<seq<Byte>> {
    if key in m then Some(m[key]) else None
  }

  predicate Shaped(m: Quanta, quantum: nat, qset: nat) {
    quantum > 0 && qset > 0 && forall k :: k in m ==> k.1 < qset && |m[k]| == quantum
  }

  function Key(quantum: nat, qset: nat, pos: nat): (nat, nat)
    requires quantum > 0 && qset > 0
  {
    (PlaceOf(quantum, qset, pos).item, PlaceOf(quantum, qset, pos).slot)
  }

  function ByteAt(m: Quanta, quantum: nat, qset: nat, pos: nat): Option<Byte>
    requires Shaped(m, quantum, qset)
  {
    PlaceIsBijective(quantum, qset, pos);
    var k := Key(quantum, qset, pos);
    if k in m then Some(m[k][PlaceOf(quantum, qset, pos).offset]) else None
  }

  /** How many bytes one write or read moves: no further than the end of the quantum. */
  function InQuantum(quantum: nat, qset: nat, pos: nat, count: nat): (n: nat)
    requires quantum > 0 && qset > 0
    ensures n <= count && (count > 0 ==> n > 0)
  {
    PlaceIsBijective(quantum, qset, pos);
    Min(count, quantum - PlaceOf(quantum, qset, pos).offset)
  }

  /** It moves fewer bytes than asked for only up to a quantum's end, where the next begins. */
  lemma StopsShortAtTheEnd(quantum: nat, qset: nat, pos: nat, count: nat)
    requires quantum > 0 && qset > 0
    ensures var n := InQuantum(quantum, qset, pos, count);
      && (n < count ==> (pos + n) % quantum == 0)
      && forall p: nat :: pos <= p < pos + n ==> Key(quantum, qset, p) == Key(quantum, qset, pos)
  {
    var n, at := InQuantum(quantum, qset, pos, count), PlaceOf(quantum, qset, pos);
    PlaceIsBijective(quantum, qset, pos);
    forall p: nat | pos <= p < pos + n
      ensures Key(quantum, qset, p) == Key(quantum, qset, pos)
    {
      SameQuantum(quantum, qset, pos, p - pos);
    }
    if n < count {
      WholeQuanta(quantum, qset, at.item, at.slot);
    }
  }

  lemma WholeQuanta(quantum: nat, qset: nat, item: nat, slot: nat)
    requires quantum > 0
    ensures (item * (quantum * qset) + slot * quantum + quantum) % quantum == 0
  {
    var whole := item * qset + slot + 1;
    assert item * (quantum * qset) == item * qset * quantum;
    assert item * (quantum * qset) + slot * quantum + quantum == whole * quantum + 0;
    DivModUnique(whole * quantum, quantum, whole, 0);
  }

  /** A read stops short, short of a hole, only at a quantum's end or at the size. */
  lemma ReadStopsShort(m: Quanta, quantum: nat, qset: nat, size: nat, pos: nat, count: nat)
    requires Shaped(m, quantum, qset)
    ensures var n := |ReadBytes(m, quantum, qset, size, pos, count)|;
      n < count ==> (pos + n) % quantum == 0 || pos + n >= size || ByteAt(m, quantum, qset, pos).None?
  {
    PlaceIsBijective(quantum, qset, pos);
    if pos < size {
      StopsShortAtTheEnd(quantum, qset, pos, Min(count, size - pos));
    }
  }

  /**
    `after` is `before` with `bytes` copied into one quantum. A quantum that did not exist is
    born with arbitrary contents `base`.
    */
  predicate SlotWritten(before: Quanta, after: Quanta, key: (nat, nat), offset: nat, bytes: seq<Byte>,
      base: seq<Byte>) {
    && offset + |bytes| <= |base|
    && (key in before ==> base == before[key])
    && after == before[key := Splice(base, offset, bytes)]
  }

  /** The bytes one read returns: none at a hole or past the end, else up to the end of the quantum. */
  function ReadBytes(m: Quanta, quantum: nat, qset: nat, size: nat, pos: nat, count: nat): (r: seq<Byte>)
    requires Shaped(m, quantum, qset)
  {
    PlaceIsBijective(quantum, qset, pos);
    var key := Key(quantum, qset, pos);
    var offset := PlaceOf(quantum, qset, pos).offset;
    if pos >= size || key !in m then []
    else m[key][offset..offset + InQuantum(quantum, qset, pos, Min(count, size - pos))]
  }

  /** From `pos` on, the device holds `data`. */
  ghost predicate Holds(m: Quanta, quantum: nat, qset: nat, pos: nat, data: seq<Byte>)
    requires Shaped(m, quantum, qset)
  {
    forall k :: 0 <= k < |data| ==> ByteAt(m, quantum, qset, pos + k) == Some(data[k])
  }

  /**
    A read returns the bytes of its positions, inside the size, and stops early only at a quantum's
    end or the size.
    */
  lemma ReadReturnsWhatIsThere(m: Quanta, quantum: nat, qset: nat, size: nat, pos: nat, count: nat)
    requires Shaped(m, quantum, qset)
    ensures var r := ReadBytes(m, quantum, qset, size, pos, count);
      && Holds(m, quantum, qset, pos, r)
      && |r| <= count && (r != [] ==> pos + |r| <= size)
      && (r != [] <==> count > 0 && pos < size && ByteAt(m, quantum, qset, pos).Some?)
  {
    PlaceIsBijective(quantum, qset, pos);
    var r := ReadBytes(m, quantum, qset, size, pos, count);
    forall k | 0 <= k < |r|
      ensures ByteAt(m, quantum, qset, pos + k) == Some(r[k])
    {
      SameQuantum(quantum, qset, pos, k);
    }
  }

  /** One more short write extends what the device holds from `pos` on. */
  lemma HoldsMore(before: Quanta, after: Quanta, quantum: nat, qset: nat, pos: nat, data: seq<Byte>, done: nat, n: nat)
    requires Shaped(before, quantum, qset) && Shaped(after, quantum, qset) && done + n <= |data|
    requires Holds(before, quantum, qset, pos, data[..done])
    requires Overwritten(before, after, quantum, qset, pos + done, data[done..][..n])
    ensures Holds(after, quantum, qset, pos, data[..done + n])
  {
    forall k | 0 <= k < done + n
      ensures ByteAt(after, quantum, qset, pos + k) == Some(data[k])
    {
      if k < done {
        assert ByteAt(before, quantum, qset, pos + k) == Some(data[..done][k]);
      } else {
        assert data[done..][..n][k - done] == data[k];
      }
    }
  }

  lemma HoldsNothing(m: Quanta, quantum: nat, qset: nat, pos: nat, a: seq<Byte>)
    requires Shaped(m, quantum, qset) && a == []
    ensures Holds(m, quantum, qset, pos, a)
  {
  }

  lemma HoldsAppend(m: Quanta, quantum: nat, qset: nat, pos: nat, a: seq<Byte>, b: seq<Byte>)
    requires Shaped(m, quantum, qset)
    requires Holds(m, quantum, qset, pos, a) && Holds(m, quantum, qset, pos + |a|, b)
    ensures Holds(m, quantum, qset, pos, a + b)
  {
    forall k | 0 <= k < |a + b|
      ensures ByteAt(m, quantum, qset, pos + k) == Some((a + b)[k])
    {
      if k >= |a| {
        assert ByteAt(m, quantum, qset, pos + |a| + (k - |a|)) == Some(b[k - |a|]);
      }
    }
  }

  /** Two things held at the same place agree as far as both go; a read that stopped early would prove it wrong. */
  lemma HoldsUnique(m: Quanta, quantum: nat, qset: nat, pos: nat, a: seq<Byte>, b: seq<Byte>)
    requires Shaped(m, quantum, qset) && |b| <= |a|
    requires Holds(m, quantum, qset, pos, a) && Holds(m, quantum, qset, pos, b)
    ensures b == a[..|b|]
    ensures |b| < |a| ==> ByteAt(m, quantum, qset, pos + |b|).Some?
  {
    assert |b| < |a| ==> ByteAt(m, quantum, qset, pos + |b|) == Some(a[|b|]);
    forall k | 0 <= k < |b|
      ensures b[k] == a[k]
    {
      assert ByteAt(m, quantum, qset, pos + k) == Some(a[k]);
    }
  }

  lemma NewThenWritten(before: Quanta, born: Quanta, after: Quanta, key: (nat, nat), offset: nat, bytes: seq<Byte>,
      base: seq<Byte>)
    requires offset + |bytes| <= |base|
    requires born == before[key := base] && (key in before ==> base == before[key])
    requires after == born[key := Splice(born[key], offset, bytes)]
    ensures SlotWritten(before, after, key, offset, bytes, base)
  {
  }

  /**
    The sparse byte map a write of `bytes` at `pos` must produce: the written bytes where they
    were written; every byte that existed elsewhere unchanged; and no new bytes outside the
    quantum of `pos`.
    */
  ghost predicate Overwritten(before: Quanta, after: Quanta, quantum: nat, qset: nat, pos: nat, bytes: seq<Byte>)
    requires Shaped(before, quantum, qset) && Shaped(after, quantum, qset)
  {
    forall p: nat ::
      && (pos <= p < pos + |bytes| ==> ByteAt(after, quantum, qset, p) == Some(bytes[p - pos]))
      && (!(pos <= p < pos + |bytes|) && ByteAt(before, quantum, qset, p).Some? ==>
            ByteAt(after, quantum, qset, p) == ByteAt(before, quantum, qset, p))
      && (ByteAt(before, quantum, qset, p).None? && ByteAt(after, quantum, qset, p).Some? ==>
            Key(quantum, qset, p) == Key(quantum, qset, pos))
  }

  /** Copying into the quantum that the driver's divisions select overwrites exactly the addressed positions. */
  lemma SlotWrittenMeans(before: Quanta, after: Quanta, quantum: nat, qset: nat, pos: nat, bytes: seq<Byte>,
      base: seq<Byte>)
    requires Shaped(before, quantum, qset) && Shaped(after, quantum, qset)
    requires SlotWritten(before, after, Key(quantum, qset, pos), PlaceOf(quantum, qset, pos).offset, bytes, base)
    ensures Overwritten(before, after, quantum, qset, pos, bytes)
  {
    var here := PlaceOf(quantum, qset, pos);
    var key := Key(quantum, qset, pos);
    forall p: nat
      ensures pos <= p < pos + |bytes| ==> ByteAt(after, quantum, qset, p) == Some(bytes[p - pos])
      ensures !(pos <= p < pos + |bytes|) && ByteAt(before, quantum, qset, p).Some? ==>
            ByteAt(after, quantum, qset, p) == ByteAt(before, quantum, qset, p)
      ensures ByteAt(before, quantum, qset, p).None? && ByteAt(after, quantum, qset, p).Some? ==>
            Key(quantum, qset, p) == key
    {
      PlaceIsBijective(quantum, qset, pos);
      PlaceIsBijective(quantum, qset, p);
      if pos <= p < pos + |bytes| {
        SameQuantum(quantum, qset, pos, p - pos);
      } else if Key(quantum, qset, p) == key {
        SlotMates(quantum, qset, pos, p);
      }
    }
  }
}

/**
  The memory behind a scull device: a linked list of quantum sets, each with a table of quanta.
  Tables and quanta are allocated when first written; allocation may fail at any point. A table
  slot is None for a null pointer, else the bytes of its quantum.
  */
module ScullStore {
  import opened Options
  import opened Allocation
  import opened Bytes
  import opened Layouts
  import opened ScullGeometry
  import opened SparseBytes
  import ByteRing

  type Table = array<Option<seq<Byte>>>

  datatype WriteResult = NoMemory | WriteFault | Wrote(n: nat)
  datatype ReadResult = ReadFault | Got(bytes: seq<Byte>)

  class QSet {
    var next: QSet?
    var data: array?<Option<seq<Byte>>>

    constructor ()
      ensures next == null && data == null
    {
      next, data := null, null;
    }
  }

  class ScullDev {
    var data: QSet?
    var quantum: nat
    var qset: nat
    var size: nat
    /** The list items in order, and as a set. */
    ghost var nodes: seq<QSet>
    ghost var items: set<QSet>
    /** The table of each list item, or null; and the tables as a set. */
    ghost var tables: seq<array?<Option<seq<Byte>>>>
    ghost var store: set<Table>
    /** The abstract value of the device: which quanta exist and what they hold. */
    ghost var quanta: Quanta

    ghost predicate Linked()
      reads `data, `nodes, `items, items`next
    {
      && (forall i :: 0 <= i < |nodes| ==> nodes[i] in items)
      && (nodes == [] ==> data == null)
      && (nodes != [] ==> data == nodes[0] && nodes[|nodes| - 1].next == null)
      && (forall i, j :: 0 <= i < j < |nodes| ==> nodes[i] != nodes[j])
      && (forall i, j :: 0 <= i < |nodes| && 0 <= j < |nodes| && j == i + 1 ==> nodes[i].next == nodes[j])
    }

    ghost predicate Tabled()
      requires Linked()
      reads `data, `qset, `nodes, `items, `tables, `store, items
    {
      && |tables| == |nodes|
      && (forall i :: 0 <= i < |nodes| ==> nodes[i].data == tables[i])
      && (forall i :: 0 <= i < |tables| && tables[i] != null ==> tables[i] in store && tables[i].Length == qset)
      && (forall i, j :: 0 <= i < j < |tables| && tables[i] != null ==> tables[i] != tables[j])
    }

    ghost predicate Filled()
      reads `quantum, `qset, `tables, `quanta, `store, store
    {
      && (forall k :: k in quanta ==> k.0 < |tables| && tables[k.0] != null && k.1 < qset && |quanta[k]| == quantum)
      && (forall i: nat, s: nat ::
            i < |tables| && tables[i] != null && tables[i] in store && s < qset && s < tables[i].Length ==>
              tables[i][s] == Lookup(quanta, (i, s)))
    }

    ghost predicate Valid()
      reads `data, `quantum, `qset, `nodes, `items, `tables, `store, `quanta, items, store
    {
      quantum > 0 && qset > 0 && Linked() && Tabled() && Filled()
    }

    constructor (scullQuantum: nat, scullQset: nat)
      requires scullQuantum > 0 && scullQset > 0
      ensures Valid() && fresh(items) && fresh(store)
      ensures size == 0 && quanta == map[] && quantum == scullQuantum && qset == scullQset
    {
      data, quantum, qset, size := null, scullQuantum, scullQset, 0;
      nodes, items, tables, store, quanta := [], {}, [], {}, map[];
    }

    /** Link one more list item, just allocated, behind `last`, the present end of the list. */
    method Append(last: QSet?)
      requires Valid() && last == (if nodes == [] then null else nodes[|nodes| - 1])
      modifies this`data, this`nodes, this`items, this`tables, items`next
      ensures Valid() && fresh(items - old(items))
      ensures |nodes| == |old(nodes)| + 1 && old(nodes) <= nodes && tables == old(tables) + [null]
    {
      var item := new QSet();
      if last == null {
        data := item;
      } else {
        last.next := item;
      }
      nodes, items, tables := nodes + [item], items + {item}, tables + [null];
      assert Linked();
    }

    /** Walk to list item `n`, creating items on the way; null exactly when an allocation for one is refused. */
    method Follow(n: nat, memory: Allocator) returns (qs: QSet?, left: Allocator)
      requires Valid()
      modifies this`data, this`nodes, this`items, this`tables, items`next
      ensures Valid() && fresh(items - old(items))
      ensures old(nodes) <= nodes && old(tables) <= tables
      ensures forall i :: |old(tables)| <= i < |tables| ==> tables[i] == null
      ensures qs != null <==> Grants(memory, Max(0, n + 1 - |old(nodes)|))
      ensures qs != null ==> |nodes| == Max(|old(nodes)|, n + 1) && qs == nodes[n]
      ensures qs != null ==> left == Spend(memory, |nodes| - |old(nodes)|)
      ensures qs == null ==> memory.Limited? && |nodes| == |old(nodes)| + memory.left
    {
      left := memory;
      if data == null {
        if !Grants(left, 1) {
          return null, left;
        }
        left := Spend(left, 1);
        Append(null);
      }
      qs := data;
      var i := 0;
      while i < n
        invariant Valid() && i <= n && i < |nodes| && qs == nodes[i]
        invariant fresh(items - old(items))
        invariant old(nodes) <= nodes && old(tables) <= tables
        invariant forall k :: |old(tables)| <= k < |tables| ==> tables[k] == null
        invariant |nodes| == Max(|old(nodes)|, i + 1) && Grants(memory, |nodes| - |old(nodes)|)
        invariant left == Spend(memory, |nodes| - |old(nodes)|)
      {
        if i + 1 < |nodes| {
          assert nodes[i].next == nodes[i + 1];
        }
        if qs.next == null {
          if !Grants(left, 1) {
            return null, left;
          }
          left := Spend(left, 1);
          Append(qs);
          assert nodes[i].next == nodes[i + 1];
        }
        qs := qs.next;
        i := i + 1;
      }
    }

    /** Hang an all-null table on a list item that has none. */
    method InstallTable(qs: QSet, item: nat, table: Table)
      requires Valid() && item < |nodes| && qs == nodes[item] && qs.data == null
      requires table.Length == qset && forall s :: 0 <= s < qset ==> table[s] == None
      requires forall i :: 0 <= i < |tables| ==> tables[i] != table
      modifies this`tables, this`store, qs`data
      ensures Valid() && tables == old(tables)[item := table] && store == old(store) + {table}
    {
      qs.data := table;
      tables, store := tables[item := table], store + {table};
      assert Linked();
      assert Tabled();
    }

    /** Make sure list item `item` has a table; it lacks one afterwards exactly when the allocation is refused. */
    method EnsureTable(qs: QSet, item: nat, memory: Allocator) returns (ok: bool, left: Allocator)
      requires Valid() && item < |nodes| && qs == nodes[item]
      modifies this`tables, this`store, qs`data
      ensures Valid() && fresh(store - old(store))
      ensures |tables| == |old(tables)|
      ensures ok <==> Grants(memory, OneIf(old(tables)[item] == null))
      ensures ok ==> tables[item] != null && left == Spend(memory, OneIf(old(tables)[item] == null))
      ensures tables == old(tables)[item := if ok then tables[item] else old(tables)[item]]
    {
      ok, left := true, memory;
      if qs.data == null {
        ok := Grants(left, 1);
        if ok {
          left := Spend(left, 1);
          var table := new Option<seq<Byte>>[qset](_ => None);
          InstallTable(qs, item, table);
        }
      }
    }

    lemma TableFacts(item: nat)
      requires Valid() && item < |tables| && tables[item] != null
      ensures tables[item] in store && tables[item].Length == qset
      ensures forall j :: 0 <= j < |tables| && j != item ==> tables[j] != tables[item]
    {
    }

    /** Put a quantum's bytes in its slot. */
    method SetSlot(table: Table, item: nat, slot: nat, q: seq<Byte>)
      requires Valid() && item < |tables| && table == tables[item] && slot < qset && |q| == quantum
      modifies this`quanta, table
      ensures Valid()
      ensures quanta == old(quanta)[(item, slot) := q]
    {
      hide Linked, Tabled;
      TableFacts(item);
      table[slot] := Some(q);
      quanta := quanta[(item, slot) := q];
    }

    /** A new quantum holds whatever the allocator left there. */
    method AllocateQuantum() returns (q: seq<Byte>)
      ensures |q| == quantum
    {
      var block := new Byte[quantum];
      q := block[..];
    }

    /** Make sure the slot has a quantum, then copy into it. */
    method PutBytes(table: Table, item: nat, slot: nat, offset: nat, bytes: seq<Byte>, memory: Allocator)
        returns (ok: bool, ghost base: seq<Byte>, left: Allocator)
      requires Valid() && item < |tables| && table == tables[item] && slot < qset && offset + |bytes| <= quantum
      modifies this`quanta, table
      ensures Valid()
      ensures ok <==> Grants(memory, OneIf((item, slot) !in old(quanta)))
      ensures ok ==> left == Spend(memory, OneIf((item, slot) !in old(quanta)))
      ensures !ok ==> quanta == old(quanta)
      ensures ok ==> SlotWritten(old(quanta), quanta, (item, slot), offset, bytes, base)
    {
      base, ok, left := [], true, memory;
      SlotFacts(item, slot);
      if table[slot].None? {
        ok := Grants(left, 1);
        if ok {
          left := Spend(left, 1);
        }
      }
      if ok {
        var q: seq<Byte>;
        if table[slot].Some? {
          q := table[slot].value;
        } else {
          q := AllocateQuantum();
        }
        base := q;
        SetSlot(table, item, slot, ByteRing.Splice(q, offset, bytes));
      }
    }

    lemma SlotFacts(item: nat, slot: nat)
      requires Valid() && item < |tables| && tables[item] != null && slot < qset
      ensures tables[item] in store && tables[item].Length == qset && tables[item][slot] == Lookup(quanta, (item, slot))
    {
    }

    lemma GeometryIsPositive()
      requires Valid()
      ensures quantum > 0 && qset > 0
    {
    }

    lemma QuantaAreShaped()
      requires Valid()
      ensures Shaped(quanta, quantum, qset)
    {
    }

    /** What has been allocated. */
    ghost function Allocated(): Layout
      reads `nodes, `tables, `quanta
    {
      Layout(|nodes|, Tabulated(tables), quanta.Keys)
    }

    /** How many allocations a write to this slot needs: list items up to it, its table, its quantum. */
    ghost function Needed(item: nat, slot: nat): nat
      reads `nodes, `tables, `quanta
    {
      Max(0, item + 1 - |nodes|) + OneIf(item >= |tables| || tables[item] == null) + OneIf((item, slot) !in quanta)
    }

    lemma QuantumHasTable(item: nat, slot: nat)
      requires Valid()
      ensures |tables| == |nodes|
      ensures (item, slot) in quanta ==> item < |tables| && tables[item] != null
    {
    }

    /** Reach the table for a list item, creating what is missing on the way. */
    method ReachTable(item: nat, memory: Allocator) returns (table: array?<Option<seq<Byte>>>, left: Allocator)
      requires Valid()
      modifies this`data, this`nodes, this`items, this`tables, this`store, items
      ensures Valid() && fresh(items - old(items)) && fresh(store - old(store))
      ensures var needed := Max(0, item + 1 - |old(nodes)|) + OneIf(item >= |old(tables)| || old(tables)[item] == null);
        && (table != null <==> Grants(memory, needed))
        && (table != null ==> left == Spend(memory, needed))
      ensures table != null ==> item < |tables| && table == tables[item] && (table in old(store) || fresh(table))
      ensures table != null ==> |nodes| == Max(|old(nodes)|, item + 1)
      ensures table != null ==> Tabulated(tables) == Tabulated(old(tables)) + {item}
    {
      hide Valid, Tabulated;
      QuantumHasTable(item, 0);
      var qs;
      qs, left := Follow(item, memory);
      table := null;
      if qs != null {
        ItemTable(item);
        var ok;
        ok, left := EnsureTable(qs, item, left);
        ItemTable(item);
        if ok {
          TabulatedWith(old(tables), tables, item);
          table := qs.data;
        }
      }
    }

    /** Reach the quantum and copy; everything a write does except counting and moving the size. */
    method PutAt(item: nat, slot: nat, offset: nat, bytes: seq<Byte>, memory: Allocator)
        returns (ok: bool, ghost base: seq<Byte>, left: Allocator)
      requires Valid() && slot < qset && offset + |bytes| <= quantum
      modifies this`data, this`nodes, this`items, this`tables, this`store, this`quanta, items, store
      ensures Valid() && fresh(items - old(items)) && fresh(store - old(store))
      ensures ok <==> Grants(memory, old(Needed(item, slot)))
      ensures ok ==> left == Spend(memory, old(Needed(item, slot)))
      ensures ok ==> Allocated() == With(old(Allocated()), (item, slot))
      ensures !ok ==> quanta == old(quanta)
      ensures ok ==> SlotWritten(old(quanta), quanta, (item, slot), offset, bytes, base)
    {
      hide Valid, SlotWritten, Tabulated;
      base := [];
      var table;
      table, left := ReachTable(item, memory);
      ok := table != null;
      if ok {
        ok, base, left := PutBytes(table, item, slot, offset, bytes, left);
        if ok {
          KeysWritten(old(quanta), quanta, (item, slot), offset, bytes, base);
        }
      }
    }

    lemma ItemTable(item: nat)
      requires Valid() && item < |nodes|
      ensures |tables| == |nodes| && nodes[item].data == tables[item] && nodes[item] in items
      ensures tables[item] != null ==> tables[item] in store
    {
    }

    /** List item, quantum-set index and offset in the quantum for a file position. */
    method Split(pos: nat) returns (item: nat, sPos: nat, qPos: nat)
      requires quantum > 0 && qset > 0
      ensures Place(item, sPos, qPos) == PlaceOf(quantum, qset, pos)
      ensures sPos < qset && qPos < quantum
    {
      PlaceIsBijective(quantum, qset, pos);
      var itemsize := quantum * qset;
      item := pos / itemsize;
      var rest := pos % itemsize;
      sPos, qPos := rest / quantum, rest % quantum;
    }

    /** The allocations a write at `pos` needs. */
    ghost function NeededAt(pos: nat): nat
      requires quantum > 0 && qset > 0
      reads `quantum, `qset, `nodes, `tables, `quanta
    {
      Needed(Key(quantum, qset, pos).0, Key(quantum, qset, pos).1)
    }

    lemma NeededIsGrowth(pos: nat)
      requires Valid()
      ensures NeededAt(pos) == Size(With(Allocated(), Key(quantum, qset, pos))) - Size(Allocated())
    {
      QuantumHasTable(0, 0);
      WithCosts(Allocated(), Key(quantum, qset, pos));
    }

    /** A write up to the point where the size is brought up to date. */
    method Store(pos: nat, buf: seq<Byte>, copyable: nat, memory: Allocator) returns (r: WriteResult, left: Allocator)
      requires Valid()
      modifies this`data, this`nodes, this`items, this`tables, this`store, this`quanta, items, store
      ensures Valid() && fresh(items - old(items)) && fresh(store - old(store))
      ensures r.NoMemory? <==> !Grants(memory, old(NeededAt(pos)))
      ensures !r.NoMemory? ==> left == Spend(memory, old(NeededAt(pos)))
      ensures !r.NoMemory? ==> Allocated() == With(old(Allocated()), Key(quantum, qset, pos))
      ensures StoreEffect(quantum, qset, old(quanta), pos, buf, copyable, r, quanta)
    {
      QuantaAreShaped();
      hide Valid, PlaceOf, SlotWritten, Overwritten;
      var item, sPos, qPos := Split(pos);
      var n := Min(|buf|, quantum - qPos);
      var k := Min(n, copyable);
      var ok;
      ghost var base;
      ok, base, left := PutAt(item, sPos, qPos, buf[..k], memory);
      QuantaAreShaped();
      if !ok {
        r := NoMemory;
      } else {
        r := if copyable < n then WriteFault else Wrote(n);
        CopiedIsStored(quantum, qset, old(quanta), pos, buf, copyable, r, quanta, base);
      }
    }

    /** Refused exactly when an allocation it needs is refused. */
    method Write(pos: nat, buf: seq<Byte>, copyable: nat, memory: Allocator) returns (r: WriteResult, left: Allocator)
      requires Valid()
      modifies this`data, this`nodes, this`items, this`tables, this`store, this`quanta, this`size, items, store
      ensures Valid() && fresh(items - old(items)) && fresh(store - old(store))
      ensures r.NoMemory? <==> !Grants(memory, old(NeededAt(pos)))
      ensures !r.NoMemory? ==> left == Spend(memory, old(NeededAt(pos)))
      ensures !r.NoMemory? ==> Allocated() == With(old(Allocated()), Key(quantum, qset, pos))
      ensures StoreEffect(quantum, qset, old(quanta), pos, buf, copyable, r, quanta)
      ensures size == if r.Wrote? then Max(old(size), pos + r.n) else old(size)
    {
      hide Valid, StoreEffect, NeededAt;
      r, left := Store(pos, buf, copyable, memory);
      if r.Wrote? && size < pos + r.n {
        size := pos + r.n;
      }
    }

    /** The part of a read that follows the divisions. It may lengthen the list but creates no quantum. */
    method ReadAt(item: nat, slot: nat, offset: nat, count: nat, fault: bool, memory: Allocator) returns (r: ReadResult)
      requires Valid() && slot < qset && offset < quantum
      modifies this`data, this`nodes, this`items, this`tables, items`next
      ensures Valid() && fresh(items - old(items))
      ensures r == SlotAnswer(quanta, quantum, (item, slot), offset, count, fault)
    {
      QuantumHasTable(item, slot);
      var dptr, _ := Follow(item, memory);
      if dptr == null || dptr.data == null || dptr.data[slot].None? {
        r := Got([]);
      } else if fault {
        r := ReadFault;
      } else {
        var n := Min(count, quantum - offset);
        r := Got(dptr.data[slot].value[offset..offset + n]);
      }
    }

    /** An allocation refused on the way makes no difference: there was nothing to read behind it. */
    method Read(pos: nat, count: nat, fault: bool, memory: Allocator) returns (r: ReadResult)
      requires Valid()
      modifies this`data, this`nodes, this`items, this`tables, items`next
      ensures Valid() && Shaped(quanta, quantum, qset) && fresh(items - old(items))
      ensures r == ReadAnswer(quanta, quantum, qset, size, pos, count, fault)
    {
      hide PlaceOf;
      QuantaAreShaped();
      if pos >= size {
        return Got([]);
      }
      var item, sPos, qPos := Split(pos);
      AnswerAt(quanta, quantum, qset, size, pos, count, fault, Place(item, sPos, qPos));
      r := ReadAt(item, sPos, qPos, Min(count, size - pos), fault, memory);
    }

    /** Free the quanta of list item `i`: every non-null slot of its table, once. */
    method FreeTable(table: Table, ghost i: nat) returns (ghost freed: seq<(nat, nat)>)
      requires Filled() && i < |tables| && table == tables[i] && table in store && table.Length == qset
      ensures forall k :: k in freed <==> k in quanta && k.0 == i
      ensures NoRepeats(freed)
    {
      freed := [];
      var s := 0;
      while s < qset
        invariant s <= qset
        invariant forall k :: k in freed <==> k in quanta && k.0 == i && k.1 < s
        invariant NoRepeats(freed)
      {
        assert table[s] == Lookup(quanta, (i, s));
        if table[s].Some? {
          freed := freed + [(i, s)];
        }
        s := s + 1;
      }
    }

    /** The freeing loop: every list item once, in list order, and every quantum once. */
    method FreeAll() returns (ghost freedItems: seq<QSet>, ghost freed: seq<(nat, nat)>)
      requires Valid()
      modifies items`data
      ensures freedItems == nodes
      ensures NoRepeats(freed) && forall k :: k in freed <==> k in quanta
    {
      freedItems, freed := [], [];
      var dptr := data;
      ghost var i := 0;
      while dptr != null
        invariant Linked() && Filled() && |tables| == |nodes|
        invariant i <= |nodes| && freedItems == nodes[..i]
        invariant dptr == if i < |nodes| then nodes[i] else null
        invariant forall n :: i <= n < |nodes| ==> nodes[n].data == tables[n]
        invariant forall n :: 0 <= n < |tables| && tables[n] != null ==> tables[n] in store && tables[n].Length == qset
        invariant NoRepeats(freed) && forall k :: k in freed <==> k in quanta && k.0 < i
        decreases |nodes| - i
      {
        ghost var more := [];
        if dptr.data != null {
          more := FreeTable(dptr.data, i);
          dptr.data := null;
        }
        freed := freed + more;
        freedItems := freedItems + [dptr];
        if i + 1 < |nodes| {
          assert nodes[i].next == nodes[i + 1];
        }
        dptr := dptr.next;
        i := i + 1;
      }
    }

    /** Empty the device and give it the module's current geometry. */
    method Trim(scullQuantum: nat, scullQset: nat) returns (ghost freedItems: seq<QSet>, ghost freed: seq<(nat, nat)>)
      requires Valid() && scullQuantum > 0 && scullQset > 0
      modifies this, items`data
      ensures Valid() && items == {} && store == {}
      ensures freedItems == old(nodes)
      ensures NoRepeats(freed) && forall k :: k in freed <==> k in old(quanta)
      ensures size == 0 && quanta == map[] && quantum == scullQuantum && qset == scullQset
    {
      freedItems, freed := FreeAll();
      size, quantum, qset, data := 0, scullQuantum, scullQset, null;
      nodes, items, tables, store, quanta := [], {}, [], {}, map[];
    }
  }

  /** The list items that have a table. */
  ghost function Tabulated(tables: seq<array?<Option<seq<Byte>>>>): set<nat> {
    set i: nat | i < |tables| && tables[i] != null
  }

  /** Null tables at the end add nothing, a table for `item` adds that. */
  lemma TabulatedWith(before: seq<array?<Option<seq<Byte>>>>, after: seq<array?<Option<seq<Byte>>>>, item: nat)
    requires |before| <= |after| && item < |after| && after[item] != null
    requires forall i :: 0 <= i < |after| && i != item ==> after[i] == if i < |before| then before[i] else null
    ensures Tabulated(after) == Tabulated(before) + {item}
  {
  }

  lemma KeysWritten(before: Quanta, after: Quanta, key: (nat, nat), offset: nat, bytes: seq<Byte>, base: seq<Byte>)
    requires SlotWritten(before, after, key, offset, bytes, base)
    ensures after.Keys == before.Keys + {key}
  {
  }

  ghost predicate NoRepeats<T>(s: seq<T>) {
    forall i, j :: 0 <= i < j < |s| ==> s[i] != s[j]
  }

  /** The same question asked of one slot. */
  function SlotAnswer(m: Quanta, quantum: nat, key: (nat, nat), offset: nat, count: nat, fault: bool): ReadResult
    requires offset < quantum && (key in m ==> |m[key]| == quantum)
  {
    if key !in m then Got([])
    else if fault then ReadFault
    else Got(m[key][offset..offset + Min(count, quantum - offset)])
  }

  /** A read answers with the bytes that are there, unless the copy to user space faults. */
  function ReadAnswer(m: Quanta, quantum: nat, qset: nat, size: nat, pos: nat, count: nat, fault: bool): ReadResult
    requires Shaped(m, quantum, qset)
  {
    if fault && pos < size && Key(quantum, qset, pos) in m then ReadFault
    else Got(ReadBytes(m, quantum, qset, size, pos, count))
  }

  /** It faults exactly when the copy does and there is a byte to copy; what it returns otherwise is what is there. */
  lemma AnswerMeans(m: Quanta, quantum: nat, qset: nat, size: nat, pos: nat, count: nat, fault: bool)
    requires Shaped(m, quantum, qset)
    ensures var r := ReadAnswer(m, quantum, qset, size, pos, count, fault);
      && (r.ReadFault? <==> fault && pos < size && ByteAt(m, quantum, qset, pos).Some?)
      && (r.Got? ==> Holds(m, quantum, qset, pos, r.bytes) && |r.bytes| <= count)
      && (r.Got? && r.bytes != [] ==> pos + |r.bytes| <= size)
  {
    ReadReturnsWhatIsThere(m, quantum, qset, size, pos, count);
  }

  lemma AnswerAt(m: Quanta, quantum: nat, qset: nat, size: nat, pos: nat, count: nat, fault: bool, p: Place)
    requires Shaped(m, quantum, qset) && pos < size && p == PlaceOf(quantum, qset, pos)
    ensures p.offset < quantum
    ensures SlotAnswer(m, quantum, (p.item, p.slot), p.offset, Min(count, size - pos), fault)
         == ReadAnswer(m, quantum, qset, size, pos, count, fault)
  {
    PlaceIsBijective(quantum, qset, pos);
  }

  /** What a write may do to the sparse byte map. */
  ghost predicate StoreEffect(quantum: nat, qset: nat, before: Quanta, pos: nat, buf: seq<Byte>, copyable: nat,
                              r: WriteResult, after: Quanta)
  {
    && Shaped(before, quantum, qset) && Shaped(after, quantum, qset)
    && var n := InQuantum(quantum, qset, pos, |buf|);
    match r
    case NoMemory => after == before
    case WriteFault => copyable < n && Overwritten(before, after, quantum, qset, pos, buf[..copyable])
    case Wrote(m) => m == n <= copyable && Overwritten(before, after, quantum, qset, pos, buf[..n])
  }

  /** Copying what the user's buffer yields into the slot is what the answer says. */
  lemma CopiedIsStored(quantum: nat, qset: nat, before: Quanta, pos: nat, buf: seq<Byte>, copyable: nat,
                       r: WriteResult, after: Quanta, base: seq<Byte>)
    requires Shaped(before, quantum, qset) && Shaped(after, quantum, qset)
    requires r == if copyable < InQuantum(quantum, qset, pos, |buf|) then WriteFault
                  else Wrote(InQuantum(quantum, qset, pos, |buf|))
    requires SlotWritten(before, after, Key(quantum, qset, pos), PlaceOf(quantum, qset, pos).offset,
                         buf[..Min(InQuantum(quantum, qset, pos, |buf|), copyable)], base)
    ensures StoreEffect(quantum, qset, before, pos, buf, copyable, r, after)
  {
    var copied := buf[..Min(InQuantum(quantum, qset, pos, |buf|), copyable)];
    SlotWrittenMeans(before, after, quantum, qset, pos, copied, base);
  }

  /** A caller that repeats short writes until everything is stored or memory runs out. */
  method WriteAll(dev: ScullDev, pos: nat, data: seq<Byte>, memory: Allocator) returns (ok: bool)
    requires dev.Valid()
    modifies dev, dev.items, dev.store
    ensures dev.Valid() && Shaped(dev.quanta, dev.quantum, dev.qset)
    ensures fresh(dev.items - old(dev.items)) && fresh(dev.store - old(dev.store))
    ensures ok <==> Grants(memory, old(Allocations(dev.Allocated(), dev.quantum, dev.qset, pos, |data|)))
    ensures ok ==> Holds(dev.quanta, dev.quantum, dev.qset, pos, data)
    ensures ok && data != [] ==> dev.size >= pos + |data|
  {
    hide ScullDev.Valid, Overwritten, Holds, ByteAt, PlaceOf, Shaped, ScullDev.NeededAt, Covering, Size, With;
    hide ScullDev.Allocated;
    dev.QuantaAreShaped();
    HoldsNothing(dev.quanta, dev.quantum, dev.qset, pos, data[..0]);
    ghost var first := dev.Allocated();
    ghost var all := Covering(first, dev.quantum, dev.qset, pos, |data|);
    var done, left := 0, memory;
    while done < |data|
      invariant dev.Valid() && done <= |data|
      invariant dev.quantum == old(dev.quantum) && dev.qset == old(dev.qset)
      invariant Shaped(dev.quanta, dev.quantum, dev.qset)
      invariant Covering(dev.Allocated(), dev.quantum, dev.qset, pos + done, |data| - done) == all
      invariant Size(first) <= Size(dev.Allocated()) && Grants(memory, Size(dev.Allocated()) - Size(first))
      invariant left == Spend(memory, Size(dev.Allocated()) - Size(first))
      invariant Holds(dev.quanta, dev.quantum, dev.qset, pos, data[..done])
      invariant done > 0 ==> dev.size >= pos + done
      invariant fresh(dev.items - old(dev.items)) && fresh(dev.store - old(dev.store))
    {
      ghost var before, had := dev.quanta, dev.Allocated();
      dev.GeometryIsPositive();
      dev.NeededIsGrowth(pos + done);
      CoveringSteps(had, dev.quantum, dev.qset, pos + done, |data| - done);
      CoveringCostsNoLess(With(had, Key(dev.quantum, dev.qset, pos + done)), dev.quantum, dev.qset,
        pos + done + InQuantum(dev.quantum, dev.qset, pos + done, |data| - done),
        |data| - done - InQuantum(dev.quantum, dev.qset, pos + done, |data| - done));
      var r;
      r, left := dev.Write(pos + done, data[done..], |data| - done, left);
      if !r.Wrote? {
        return false;
      }
      HoldsMore(before, dev.quanta, dev.quantum, dev.qset, pos, data, done, r.n);
      done := done + r.n;
    }
    assert data[..done] == data;
    CoveringNothing(dev.Allocated(), dev.quantum, dev.qset, pos + done);
    ok := true;
  }

  /** A caller that repeats short reads until it has `count` bytes or a read returns none. */
  method ReadAll(dev: ScullDev, pos: nat, count: nat, memory: Allocator) returns (bytes: seq<Byte>)
    requires dev.Valid()
    modifies dev, dev.items
    ensures dev.Valid() && dev.quanta == old(dev.quanta) && Shaped(dev.quanta, dev.quantum, dev.qset)
    ensures dev.quantum == old(dev.quantum) && dev.qset == old(dev.qset) && dev.size == old(dev.size)
    ensures |bytes| <= count && Holds(dev.quanta, dev.quantum, dev.qset, pos, bytes)
    ensures |bytes| < count ==>
      pos + |bytes| >= old(dev.size) || ByteAt(dev.quanta, dev.quantum, dev.qset, pos + |bytes|).None?
  {
    hide ScullDev.Valid, Overwritten, Holds, ByteAt, PlaceOf, Shaped, ReadBytes;
    dev.QuantaAreShaped();
    HoldsNothing(dev.quanta, dev.quantum, dev.qset, pos, []);
    bytes := [];
    while |bytes| < count
      invariant dev.Valid() && |bytes| <= count
      invariant dev.quanta == old(dev.quanta) && dev.quantum == old(dev.quantum) && dev.qset == old(dev.qset) &&
        dev.size == old(dev.size)
      invariant Shaped(dev.quanta, dev.quantum, dev.qset) && Holds(dev.quanta, dev.quantum, dev.qset, pos, bytes)
      invariant fresh(dev.items - old(dev.items))
      decreases count - |bytes|
    {
      var r := dev.Read(pos + |bytes|, count - |bytes|, false, memory);
      ReadReturnsWhatIsThere(dev.quanta, dev.quantum, dev.qset, dev.size, pos + |bytes|, count - |bytes|);
      if r.bytes == [] {
        return;
      }
      HoldsAppend(dev.quanta, dev.quantum, dev.qset, pos, bytes, r.bytes);
      bytes := bytes + r.bytes;
    }
  }

  /** Whatever the short counts on the way, what was stored comes back; and it is stored when memory suffices. */
  method WriteThenRead(dev: ScullDev, pos: nat, data: seq<Byte>, memory: Allocator, memoryToRead: Allocator)
      returns (ok: bool, bytes: seq<Byte>)
    requires dev.Valid()
    modifies dev, dev.items, dev.store
    ensures ok <==> Grants(memory, old(Allocations(dev.Allocated(), dev.quantum, dev.qset, pos, |data|)))
    ensures ok ==> bytes == data
  {
    hide ScullDev.Valid, Holds, ByteAt, PlaceOf, Shaped;
    ok := WriteAll(dev, pos, data, memory);
    bytes := [];
    if ok {
      bytes := ReadAll(dev, pos, |data|, memoryToRead);
      HoldsUnique(dev.quanta, dev.quantum, dev.qset, pos, data, bytes);
    }
  }
}
