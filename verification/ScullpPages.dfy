/**
  The page-based scull device: the same list of tables, but a quantum is a page that user space
  may map. A page fault walks the list by subtracting, a read divides; both must find the same page.
  */
module ScullpPages {
  import opened Allocation
  import opened Arithmetic
  import opened Bytes
  import opened Options
  import opened ScullGeometry
  import opened SparseBytes
  import ByteRing
  import ScullStore

  type Page = array<Byte>
  type Table = array<array?<Byte>>
  type Pages = map<(nat, nat), Page>

  datatype TrimResult = Busy | Trimmed
  datatype MapResult = NoDevice | Mapped

  /** C's shift to the left. */
  function ShiftLeft(n: nat, bits: nat): (r: nat)
    ensures r >= n
    ensures bits > 0 ==> r >= 2 * n
  {
    if bits == 0 then n else 2 * ShiftLeft(n, bits - 1)
  }

  /** A shift by one doubles, and shifts add up. */
  lemma {:induction false} ShiftsAddUp(n: nat, a: nat, b: nat)
    ensures ShiftLeft(n, 0) == n && ShiftLeft(n, 1) == n + n
    ensures ShiftLeft(ShiftLeft(n, a), b) == ShiftLeft(n, a + b)
  {
    if b > 0 {
      ShiftsAddUp(n, a, b - 1);
    }
    assert ShiftLeft(n, 1) == 2 * ShiftLeft(n, 0);
  }

  // ------------------------------------------------------------------ two ways to a page

  /** Counting pages and subtracting whole tables gives the place that division by table size gives. */
  lemma PageNumberPlaces(page: nat, qset: nat, pos: nat)
    requires page > 0 && qset > 0
    ensures PlaceOf(page, qset, pos).item == pos / page / qset
    ensures PlaceOf(page, qset, pos).slot == pos / page % qset
    ensures PlaceOf(page, qset, pos).offset == pos % page
  {
    hide PlaceOf;
    var p := PlaceOf(page, qset, pos);
    PlaceIsBijective(page, qset, pos);
    Regroup(p.item, qset, p.slot, page);
    DivModUnique(pos, page, p.item * qset + p.slot, p.offset);
    DivModUnique(p.item * qset + p.slot, qset, p.item, p.slot);
  }

  lemma Regroup(item: nat, qset: nat, slot: nat, page: nat)
    ensures item * (page * qset) + slot * page == (item * qset + slot) * page
  {
    assert item * (page * qset) == item * qset * page;
  }

  lemma AtLeast(n: nat, qset: nat, i: nat)
    requires qset > 0 && i * qset <= n
    ensures i <= n / qset
  {
    var q, r := n / qset, n % qset;
    assert n == q * qset + r;
    if q < i {
      MulMono(q + 1, i, qset);
    }
  }

  lemma FirstItem(quantum: nat, qset: nat, pos: nat)
    requires quantum > 0 && qset > 0
    ensures PlaceOf(quantum, qset, pos).item == 0 <==> pos < quantum * qset
  {
    ItemSizePositive(quantum, qset);
    var itemsize := quantum * qset;
    if pos < itemsize {
      DivModUnique(pos, itemsize, 0, pos);
    } else {
      assert pos == pos / itemsize * itemsize + pos % itemsize;
    }
  }

  class Item {
    var data: array?<array?<Byte>>
    var next: Item?

    constructor ()
      ensures data == null && next == null
    {
      data, next := null, null;
    }
  }

  class ScullpDev {
    /** The size of a page, and the list part of the device's own record, which is the first item. */
    const page: nat
    const first: Item
    var vmas: int
    var order: nat
    var qset: nat
    var size: nat
    ghost var nodes: seq<Item>
    ghost var items: set<Item>
    ghost var tables: seq<array?<array?<Byte>>>
    ghost var store: set<Table>
    /** Which pages exist, by list item and slot. */
    ghost var pages: Pages
    ghost var frames: set<Page>

    /** How many bytes a slot stands for. */
    function Quantum(): (n: nat)
      reads `order
      ensures page > 0 ==> n > 0
      ensures n >= page && (order == 0 ==> n == page)
    {
      ShiftLeft(page, order)
    }

    /** How many are allocated for it: an item added to the list has order 0, whatever the device has. */
    function BlockSize(item: nat): nat
      reads `order
    {
      if item == 0 then Quantum() else page
    }

    /** A caller can tell whether the block for a position is as large as the slot. */
    predicate InWholeBlock(pos: nat)
      reads `order, `qset
    {
      order == 0 || pos < Quantum() * qset
    }

    /** And whether a copy of up to `count` bytes at the position stays inside it. */
    predicate StaysInBlock(pos: nat, count: nat)
      requires page > 0 && qset > 0
      reads `order, `qset
    {
      var at := PlaceOf(Quantum(), qset, pos);
      at.offset + InQuantum(Quantum(), qset, pos, count) <= BlockSize(at.item)
    }

    ghost predicate Linked()
      reads `nodes, `items, items`next
    {
      && (forall i :: 0 <= i < |nodes| ==> nodes[i] in items)
      && nodes != [] && first == nodes[0] && nodes[|nodes| - 1].next == null
      && (forall i, j :: 0 <= i < j < |nodes| ==> nodes[i] != nodes[j])
      && (forall i, j :: 0 <= i < |nodes| && 0 <= j < |nodes| && j == i + 1 ==> nodes[i].next == nodes[j])
    }

    ghost predicate Tabled()
      requires Linked()
      reads `qset, `nodes, `items, `tables, `store, items
    {
      && |tables| == |nodes|
      && (forall i :: 0 <= i < |nodes| ==> nodes[i].data == tables[i])
      && (forall i :: 0 <= i < |tables| && tables[i] != null ==> tables[i] in store && tables[i].Length == qset)
      && (forall i, j :: 0 <= i < j < |tables| && tables[i] != null ==> tables[i] != tables[j])
    }

    ghost predicate Filled()
      reads `order, `qset, `tables, `pages, `frames, `store, store
    {
      && (forall k :: k in pages ==>
            k.0 < |tables| && tables[k.0] != null && k.1 < qset && pages[k] in frames &&
            pages[k].Length == BlockSize(k.0))
      && (forall j, k :: j in pages && k in pages && pages[j] == pages[k] ==> j == k)
      && (forall i: nat, s: nat ::
            i < |tables| && tables[i] != null && tables[i] in store && s < qset && s < tables[i].Length ==>
              tables[i][s] == if (i, s) in pages then pages[(i, s)] else null)
    }

    ghost predicate Valid()
      reads `vmas, `order, `qset, `nodes, `items, `tables, `store, `pages, `frames, items, store
    {
      page > 0 && qset > 0 && vmas >= 0 && Linked() && Tabled() && Filled()
    }

    /** What the slots hold: the bytes of their blocks, and zeros for those that a short block lacks. */
    ghost function Contents(): Quanta
      reads `order, `pages, `frames, frames
    {
      map k | k in pages && pages[k] in frames :: Padded(pages[k][..], Quantum())
    }

    constructor (pageSize: nat, scullpQset: nat, scullpOrder: nat)
      requires pageSize > 0 && scullpQset > 0
      ensures Valid() && fresh(items) && fresh(store) && fresh(frames)
      ensures page == pageSize && qset == scullpQset && order == scullpOrder && vmas == 0 && size == 0 && pages == map[]
    {
      page := pageSize;
      vmas, order, qset, size := 0, scullpOrder, scullpQset, 0;
      tables, store, pages, frames := [null], {}, map[], {};
      var item := new Item();
      first := item;
      nodes, items := [item], {item};
    }

    // ---------------------------------------------------------------- the page fault

    /** The page at a byte offset of the mapped file, or null for a hole or past the end. */
    ghost function PageAt(pos: nat): array?<Byte>
      requires page > 0 && qset > 0
      reads `qset, `size, `pages
    {
      if pos < size && Key(page, qset, pos) in pages then pages[Key(page, qset, pos)] else null
    }

    /** `offset` is the faulting address as an offset in the device. */
    method NoPage(offset: nat) returns (pageptr: array?<Byte>)
      requires Valid()
      ensures pageptr == PageAt(offset)
    {
      hide PlaceOf;
      pageptr := null;
      if offset >= size {
        return;
      }
      PageNumberPlaces(page, qset, offset);
      var n := offset / page;
      var ptr: Item?, left := first, n;
      ghost var i := 0;
      while ptr != null && left >= qset
        invariant i <= |nodes| && ptr == (if i < |nodes| then nodes[i] else null)
        invariant left >= 0 && n == i * qset + left
        decreases left
      {
        if i + 1 < |nodes| {
          assert nodes[i].next == nodes[i + 1];
        }
        assert (i + 1) * qset == i * qset + qset;
        ptr := ptr.next;
        left := left - qset;
        i := i + 1;
      }
      if ptr == null {
        AtLeast(n, qset, i);
      } else {
        DivModUnique(n, qset, i, left);
        if ptr.data != null {
          pageptr := ptr.data[left];
        }
      }
    }

    // ---------------------------------------------------------------- reading and writing

    method LinkItem(last: Item)
      requires Linked() && last == nodes[|nodes| - 1]
      modifies this`nodes, this`items, items`next
      ensures Linked() && |nodes| == |old(nodes)| + 1 && old(nodes) <= nodes
      ensures fresh(nodes[|nodes| - 1]) && nodes[|nodes| - 1].data == null && items == old(items) + {nodes[|nodes| - 1]}
    {
      var item := new Item();
      last.next := item;
      nodes, items := nodes + [item], items + {item};
    }

    /** Allocate one more list item at the end of the list. */
    method Append(last: Item)
      requires Valid() && last == nodes[|nodes| - 1]
      modifies this`nodes, this`items, this`tables, items`next
      ensures Valid() && fresh(items - old(items))
      ensures |nodes| == |old(nodes)| + 1 && old(nodes) <= nodes && tables == old(tables) + [null]
    {
      LinkItem(last);
      tables := tables + [null];
      assert Tabled() by { hide Filled; }
      assert Filled() by { hide Linked, Tabled; }
    }

    /** Walk to list item `n`, creating items on the way. */
    method Follow(n: nat) returns (dev: Item)
      requires Valid()
      modifies this`nodes, this`items, this`tables, items`next
      ensures Valid() && fresh(items - old(items)) && n < |nodes| && dev == nodes[n]
      ensures old(nodes) <= nodes && |nodes| == Max(|old(nodes)|, n + 1)
      ensures old(tables) <= tables && forall i :: |old(tables)| <= i < |tables| ==> tables[i] == null
    {
      dev := first;
      for i := 0 to n
        invariant Valid() && i < |nodes| && dev == nodes[i] && fresh(items - old(items))
        invariant old(nodes) <= nodes && |nodes| == Max(|old(nodes)|, i + 1)
        invariant old(tables) <= tables && forall k :: |old(tables)| <= k < |tables| ==> tables[k] == null
      {
        if i + 1 < |nodes| {
          assert nodes[i].next == nodes[i + 1];
        }
        if dev.next == null {
          Append(dev);
          assert nodes[i].next == nodes[i + 1];
        }
        dev := dev.next;
      }
    }

    /** Hang an all-null table on a list item that has none. */
    method InstallTable(dptr: Item, item: nat, table: Table)
      requires Valid() && item < |nodes| && dptr == nodes[item] && dptr.data == null
      requires table.Length == qset && forall s :: 0 <= s < qset ==> table[s] == null
      requires forall i :: 0 <= i < |tables| ==> tables[i] != table
      modifies this`tables, this`store, dptr`data
      ensures Valid() && tables == old(tables)[item := table] && store == old(store) + {table}
    {
      dptr.data := table;
      tables, store := tables[item := table], store + {table};
      assert Linked();
      assert Tabled();
    }

    /** Make sure list item `item` has a table; it lacks one afterwards exactly when the allocation is refused. */
    method EnsureTable(dptr: Item, item: nat, memory: Allocator) returns (ok: bool, left: Allocator)
      requires Valid() && item < |nodes| && dptr == nodes[item]
      modifies this`tables, this`store, dptr`data
      ensures Valid() && fresh(store - old(store))
      ensures ok <==> Grants(memory, OneIf(old(tables)[item] == null))
      ensures ok ==> tables[item] != null && left == Spend(memory, OneIf(old(tables)[item] == null))
    {
      ok, left := true, memory;
      if dptr.data == null {
        ok := Grants(left, 1);
        if ok {
          left := Spend(left, 1);
          var table := new array?<Byte>[qset](_ => null);
          InstallTable(dptr, item, table);
        }
      }
    }

    lemma TableFacts(item: nat)
      requires Valid() && item < |tables| && tables[item] != null
      ensures tables[item] in store && tables[item].Length == qset
      ensures forall j :: 0 <= j < |tables| && j != item ==> tables[j] != tables[item]
    {
    }

    /** Put a new page in an empty slot. */
    method HangPage(table: Table, item: nat, slot: nat, p: Page)
      requires Valid() && item < |tables| && table == tables[item] && slot < qset && (item, slot) !in pages
      requires p.Length == BlockSize(item) && p !in frames
      modifies this`pages, this`frames, table
      ensures Valid()
      ensures pages == old(pages)[(item, slot) := p] && frames == old(frames) + {p}
    {
      hide Linked, Tabled;
      TableFacts(item);
      table[slot] := p;
      pages, frames := pages[(item, slot) := p], frames + {p};
    }

    lemma PagesInMemory()
      requires Valid()
      ensures forall k :: k in pages ==> pages[k] in frames
    {
    }

    method InstallPage(table: Table, item: nat, slot: nat, p: Page)
      requires Valid() && item < |tables| && table == tables[item] && slot < qset && (item, slot) !in pages
      requires p.Length == BlockSize(item) && p !in frames
      modifies this`pages, this`frames, table
      ensures Valid()
      ensures pages == old(pages)[(item, slot) := p] && frames == old(frames) + {p}
      ensures Contents() == old(Contents())[(item, slot) := Padded(p[..], Quantum())]
    {
      hide Valid;
      PagesInMemory();
      HangPage(table, item, slot, p);
    }

    /** Copy bytes into a page. */
    method CopyIn(p: Page, offset: nat, bytes: seq<Byte>)
      requires offset + |bytes| <= p.Length
      modifies p
      ensures p[..] == ByteRing.Splice(old(p[..]), offset, bytes)
    {
      forall i | 0 <= i < |bytes| {
        p[offset + i] := bytes[i];
      }
    }

    lemma SlotFacts(item: nat, slot: nat)
      requires Valid() && item < |tables| && tables[item] != null && slot < qset
      ensures tables[item] in store && tables[item].Length == qset
      ensures tables[item][slot] == if (item, slot) in pages then pages[(item, slot)] else null
      ensures (item, slot) in pages ==> pages[(item, slot)] in frames && pages[(item, slot)].Length == BlockSize(item)
    {
      hide Linked;
    }

    lemma ContentsFacts(key: (nat, nat))
      requires Valid()
      ensures key in Contents() <==> key in pages
      ensures key in pages ==> pages[key].Length == BlockSize(key.0) <= Quantum()
      ensures key in pages ==> Contents()[key] == Padded(pages[key][..], Quantum()) && |Contents()[key]| == Quantum()
      ensures Shaped(Contents(), Quantum(), qset) && page > 0 && Quantum() > 0 && qset > 0
    {
      hide Linked, Tabled;
    }

    /**
      Make sure the slot has a page; a new one is all zeros. It lacks one afterwards exactly when the
      allocation is refused.
      */
    method EnsurePage(table: Table, item: nat, slot: nat, memory: Allocator) returns (ok: bool)
      requires Valid() && item < |tables| && table == tables[item] && slot < qset
      modifies this`pages, this`frames, table
      ensures Valid() && fresh(frames - old(frames)) && old(frames) <= frames
      ensures forall k :: k in old(pages) ==> k in pages && pages[k] == old(pages)[k]
      ensures ok <==> Grants(memory, OneIf((item, slot) !in old(pages)))
      ensures !ok ==> Contents() == old(Contents())
      ensures ok ==> (item, slot) in pages
      ensures ok ==> Contents() == if (item, slot) in old(pages) then old(Contents())
        else old(Contents())[(item, slot) := Zeros(Quantum())]
    {
      hide Valid, Contents;
      SlotFacts(item, slot);
      ok := true;
      if table[slot] == null {
        ok := Grants(memory, 1);
        if ok {
          var p := new Byte[BlockSize(item)](_ => 0);
          assert Padded(p[..], Quantum()) == Zeros(Quantum());
          InstallPage(table, item, slot, p);
        }
      }
    }

    /** Copy into the page of a slot. */
    method CopyInto(p: Page, ghost key: (nat, nat), offset: nat, bytes: seq<Byte>)
      requires Valid() && key in pages && p == pages[key] && offset + |bytes| <= p.Length
      modifies frames
      ensures Valid()
      ensures key in old(Contents()) && |old(Contents())[key]| == Quantum()
      ensures Contents() == old(Contents())[key := ByteRing.Splice(old(Contents())[key], offset, bytes)]
    {
      hide Linked, Tabled;
      ContentsFacts(key);
      ghost var before := Contents();
      PaddedSplice(p[..], offset, bytes, Quantum());
      hide Padded, ByteRing.Splice;
      assert forall k :: k in pages && k != key ==> pages[k] != p;
      CopyIn(p, offset, bytes);
      assert Contents() == before[key := ByteRing.Splice(before[key], offset, bytes)];
    }

    /** Make sure the slot has a page, then copy into it. */
    method PutBytes(table: Table, item: nat, slot: nat, offset: nat, bytes: seq<Byte>, memory: Allocator)
        returns (ok: bool)
      requires Valid() && item < |tables| && table == tables[item] && slot < qset && offset + |bytes| <= BlockSize(item)
      modifies this`pages, this`frames, table, frames
      ensures Valid() && fresh(frames - old(frames)) && old(frames) <= frames
      ensures forall k :: k in old(pages) ==> k in pages && pages[k] == old(pages)[k]
      ensures ok <==> Grants(memory, OneIf((item, slot) !in old(pages)))
      ensures !ok ==> Contents() == old(Contents())
      ensures ok ==> SlotWritten(old(Contents()), Contents(), (item, slot), offset, bytes,
        OldOrZeros(old(Contents()), (item, slot), Quantum()))
    {
      hide Valid, Contents;
      SlotFacts(item, slot);
      ContentsFacts((item, slot));
      ghost var before := Contents();
      ok := EnsurePage(table, item, slot, memory);
      if ok {
        SlotFacts(item, slot);
        ghost var born := Contents();
        CopyInto(table[slot], (item, slot), offset, bytes);
        ghost var base := OldOrZeros(before, (item, slot), Quantum());
        NewThenWritten(before, born, Contents(), (item, slot), offset, bytes, base);
      }
    }

    /** List item, slot and offset in the page for a file position. */
    method Split(pos: nat) returns (item: nat, sPos: nat, qPos: nat)
      requires page > 0 && qset > 0
      ensures Place(item, sPos, qPos) == PlaceOf(Quantum(), qset, pos)
      ensures sPos < qset && qPos < Quantum()
    {
      var quantum := Quantum();
      PlaceIsBijective(quantum, qset, pos);
      var itemsize := quantum * qset;
      item := pos / itemsize;
      var rest := pos % itemsize;
      sPos, qPos := rest / quantum, rest % quantum;
    }

    lemma ItemTable(item: nat)
      requires Valid() && item < |nodes|
      ensures |tables| == |nodes| && nodes[item].data == tables[item] && nodes[item] in items
      ensures tables[item] != null ==> tables[item] in store
    {
    }

    /** How many allocations, beside those of list items, a write to this slot needs. */
    ghost function Needed(item: nat, slot: nat): nat
      reads `tables, `pages
    {
      OneIf(item >= |tables| || tables[item] == null) + OneIf((item, slot) !in pages)
    }

    lemma PageHasTable(item: nat, slot: nat)
      requires Valid()
      ensures |tables| == |nodes|
      ensures (item, slot) in pages ==> item < |tables| && tables[item] != null
    {
    }

    /** Reach the table for a list item, creating what is missing on the way. */
    method ReachTable(item: nat, memory: Allocator) returns (table: array?<array?<Byte>>, left: Allocator)
      requires Valid()
      modifies this`nodes, this`items, this`tables, this`store, items
      ensures Valid() && fresh(items - old(items)) && fresh(store - old(store))
      ensures table != null <==> Grants(memory, OneIf(item >= |old(tables)| || old(tables)[item] == null))
      ensures table != null ==> item < |tables| && table == tables[item] && (table in old(store) || fresh(table))
      ensures table != null ==> left == Spend(memory, OneIf(item >= |old(tables)| || old(tables)[item] == null))
    {
      hide Valid;
      PageHasTable(item, 0);
      var dptr := Follow(item);
      ItemTable(item);
      var ok;
      ok, left := EnsureTable(dptr, item, memory);
      ItemTable(item);
      table := if ok then dptr.data else null;
    }

    /** Reach the page and copy; everything a write does except counting and moving the size. */
    method PutAt(item: nat, slot: nat, offset: nat, bytes: seq<Byte>, memory: Allocator) returns (ok: bool)
      requires Valid() && slot < qset && offset + |bytes| <= BlockSize(item)
      modifies this`nodes, this`items, this`tables, this`store, this`pages, this`frames, items, store, frames
      ensures Valid() && fresh(items - old(items)) && fresh(store - old(store)) && fresh(frames - old(frames))
      ensures forall k :: k in old(pages) ==> k in pages && pages[k] == old(pages)[k]
      ensures ok <==> Grants(memory, old(Needed(item, slot)))
      ensures !ok ==> Contents() == old(Contents())
      ensures ok ==> SlotWritten(old(Contents()), Contents(), (item, slot), offset, bytes,
        OldOrZeros(old(Contents()), (item, slot), Quantum()))
    {
      hide Valid, Contents, SlotWritten;
      var table, left := ReachTable(item, memory);
      ok := table != null;
      if ok {
        ok := PutBytes(table, item, slot, offset, bytes, left);
      }
    }

    /** Writes to a position stay inside the block allocated for it, however long they are, exactly when it is whole. */
    lemma WritesStayInBlockExactlyWhen(pos: nat)
      requires Valid()
      ensures InWholeBlock(pos) <==> forall count: nat :: StaysInBlock(pos, count)
    {
      hide Linked, Tabled, Filled, PlaceOf;
      PlaceIsBijective(Quantum(), qset, pos);
      FirstItem(Quantum(), qset, pos);
      if !InWholeBlock(pos) {
        assert !StaysInBlock(pos, Quantum());
      }
    }

    /** The failing input for any order but 0: a whole slot, at the first position of the second list item. */
    lemma SecondItemIsTooSmall()
      requires Valid() && order > 0
      ensures !StaysInBlock(Quantum() * qset, Quantum())
    {
      hide Linked, Tabled, Filled, PlaceOf;
      var pos := Quantum() * qset;
      PosIsBijective(Quantum(), qset, Place(1, 0, 0));
      assert PosOf(Quantum(), qset, Place(1, 0, 0)) == pos;
    }

    /** The allocations, beside those of list items, that a write at `pos` needs. */
    ghost function NeededAt(pos: nat): nat
      requires page > 0 && qset > 0
      reads `order, `qset, `tables, `pages
    {
      Needed(Key(Quantum(), qset, pos).0, Key(Quantum(), qset, pos).1)
    }

    /** A write up to the point where the size is brought up to date. */
    method Store(pos: nat, buf: seq<Byte>, copyable: nat, memory: Allocator) returns (r: ScullStore.WriteResult)
      requires Valid() && StaysInBlock(pos, |buf|)
      modifies this`nodes, this`items, this`tables, this`store, this`pages, this`frames, items, store, frames
      ensures Valid() && fresh(items - old(items)) && fresh(store - old(store)) && fresh(frames - old(frames))
      ensures forall k :: k in old(pages) ==> k in pages && pages[k] == old(pages)[k]
      ensures r.NoMemory? <==> !Grants(memory, old(NeededAt(pos)))
      ensures ScullStore.StoreEffect(Quantum(), qset, old(Contents()), pos, buf, copyable, r, Contents())
      ensures NewBytesAreZero(Quantum(), qset, old(Contents()), Contents(), pos, |buf|, copyable)
    {
      hide PlaceOf, Valid, Contents, Overwritten, NewBytesAreZero, SlotWritten, Shaped;
      ContentsFacts((0, 0));
      var quantum := Quantum();
      var item, sPos, qPos := Split(pos);
      var n := Min(|buf|, quantum - qPos);
      var k := Min(n, copyable);
      ghost var before := Contents();
      NothingNew(quantum, qset, before, pos, |buf|, copyable);
      var ok := PutAt(item, sPos, qPos, buf[..k], memory);
      ContentsFacts((0, 0));
      if !ok {
        r := ScullStore.NoMemory;
      } else {
        r := if copyable < n then ScullStore.WriteFault else ScullStore.Wrote(n);
        ghost var base := OldOrZeros(before, (item, sPos), quantum);
        ScullStore.CopiedIsStored(quantum, qset, before, pos, buf, copyable, r, Contents(), base);
        ZerosAround(quantum, qset, before, Contents(), pos, buf, copyable, k);
      }
    }

    /** Where the block is smaller than the slot, a copy may leave it; what it hits then is not modelled. */
    method Write(pos: nat, buf: seq<Byte>, copyable: nat, memory: Allocator) returns (r: ScullStore.WriteResult)
      requires Valid() && StaysInBlock(pos, |buf|)
      modifies this`nodes, this`items, this`tables, this`store, this`pages, this`frames, this`size, items, store, frames
      ensures Valid() && fresh(items - old(items)) && fresh(store - old(store)) && fresh(frames - old(frames))
      ensures forall k :: k in old(pages) ==> k in pages && pages[k] == old(pages)[k]
      ensures r.NoMemory? <==> !Grants(memory, old(NeededAt(pos)))
      ensures ScullStore.StoreEffect(Quantum(), qset, old(Contents()), pos, buf, copyable, r, Contents())
      ensures NewBytesAreZero(Quantum(), qset, old(Contents()), Contents(), pos, |buf|, copyable)
      ensures size == if r.Wrote? then Max(old(size), pos + r.n) else old(size)
    {
      hide Valid, Contents, Overwritten, NewBytesAreZero, Shaped, ScullStore.StoreEffect, InQuantum, PlaceOf, NeededAt;
      r := Store(pos, buf, copyable, memory);
      if r.Wrote? && size < pos + r.n {
        size := pos + r.n;
      }
    }

    /** A read may lengthen the list but creates no page. */
    method Read(pos: nat, count: nat, fault: bool) returns (r: ScullStore.ReadResult)
      requires Valid()
      requires pos <= size && Key(Quantum(), qset, pos) in pages ==> StaysInBlock(pos, Min(count, size - pos))
      modifies this`nodes, this`items, this`tables, items`next
      ensures Valid() && fresh(items - old(items))
      ensures Shaped(Contents(), Quantum(), qset) && Contents() == old(Contents())
      ensures r == ScullStore.ReadAnswer(Contents(), Quantum(), qset, size, pos, count, fault && count > 0)
    {
      hide PlaceOf, Valid, Contents, Shaped;
      ContentsFacts((0, 0));
      if pos > size {
        return ScullStore.Got([]);
      }
      var item, sPos, qPos := Split(pos);
      PlaceIsBijective(Quantum(), qset, pos);
      ContentsFacts((item, sPos));
      var dptr := Follow(item);
      ItemFacts(item, sPos);
      var n := Min(Min(count, size - pos), Quantum() - qPos);
      if dptr.data == null || dptr.data[sPos] == null {
        r := ScullStore.Got([]);
      } else if fault && n > 0 {
        r := ScullStore.ReadFault;
      } else {
        r := ScullStore.Got(dptr.data[sPos][qPos..qPos + n]);
      }
    }

    lemma ItemFacts(item: nat, slot: nat)
      requires Valid() && item < |nodes| && slot < qset
      ensures nodes[item].data != null ==> nodes[item].data.Length == qset
      ensures (item, slot) in pages <==> nodes[item].data != null && nodes[item].data[slot] != null
      ensures (item, slot) in pages ==> nodes[item].data[slot] == pages[(item, slot)]
    {
    }

    /**
      A page fault finds a page exactly where a read finds a byte, and it is the page the read
      copies from; at a hole or past the end neither finds anything.
      */
    lemma FaultAndReadAgree(pos: nat, count: nat)
      requires Valid() && order == 0 && count > 0
      ensures Shaped(Contents(), page, qset)
      ensures var bytes := ReadBytes(Contents(), page, qset, size, pos, count);
        && (PageAt(pos) != null <==> bytes != [])
        && (PageAt(pos) != null ==>
              var at := PlaceOf(page, qset, pos).offset;
              at + |bytes| <= PageAt(pos).Length && bytes == PageAt(pos)[at..at + |bytes|])
    {
      hide Valid, Contents, PlaceOf;
      ContentsFacts((0, 0));
      PlaceIsBijective(page, qset, pos);
      ContentsFacts(Key(page, qset, pos));
    }

    /** All of a mapped page shows the bytes of the device, and of one stretch of `page` bytes. */
    lemma MappedPageShowsTheDevice(pos: nat, p: nat)
      requires Valid() && order == 0 && PageAt(pos) != null && p / page == pos / page
      ensures Shaped(Contents(), page, qset) && PageAt(pos).Length == page
      ensures ByteAt(Contents(), page, qset, p) == Some(PageAt(pos)[p % page])
    {
      hide Valid, Contents, PlaceOf;
      ContentsFacts((0, 0));
      ContentsFacts(Key(page, qset, pos));
      PageNumberPlaces(page, qset, pos);
      PageNumberPlaces(page, qset, p);
    }

    // ---------------------------------------------------------------- mapping and trimming

    method VmaOpen()
      requires Valid()
      modifies this`vmas
      ensures Valid() && vmas == old(vmas) + 1
    {
      vmas := vmas + 1;
    }

    method VmaClose()
      requires Valid() && vmas > 0
      modifies this`vmas
      ensures Valid() && vmas == old(vmas) - 1
    {
      vmas := vmas - 1;
    }

    /** Nothing is mapped yet; later page faults do that. */
    method Mmap() returns (r: MapResult)
      requires Valid()
      modifies this`vmas
      ensures Valid()
      ensures r == (if order == 0 then Mapped else NoDevice)
      ensures vmas == old(vmas) + if r == Mapped then 1 else 0
    {
      if order != 0 {
        return NoDevice;
      }
      VmaOpen();
      r := Mapped;
    }

    /** Free the pages of list item `i`: every non-null slot of its table, once. */
    method FreeTable(table: Table, ghost i: nat) returns (ghost freed: seq<(nat, nat)>)
      requires Filled() && i < |tables| && table == tables[i] && table in store && table.Length == qset
      ensures forall k :: k in freed <==> k in pages && k.0 == i
      ensures ScullStore.NoRepeats(freed)
    {
      freed := [];
      for s := 0 to qset
        invariant forall k :: k in freed <==> k in pages && k.0 == i && k.1 < s
        invariant ScullStore.NoRepeats(freed)
      {
        assert table[s] == if (i, s) in pages then pages[(i, s)] else null;
        if table[s] != null {
          freed := freed + [(i, s)];
        }
      }
    }

    /** The freeing loop: every page once. */
    method FreeAll() returns (ghost freed: seq<(nat, nat)>)
      requires Valid()
      modifies items`data
      ensures ScullStore.NoRepeats(freed) && forall k :: k in freed <==> k in pages
      ensures first.data == null
    {
      freed := [];
      var dptr: Item? := first;
      ghost var i := 0;
      while dptr != null
        invariant Linked() && Filled() && |tables| == |nodes|
        invariant i <= |nodes| && dptr == (if i < |nodes| then nodes[i] else null)
        invariant i > 0 ==> first.data == null
        invariant forall n :: i <= n < |nodes| ==> nodes[n].data == tables[n]
        invariant forall n :: 0 <= n < |tables| && tables[n] != null ==> tables[n] in store && tables[n].Length == qset
        invariant ScullStore.NoRepeats(freed) && forall k :: k in freed <==> k in pages && k.0 < i
        decreases |nodes| - i
      {
        ghost var more := [];
        if dptr.data != null {
          more := FreeTable(dptr.data, i);
          dptr.data := null;
        }
        freed := freed + more;
        if i + 1 < |nodes| {
          assert nodes[i].next == nodes[i + 1];
        }
        dptr := dptr.next;
        i := i + 1;
      }
    }

    /** A device with nothing in it. */
    method Reset(scullpOrder: nat, scullpQset: nat)
      requires page > 0 && vmas >= 0 && first.data == null && scullpQset > 0
      modifies this`order, this`qset, this`size, this`nodes, this`items, this`tables, this`store, this`pages,
        this`frames, first`next
      ensures Valid() && pages == map[] && size == 0 && order == scullpOrder && qset == scullpQset
    {
      size, qset, order := 0, scullpQset, scullpOrder;
      first.next := null;
      nodes, items, tables, store, pages, frames := [first], {first}, [null], {}, map[], {};
    }

    /** Refused while anything is mapped; otherwise every page is freed and the device is as new. */
    method Trim(scullpOrder: nat, scullpQset: nat) returns (r: TrimResult, ghost freed: seq<(nat, nat)>)
      requires Valid() && scullpQset > 0
      modifies this`order, this`qset, this`size, this`nodes, this`items, this`tables, this`store, this`pages,
        this`frames, items
      ensures Valid()
      ensures r == (if vmas > 0 then Busy else Trimmed)
      ensures r == Busy ==> freed == [] && pages == old(pages) && frames == old(frames)
      ensures r == Busy ==> tables == old(tables) && nodes == old(nodes) && Contents() == old(Contents())
      ensures r == Busy ==> order == old(order) && qset == old(qset) && size == old(size)
      ensures r == Trimmed ==> pages == map[] && size == 0 && order == scullpOrder && qset == scullpQset
      ensures r == Trimmed ==> ScullStore.NoRepeats(freed) && forall k :: k in freed <==> k in old(pages)
    {
      hide Tabled, Filled, Contents;
      freed := [];
      if vmas > 0 {
        return Busy, freed;
      }
      freed := FreeAll();
      Reset(scullpOrder, scullpQset);
      r := Trimmed;
    }
  }

  /** Bytes that come into being beside those copied at `pos` are zero. */
  ghost predicate NewBytesAreZero(page: nat, qset: nat, before: Quanta, after: Quanta, pos: nat, count: nat,
      copyable: nat) {
    && Shaped(before, page, qset) && Shaped(after, page, qset)
    && var n := Min(copyable, InQuantum(page, qset, pos, count));
    forall p: nat ::
      !(pos <= p < pos + n) && ByteAt(before, page, qset, p).None? && ByteAt(after, page, qset, p).Some? ==>
        ByteAt(after, page, qset, p) == Some(0)
  }

  lemma NothingNew(page: nat, qset: nat, m: Quanta, pos: nat, count: nat, copyable: nat)
    requires Shaped(m, page, qset)
    ensures NewBytesAreZero(page, qset, m, m, pos, count, copyable)
  {
  }

  lemma ZerosAround(page: nat, qset: nat, before: Quanta, after: Quanta, pos: nat, buf: seq<Byte>, copyable: nat,
      k: nat)
    requires Shaped(before, page, qset) && Shaped(after, page, qset)
    requires k == Min(copyable, InQuantum(page, qset, pos, |buf|))
    requires var key := Key(page, qset, pos);
      SlotWritten(before, after, key, PlaceOf(page, qset, pos).offset, buf[..k], OldOrZeros(before, key, page))
    ensures NewBytesAreZero(page, qset, before, after, pos, |buf|, copyable)
  {
    forall p: nat | !(pos <= p < pos + k) && ByteAt(before, page, qset, p).None? && ByteAt(after, page, qset, p).Some?
      ensures ByteAt(after, page, qset, p) == Some(0)
    {
      PlaceIsBijective(page, qset, pos);
      PlaceIsBijective(page, qset, p);
      assert Key(page, qset, p) == Key(page, qset, pos);
      SlotMates(page, qset, pos, p);
    }
  }

  /** A block, and zeros up to the size of its slot. */
  function Padded(block: seq<Byte>, n: nat): seq<Byte> { block + Zeros(Max(0, n - |block|)) }

  lemma PaddedSplice(block: seq<Byte>, offset: nat, bytes: seq<Byte>, n: nat)
    requires offset + |bytes| <= |block|
    ensures Padded(ByteRing.Splice(block, offset, bytes), n) == ByteRing.Splice(Padded(block, n), offset, bytes)
  {
  }

  function Zeros(n: nat): seq<Byte> { seq(n, i => 0) }

  function OldOrZeros(m: Quanta, key: (nat, nat), page: nat): seq<Byte> { if key in m then m[key] else Zeros(page) }
}
