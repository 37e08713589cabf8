/** C's division, and division facts the solver does not find by itself. */
module Arithmetic {

  function Abs(x: int): nat { if x < 0 then -x else x }

  /** C's division truncates towards zero. */
  function CDiv(x: int, y: int): int
    requires y != 0
  {
    if x >= 0 <==> y > 0 then Abs(x) / Abs(y) else -(Abs(x) / Abs(y))
  }

  /** And the remainder has the sign of the dividend. */
  function CMod(x: int, y: int): int
    requires y != 0
  {
    if x >= 0 then Abs(x) % Abs(y) else -(Abs(x) % Abs(y))
  }

  lemma NegativeProduct(q: int, d: int)
    ensures (0 - q) * d == 0 - q * d && (0 - q) * (0 - d) == q * d && q * (0 - d) == 0 - q * d
  {
  }

  /** Quotient and remainder make up the number; the remainder is below the divisor, and of no sign but the number's. */
  lemma Truncates(x: int, y: int)
    requires y != 0
    ensures x == CDiv(x, y) * y + CMod(x, y)
    ensures if x >= 0 then 0 <= CMod(x, y) else CMod(x, y) <= 0
    ensures if y > 0 then 0 - y < CMod(x, y) < y else y < CMod(x, y) < 0 - y
  {
    var n, d := Abs(x), Abs(y);
    var q: int, r: int := n / d, n % d;
    assert n == q * d + r && 0 <= r < d;
    NegativeProduct(q, d);
    assert CDiv(x, y) == if (x >= 0) == (y > 0) then q else 0 - q;
    assert CMod(x, y) == if x >= 0 then r else 0 - r;
    hide CDiv, CMod;
    assert q * d == CDiv(x, y) * (if x >= 0 then y else 0 - y);
  }

  lemma SmallMultiple(z: int, d: int)
    requires 0 - d < z * d < d
    ensures z == 0
  {
    if z >= 1 {
      MulMono(1, z, d);
    } else if z <= -1 {
      MulMono(z, -1, d);
    }
  }

  lemma MulMono(a: int, b: int, c: nat)
    requires a <= b
    ensures a * c <= b * c
  {
    assert (b - a) * c >= 0;
    assert (b - a) * c == b * c - a * c;
  }

  /** A quotient and remainder with the remainder in range are the quotient and remainder. */
  lemma DivModUnique(x: nat, d: nat, q: nat, r: nat)
    requires d > 0 && r < d && x == q * d + r
    ensures x / d == q && x % d == r
  {
    var q', r' := x / d, x % d;
    assert x == q' * d + r';
    assert (q - q') * d == q * d - q' * d == r' - r;
    SmallMultiple(q - q', d);
  }
}

module Options {

  datatype Option<T> = None | Some(value: T)
}

/** The kernel's allocator, as far as one call can tell: how many more allocations it grants before it refuses one. */
module Allocation {

  datatype Allocator = Plenty | Limited(left: nat)

  predicate Grants(memory: Allocator, n: nat) { memory.Plenty? || memory.left >= n }

  function Spend(memory: Allocator, n: nat): Allocator
    requires Grants(memory, n)
  {
    if memory.Plenty? then Plenty else Limited(memory.left - n)
  }

  /** It grants exactly so many: none are always granted, and several are when they are one after the other. */
  lemma GrantsAddUp(memory: Allocator, m: nat, n: nat)
    ensures Grants(memory, 0)
    ensures Grants(memory, m + n) <==> Grants(memory, m) && Grants(Spend(memory, m), n)
    ensures memory.Limited? ==> Grants(memory, memory.left) && !Grants(memory, memory.left + 1)
    ensures Grants(memory, m) && Grants(Spend(memory, m), n) ==> Spend(memory, m + n) == Spend(Spend(memory, m), n)
  {
  }

  function OneIf(missing: bool): nat { if missing then 1 else 0 }
}

/** Bytes as the drivers move them. */
module Bytes {
  newtype Byte = x: int | 0 <= x < 256

  function Min(a: int, b: int): int { if a < b then a else b }

  function Max(a: int, b: int): int { if a < b then b else a }
}

/** A circular byte buffer as a value: the storage, where to read and where to write. */
module ByteRing {
  import opened Bytes

  /** `rp` and `wp` are offsets from the start of the buffer; `|buf|` is `buffersize`. */
  datatype Ring = Ring(buf: seq<Byte>, rp: nat, wp: nat)

  predicate Ok(r: Ring) {
    r.rp < |r.buf| && r.wp < |r.buf|
  }

  /** The buffered bytes, oldest first. */
  function Contents(r: Ring): seq<Byte>
    requires Ok(r)
  {
    if r.rp <= r.wp then r.buf[r.rp..r.wp] else r.buf[r.rp..] + r.buf[..r.wp]
  }

  lemma EmptyExactlyWhen(r: Ring)
    requires Ok(r)
    ensures Contents(r) == [] <==> r.rp == r.wp
  {
  }

  /** Pointer values after `+=`, before the wrap test, may equal `|buf|`. */
  function Wrap(p: nat, size: nat): nat { if p == size then 0 else p }

  /** `buf` with `bytes` copied over it from offset `at`. */
  function Splice(buf: seq<Byte>, at: nat, bytes: seq<Byte>): (b: seq<Byte>)
    requires at + |bytes| <= |buf|
    ensures |b| == |buf|
  {
    buf[..at] + bytes + buf[at + |bytes|..]
  }

  lemma SpliceParts(buf: seq<Byte>, at: nat, bytes: seq<Byte>)
    requires at + |bytes| <= |buf|
    ensures var b := Splice(buf, at, bytes);
      b[..at] == buf[..at] && b[at..at + |bytes|] == bytes && b[at + |bytes|..] == buf[at + |bytes|..]
  {
  }

  lemma ModOnce(x: nat, size: nat)
    requires x < 2 * size
    ensures x % size == if x < size then x else x - size
  {
    if x >= size {
      assert x == size * 1 + (x - size);
    }
  }
}
