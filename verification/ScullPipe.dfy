/**
  The circular buffer of the scull pipe, as a value: what the driver computes
  while it holds the device semaphore.
  */
module PipeRing {
  import opened Bytes
  import opened ByteRing

  /** The free-space formula evaluated on any pair of pointer values. */
  function FreeBetween(size: nat, rp: int, wp: int): int
    requires size > 0
  {
    if rp == wp then size - 1 else (rp + size - wp) % size - 1
  }

  function SpaceFree(r: Ring): int
    requires Ok(r)
  {
    FreeBetween(|r.buf|, r.rp, r.wp)
  }

  /** How many bytes one read hands out. */
  function ReadCount(r: Ring, count: nat): (n: nat)
    requires Ok(r) && r.rp != r.wp
    ensures r.rp + n <= |r.buf|
  {
    if r.wp > r.rp then Min(count, r.wp - r.rp) else Min(count, |r.buf| - r.rp)
  }

  /** How many bytes one write accepts. */
  function WriteCount(r: Ring, count: nat): (n: nat)
    requires Ok(r) && SpaceFree(r) >= 0
    ensures n <= count && r.wp + n <= |r.buf|
  {
    var c := Min(count, SpaceFree(r));
    if r.wp >= r.rp then Min(c, |r.buf| - r.wp) else Min(c, r.rp - r.wp - 1)
  }

  function Settle(r: Ring): Ring {
    Ring(r.buf, Wrap(r.rp, |r.buf|), Wrap(r.wp, |r.buf|))
  }

  /** The bytes a read copies out. */
  function ReadBytes(r: Ring, count: nat): seq<Byte>
    requires Ok(r) && r.rp != r.wp
  {
    r.buf[r.rp..r.rp + ReadCount(r, count)]
  }

  /** The ring with `rp` advanced but not yet wrapped. */
  function AdvanceRead(r: Ring, count: nat): Ring
    requires Ok(r) && r.rp != r.wp
  {
    r.(rp := r.rp + ReadCount(r, count))
  }

  /** A copy from user space that stopped after `k` bytes: the buffer changes, the pointers do not. */
  function PartialWrite(r: Ring, data: seq<Byte>, k: nat): Ring
    requires Ok(r) && SpaceFree(r) >= 0 && k <= WriteCount(r, |data|)
  {
    r.(buf := Splice(r.buf, r.wp, data[..k]))
  }

  /** The ring with the data copied in and `wp` advanced but not yet wrapped. */
  function AdvanceWrite(r: Ring, data: seq<Byte>): Ring
    requires Ok(r) && SpaceFree(r) >= 0
  {
    var n := WriteCount(r, |data|);
    r.(buf := Splice(r.buf, r.wp, data[..n]), wp := r.wp + n)
  }

  lemma FreeBetweenValue(size: nat, rp: int, wp: int)
    requires 0 <= rp < size && 0 <= wp < size
    ensures wp < rp ==> FreeBetween(size, rp, wp) == rp - wp - 1
    ensures rp < wp ==> FreeBetween(size, rp, wp) == rp + size - wp - 1
  {
    ModOnce(rp + size - wp, size);
  }

  /** `spacefree` counts exactly the bytes that can still be buffered: one slot stays unused. */
  lemma SpaceFreeIsCapacityLeft(r: Ring)
    requires Ok(r)
    ensures SpaceFree(r) == |r.buf| - 1 - |Contents(r)|
    ensures 0 <= SpaceFree(r)
  {
    FreeBetweenValue(|r.buf|, r.rp, r.wp);
  }

  /**
    A read removes a prefix of the buffered bytes, and a non-empty request removes at least one. It
    stops short only where the buffered bytes or the buffer end.
    */
  lemma ReadTakesPrefix(r: Ring, count: nat)
    requires Ok(r) && r.rp != r.wp
    ensures Ok(Settle(AdvanceRead(r, count)))
    ensures ReadBytes(r, count) + Contents(Settle(AdvanceRead(r, count))) == Contents(r)
    ensures |ReadBytes(r, count)| <= count
    ensures count > 0 ==> |ReadBytes(r, count)| > 0
    ensures |ReadBytes(r, count)| < count ==>
      var after := Settle(AdvanceRead(r, count)); Contents(after) == [] || after.rp == 0
  {
  }

  /** How far a write may go: not onto the read pointer, nor so far that the wrapped pointer meets it. */
  lemma WriteCountFits(r: Ring, count: nat)
    requires Ok(r) && SpaceFree(r) >= 0
    ensures var n := WriteCount(r, count);
      && n <= count && r.wp + n <= |r.buf|
      && (if r.rp <= r.wp then r.wp + n == |r.buf| ==> r.rp > 0 else r.wp + n < r.rp)
    ensures count > 0 && SpaceFree(r) > 0 ==> WriteCount(r, count) > 0
  {
    FreeBetweenValue(|r.buf|, r.rp, r.wp);
  }

  /** Bytes stored in front of the read pointer join the end of what is buffered. */
  lemma StoredBytesAppend(r: Ring, bytes: seq<Byte>)
    requires Ok(r) && r.wp + |bytes| <= |r.buf|
    requires if r.rp <= r.wp then r.wp + |bytes| == |r.buf| ==> r.rp > 0 else r.wp + |bytes| < r.rp
    ensures var s := Settle(Ring(Splice(r.buf, r.wp, bytes), r.rp, r.wp + |bytes|));
      Ok(s) && Contents(s) == Contents(r) + bytes
  {
    var b, end := Splice(r.buf, r.wp, bytes), r.wp + |bytes|;
    SpliceParts(r.buf, r.wp, bytes);
    hide Splice;
    if r.rp <= r.wp {
      assert b[r.rp..end] == b[..r.wp][r.rp..] + b[r.wp..end];
      assert end == |b| ==> b[r.rp..] + b[..0] == b[r.rp..end];
    } else {
      assert b[r.rp..] == b[end..][r.rp - end..] == r.buf[end..][r.rp - end..] == r.buf[r.rp..];
      assert b[..end] == b[..r.wp] + b[r.wp..end];
      assert r.buf[r.rp..] + (r.buf[..r.wp] + bytes) == (r.buf[r.rp..] + r.buf[..r.wp]) + bytes;
    }
  }

  lemma WriteStopsShort(r: Ring, count: nat)
    requires Ok(r) && SpaceFree(r) >= 0
    ensures WriteCount(r, count) < count ==>
      |Contents(r)| + WriteCount(r, count) == |r.buf| - 1 || r.wp + WriteCount(r, count) == |r.buf|
  {
    FreeBetweenValue(|r.buf|, r.rp, r.wp);
  }

  /**
    A write appends a prefix of the request, and a non-empty request on a pipe with room appends at
    least one byte. It stops short only when the pipe is full or at the end of the buffer.
    */
  lemma WriteAppendsPrefix(r: Ring, data: seq<Byte>)
    requires Ok(r) && SpaceFree(r) >= 0
    ensures Ok(Settle(AdvanceWrite(r, data)))
    ensures |AdvanceWrite(r, data).buf| == |r.buf|
    ensures Contents(Settle(AdvanceWrite(r, data))) == Contents(r) + data[..WriteCount(r, |data|)]
    ensures data != [] && SpaceFree(r) > 0 ==> WriteCount(r, |data|) > 0
    ensures WriteCount(r, |data|) < |data| ==>
      var after := Settle(AdvanceWrite(r, data)); |Contents(after)| == |r.buf| - 1 || after.wp == 0
  {
    WriteStopsShort(r, |data|);
    hide Contents, Settle, Splice, SpaceFree, WriteCount;
    WriteCountFits(r, |data|);
    StoredBytesAppend(r, data[..WriteCount(r, |data|)]);
  }

  lemma StoredBytesAreApart(r: Ring, bytes: seq<Byte>)
    requires Ok(r) && r.wp + |bytes| <= |r.buf| && (r.wp < r.rp ==> r.wp + |bytes| < r.rp)
    ensures Contents(r.(buf := Splice(r.buf, r.wp, bytes))) == Contents(r)
  {
    var b, end := Splice(r.buf, r.wp, bytes), r.wp + |bytes|;
    SpliceParts(r.buf, r.wp, bytes);
    hide Splice;
    if r.rp <= r.wp {
      assert b[r.rp..r.wp] == b[..r.wp][r.rp..];
    } else {
      assert b[r.rp..] == b[end..][r.rp - end..];
    }
  }

  /** A copy that fails part of the way never touches a buffered byte. */
  lemma PartialWriteKeepsContents(r: Ring, data: seq<Byte>, k: nat)
    requires Ok(r) && SpaceFree(r) >= 0 && k <= WriteCount(r, |data|)
    ensures Ok(PartialWrite(r, data, k))
    ensures Contents(PartialWrite(r, data, k)) == Contents(r)
  {
    hide Contents, Splice, SpaceFree, WriteCount;
    WriteCountFits(r, |data|);
    StoredBytesAreApart(r, data[..k]);
  }

  /** Reading moves bytes from the buffer to the end of what was returned. */
  lemma ReadKeepsHistory(r: Ring, count: nat, returned: seq<Byte>, accepted: seq<Byte>)
    requires Ok(r) && r.rp != r.wp && returned + Contents(r) == accepted
    ensures returned + ReadBytes(r, count) + Contents(Settle(AdvanceRead(r, count))) == accepted
  {
    hide Contents, Settle, AdvanceRead, ReadBytes;
    ReadTakesPrefix(r, count);
  }

  /** Writing appends to both sides of the same equation. */
  lemma WriteKeepsHistory(r: Ring, data: seq<Byte>, returned: seq<Byte>, accepted: seq<Byte>)
    requires Ok(r) && SpaceFree(r) >= 0 && returned + Contents(r) == accepted
    ensures returned + Contents(Settle(AdvanceWrite(r, data))) == accepted + data[..WriteCount(r, |data|)]
  {
    WriteAppendsPrefix(r, data);
  }
}
