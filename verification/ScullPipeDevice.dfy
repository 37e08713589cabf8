/** The pipe device itself: the buffer and the two pointers, updated in place. */
module PipeDevice {
  import opened Bytes
  import ByteRing
  import PipeRing

  datatype ReadResult = WouldBlock | ReadFault | Data(bytes: seq<Byte>)
  datatype WriteResult = NoSpace | WriteFault | Accepted(n: nat)

  class ScullPipe {
    /** `scull_p_buffer`. */
    const size: nat
    /** Null while no file is open. */
    var buffer: array?<Byte>
    var rp: nat
    var wp: nat
    var nreaders: nat
    var nwriters: nat

    ghost predicate Valid()
      reads this, buffer
    {
      && size > 0
      && (buffer != null ==> buffer.Length == size && ByteRing.Ok(Ring()))
      && (nreaders + nwriters > 0 ==> buffer != null)
    }

    /** Some file is open on the device. */
    ghost predicate Ready()
      reads this, buffer
    {
      Valid() && buffer != null
    }

    ghost function Ring(): ByteRing.Ring
      requires buffer != null
      reads this, buffer
    {
      ByteRing.Ring(buffer[..], rp, wp)
    }

    constructor (scullPBuffer: nat)
      requires scullPBuffer > 0
      ensures Valid() && size == scullPBuffer && buffer == null && nreaders == 0 && nwriters == 0
    {
      size, buffer, rp, wp, nreaders, nwriters := scullPBuffer, null, 0, 0, 0, 0;
    }

    /** The first open allocates the buffer; every open resets both pointers, whatever is buffered. */
    method Open(granted: bool, reading: bool, writing: bool) returns (ok: bool)
      requires Valid()
      modifies this
      ensures Valid()
      ensures ok <==> old(buffer) != null || granted
      ensures ok ==> Ready() && rp == 0 && wp == 0 && ByteRing.Contents(Ring()) == []
      ensures ok ==> if old(buffer) != null then buffer == old(buffer) && buffer[..] == old(buffer[..])
        else fresh(buffer)
      ensures ok ==> nreaders == old(nreaders) + Opened(reading) && nwriters == old(nwriters) + Opened(writing)
      ensures !ok ==> buffer == null && nreaders == old(nreaders) && nwriters == old(nwriters)
    {
      if buffer == null {
        if !granted {
          return false;
        }
        buffer := new Byte[size];
      }
      rp, wp := 0, 0;
      if reading {
        nreaders := nreaders + 1;
      }
      if writing {
        nwriters := nwriters + 1;
      }
      ok := true;
    }

    /** The last release frees the buffer; any other leaves everything buffered. */
    method Release(reading: bool, writing: bool)
      requires Ready() && nreaders >= Opened(reading) && nwriters >= Opened(writing)
      modifies this
      ensures Valid()
      ensures nreaders == old(nreaders) - Opened(reading) && nwriters == old(nwriters) - Opened(writing)
      ensures buffer == null <==> nreaders + nwriters == 0
      ensures buffer != null ==> buffer == old(buffer) && Ring() == old(Ring())
    {
      if reading {
        nreaders := nreaders - 1;
      }
      if writing {
        nwriters := nwriters - 1;
      }
      if nreaders + nwriters == 0 {
        buffer := null;
      }
    }

    method SpaceFree() returns (space: int)
      requires Ready()
      ensures space == PipeRing.SpaceFree(Ring())
      ensures space == buffer.Length - 1 - |ByteRing.Contents(Ring())|
    {
      PipeRing.SpaceFreeIsCapacityLeft(Ring());
      if rp == wp {
        return buffer.Length - 1;
      }
      return (rp + buffer.Length - wp) % buffer.Length - 1;
    }

    /** The part of a read that runs under the semaphore; `fault` is the outcome of `copy_to_user`. */
    method Read(count: nat, fault: bool) returns (r: ReadResult)
      requires Ready()
      modifies this`rp
      ensures Ready() && buffer[..] == old(buffer[..])
      ensures r.WouldBlock? <==> old(ByteRing.Contents(Ring())) == []
      ensures r.ReadFault? <==> fault && old(ByteRing.Contents(Ring())) != []
      ensures r.Data? ==> Ring() == PipeRing.Settle(PipeRing.AdvanceRead(old(Ring()), count))
      ensures r.Data? ==> r.bytes + ByteRing.Contents(Ring()) == old(ByteRing.Contents(Ring()))
      ensures r.Data? ==> |r.bytes| <= count && (count > 0 ==> r.bytes != [])
      ensures r.Data? ==> |r.bytes| == count || ByteRing.Contents(Ring()) == [] || rp == 0
      ensures !r.Data? ==> Ring() == old(Ring())
    {
      hide ByteRing.Contents;
      ByteRing.EmptyExactlyWhen(Ring());
      if rp == wp {
        return WouldBlock;
      }
      PipeRing.ReadTakesPrefix(Ring(), count);
      var n := if wp > rp then Min(count, wp - rp) else Min(count, buffer.Length - rp);
      if fault {
        return ReadFault;
      }
      r := Data(buffer[rp..rp + n]);
      rp := rp + n;
      if rp == buffer.Length {
        rp := 0;
      }
    }

    /** `copy_from_user`: the bytes that arrive land at `at`, nothing else changes. */
    method CopyFromUser(at: nat, bytes: seq<Byte>)
      requires buffer != null && at + |bytes| <= buffer.Length
      modifies buffer
      ensures buffer[..] == ByteRing.Splice(old(buffer[..]), at, bytes)
    {
      forall i | 0 <= i < |bytes| {
        buffer[at + i] := bytes[i];
      }
    }

    /**
      The part of a write that runs under the semaphore. `copyable` is how many bytes
      `copy_from_user` can fetch before it faults.
      */
    method Write(data: seq<Byte>, copyable: nat) returns (r: WriteResult)
      requires Ready()
      modifies this`wp, buffer
      ensures Ready()
      ensures WriteEffect(old(Ring()), data, copyable, r, Ring())
    {
      var space := SpaceFree();
      if space == 0 {
        return NoSpace;
      }
      var n := Min(|data|, space);
      if wp >= rp {
        n := Min(n, buffer.Length - wp);
      } else {
        n := Min(n, rp - wp - 1);
      }
      if copyable < n {
        CopyFromUser(wp, data[..copyable]);
        return WriteFault;
      }
      CopyFromUser(wp, data[..n]);
      wp := wp + n;
      if wp == buffer.Length {
        wp := 0;
      }
      r := Accepted(n);
    }
  }

  function Opened(mode: bool): nat { if mode then 1 else 0 }

  /** How a write's answer and the ring it leaves follow from the ring it found. */
  ghost predicate WriteEffect(r: ByteRing.Ring, data: seq<Byte>, copyable: nat, answer: WriteResult, r': ByteRing.Ring)
    requires ByteRing.Ok(r)
  {
    if PipeRing.SpaceFree(r) <= 0 then answer == NoSpace && r' == r
    else
      var n := PipeRing.WriteCount(r, |data|);
      if copyable < n then answer == WriteFault && r' == PipeRing.PartialWrite(r, data, copyable)
      else answer == Accepted(n) && r' == PipeRing.Settle(PipeRing.AdvanceWrite(r, data))
  }

  /**
    What a writer may rely on: it blocks exactly when the buffer is at capacity, an accepted
    write appends a non-empty prefix of a non-empty request, and neither blocking nor a
    faulting copy changes a buffered byte.
    */
  lemma WriteEffectMeaning(r: ByteRing.Ring, data: seq<Byte>, copyable: nat, answer: WriteResult, r': ByteRing.Ring)
    requires ByteRing.Ok(r) && WriteEffect(r, data, copyable, answer, r')
    ensures ByteRing.Ok(r') && |r'.buf| == |r.buf| && r'.rp == r.rp
    ensures answer.NoSpace? <==> |ByteRing.Contents(r)| == |r.buf| - 1
    ensures answer.Accepted? ==> answer.n <= |data| && answer.n <= copyable && (data != [] ==> answer.n > 0)
    ensures ByteRing.Contents(r') == ByteRing.Contents(r) + if answer.Accepted? then data[..answer.n] else []
    ensures answer.Accepted? ==> answer.n == |data| || |ByteRing.Contents(r')| == |r.buf| - 1 || r'.wp == 0
    ensures answer.WriteFault? ==> copyable < |data|
  {
    PipeRing.SpaceFreeIsCapacityLeft(r);
    if PipeRing.SpaceFree(r) > 0 {
      PipeRing.WriteAppendsPrefix(r, data);
      if copyable < PipeRing.WriteCount(r, |data|) {
        PipeRing.PartialWriteKeepsContents(r, data, copyable);
      }
    }
  }
}
