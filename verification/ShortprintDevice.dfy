/** The printer driver's globals and the routines that move them, with nobody racing. */
module ShortprintDevice {
  import opened Bytes
  import opened ByteRing
  import opened ShortpRing

  datatype Chunk = Refused | Fault | Stored(n: nat)
  datatype Work = Emptied | Strobed(b: Byte)

  /** What becomes of a chunk: as much of the data as there is contiguous space for, if it can be copied. */
  function ChunkOf(space: int, count: nat, copyable: nat): Chunk {
    var n := Min(space, count);
    if space <= 0 then Refused else if copyable < n then Fault else Stored(n)
  }

  class ShortpOut {
    var buffer: array<Byte>
    var head: nat
    var tail: nat
    var active: bool

    ghost predicate Valid()
      reads this, buffer
    {
      buffer.Length >= 4 && Ok(Ring())
    }

    ghost function Ring(): Ring
      reads this, buffer
    {
      ByteRing.Ring(buffer[..], tail, head)
    }

    ghost function Queue(): seq<Byte>
      requires Valid()
      reads this, buffer
    {
      Contents(Ring())
    }

    constructor (page: nat, init: Byte)
      requires page >= 4
      ensures Valid() && fresh(buffer) && buffer.Length == page
      ensures Queue() == [] && !active
    {
      buffer := new Byte[page](_ => init);
      head, tail, active := 0, 0, false;
    }

    method OutSpace() returns (space: int)
      requires Valid()
      ensures space == ShortpRing.OutSpace(buffer.Length, head, tail, tail) && 0 <= space
      ensures space == 0 <==> |Queue()| == buffer.Length - 1
      ensures Fits(buffer.Length, head, tail, space)
    {
      QueuedIsLength(Ring());
      if head >= tail {
        space := buffer.Length - head;
        if tail == 0 {
          space := space - 1;
        }
      } else {
        space := tail - head - 1;
      }
    }

    method CopyFromUser(bytes: seq<Byte>)
      requires Valid() && Fits(buffer.Length, head, tail, |bytes|)
      modifies buffer
      ensures Valid() && Queue() == old(Queue())
      ensures buffer[head..head + |bytes|] == bytes
    {
      ghost var before := Ring();
      forall i | 0 <= i < |bytes| {
        buffer[head + i] := bytes[i];
      }
      assert buffer[..] == Splice(before.buf, head, bytes);
      CopyKeepsQueue(before, bytes);
    }

    /** One round of the write loop: a chunk of `data` goes into the queue and output is made active. */
    method WriteChunk(data: seq<Byte>, copyable: nat) returns (r: Chunk)
      requires Valid() && data != []
      modifies this`head, this`active, buffer
      ensures Valid()
      ensures r == ChunkOf(ShortpRing.OutSpace(buffer.Length, old(head), tail, tail), |data|, copyable)
      ensures r.Refused? <==> |old(Queue())| == buffer.Length - 1
      ensures r.Stored? ==> 0 < r.n <= |data| && Queue() == old(Queue()) + data[..r.n] && active
      ensures r.Stored? ==> r.n == |data| || |Queue()| == buffer.Length - 1 || head == 0
      ensures r.Fault? ==> copyable < |data|
      ensures !r.Stored? ==> Queue() == old(Queue()) && active == old(active)
    {
      var space := OutSpace();
      if space <= 0 {
        return Refused;
      }
      if space > |data| {
        space := |data|;
      }
      if copyable < space {
        CopyFromUser(data[..copyable]);
        return Fault;
      }
      CopyFromUser(data[..space]);
      FillAppends(Ring(), data[..space]);
      IncrHead(space);
      if !active {
        active := true;
      }
      r := Stored(space);
    }

    method IncrHead(incr: nat)
      requires Valid() && incr <= buffer.Length
      modifies this`head
      ensures Ring() == old(Ring()).(wp := IncrOutBp(buffer.Length, old(head), incr))
    {
      var bp := head + incr;
      if bp >= buffer.Length {
        bp := bp - buffer.Length;
      }
      head := bp;
    }

    /** The test on which waiting writers are woken. */
    method WakeTest() returns (wake: bool)
      requires Valid()
      ensures wake <==> WakesWriters(buffer.Length, head, tail)
    {
      wake := (buffer.Length + tail - head) % buffer.Length > buffer.Length / 2;
    }

    /** One work item: strobe the oldest byte, or stop; then decide whether to wake writers. */
    method DoWork() returns (r: Work, wake: bool)
      requires Valid()
      modifies this`tail, this`active
      ensures Valid() && buffer[..] == old(buffer[..])
      ensures r.Emptied? <==> old(Queue()) == []
      ensures r.Emptied? ==> Queue() == [] && !active
      ensures r.Strobed? ==> [r.b] + Queue() == old(Queue()) && active == old(active)
      ensures wake <==> Queue() != [] && buffer.Length - |Queue()| > buffer.Length / 2
    {
      hide Contents, WakesWriters;
      EmptyExactlyWhen(Ring());
      if head == tail {
        active := false;
        r := Emptied;
      } else {
        StrobeRemovesOldest(Ring());
        r := Strobed(buffer[tail]);
        tail := if tail + 1 >= buffer.Length then tail + 1 - buffer.Length else tail + 1;
      }
      QueuedIsLength(Ring());
      WakesWritersMeans(buffer.Length, head, tail);
      wake := WakeTest();
    }
  }
}
