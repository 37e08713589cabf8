/** The packet lists of one snull interface as linked nodes, each routine running undisturbed. */
module SnullDevice {
  import opened Allocation

  class Packet {
    var next: Packet?
    var datalen: nat

    constructor ()
      ensures next == null
    {
      next, datalen := null, 0;
    }
  }

  /** The nodes of `list` are linked in order from `head`. */
  ghost predicate Chain(head: Packet?, list: seq<Packet>)
    reads list
  {
    && (list == [] ==> head == null)
    && (list != [] ==> head == list[0] && list[|list| - 1].next == null)
    && (forall i, j :: 0 <= i < j < |list| ==> list[i] != list[j])
    && (forall i, j :: 0 <= i < |list| && 0 <= j < |list| && j == i + 1 ==> list[i].next == list[j])
  }

  class SnullPriv {
    var ppool: Packet?
    var rxQueue: Packet?
    var stopped: bool
    ghost var pool: seq<Packet>
    ghost var queue: seq<Packet>

    ghost predicate Valid()
      reads this, pool, queue
    {
      && Chain(ppool, pool) && Chain(rxQueue, queue)
      && (forall p :: p in pool ==> p !in queue)
    }

    /** Fill the pool; it comes out smaller than asked for exactly when an allocation is refused. */
    constructor (poolSize: nat, memory: Allocator)
      ensures Valid() && fresh(pool) && queue == [] && !stopped
      ensures |pool| == if Grants(memory, poolSize) then poolSize else memory.left
    {
      ppool, rxQueue, stopped := null, null, false;
      pool, queue := [], [];
      new;
      var i := 0;
      while i < poolSize
        invariant Valid() && fresh(pool) && i == |pool| <= poolSize && queue == [] && !stopped
        invariant Grants(memory, i)
      {
        if !Grants(Spend(memory, i), 1) {
          return;
        }
        var pkt := new Packet();
        pkt.next := ppool;
        ppool := pkt;
        pool := [pkt] + pool;
        i := i + 1;
      }
    }

    /** Take a buffer; the last one stops the queue. */
    method GetTxBuffer() returns (pkt: Packet)
      requires Valid() && pool != []
      modifies this`ppool, this`pool, this`stopped
      ensures Valid() && pkt == old(pool)[0] && pool == old(pool)[1..]
      ensures stopped <==> old(stopped) || pool == []
    {
      pkt := ppool;
      ppool := pkt.next;
      if ppool == null {
        stopped := true;
      }
      pool := pool[1..];
    }

    /** Give a buffer back; giving one to an empty pool wakes the queue. */
    method ReleaseBuffer(pkt: Packet)
      requires Valid() && pkt !in pool && pkt !in queue
      modifies this`ppool, this`pool, this`stopped, pkt`next
      ensures Valid() && pool == [pkt] + old(pool)
      ensures stopped <==> old(stopped) && old(pool) != []
    {
      pkt.next := ppool;
      ppool := pkt;
      pool := [pkt] + pool;
      if stopped && pkt.next == null {
        stopped := false;
      }
    }

    method EnqueueBuf(pkt: Packet)
      requires Valid() && pkt !in pool && pkt !in queue
      modifies this`rxQueue, this`queue, pkt`next
      ensures Valid() && queue == [pkt] + old(queue)
    {
      pkt.next := rxQueue;
      rxQueue := pkt;
      queue := [pkt] + queue;
    }

    method DequeueBuf() returns (pkt: Packet?)
      requires Valid()
      modifies this`rxQueue, this`queue
      ensures Valid()
      ensures old(queue) == [] ==> pkt == null && queue == []
      ensures old(queue) != [] ==> pkt == old(queue)[0] && queue == old(queue)[1..]
    {
      pkt := rxQueue;
      if pkt != null {
        rxQueue := pkt.next;
        queue := queue[1..];
      }
    }
  }
}
