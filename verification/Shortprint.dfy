/** The output page of the printer driver: what its pointer arithmetic computes. */
module ShortpRing {
  import opened Bytes
  import opened ByteRing

  /** Contiguous space, from a head and two successive looks `t1`, `t2` at the tail. */
  function OutSpace(page: nat, head: nat, t1: nat, t2: nat): int {
    if head >= t1 then
      if t2 == 0 then page - head - 1 else page - head
    else
      t2 - head - 1
  }

  function IncrOutBp(page: nat, bp: nat, incr: nat): nat
    requires bp < page && incr <= page
  {
    if bp + incr >= page then bp + incr - page else bp + incr
  }

  /** Bytes in the queue. */
  function Queued(page: nat, head: nat, tail: nat): nat
    requires head < page && tail < page
  {
    if tail <= head then head - tail else page - tail + head
  }

  lemma QueuedIsLength(r: Ring)
    requires Ok(r)
    ensures |Contents(r)| == Queued(|r.buf|, r.wp, r.rp)
  {
  }

  /** The condition under which the consumer wakes writers: `SP_MIN_SPACE` is half a page. */
  predicate WakesWriters(page: nat, head: nat, tail: nat)
    requires head < page && tail < page
  {
    (page + tail - head) % page > page / 2
  }

  /** The wake-up test measures free space, except that an empty queue counts as no space at all. */
  lemma WakesWritersMeans(page: nat, head: nat, tail: nat)
    requires head < page && tail < page
    ensures WakesWriters(page, head, tail) <==>
      0 < Queued(page, head, tail) && page - Queued(page, head, tail) > page / 2
  {
    ModOnce(page + tail - head, page);
  }

  /** `n` bytes fit in front of the tail without wrapping and without making the ring look empty. */
  predicate Fits(page: nat, head: nat, tail: nat, n: nat)
    requires head < page && tail < page
  {
    head + n <= page && n + Queued(page, head, tail) <= page - 1
  }

  /**
    While the producer looks twice, the consumer may move the tail from `t1` to `t2` and,
    before the space is used, on to `t3`, never past the head. The answer is never too large.
    */
  lemma SpaceIsNeverOverstated(page: nat, head: nat, t1: nat, t2: nat, t3: nat)
    requires head < page && t1 < page && t2 < page && t3 < page
    requires Queued(page, head, t3) <= Queued(page, head, t2) <= Queued(page, head, t1)
    ensures OutSpace(page, head, t1, t2) > 0 ==> Fits(page, head, t3, OutSpace(page, head, t1, t2))
  {
  }

  /** With no race, the answer is zero exactly when the queue is full. */
  lemma SpaceWhenTailIsStill(page: nat, head: nat, t: nat)
    requires head < page && t < page
    ensures OutSpace(page, head, t, t) >= 0
    ensures OutSpace(page, head, t, t) == 0 <==> Queued(page, head, t) == page - 1
  {
  }

  /** And less than all that is free only where the page ends. */
  lemma SpaceIsAllOrToTheEnd(page: nat, head: nat, t: nat)
    requires head < page && t < page
    ensures var space := OutSpace(page, head, t, t);
      space + Queued(page, head, t) == page - 1 || head + space == page
  {
  }

  /** Filling `n` bytes in front of the head appends them to the queue. */
  lemma FillAppends(r: Ring, bytes: seq<Byte>)
    requires Ok(r) && Fits(|r.buf|, r.wp, r.rp, |bytes|)
    requires r.buf[r.wp..r.wp + |bytes|] == bytes
    ensures Ok(r.(wp := IncrOutBp(|r.buf|, r.wp, |bytes|)))
    ensures Contents(r.(wp := IncrOutBp(|r.buf|, r.wp, |bytes|))) == Contents(r) + bytes
  {
  }

  /** Copying into the free stretch leaves the queue alone. */
  lemma CopyKeepsQueue(r: Ring, bytes: seq<Byte>)
    requires Ok(r) && Fits(|r.buf|, r.wp, r.rp, |bytes|)
    ensures Contents(r.(buf := Splice(r.buf, r.wp, bytes))) == Contents(r)
    ensures Splice(r.buf, r.wp, bytes)[r.wp..r.wp + |bytes|] == bytes
  {
  }

  /** Strobing one byte out removes the oldest. */
  lemma StrobeRemovesOldest(r: Ring)
    requires Ok(r) && r.rp != r.wp
    ensures Ok(r.(rp := IncrOutBp(|r.buf|, r.rp, 1)))
    ensures [r.buf[r.rp]] + Contents(r.(rp := IncrOutBp(|r.buf|, r.rp, 1))) == Contents(r)
  {
  }

  lemma StrobeShrinksQueue(page: nat, head: nat, tail: nat)
    requires head < page && tail < page
    ensures head != tail ==> Queued(page, head, IncrOutBp(page, tail, 1)) == Queued(page, head, tail) - 1
  {
  }
}
