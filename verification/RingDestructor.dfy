/** From the two-thread ring to the queue object: the memory two stopped threads leave behind, after any
    interleaving, is one the destructor walks exactly. */
module RingDestructor {
  import opened Machine
  import opened RingProtocol
  import opened SpscQueue
  import Ring = RingWrapped

  /** What the queue object asks of its fields, for the items accepted and not delivered: they are in
      the slots behind the masked read index, oldest first, the wrapped indices are that many apart, and
      every other slot is dead. */
  ghost predicate IsQueue<T>(m: Ring.Memory<T>) {
    && RingSize(m.size) && |m.buffer| == m.size
    && m.writeStores != [] && m.readStores != []
    && m.delivered <= m.accepted && |m.accepted| - |m.delivered| <= m.size
    && Apart(Ring.Last(m.readStores), Ring.Last(m.writeStores), |m.accepted| - |m.delivered|)
    && Holds(m.size, m.buffer, Ring.Last(m.readStores), m.accepted[|m.delivered|..])
  }

  lemma StoppedRingIsQueue<T>(m: Ring.Memory<T>)
    requires Ring.Inv(m) && m.prod.PIdle? && m.cons.CIdle?
    ensures IsQueue(m)
  {
    var s, read, queued := Ring.Unwrap(m), Ring.Last(m.readStores), m.accepted[|m.delivered|..];
    assert read == s.r % TWO_64;
    forall i | 0 <= i < m.size && SlotAt(m.size, read, i) < m.size
      ensures m.buffer[SlotAt(m.size, read, i)] == if i < |queued| then Live(queued[i]) else Dead
    {
      WrappedSlot(m.size, s.r, i);
      assert s.slots[SlotOf(s.cap, s.r + i)] == Expected(s, s.r + i);
    }
    WrapThenAddSize(s.r, s.w - s.r);
  }

  lemma WrapThenAddSize(x: nat, y: nat)
    ensures (x % TWO_64 + y) % TWO_64 == (x + y) % TWO_64
  {
  }

  lemma WrappedSlot(size: size_t, r: nat, i: nat)
    requires RingSize(size)
    ensures SlotAt(size, r % TWO_64, i) == SlotOf(size, r + i)
  {
    WrapThenAddSize(r, i);
    MaskOfWrapped(r + i, size);
  }

  /** With no call under way, after any interleaving, the memory is a queue object's. */
  lemma StoppedRunIsQueue<T>(size: size_t, run: seq<Action<T>>)
    requires RingSize(size) && Ring.ValidRun(Ring.Init<T>(size), run)
    requires
      var m := Ring.Run(Ring.Init<T>(size), run);
      m.prod.PIdle? && m.cons.CIdle?
    ensures IsQueue(Ring.Run(Ring.Init<T>(size), run))
  {
    hide Ring.Inv, IsQueue;
    Ring.InitInv<T>(size);
    Ring.RunRefines(Ring.Init<T>(size), run);
    StoppedRingIsQueue(Ring.Run(Ring.Init<T>(size), run));
  }
}
