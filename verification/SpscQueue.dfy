/** The queue object itself, as one thread at a time sees it. */
module SpscQueue {
  import opened Machine
  import opened RingProtocol

  /** The slot of the item `i` places behind the read index. */
  function SlotAt(size: size_t, read: size_t, i: nat): nat
    requires size >= 1
  {
    BitAnd((read + i) % TWO_64, size - 1)
  }

  lemma SlotAtIsMod(size: size_t, read: size_t, i: nat)
    requires RingSize(size)
    ensures SlotAt(size, read, i) == SlotOf(size, read + i) < size
  {
    MaskOfWrapped(read + i, size);
  }

  lemma SlotsAtDiffer(size: size_t, read: size_t)
    requires RingSize(size)
    ensures forall i, j :: 0 <= i < j < size ==> SlotAt(size, read, i) != SlotAt(size, read, j)
    ensures forall i :: 0 <= i <= size ==> SlotAt(size, read, i) < size
    ensures SlotAt(size, read, size) == SlotAt(size, read, 0)
  {
    forall i, j | 0 <= i < j < size
      ensures SlotAt(size, read, i) != SlotAt(size, read, j)
    {
      SlotAtIsMod(size, read, i);
      SlotAtIsMod(size, read, j);
      SlotsDiffer(size, read + i, read + j);
    }
    forall i | 0 <= i <= size
      ensures SlotAt(size, read, i) < size
    {
      SlotAtIsMod(size, read, i);
    }
    SlotAtIsMod(size, read, 0);
    SlotAtIsMod(size, read, size);
    SlotRepeats(size, read);
  }

  lemma NextRead(size: size_t, read: size_t)
    requires size >= 1
    ensures forall i: nat :: SlotAt(size, AddWrap(read, 1), i) == SlotAt(size, read, i + 1)
  {
    forall i: nat
      ensures SlotAt(size, AddWrap(read, 1), i) == SlotAt(size, read, i + 1)
    {
      assert (AddWrap(read, 1) + i) % TWO_64 == (read + (i + 1)) % TWO_64;
    }
  }

  /** The items held, oldest first, are in the slots behind the read index; every other slot is dead. */
  ghost predicate Holds<T>(size: size_t, slots: seq<Slot<T>>, read: size_t, contents: seq<T>)
    requires RingSize(size) && |slots| == size
  {
    forall i :: 0 <= i < size && SlotAt(size, read, i) < size ==>
      slots[SlotAt(size, read, i)] == if i < |contents| then Live(contents[i]) else Dead
  }

  /** Taking the oldest item. */
  lemma HoldsAfterPop<T>(size: size_t, slots: seq<Slot<T>>, read: size_t, contents: seq<T>)
    requires RingSize(size) && |slots| == size && contents != [] && |contents| <= size
    requires Holds(size, slots, read, contents)
    ensures SlotAt(size, read, 0) < size
    ensures slots[SlotAt(size, read, 0)] == Live(contents[0])
    ensures Holds(size, slots[SlotAt(size, read, 0) := Dead], AddWrap(read, 1), contents[1..])
  {
    SlotsAtDiffer(size, read);
    NextRead(size, read);
    var slots' := slots[SlotAt(size, read, 0) := Dead];
    forall i | 0 <= i < size && SlotAt(size, AddWrap(read, 1), i) < size
      ensures slots'[SlotAt(size, AddWrap(read, 1), i)] ==
                if i < |contents| - 1 then Live(contents[i + 1]) else Dead
    {
      assert SlotAt(size, AddWrap(read, 1), i) == SlotAt(size, read, i + 1);
      if i + 1 < size {
        assert SlotAt(size, read, i + 1) != SlotAt(size, read, 0);
      }
    }
  }

  /** Adding an item behind the newest. */
  lemma HoldsAfterPush<T>(size: size_t, slots: seq<Slot<T>>, read: size_t, contents: seq<T>, item: T)
    requires RingSize(size) && |slots| == size && |contents| < size
    requires Holds(size, slots, read, contents)
    ensures SlotAt(size, read, |contents|) < size
    ensures slots[SlotAt(size, read, |contents|)] == Dead
    ensures Holds(size, slots[SlotAt(size, read, |contents|) := Live(item)], read, contents + [item])
  {
    SlotsAtDiffer(size, read);
    var n := |contents|;
    var slots' := slots[SlotAt(size, read, n) := Live(item)];
    forall i | 0 <= i < size
      ensures slots'[SlotAt(size, read, i)] == if i < n + 1 then Live((contents + [item])[i]) else Dead
    {
      if i < n {
        assert SlotAt(size, read, i) != SlotAt(size, read, n);
      } else if n < i {
        assert SlotAt(size, read, n) != SlotAt(size, read, i);
      }
    }
  }

  lemma HoldsNothing<T>(size: size_t, slots: seq<Slot<T>>, read: size_t)
    requires RingSize(size) && |slots| == size && Holds(size, slots, read, [])
    ensures forall slot :: 0 <= slot < size ==> slots[slot] == Dead
  {
    forall slot | 0 <= slot < size
      ensures slots[slot] == Dead
    {
      hide SlotAt, RingSize;
      var i := InLap(read, size, slot);
      SlotAtIsMod(size, read, i - read);
    }
  }

  /** The two indices when `n` items lie between them. */
  predicate Apart(read: size_t, write: size_t, n: nat) {
    write == (read + n) % TWO_64
  }

  /** The distance the code computes between the indices is the number of items. */
  lemma ApartIsDistance(read: size_t, write: size_t, n: nat)
    requires Apart(read, write, n) && n < TWO_64
    ensures SubWrap(write, read) == n
    ensures read == write <==> n == 0
  {
  }

  lemma SlotOfWrite(size: size_t, read: size_t, write: size_t, n: nat)
    requires size >= 1 && Apart(read, write, n)
    ensures BitAnd(write, size - 1) == SlotAt(size, read, n)
  {
  }

  lemma SlotOfRead(size: size_t, read: size_t)
    requires size >= 1
    ensures BitAnd(read, size - 1) == SlotAt(size, read, 0)
  {
  }

  lemma ApartAfterPop(read: size_t, write: size_t, n: nat)
    requires Apart(read, write, n) && n > 0
    ensures Apart(AddWrap(read, 1), write, n - 1)
  {
  }

  lemma ApartAfterPush(read: size_t, write: size_t, n: nat)
    requires Apart(read, write, n)
    ensures Apart(read, AddWrap(write, 1), n + 1)
  {
  }

  class SpscQueue<T> {
    const size: size_t
    const buffer: array<Slot<T>>
    var writeIndex: size_t
    var readIndex: size_t
    ghost var Contents: seq<T>
    ghost var Offered: seq<T>  // every item ever pushed, kept or refused

    ghost predicate Valid()
      reads this, buffer
    {
      && RingSize(size) && buffer.Length == size
      && |Contents| <= size
      && Apart(readIndex, writeIndex, |Contents|)
      && Holds(size, buffer[..], readIndex, Contents)
    }

    ghost function Value(): Load<T>
      reads this
    {
      Load(Contents, Offered)
    }

    constructor (size: size_t)
      requires RingSize(size)
      ensures Valid() && fresh(buffer)
      ensures this.size == size && Contents == Offered == []
    {
      this.size := size;
      buffer := new Slot<T>[size](_ => Dead);
      writeIndex, readIndex := 0, 0;
      Contents, Offered := [], [];
    }

    /** False, taking nothing, exactly when the queue is full. */
    method Push(item: T) returns (ok: bool)
      requires Valid()
      modifies this, buffer
      ensures Valid()
      ensures ok <==> old(|Contents|) < size
      ensures Contents == if ok then old(Contents) + [item] else old(Contents)
      ensures Offered == old(Offered) + [item]
    {
      hide Holds, BitAnd, SlotAt, Apart, AddWrap, SubWrap;
      Offered := Offered + [item];
      var write := writeIndex;
      var read := readIndex;
      ApartIsDistance(read, write, |Contents|);
      if SubWrap(write, read) == size {
        return false;
      }
      HoldsAfterPush(size, buffer[..], read, Contents, item);
      var slot := BitAnd(write, size - 1);
      ApartAfterPush(read, write, |Contents|);
      SlotOfWrite(size, read, write, |Contents|);
      ghost var slots := buffer[..];
      buffer[slot] := Live(item);
      assert buffer[..] == slots[slot := Live(item)];
      writeIndex := AddWrap(write, 1);
      Contents := Contents + [item];
      return true;
    }

    /** Nothing, changing nothing, exactly when the queue is empty. */
    method Pop() returns (item: Option<T>)
      requires Valid()
      modifies this, buffer
      ensures Valid() && Offered == old(Offered)
      ensures item == if old(Contents) == [] then None else Some(old(Contents)[0])
      ensures Contents == if item == None then old(Contents) else old(Contents)[1..]
    {
      hide Holds, BitAnd, SlotAt, Apart, AddWrap, SubWrap;
      var read := readIndex;
      var write := writeIndex;
      ApartIsDistance(read, write, |Contents|);
      if read == write {
        return None;
      }
      ApartAfterPop(read, write, |Contents|);
      SlotOfRead(size, read);
      HoldsAfterPop(size, buffer[..], read, Contents);
      var slot := BitAnd(read, size - 1);
      ghost var slots := buffer[..];
      item := Some(buffer[slot].value);
      buffer[slot] := Dead;
      assert buffer[..] == slots[slot := Dead];
      readIndex := AddWrap(read, 1);
      Contents := Contents[1..];
    }

    /** The destructor: destroys what is held, oldest first and each item once, and leaves no live slot. */
    method Destroy() returns (ghost destroyed: seq<T>)
      requires Valid()
      modifies this, buffer
      ensures destroyed == old(Contents)
      ensures forall slot :: 0 <= slot < buffer.Length ==> buffer[slot] == Dead
    {
      hide Holds, BitAnd, SlotAt, Apart, AddWrap, SubWrap;
      var read: size_t := readIndex;
      var write := writeIndex;
      ghost var left, slots := Contents, buffer[..];
      destroyed := [];
      ApartIsDistance(read, write, |left|);
      while read != write
        invariant |left| <= size && Apart(read, write, |left|)
        invariant read == write <==> left == []
        invariant slots == buffer[..] && Holds(size, slots, read, left)
        invariant destroyed + left == old(Contents)
        decreases |left|
      {
        ghost var n := |left|;
        HoldsAfterPop(size, slots, read, left);
        ApartAfterPop(read, write, n);
        ApartIsDistance(AddWrap(read, 1), write, n - 1);
        SlotOfRead(size, read);
        var slot := BitAnd(read, size - 1);
        assert slot == SlotAt(size, read, 0);
        assert buffer[slot] == slots[slot] == Live(left[0]);
        destroyed := destroyed + [buffer[slot].value];
        slots := slots[slot := Dead];
        buffer[slot] := Dead;
        read := AddWrap(read, 1);
        left := left[1..];
      }
      HoldsNothing(size, buffer[..], read);
    }
  }

  /** What a queue holds and all that was ever pushed to it. */
  datatype Load<+T> = Load(contents: seq<T>, offered: seq<T>)

  /** What a run of pushes leaves when nothing is popped meanwhile. */
  function PushAll<T>(cap: nat, q: seq<T>, items: seq<T>): seq<T>
    decreases |items|
  {
    if items == [] then q
    else PushAll(cap, if |q| < cap then q + [items[0]] else q, items[1..])
  }

  lemma {:induction false} PushAllConcat<T>(cap: nat, q: seq<T>, x: seq<T>, y: seq<T>)
    ensures PushAll(cap, q, x + y) == PushAll(cap, PushAll(cap, q, x), y)
    decreases |x|
  {
    if x == [] {
      assert x + y == y;
    } else {
      assert (x + y)[1..] == x[1..] + y;
      PushAllConcat(cap, if |q| < cap then q + [x[0]] else q, x[1..], y);
    }
  }

  function Offer<T>(cap: nat, l: Load<T>, items: seq<T>): Load<T> {
    Load(PushAll(cap, l.contents, items), l.offered + items)
  }

  lemma OfferConcat<T>(cap: nat, l: Load<T>, x: seq<T>, y: seq<T>)
    ensures Offer(cap, l, x + y) == Offer(cap, Offer(cap, l, x), y)
    ensures Offer(cap, l, []) == l
  {
    PushAllConcat(cap, l.contents, x, y);
    assert l.offered + (x + y) == (l.offered + x) + y;
    assert l.offered + [] == l.offered;
  }

  lemma OfferOne<T>(cap: nat, l: Load<T>, item: T)
    ensures Offer(cap, l, [item]) ==
              Load(if |l.contents| < cap then l.contents + [item] else l.contents, l.offered + [item])
  {
    var q := if |l.contents| < cap then l.contents + [item] else l.contents;
    assert PushAll(cap, l.contents, [item]) == PushAll(cap, q, [item][1..]);
    assert [item][1..] == [];
  }
}
