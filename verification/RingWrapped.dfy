/** The ring as compiled: `size_t` indices that wrap, a mask instead of a remainder, and two atomic
    indices whose stores form a modification order. A load returns the value of some store not older
    than the newest this thread has read (C++20, section 6.9.2.1 [intro.races]). */
module RingWrapped {
  import opened Machine
  import opened RingProtocol

  datatype Memory<+T> = Memory(
    size: size_t,
    buffer: seq<Slot<T>>,
    writeStores: seq<size_t>,  // modification order of write_index_
    readStores: seq<size_t>,   // modification order of read_index_
    seenRead: nat,             // newest store of read_index_ the producer has read
    seenWrite: nat,            // newest store of write_index_ the consumer has read
    prod: Producer<T>,         // its local `index` is a size_t here
    cons: Consumer<T>,
    accepted: seq<T>,
    delivered: seq<T>)

  function Init<T>(size: size_t): Memory<T> {
    Memory(size, seq(size, _ => Dead), [0], [0], 0, 0, PIdle, CIdle, [], [])
  }

  function Last(stores: seq<size_t>): size_t
    requires stores != []
  {
    stores[|stores| - 1]
  }

  function Mask(m: Memory, index: nat): nat
    requires m.size >= 1
  {
    BitAnd(index, m.size - 1)
  }

  predicate Local(index: nat) {
    index < TWO_64
  }

  /** What keeps every array access and every local variable in range. */
  predicate Formed<T>(m: Memory<T>) {
    && RingSize(m.size) && |m.buffer| == m.size
    && m.writeStores != [] && m.readStores != []
    && (match m.prod
        case PLoadedOwn(_, i) => Local(i)
        case PReady(_, i) => Local(i) && Mask(m, i) < m.size
        case PConstructed(_, i) => Local(i)
        case _ => true)
    && (match m.cons
        case CLoadedOwn(i) => Local(i)
        case CReady(i) => Local(i) && Mask(m, i) < m.size
        case CMoved(i, _) => Local(i) && Mask(m, i) < m.size
        case CDestroyed(i, _) => Local(i)
        case _ => true)
  }

  predicate Enabled<T(==)>(m: Memory<T>, a: Action<T>)
    requires Formed(m)
  {
    match a
    case PCall(_) => m.prod.PIdle?
    case PLoadOwn => m.prod.PCalled?
    case PLoadOther(k) => m.prod.PLoadedOwn? && m.seenRead <= k < |m.readStores|
    case PConstruct => m.prod.PReady?
    case PPublish => m.prod.PConstructed?
    case PReturn => m.prod.PDone?
    case CCall => m.cons.CIdle?
    case CLoadOwn => m.cons.CCalled?
    case CLoadOther(k) => m.cons.CLoadedOwn? && m.seenWrite <= k < |m.writeStores|
    case CMove(got) => m.cons.CReady? &&
      (var slot := m.buffer[Mask(m, m.cons.index)]; slot.Live? ==> got == slot.value)
    case CDestroy => m.cons.CMoved?
    case CPublish => m.cons.CDestroyed?
    case CReturn => m.cons.CDone?
  }

  function Step<T>(m: Memory<T>, a: Action<T>): Memory<T>
    requires Formed(m) && Enabled(m, a)
  {
    match a
    case PCall(x) => m.(prod := PCalled(x))
    case PLoadOwn => m.(prod := PLoadedOwn(m.prod.item, Last(m.writeStores)))
    case PLoadOther(k) =>
      m.(seenRead := k,
         prod := if SubWrap(m.prod.index, m.readStores[k]) == m.size then PDone(m.prod.item, false)
                 else PReady(m.prod.item, m.prod.index))
    case PConstruct =>
      m.(buffer := m.buffer[Mask(m, m.prod.index) := Live(m.prod.item)],
         prod := PConstructed(m.prod.item, m.prod.index))
    case PPublish =>
      m.(writeStores := m.writeStores + [AddWrap(m.prod.index, 1)],
         accepted := m.accepted + [m.prod.item],
         prod := PDone(m.prod.item, true))
    case PReturn => m.(prod := PIdle)
    case CCall => m.(cons := CCalled)
    case CLoadOwn => m.(cons := CLoadedOwn(Last(m.readStores)))
    case CLoadOther(k) =>
      m.(seenWrite := k,
         cons := if m.cons.index == m.writeStores[k] then CDone(None) else CReady(m.cons.index))
    case CMove(got) => m.(cons := CMoved(m.cons.index, got))
    case CDestroy =>
      m.(buffer := m.buffer[Mask(m, m.cons.index) := Dead],
         cons := CDestroyed(m.cons.index, m.cons.item))
    case CPublish =>
      m.(readStores := m.readStores + [AddWrap(m.cons.index, 1)],
         delivered := m.delivered + [m.cons.item],
         cons := CDone(Some(m.cons.item)))
    case CReturn => m.(cons := CIdle)
  }

  // ---------------------------------------------------------------- refinement

  /** The local index replaced by the counter it stands for. */
  function UnwrapProducer<T>(p: Producer<T>, w: nat): Producer<T> {
    match p
    case PLoadedOwn(x, _) => PLoadedOwn(x, w)
    case PReady(x, _) => PReady(x, w)
    case PConstructed(x, _) => PConstructed(x, w)
    case _ => p
  }

  function UnwrapConsumer<T>(c: Consumer<T>, r: nat): Consumer<T> {
    match c
    case CLoadedOwn(_) => CLoadedOwn(r)
    case CReady(_) => CReady(r)
    case CMoved(_, x) => CMoved(r, x)
    case CDestroyed(_, x) => CDestroyed(r, x)
    case _ => c
  }

  /** The state with counters that never wrap: as many as there were stores. */
  function Unwrap<T>(m: Memory<T>): State<T>
    requires m.writeStores != [] && m.readStores != []
  {
    var w, r := |m.writeStores| - 1, |m.readStores| - 1;
    State(m.size, m.buffer, w, r, m.seenRead, m.seenWrite,
          UnwrapProducer(m.prod, w), UnwrapConsumer(m.cons, r), m.accepted, m.delivered)
  }

  /** The n-th store wrote n, wrapped. */
  ghost predicate CountsUp(stores: seq<size_t>) {
    forall n :: 0 <= n < |stores| ==> stores[n] == n % TWO_64
  }

  predicate LocalsOk<T>(m: Memory<T>)
    requires m.writeStores != [] && m.readStores != []
  {
    && (match m.prod
        case PLoadedOwn(_, i) => i == Last(m.writeStores)
        case PReady(_, i) => i == Last(m.writeStores)
        case PConstructed(_, i) => i == Last(m.writeStores)
        case _ => true)
    && (match m.cons
        case CLoadedOwn(i) => i == Last(m.readStores)
        case CReady(i) => i == Last(m.readStores)
        case CMoved(i, _) => i == Last(m.readStores)
        case CDestroyed(i, _) => i == Last(m.readStores)
        case _ => true)
  }

  ghost predicate Inv<T>(m: Memory<T>) {
    && RingSize(m.size)
    && m.writeStores != [] && m.readStores != []
    && CountsUp(m.writeStores) && CountsUp(m.readStores)
    && LocalsOk(m)
    && RingProtocol.Inv(Unwrap(m))
  }

  /** A masked wrapped index is the slot of the counter. */
  lemma MaskIsSlot<T>(m: Memory<T>, i: nat)
    requires RingSize(m.size)
    ensures Mask(m, i % TWO_64) == SlotOf(m.size, i) < m.size
  {
    MaskOfWrapped(i, m.size);
  }

  lemma InvIsFormed<T>(m: Memory<T>)
    requires Inv(m)
    ensures Formed(m)
  {
    MaskIsSlot(m, |m.writeStores| - 1);
    MaskIsSlot(m, |m.readStores| - 1);
  }

  lemma InitInv<T>(size: size_t)
    requires RingSize(size)
    ensures Inv(Init<T>(size)) && Unwrap(Init<T>(size)) == RingProtocol.Init<T>(size)
  {
    RingProtocol.InitInv<T>(size);
  }

  /** The two comparisons of wrapped indices decide what the comparisons of counters decide. */
  lemma FullTestIsExact<T>(m: Memory<T>, k: nat)
    requires Inv(m) && m.prod.PLoadedOwn? && m.seenRead <= k < |m.readStores|
    ensures SubWrap(m.prod.index, m.readStores[k]) == (|m.writeStores| - 1) - k <= m.size
  {
    WrappedDistance(|m.writeStores| - 1, k);
  }

  lemma EmptyTestIsExact<T>(m: Memory<T>, k: nat)
    requires Inv(m) && m.cons.CLoadedOwn? && m.seenWrite <= k < |m.writeStores|
    ensures m.cons.index == m.writeStores[k] <==> |m.readStores| - 1 == k
  {
    var r := |m.readStores| - 1;
    WrappedDistance(k, r);
  }

  /** The wrapped step computes the unwrapped one. */
  lemma ProducerStepRefines<T>(m: Memory<T>, a: Action<T>)
    requires Inv(m) && Formed(m) && Enabled(m, a)
    requires a.PCall? || a.PLoadOwn? || a.PLoadOther? || a.PConstruct? || a.PPublish? || a.PReturn?
    ensures RingProtocol.Enabled(Unwrap(m), a)
    ensures var m' := Step(m, a);
            && m'.writeStores != [] && CountsUp(m'.writeStores) && m'.readStores == m.readStores
            && LocalsOk(m')
            && Unwrap(m') == RingProtocol.Step(Unwrap(m), a)
  {
    hide BitAnd, SlotOf, AddWrap, SubWrap, RingProtocol.Inv, RingSize;
    MaskIsSlot(m, |m.writeStores| - 1);
    WrappedNext(|m.writeStores| - 1);
    if a.PLoadOther? {
      FullTestIsExact(m, a.k);
    }
  }

  lemma ConsumerStepRefines<T>(m: Memory<T>, a: Action<T>)
    requires Inv(m) && Formed(m) && Enabled(m, a)
    requires a.CCall? || a.CLoadOwn? || a.CLoadOther? || a.CMove? || a.CDestroy? || a.CPublish? || a.CReturn?
    ensures RingProtocol.Enabled(Unwrap(m), a)
    ensures var m' := Step(m, a);
            && m'.readStores != [] && CountsUp(m'.readStores) && m'.writeStores == m.writeStores
            && LocalsOk(m')
            && Unwrap(m') == RingProtocol.Step(Unwrap(m), a)
  {
    hide BitAnd, SlotOf, AddWrap, SubWrap, RingProtocol.Inv, RingSize;
    MaskIsSlot(m, |m.readStores| - 1);
    WrappedNext(|m.readStores| - 1);
    if a.CLoadOther? {
      EmptyTestIsExact(m, a.k);
    }
  }

  /** Every step of the wrapped ring is the same step of the ring whose counters never wrap. */
  lemma StepRefines<T>(m: Memory<T>, a: Action<T>)
    requires Inv(m) && Formed(m) && Enabled(m, a)
    ensures RingProtocol.Enabled(Unwrap(m), a)
    ensures Inv(Step(m, a))
    ensures Unwrap(Step(m, a)) == RingProtocol.Step(Unwrap(m), a)
  {
    if a.PCall? || a.PLoadOwn? || a.PLoadOther? || a.PConstruct? || a.PPublish? || a.PReturn? {
      ProducerStepRefines(m, a);
    } else {
      ConsumerStepRefines(m, a);
    }
    StepKeepsInv(Unwrap(m), a);
  }

  ghost predicate ValidRun<T>(m: Memory<T>, run: seq<Action<T>>)
    decreases |run|
  {
    run == [] || (Formed(m) && Enabled(m, run[0]) && ValidRun(Step(m, run[0]), run[1..]))
  }

  ghost function Run<T>(m: Memory<T>, run: seq<Action<T>>): Memory<T>
    requires ValidRun(m, run)
    decreases |run|
  {
    if run == [] then m else Run(Step(m, run[0]), run[1..])
  }

  /** Wraparound refinement: a run of any length, across any number of wraps, is a run of the ring
      whose counters never wrap. */
  lemma {:induction false} RunRefines<T>(m: Memory<T>, run: seq<Action<T>>)
    requires Inv(m) && ValidRun(m, run)
    ensures Inv(Run(m, run))
    ensures RingProtocol.ValidRun(Unwrap(m), run)
    ensures Unwrap(Run(m, run)) == RingProtocol.Run(Unwrap(m), run)
    decreases |run|
  {
    if run != [] {
      StepRefines(m, run[0]);
      RunRefines(Step(m, run[0]), run[1..]);
    }
  }

  /** Ring safety on what the compiled ring computes. */
  ghost predicate Safe<T>(m: Memory<T>) {
    && Formed(m)
    && m.delivered <= m.accepted
    && |m.accepted| - |m.delivered| == SubWrap(Last(m.writeStores), Last(m.readStores)) <= m.size
    && (m.prod.PReady? ==> m.buffer[Mask(m, m.prod.index)] == Dead)
    && (ConsumerTouchesSlot(m) ==>
          |m.delivered| < |m.accepted|
          && m.buffer[Mask(m, m.cons.index)] == Live(m.accepted[|m.delivered|]))
    && ((m.prod.PReady? || m.prod.PConstructed?) && ConsumerTouchesSlot(m) ==>
          Mask(m, m.prod.index) != Mask(m, m.cons.index))
  }

  predicate ConsumerTouchesSlot<T>(m: Memory<T>) {
    m.cons.CReady? || m.cons.CMoved?
  }

  lemma InvIsSafe<T>(m: Memory<T>)
    requires Inv(m)
    ensures Safe(m)
  {
    InvIsFormed(m);
    var w, r := |m.writeStores| - 1, |m.readStores| - 1;
    MaskIsSlot(m, w);
    MaskIsSlot(m, r);
    WrappedDistance(w, r);
    RingProtocol.InvIsSafe(Unwrap(m));
  }

  /** Ring safety of the compiled ring in every interleaving, for every capacity the static
      assertions admit. */
  lemma SafeInEveryRun<T>(size: size_t, run: seq<Action<T>>)
    requires RingSize(size) && ValidRun(Init<T>(size), run)
    ensures Safe(Run(Init<T>(size), run))
  {
    InitInv<T>(size);
    RunRefines(Init<T>(size), run);
    InvIsSafe(Run(Init<T>(size), run));
  }
}
