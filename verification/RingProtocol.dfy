/** The single-producer single-consumer ring as a two-thread step system whose counters never wrap.

    Each call is split at its atomic accesses. An acquire load of the other thread's index may
    return any value published since the value this thread read last; the action names which one.
    `accepted` and `delivered` record the items whose `push`, respectively `pop`, was published. */
module RingProtocol {
  import opened Machine

  datatype Slot<+T> = Dead | Live(value: T)

  /** Where a `push` stands; `index` is the local copy of the write index. */
  datatype Producer<+T> =
    | PIdle
    | PCalled(item: T)
    | PLoadedOwn(item: T, index: nat)
    | PReady(item: T, index: nat)
    | PConstructed(item: T, index: nat)
    | PDone(item: T, ok: bool)

  /** Where a `pop` stands; `index` is the local copy of the read index. */
  datatype Consumer<+T> =
    | CIdle
    | CCalled
    | CLoadedOwn(index: nat)
    | CReady(index: nat)
    | CMoved(index: nat, item: T)
    | CDestroyed(index: nat, item: T)
    | CDone(result: Option<T>)

  /** `k` is the position, in the order of the stores to the loaded index, of the store read. */
  datatype Action<+T> =
    | PCall(item: T)
    | PLoadOwn
    | PLoadOther(k: nat)
    | PConstruct
    | PPublish
    | PReturn
    | CCall
    | CLoadOwn
    | CLoadOther(k: nat)
    | CMove(got: T)
    | CDestroy
    | CPublish
    | CReturn

  datatype State<+T> = State(
    cap: nat,
    slots: seq<Slot<T>>,
    w: nat,
    r: nat,
    seenR: nat,
    seenW: nat,
    prod: Producer<T>,
    cons: Consumer<T>,
    accepted: seq<T>,
    delivered: seq<T>)

  function SlotOf(cap: nat, i: nat): nat
    requires cap > 0
  {
    i % cap
  }

  lemma SlotsDiffer(cap: nat, i: nat, j: nat)
    requires i < j < i + cap
    ensures SlotOf(cap, i) != SlotOf(cap, j)
  {
    var q, q' := i / cap, j / cap;
    assert j - i == cap * (q' - q) + (j % cap - i % cap);
    assert q' - q >= 1 ==> cap * (q' - q) >= cap;
    assert q' - q <= 0 ==> cap * (q' - q) <= 0;
  }

  lemma SlotRepeats(cap: nat, i: nat)
    requires cap > 0
    ensures SlotOf(cap, i + cap) == SlotOf(cap, i)
  {
    var q, m := i / cap, i % cap;
    assert cap * (q + 1) == cap * q + cap;
    ModUnique(i + cap, cap, q + 1, m);
  }

  predicate Shape<T>(s: State<T>) {
    s.cap > 0 && |s.slots| == s.cap
  }

  function Init<T>(cap: nat): State<T> {
    State(cap, seq(cap, _ => Dead), 0, 0, 0, 0, PIdle, CIdle, [], [])
  }

  /** What a thread may do next. No action asks whether a slot is dead or live. */
  predicate Enabled<T(==)>(s: State<T>, a: Action<T>)
    requires Shape(s)
  {
    match a
    case PCall(_) => s.prod.PIdle?
    case PLoadOwn => s.prod.PCalled?
    case PLoadOther(k) => s.prod.PLoadedOwn? && s.seenR <= k <= s.r
    case PConstruct => s.prod.PReady?
    case PPublish => s.prod.PConstructed?
    case PReturn => s.prod.PDone?
    case CCall => s.cons.CIdle?
    case CLoadOwn => s.cons.CCalled?
    case CLoadOther(k) => s.cons.CLoadedOwn? && s.seenW <= k <= s.w
    case CMove(got) => s.cons.CReady? &&
      // reading a dead slot could give anything
      (var slot := s.slots[SlotOf(s.cap, s.cons.index)]; slot.Live? ==> got == slot.value)
    case CDestroy => s.cons.CMoved?
    case CPublish => s.cons.CDestroyed?
    case CReturn => s.cons.CDone?
  }

  function Step<T>(s: State<T>, a: Action<T>): State<T>
    requires Shape(s) && Enabled(s, a)
  {
    match a
    case PCall(x) => s.(prod := PCalled(x))
    case PLoadOwn => s.(prod := PLoadedOwn(s.prod.item, s.w))
    case PLoadOther(k) =>
      s.(seenR := k,
         prod := if s.prod.index - k == s.cap then PDone(s.prod.item, false) else PReady(s.prod.item, s.prod.index))
    case PConstruct =>
      s.(slots := s.slots[SlotOf(s.cap, s.prod.index) := Live(s.prod.item)],
         prod := PConstructed(s.prod.item, s.prod.index))
    case PPublish =>
      s.(w := s.prod.index + 1, accepted := s.accepted + [s.prod.item], prod := PDone(s.prod.item, true))
    case PReturn => s.(prod := PIdle)
    case CCall => s.(cons := CCalled)
    case CLoadOwn => s.(cons := CLoadedOwn(s.r))
    case CLoadOther(k) =>
      s.(seenW := k, cons := if s.cons.index == k then CDone(None) else CReady(s.cons.index))
    case CMove(got) => s.(cons := CMoved(s.cons.index, got))
    case CDestroy =>
      s.(slots := s.slots[SlotOf(s.cap, s.cons.index) := Dead], cons := CDestroyed(s.cons.index, s.cons.item))
    case CPublish =>
      s.(r := s.cons.index + 1, delivered := s.delivered + [s.cons.item], cons := CDone(Some(s.cons.item)))
    case CReturn => s.(cons := CIdle)
  }

  // ---------------------------------------------------------------- the invariant

  /** The item that counter `i` of the window `[r, r + cap)` must hold. */
  function Expected<T>(s: State<T>, i: nat): Slot<T>
    requires s.w <= |s.accepted|
  {
    if i < s.w then
      if i == s.r && s.cons.CDestroyed? then Dead else Live(s.accepted[i])
    else if i == s.w && s.prod.PConstructed? then Live(s.prod.item)
    else Dead
  }

  ghost predicate Window<T>(s: State<T>)
    requires Shape(s) && s.w <= |s.accepted|
  {
    forall i :: s.r <= i < s.r + s.cap ==> s.slots[SlotOf(s.cap, i)] == Expected(s, i)
  }

  predicate ProducerOk<T>(s: State<T>) {
    match s.prod
    case PLoadedOwn(_, i) => i == s.w
    case PReady(_, i) => i == s.w < s.seenR + s.cap
    case PConstructed(_, i) => i == s.w < s.seenR + s.cap
    case _ => true
  }

  predicate ConsumerOk<T(==)>(s: State<T>)
    requires s.w <= |s.accepted|
  {
    match s.cons
    case CLoadedOwn(i) => i == s.r
    case CReady(i) => i == s.r < s.seenW <= s.w
    case CMoved(i, x) => i == s.r < s.seenW <= s.w && x == s.accepted[i]
    case CDestroyed(i, x) => i == s.r < s.seenW <= s.w && x == s.accepted[i]
    case _ => true
  }

  ghost predicate Inv<T>(s: State<T>) {
    && Shape(s)
    && s.seenR <= s.r <= s.seenW <= s.w <= s.seenR + s.cap
    && |s.accepted| == s.w
    && s.delivered == s.accepted[..s.r]
    && ProducerOk(s)
    && ConsumerOk(s)
    && Window(s)
  }

  lemma InitInv<T>(cap: nat)
    requires cap > 0
    ensures Inv(Init<T>(cap))
  {
  }

  /** Writing the slot of one counter leaves every other counter of the window alone. */
  lemma WindowAfterWrite<T>(s: State<T>, s': State<T>, j: nat)
    requires Inv(s) && s.r <= j < s.r + s.cap
    requires s'.cap == s.cap && s'.r == s.r && s'.w == s.w == |s'.accepted|
    requires s'.slots == s.slots[SlotOf(s.cap, j) := Expected(s', j)]
    requires forall i :: s.r <= i < s.r + s.cap && i != j ==> Expected(s', i) == Expected(s, i)
    ensures Window(s')
  {
    forall i | s'.r <= i < s'.r + s'.cap
      ensures s'.slots[SlotOf(s'.cap, i)] == Expected(s', i)
    {
      if i < j {
        SlotsDiffer(s.cap, i, j);
      } else if j < i {
        SlotsDiffer(s.cap, j, i);
      }
      assert i != j ==> s.slots[SlotOf(s.cap, i)] == Expected(s, i);
    }
  }

  lemma PublishPopKeepsInv<T>(s: State<T>)
    requires Inv(s) && s.cons.CDestroyed?
    ensures Inv(Step(s, CPublish))
  {
    var s' := Step(s, CPublish);
    forall i | s'.r <= i < s'.r + s'.cap
      ensures s'.slots[SlotOf(s'.cap, i)] == Expected(s', i)
    {
      if i == s.r + s.cap {
        SlotRepeats(s.cap, s.r);
        assert s.slots[SlotOf(s.cap, s.r)] == Expected(s, s.r);
      } else {
        assert s.slots[SlotOf(s.cap, i)] == Expected(s, i);
      }
    }
  }

  lemma PublishPushKeepsInv<T>(s: State<T>)
    requires Inv(s) && s.prod.PConstructed?
    ensures Inv(Step(s, PPublish))
  {
    var s' := Step(s, PPublish);
    forall i | s'.r <= i < s'.r + s'.cap
      ensures s'.slots[SlotOf(s'.cap, i)] == Expected(s', i)
    {
      assert s.slots[SlotOf(s.cap, i)] == Expected(s, i);
    }
  }

  /** Actions that touch neither a slot nor a published index. */
  predicate IsLocal<T>(a: Action<T>) {
    !a.PConstruct? && !a.PPublish? && !a.CDestroy? && !a.CPublish?
  }

  lemma LocalKeepsInv<T>(s: State<T>, a: Action<T>)
    requires Inv(s) && Enabled(s, a) && IsLocal(a)
    ensures Inv(Step(s, a))
  {
    var s' := Step(s, a);
    if a.CMove? {
      assert s.slots[SlotOf(s.cap, s.r)] == Expected(s, s.r);
    }
    forall i | s'.r <= i < s'.r + s'.cap
      ensures s'.slots[SlotOf(s'.cap, i)] == Expected(s', i)
    {
      assert s.slots[SlotOf(s.cap, i)] == Expected(s, i);
    }
  }

  lemma StepKeepsInv<T>(s: State<T>, a: Action<T>)
    requires Inv(s) && Enabled(s, a)
    ensures Inv(Step(s, a))
  {
    match a
    case PConstruct => WindowAfterWrite(s, Step(s, a), s.w);
    case CDestroy => WindowAfterWrite(s, Step(s, a), s.r);
    case PPublish => PublishPushKeepsInv(s);
    case CPublish => PublishPopKeepsInv(s);
    case _ => LocalKeepsInv(s, a);
  }

  // ---------------------------------------------------------------- runs

  /** Every action is enabled where it is taken. */
  ghost predicate ValidRun<T>(s: State<T>, run: seq<Action<T>>)
    decreases |run|
  {
    run == [] || (Shape(s) && Enabled(s, run[0]) && ValidRun(Step(s, run[0]), run[1..]))
  }

  ghost function Run<T>(s: State<T>, run: seq<Action<T>>): State<T>
    requires ValidRun(s, run)
    decreases |run|
  {
    if run == [] then s else Run(Step(s, run[0]), run[1..])
  }

  lemma {:induction false} RunKeepsInv<T>(s: State<T>, run: seq<Action<T>>)
    requires Inv(s) && ValidRun(s, run)
    ensures Inv(Run(s, run))
    decreases |run|
  {
    if run != [] {
      StepKeepsInv(s, run[0]);
      RunKeepsInv(Step(s, run[0]), run[1..]);
    }
  }

  /** What is published but not yet taken. */
  function Queued<T>(s: State<T>): seq<T>
    requires s.r <= s.w <= |s.accepted|
  {
    s.accepted[s.r..s.w]
  }

  /** The producer is at a point where it may write its slot, or has written it unpublished. */
  predicate ProducerTouches<T>(s: State<T>) {
    s.prod.PReady? || s.prod.PConstructed?
  }

  predicate ConsumerTouches<T>(s: State<T>) {
    s.cons.CReady? || s.cons.CMoved?
  }

  /** Ring safety. */
  ghost predicate Safe<T>(s: State<T>) {
    && Shape(s)
    && s.r <= s.w == |s.accepted|
    // bounded and first-in first-out
    && |Queued(s)| <= s.cap
    && s.delivered + Queued(s) == s.accepted
    // a construction meets a dead slot; a move and a destruction meet a live one
    && (s.prod.PReady? ==> s.slots[SlotOf(s.cap, s.prod.index)] == Dead)
    && (ConsumerTouches(s) ==>
          s.r < s.w && s.slots[SlotOf(s.cap, s.cons.index)] == Live(s.accepted[s.r]))
    // the two threads never work on one slot
    && (ProducerTouches(s) && ConsumerTouches(s) ==>
          SlotOf(s.cap, s.prod.index) != SlotOf(s.cap, s.cons.index))
    // a conflicting earlier access was published before the index this thread has read
    && (ProducerTouches(s) ==> s.prod.index < s.seenR + s.cap)
    && (ConsumerTouches(s) ==> s.cons.index < s.seenW)
  }

  lemma InvIsSafe<T>(s: State<T>)
    requires Inv(s)
    ensures Safe(s)
  {
    assert s.prod.PReady? ==> s.slots[SlotOf(s.cap, s.w)] == Expected(s, s.w);
    assert ConsumerTouches(s) ==> s.slots[SlotOf(s.cap, s.r)] == Expected(s, s.r);
    if ProducerTouches(s) && ConsumerTouches(s) {
      SlotsDiffer(s.cap, s.r, s.w);
    }
  }

  /** Ring safety in every state of every interleaving, stale loads included. */
  lemma SafeInEveryRun<T>(cap: nat, run: seq<Action<T>>)
    requires cap > 0 && ValidRun(Init<T>(cap), run)
    ensures Safe(Run(Init<T>(cap), run))
  {
    InitInv<T>(cap);
    RunKeepsInv(Init<T>(cap), run);
    InvIsSafe(Run(Init<T>(cap), run));
  }

  /** With both threads stopped, the destructor's walk over `[r, w)` destroys live slots only,
      each once, and nothing else is live. */
  lemma DestructorIsExact<T>(s: State<T>, slot: nat)
    requires Inv(s) && s.prod.PIdle? && s.cons.CIdle? && slot < s.cap
    ensures s.slots[slot].Live? <==> exists i :: s.r <= i < s.w && SlotOf(s.cap, i) == slot
    ensures forall i, j :: s.r <= i < j < s.w ==> SlotOf(s.cap, i) != SlotOf(s.cap, j)
  {
    var i := InLap(s.r, s.cap, slot);
    assert SlotOf(s.cap, i) == slot && s.slots[SlotOf(s.cap, i)] == Expected(s, i);
    forall i, j | s.r <= i < j < s.w
      ensures SlotOf(s.cap, i) != SlotOf(s.cap, j)
    {
      SlotsDiffer(s.cap, i, j);
    }
    forall j | s.r <= j < s.w && SlotOf(s.cap, j) == slot
      ensures i < s.w
    {
      if j < i {
        SlotsDiffer(s.cap, j, i);
        assert false;
      }
    }
  }
}
