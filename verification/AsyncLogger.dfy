/** Shutdown of the logger. Its worker polls the event ring while a flag is set, then drains it; the
    destructor clears the flag after the producer has stopped, and waits for the worker. */
module AsyncLogger {
  import opened Machine
  import opened RingProtocol
  import opened RingHistory
  import Ring = RingWrapped
  import Wrapped = WrappedHistory

  /** About to read the flag, inside the polling loop's `pop`, inside the draining loop, returned. */
  datatype Worker = AtFlag | Polling | Draining | Exited

  datatype Logger<+T> = Logger(
    ring: Ring.Memory<T>,
    worker: Worker,
    cleared: bool,      // the destructor's store to the flag has happened
    fileOpen: bool,     // whether the worker could open its file
    rows: seq<T>)

  /** The worker's read of the flag may miss the store, but not invent it. */
  datatype Move<+T> = RingMove(action: Action<T>) | Clear | ReadFlag(running: bool)

  function Init<T>(size: size_t, fileOpen: bool): Logger<T> {
    Logger(Ring.Init(size), AtFlag, false, fileOpen, [])
  }

  predicate IsProducer<T>(a: Action<T>) {
    a.PCall? || a.PLoadOwn? || a.PLoadOther? || a.PConstruct? || a.PPublish? || a.PReturn?
  }

  predicate Enabled<T(==)>(s: Logger<T>, m: Move<T>)
    requires Ring.Formed(s.ring)
  {
    match m
    case RingMove(a) =>
      && Ring.Enabled(s.ring, a)
      && (if IsProducer(a) then !s.cleared else s.worker.Polling? || s.worker.Draining?)
    case Clear => !s.cleared && s.ring.prod.PIdle?
    case ReadFlag(running) => s.worker.AtFlag? && (!running ==> s.cleared)
  }

  /** After a `pop`: a row for an item; an empty ring ends the drain. */
  function AfterPop<T>(s: Logger<T>, result: Option<T>): Logger<T> {
    match result
    case Some(x) =>
      s.(rows := if s.fileOpen then s.rows + [x] else s.rows, worker := if s.worker.Polling? then AtFlag else s.worker)
    case None =>
      s.(worker := if s.worker.Polling? then AtFlag else Exited)
  }

  function Step<T>(s: Logger<T>, m: Move<T>): Logger<T>
    requires Ring.Formed(s.ring) && Enabled(s, m)
  {
    match m
    case RingMove(a) =>
      var s' := s.(ring := Ring.Step(s.ring, a));
      if a.CReturn? then AfterPop(s', s.ring.cons.result) else s'
    case Clear => s.(cleared := true)
    case ReadFlag(true) => s.(worker := Polling)
    case ReadFlag(false) =>
      // the cleared flag was released after every push: the worker now sees the last write index
      s.(worker := Draining, ring := s.ring.(seenWrite := |s.ring.writeStores| - 1))
  }

  ghost predicate ValidRun<T>(s: Logger<T>, run: seq<Move<T>>)
    decreases |run|
  {
    run == [] || (Ring.Formed(s.ring) && Enabled(s, run[0]) && ValidRun(Step(s, run[0]), run[1..]))
  }

  ghost function Run<T>(s: Logger<T>, run: seq<Move<T>>): Logger<T>
    requires ValidRun(s, run)
    decreases |run|
  {
    if run == [] then s else Run(Step(s, run[0]), run[1..])
  }

  /** Items taken from the ring whose row is not written yet. */
  function InHand<T>(s: Logger<T>): seq<T> {
    if s.ring.cons.CDone? && s.ring.cons.result.Some? then [s.ring.cons.result.value] else []
  }

  ghost predicate Inv<T>(s: Logger<T>) {
    && Ring.Inv(s.ring)
    && (s.fileOpen ==> s.rows + InHand(s) == s.ring.delivered)
    && (!s.fileOpen ==> s.rows == [])
    && (s.worker.AtFlag? || s.worker.Exited? ==> s.ring.cons.CIdle?)
    && (s.cleared ==> s.ring.prod.PIdle?)
    && (s.worker.Draining? || s.worker.Exited? ==>
          s.cleared && s.ring.seenWrite == |s.ring.writeStores| - 1)
    && (s.worker.Draining? && s.ring.cons == CDone(None) ==> |s.ring.delivered| == |s.ring.accepted|)
    && (s.worker.Exited? ==> |s.ring.delivered| == |s.ring.accepted|)
  }

  lemma InitInv<T>(size: size_t, fileOpen: bool)
    requires RingSize(size)
    ensures Inv(Init<T>(size, fileOpen))
  {
    Ring.InitInv<T>(size);
  }

  lemma CountsOfRing<T>(m: Ring.Memory<T>)
    requires Ring.Inv(m)
    ensures |m.accepted| == |m.writeStores| - 1 && |m.delivered| == |m.readStores| - 1
    ensures m.delivered <= m.accepted
  {
  }

  lemma ProducerMoveKeepsInv<T>(s: Logger<T>, a: Action<T>)
    requires Inv(s) && Ring.Formed(s.ring) && Enabled(s, RingMove(a)) && IsProducer(a)
    ensures Inv(Step(s, RingMove(a)))
  {
    Ring.StepRefines(s.ring, a);
    hide Ring.Inv, Ring.Formed;
  }

  lemma ReturnKeepsInv<T>(s: Logger<T>)
    requires Inv(s) && Ring.Formed(s.ring) && Enabled(s, RingMove(CReturn)) && Ring.Inv(Ring.Step(s.ring, CReturn))
    ensures Inv(Step(s, RingMove(CReturn)))
  {
    hide Ring.Inv, Ring.Formed;
  }

  lemma LoadKeepsInv<T>(s: Logger<T>, k: nat)
    requires Inv(s) && Ring.Formed(s.ring) && Enabled(s, RingMove(CLoadOther(k)))
    requires Ring.Inv(Ring.Step(s.ring, CLoadOther(k)))
    ensures Inv(Step(s, RingMove(CLoadOther(k))))
  {
    CountsOfRing(s.ring);
    Ring.EmptyTestIsExact(s.ring, k);
    hide Ring.Inv, Ring.Formed;
  }

  lemma OtherMoveKeepsInv<T>(s: Logger<T>, a: Action<T>)
    requires Inv(s) && Ring.Formed(s.ring) && Enabled(s, RingMove(a)) && Ring.Inv(Ring.Step(s.ring, a))
    requires a.CCall? || a.CLoadOwn? || a.CMove? || a.CDestroy? || a.CPublish?
    ensures Inv(Step(s, RingMove(a)))
  {
    hide Ring.Inv, Ring.Formed, Ring.Mask, AddWrap;
  }

  lemma ConsumerMoveKeepsInv<T>(s: Logger<T>, a: Action<T>)
    requires Inv(s) && Ring.Formed(s.ring) && Enabled(s, RingMove(a)) && !IsProducer(a)
    ensures Inv(Step(s, RingMove(a)))
  {
    Ring.StepRefines(s.ring, a);
    hide Ring.Inv, Ring.Formed, Ring.Step, Step;
    match a
    case CReturn => ReturnKeepsInv(s);
    case CLoadOther(k) => LoadKeepsInv(s, k);
    case _ => OtherMoveKeepsInv(s, a);
  }

  lemma ReadFlagKeepsInv<T>(s: Logger<T>, running: bool)
    requires Inv(s) && Ring.Formed(s.ring) && Enabled(s, ReadFlag(running))
    ensures Inv(Step(s, ReadFlag(running)))
  {
    if !running {
      var u, u' := Ring.Unwrap(s.ring), Ring.Unwrap(Step(s, ReadFlag(running)).ring);
      assert u' == u.(seenW := u.w);
      forall i | u'.r <= i < u'.r + u'.cap
        ensures u'.slots[SlotOf(u'.cap, i)] == Expected(u', i)
      {
        assert u.slots[SlotOf(u.cap, i)] == Expected(u, i);
      }
      assert RingProtocol.Inv(u');
    }
  }

  lemma StepKeepsInv<T>(s: Logger<T>, m: Move<T>)
    requires Inv(s) && Ring.Formed(s.ring) && Enabled(s, m)
    ensures Inv(Step(s, m))
  {
    match m
    case RingMove(a) =>
      if IsProducer(a) {
        ProducerMoveKeepsInv(s, a);
      } else {
        ConsumerMoveKeepsInv(s, a);
      }
    case Clear =>
    case ReadFlag(running) => ReadFlagKeepsInv(s, running);
  }

  lemma {:induction false} RunKeepsInv<T>(s: Logger<T>, run: seq<Move<T>>)
    requires Inv(s) && ValidRun(s, run)
    ensures Inv(Run(s, run))
    decreases |run|
  {
    if run != [] {
      StepKeepsInv(s, run[0]);
      RunKeepsInv(Step(s, run[0]), run[1..]);
    }
  }

  /** Shutdown loses nothing: in every interleaving, when the worker has returned, the ring is empty
      and, if the file could be opened, the rows are exactly the accepted events, once each, in the
      order pushed. */
  lemma ShutdownLosesNothing<T>(size: size_t, fileOpen: bool, run: seq<Move<T>>)
    requires RingSize(size) && ValidRun(Init<T>(size, fileOpen), run)
    requires Run(Init<T>(size, fileOpen), run).worker.Exited?
    ensures
      var s := Run(Init<T>(size, fileOpen), run);
      && s.ring.delivered == s.ring.accepted
      && s.ring.readStores != [] && s.ring.writeStores != []
      && Ring.Last(s.ring.readStores) == Ring.Last(s.ring.writeStores)
      && s.rows == if fileOpen then s.ring.accepted else []
  {
    InitInv<T>(size, fileOpen);
    RunKeepsInv(Init<T>(size, fileOpen), run);
    FileNeverChanges(Init<T>(size, fileOpen), run);
    CountsOfRing(Run(Init<T>(size, fileOpen), run).ring);
  }

  lemma {:induction false} FileNeverChanges<T>(s: Logger<T>, run: seq<Move<T>>)
    requires ValidRun(s, run)
    ensures Run(s, run).fileOpen == s.fileOpen
    decreases |run|
  {
    if run != [] {
      FileNeverChanges(Step(s, run[0]), run[1..]);
    }
  }

  // ---------------------------------------------------------------- what becomes of what is logged

  /** What a move shows of the calls to the event ring. */
  function Observe<T>(s: Logger<T>, m: Move<T>): Obs<T>
    requires Ring.Formed(s.ring) && Enabled(s, m)
  {
    if m.RingMove? then Wrapped.Observe(s.ring, m.action) else Internal
  }

  ghost function History<T>(s: Logger<T>, run: seq<Move<T>>): seq<Obs<T>>
    requires ValidRun(s, run)
    decreases |run|
  {
    if run == [] then [] else [Observe(s, run[0])] + History(Step(s, run[0]), run[1..])
  }

  lemma ObserveIsPhased<T>(s: Logger<T>, m: Move<T>)
    requires Ring.Formed(s.ring) && Enabled(s, m)
    ensures
      var o, s' := Observe(s, m), Step(s, m);
      && PushPhase(PhaseOfPush(s.ring.prod), o) == Some(PhaseOfPush(s'.ring.prod))
      && s'.ring.accepted == s.ring.accepted + if o.PushEffect? && o.ok then [o.item] else []
  {
    hide Ring.Mask, SubWrap, AddWrap, Ring.Formed;
  }

  lemma {:induction false} AcceptedIsTaken<T>(s: Logger<T>, run: seq<Move<T>>)
    requires ValidRun(s, run)
    ensures PushWord(PhaseOfPush(s.ring.prod), History(s, run)) == Some(PhaseOfPush(Run(s, run).ring.prod))
    ensures Run(s, run).ring.accepted == s.ring.accepted + Taken(History(s, run))
    decreases |run|
  {
    hide Ring.Formed, Enabled, Step, Observe, PushPhase, PhaseOfPush;
    if run != [] {
      ObserveIsPhased(s, run[0]);
      AcceptedIsTaken(Step(s, run[0]), run[1..]);
      assert History(s, run)[1..] == History(Step(s, run[0]), run[1..]);
    }
  }

  /** The accepted events are those logged and not refused, in order. */
  lemma AcceptedIsKept<T>(size: size_t, fileOpen: bool, run: seq<Move<T>>)
    requires RingSize(size) && ValidRun(Init<T>(size, fileOpen), run)
    ensures
      var s, h := Run(Init<T>(size, fileOpen), run), History(Init<T>(size, fileOpen), run);
      && |Outcomes(h)| == |Offered(h)| - |Undecided(PhaseOfPush(s.ring.prod))|
      && s.ring.accepted == Kept(Offered(h), Outcomes(h))
  {
    var s, h := Init<T>(size, fileOpen), History(Init<T>(size, fileOpen), run);
    AcceptedIsTaken(s, run);
    TakenIsKept(Between, h);
    assert Undecided<T>(Between) + Offered(h) == Offered(h);
  }

  // ---------------------------------------------------------------- termination of the drain

  function Progress<T>(c: Consumer<T>): nat {
    match c
    case CIdle => 6
    case CCalled => 5
    case CLoadedOwn(_) => 4
    case CReady(_) => 3
    case CMoved(_, _) => 2
    case CDestroyed(_, _) => 1
    case CDone(Some(_)) => 7
    case CDone(None) => 0
  }

  /** Items left in the ring first, then the steps left of the current `pop`. */
  function DrainLeft<T>(s: Logger<T>): int {
    if s.worker.Exited? then 0
    else 8 * (|s.ring.accepted| - |s.ring.delivered|) + Progress(s.ring.cons) + 1
  }

  /** Every step of a draining worker brings its return closer, and until it has returned it always
      has a step to take. */
  lemma DrainTerminates<T>(s: Logger<T>, m: Move<T>)
    requires Inv(s) && Ring.Formed(s.ring) && s.worker.Draining?
    ensures Enabled(s, m) ==> 0 <= DrainLeft(Step(s, m)) < DrainLeft(s)
    ensures exists a: Action<T> :: Enabled(s, RingMove(a))
  {
    DrainStep(s);
    CountsOfRing(s.ring);
    if Enabled(s, m) {
      StepKeepsInv(s, m);
      CountsOfRing(Step(s, m).ring);
      DrainMoves(s, m);
    }
  }

  lemma DrainMoves<T>(s: Logger<T>, m: Move<T>)
    requires Inv(s) && Ring.Formed(s.ring) && s.worker.Draining? && Enabled(s, m)
    requires |s.ring.delivered| <= |s.ring.accepted|
    requires |Step(s, m).ring.delivered| <= |Step(s, m).ring.accepted|
    ensures 0 <= DrainLeft(Step(s, m)) < DrainLeft(s)
  {
    hide Ring.Inv, Ring.Formed, Ring.Mask, AddWrap, SubWrap;
  }

  lemma DrainStep<T>(s: Logger<T>)
    requires Inv(s) && Ring.Formed(s.ring) && s.worker.Draining?
    ensures exists a: Action<T> :: Enabled(s, RingMove(a))
  {
    match s.ring.cons
    case CIdle => assert Enabled(s, RingMove(CCall));
    case CCalled => assert Enabled(s, RingMove(CLoadOwn));
    case CLoadedOwn(_) => assert Enabled(s, RingMove(CLoadOther(s.ring.seenWrite)));
    case CReady(i) =>
      Ring.InvIsSafe(s.ring);
      assert Enabled(s, RingMove(CMove(s.ring.buffer[Ring.Mask(s.ring, i)].value)));
    case CMoved(_, _) => assert Enabled(s, RingMove(CDestroy));
    case CDestroyed(_, _) => assert Enabled(s, RingMove(CPublish));
    case CDone(_) => assert Enabled(s, RingMove(CReturn));
  }
}
