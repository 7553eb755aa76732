/** What the callers of the ring see: calls, effects and returns, and the bounded FIFO queue they are
    compared to. */
module RingHistory {
  import opened Machine
  import opened RingProtocol

  /** What a step shows of a call: its invocation, the point where it takes effect, its return. */
  datatype Obs<+T> =
    | Internal
    | PushCall(item: T)
    | PushEffect(item: T, ok: bool)
    | PushReturn(ok: bool)
    | PopCall
    | PopEffect(result: Option<T>)
    | PopReturn(result: Option<T>)

  /** A successful call takes effect at its index store, a failed one at its load of the other index. */
  function Observe<T>(s: State<T>, a: Action<T>): Obs<T>
    requires Shape(s) && Enabled(s, a)
  {
    match a
    case PCall(x) => PushCall(x)
    case PLoadOther(k) => if s.prod.index - k == s.cap then PushEffect(s.prod.item, false) else Internal
    case PPublish => PushEffect(s.prod.item, true)
    case PReturn => PushReturn(s.prod.ok)
    case CCall => PopCall
    case CLoadOther(k) => if s.cons.index == k then PopEffect(None) else Internal
    case CPublish => PopEffect(Some(s.cons.item))
    case CReturn => PopReturn(s.cons.result)
    case _ => Internal
  }

  ghost function History<T>(s: State<T>, run: seq<Action<T>>): seq<Obs<T>>
    requires ValidRun(s, run)
    decreases |run|
  {
    if run == [] then [] else [Observe(s, run[0])] + History(Step(s, run[0]), run[1..])
  }

  /** The sequential specification: a queue of at most `cap` items, given the effects only. */
  function Fifo<T(==)>(cap: nat, q: seq<T>, o: Obs<T>): Option<seq<T>> {
    match o
    case PushEffect(x, true) => if |q| < cap then Some(q + [x]) else None
    case PushEffect(_, false) => if |q| == cap then Some(q) else None
    case PopEffect(Some(x)) => if q != [] && q[0] == x then Some(q[1..]) else None
    case PopEffect(None) => if q == [] then Some(q) else None
    case _ => Some(q)
  }

  function FifoReplay<T(==)>(cap: nat, q: seq<T>, h: seq<Obs<T>>): Option<seq<T>>
    decreases |h|
  {
    if h == [] then Some(q)
    else match Fifo(cap, q, h[0])
      case None => None
      case Some(q') => FifoReplay(cap, q', h[1..])
  }

  /** Where one thread's current call stands: no call, called, or decided but not yet returned. */
  datatype Phase<+C, +R> = Between | Called(arg: C) | Decided(outcome: R)

  /** Exactly one effect between a call and its return, with the call's item and the returned result. */
  function PushPhase<T(==)>(p: Phase<T, bool>, o: Obs<T>): Option<Phase<T, bool>> {
    match o
    case PushCall(x) => if p.Between? then Some(Called(x)) else None
    case PushEffect(x, ok) => if p == Called(x) then Some(Decided(ok)) else None
    case PushReturn(ok) => if p == Decided(ok) then Some(Between) else None
    case _ => Some(p)
  }

  function PopPhase<T(==)>(p: Phase<(), Option<T>>, o: Obs<T>): Option<Phase<(), Option<T>>> {
    match o
    case PopCall => if p.Between? then Some(Called(())) else None
    case PopEffect(x) => if p == Called(()) then Some(Decided(x)) else None
    case PopReturn(x) => if p == Decided(x) then Some(Between) else None
    case _ => Some(p)
  }

  function PushWord<T(==)>(p: Phase<T, bool>, h: seq<Obs<T>>): Option<Phase<T, bool>>
    decreases |h|
  {
    if h == [] then Some(p)
    else match PushPhase(p, h[0])
      case None => None
      case Some(p') => PushWord(p', h[1..])
  }

  function PopWord<T(==)>(p: Phase<(), Option<T>>, h: seq<Obs<T>>): Option<Phase<(), Option<T>>>
    decreases |h|
  {
    if h == [] then Some(p)
    else match PopPhase(p, h[0])
      case None => None
      case Some(p') => PopWord(p', h[1..])
  }

  function PhaseOfPush<T>(p: Producer<T>): Phase<T, bool> {
    match p
    case PIdle => Between
    case PCalled(x) => Called(x)
    case PLoadedOwn(x, _) => Called(x)
    case PReady(x, _) => Called(x)
    case PConstructed(x, _) => Called(x)
    case PDone(_, ok) => Decided(ok)
  }

  function PhaseOfPop<T>(c: Consumer<T>): Phase<(), Option<T>> {
    match c
    case CIdle => Between
    case CDone(result) => Decided(result)
    case _ => Called(())
  }

  /** A call that fails has loaded the newest value of the other thread's index. */
  predicate HonestFailure<T>(s: State<T>, a: Action<T>)
    requires Shape(s) && Enabled(s, a)
  {
    && (a.PLoadOther? && s.prod.index - a.k == s.cap ==> a.k == s.r)
    && (a.CLoadOther? && s.cons.index == a.k ==> a.k == s.w)
  }

  ghost predicate HonestFailures<T>(s: State<T>, run: seq<Action<T>>)
    requires ValidRun(s, run)
    decreases |run|
  {
    run == [] || (HonestFailure(s, run[0]) && HonestFailures(Step(s, run[0]), run[1..]))
  }

  /** A step is a legal step of the bounded FIFO, and leads to the new queue, exactly when it is not
      a failure decided by a stale load. */
  lemma StepIsFifo<T>(s: State<T>, a: Action<T>)
    requires Inv(s) && Enabled(s, a)
    ensures Inv(Step(s, a))
    ensures Fifo(s.cap, Queued(s), Observe(s, a)) ==
              if HonestFailure(s, a) then Some(Queued(Step(s, a))) else None
  {
    var s' := Step(s, a);
    StepKeepsInv(s, a);
    match a
    case PPublish =>
      assert Queued(s') == Queued(s) + [s.prod.item];
    case CPublish =>
      assert Queued(s)[0] == s.accepted[s.r] == s.cons.item;
      assert Queued(s') == Queued(s)[1..];
    case _ =>
  }

  lemma StepIsPhased<T>(s: State<T>, a: Action<T>)
    requires Shape(s) && Enabled(s, a)
    ensures PushPhase(PhaseOfPush(s.prod), Observe(s, a)) == Some(PhaseOfPush(Step(s, a).prod))
    ensures PopPhase(PhaseOfPop(s.cons), Observe(s, a)) == Some(PhaseOfPop(Step(s, a).cons))
  {
  }

  /** Stale loads or not, every call has one effect, between its call and its return, and returns
      what that effect decided. */
  lemma {:induction false} CallsAreWellPhased<T>(s: State<T>, run: seq<Action<T>>)
    requires ValidRun(s, run)
    ensures PushWord(PhaseOfPush(s.prod), History(s, run)) == Some(PhaseOfPush(Run(s, run).prod))
    ensures PopWord(PhaseOfPop(s.cons), History(s, run)) == Some(PhaseOfPop(Run(s, run).cons))
    decreases |run|
  {
    if run != [] {
      StepIsPhased(s, run[0]);
      CallsAreWellPhased(Step(s, run[0]), run[1..]);
      assert History(s, run)[1..] == History(Step(s, run[0]), run[1..]);
    }
  }

  /** The effects, in the order they happen, are a run of the bounded FIFO from what was queued
      before to what is queued after, exactly when no failure was decided by a stale load. */
  lemma {:induction false} EffectsReplay<T>(s: State<T>, run: seq<Action<T>>)
    requires Inv(s) && ValidRun(s, run)
    ensures Inv(Run(s, run))
    ensures FifoReplay(s.cap, Queued(s), History(s, run)) ==
              if HonestFailures(s, run) then Some(Queued(Run(s, run))) else None
    decreases |run|
  {
    if run != [] {
      StepIsFifo(s, run[0]);
      EffectsReplay(Step(s, run[0]), run[1..]);
      assert History(s, run)[1..] == History(Step(s, run[0]), run[1..]);
    }
  }

  /** From the empty ring, the effects at the points named by `Observe` are a run of the bounded FIFO if
      and only if every failed call loaded a current index. */
  lemma EffectPointsReplay<T>(cap: nat, run: seq<Action<T>>)
    requires cap > 0 && ValidRun(Init<T>(cap), run)
    ensures Inv(Run(Init<T>(cap), run))
    ensures
      var s, h := Run(Init<T>(cap), run), History(Init<T>(cap), run);
      && (FifoReplay(cap, [], h).Some? <==> HonestFailures(Init<T>(cap), run))
      && (FifoReplay(cap, [], h).Some? ==> FifoReplay(cap, [], h).value == Queued(s))
      && PushWord(Between, h) == Some(PhaseOfPush(s.prod))
      && PopWord(Between, h) == Some(PhaseOfPop(s.cons))
  {
    InitInv<T>(cap);
    assert Queued(Init<T>(cap)) == [];
    EffectsReplay(Init<T>(cap), run);
    CallsAreWellPhased(Init<T>(cap), run);
  }

  // ---------------------------------------------------------------- what becomes of what is pushed

  /** The items pushed, in order. */
  function Offered<T>(h: seq<Obs<T>>): seq<T>
    decreases |h|
  {
    if h == [] then [] else if h[0].PushCall? then [h[0].item] + Offered(h[1..]) else Offered(h[1..])
  }

  /** Whether each of them was taken. */
  function Outcomes<T>(h: seq<Obs<T>>): seq<bool>
    decreases |h|
  {
    if h == [] then [] else if h[0].PushEffect? then [h[0].ok] + Outcomes(h[1..]) else Outcomes(h[1..])
  }

  /** The items that were taken; the last may be undecided. */
  function Kept<T>(items: seq<T>, outcomes: seq<bool>): seq<T>
    requires |outcomes| <= |items|
    decreases |outcomes|
  {
    if outcomes == [] then []
    else (if outcomes[0] then [items[0]] else []) + Kept(items[1..], outcomes[1..])
  }

  function Undecided<T>(p: Phase<T, bool>): seq<T> {
    if p.Called? then [p.arg] else []
  }

  /** The items whose push succeeded. */
  function Taken<T>(h: seq<Obs<T>>): seq<T>
    decreases |h|
  {
    if h == [] then []
    else (if h[0].PushEffect? && h[0].ok then [h[0].item] else []) + Taken(h[1..])
  }

  lemma {:induction false} TakenIsKept<T>(p: Phase<T, bool>, h: seq<Obs<T>>)
    requires PushWord(p, h).Some?
    ensures
      var pushed := Undecided(p) + Offered(h);
      && |Outcomes(h)| == |pushed| - |Undecided(PushWord(p, h).value)|
      && Taken(h) == Kept(pushed, Outcomes(h))
    decreases |h|
  {
    if h != [] {
      var p', t := PushPhase(p, h[0]).value, h[1..];
      TakenIsKept(p', t);
      if h[0].PushEffect? {
        assert (Undecided(p) + Offered(h))[1..] == Undecided(p') + Offered(t);
        assert Outcomes(h)[1..] == Outcomes(t);
      } else {
        assert Undecided(p) + Offered(h) == Undecided(p') + Offered(t);
        assert [] + Taken(t) == Taken(t);
      }
    }
  }

  lemma AcceptedAfter<T>(s: State<T>, a: Action<T>)
    requires Shape(s) && Enabled(s, a)
    ensures
      var o := Observe(s, a);
      Step(s, a).accepted == s.accepted + if o.PushEffect? && o.ok then [o.item] else []
  {
  }

  lemma {:induction false} AcceptedIsTaken<T>(s: State<T>, run: seq<Action<T>>)
    requires ValidRun(s, run)
    ensures Run(s, run).accepted == s.accepted + Taken(History(s, run))
    decreases |run|
  {
    hide RingProtocol.Step, RingProtocol.Enabled, Observe;
    if run != [] {
      AcceptedAfter(s, run[0]);
      AcceptedIsTaken(Step(s, run[0]), run[1..]);
      assert History(s, run)[1..] == History(Step(s, run[0]), run[1..]);
    }
  }

  /** What is accepted is, in order, what was pushed and not refused. */
  lemma AcceptedIsKept<T>(s: State<T>, run: seq<Action<T>>)
    requires ValidRun(s, run)
    ensures
      var h := History(s, run);
      var pushed := Undecided(PhaseOfPush(s.prod)) + Offered(h);
      && |Outcomes(h)| == |pushed| - |Undecided(PhaseOfPush(Run(s, run).prod))|
      && Run(s, run).accepted == s.accepted + Kept(pushed, Outcomes(h))
  {
    CallsAreWellPhased(s, run);
    TakenIsKept(PhaseOfPush(s.prod), History(s, run));
    AcceptedIsTaken(s, run);
  }

  lemma {:induction false} RunExtends<T>(s: State<T>, run: seq<Action<T>>, a: Action<T>)
    requires ValidRun(s, run) && Shape(Run(s, run)) && Enabled(Run(s, run), a)
    ensures ValidRun(s, run + [a]) && Run(s, run + [a]) == Step(Run(s, run), a)
    decreases |run|
  {
    if run == [] {
      assert run + [a] == [a] && [a][1..] == [];
    } else {
      assert (run + [a])[1..] == run[1..] + [a];
      RunExtends(Step(s, run[0]), run[1..], a);
    }
  }

  /** A completed push from an idle producer that reads the current index of a ring with room. */
  lemma PushOne<T>(s: State<T>, run: seq<Action<T>>, x: T) returns (run': seq<Action<T>>)
    requires ValidRun(s, run) && Inv(Run(s, run))
    requires Run(s, run).prod.PIdle? && Run(s, run).w < Run(s, run).r + Run(s, run).cap
    ensures
      var t := Run(s, run);
      && ValidRun(s, run') && Inv(Run(s, run'))
      && Run(s, run') == t.(slots := t.slots[SlotOf(t.cap, t.w) := Live(x)], w := t.w + 1,
                            seenR := t.r, accepted := t.accepted + [x])
  {
    var t := Run(s, run);
    run' := run;
    StepKeepsInv(Run(s, run'), PCall(x));
    RunExtends(s, run', PCall(x));
    run' := run' + [PCall(x)];
    StepKeepsInv(Run(s, run'), PLoadOwn);
    RunExtends(s, run', PLoadOwn);
    run' := run' + [PLoadOwn];
    StepKeepsInv(Run(s, run'), PLoadOther(t.r));
    RunExtends(s, run', PLoadOther(t.r));
    run' := run' + [PLoadOther(t.r)];
    StepKeepsInv(Run(s, run'), PConstruct);
    RunExtends(s, run', PConstruct);
    run' := run' + [PConstruct];
    StepKeepsInv(Run(s, run'), PPublish);
    RunExtends(s, run', PPublish);
    run' := run' + [PPublish];
    StepKeepsInv(Run(s, run'), PReturn);
    RunExtends(s, run', PReturn);
    run' := run' + [PReturn];
  }

  /** A completed pop from an idle consumer of a ring that holds an item. */
  lemma PopOne<T>(s: State<T>, run: seq<Action<T>>) returns (run': seq<Action<T>>)
    requires ValidRun(s, run) && Inv(Run(s, run))
    requires Run(s, run).cons.CIdle? && Run(s, run).r < Run(s, run).w
    ensures
      var t := Run(s, run);
      && ValidRun(s, run') && Inv(Run(s, run'))
      && Run(s, run') == t.(slots := t.slots[SlotOf(t.cap, t.r) := Dead], r := t.r + 1,
                            seenW := t.w, delivered := t.delivered + [t.accepted[t.r]])
  {
    var t := Run(s, run);
    var x := t.accepted[t.r];
    run' := run;
    StepKeepsInv(Run(s, run'), CCall);
    RunExtends(s, run', CCall);
    run' := run' + [CCall];
    StepKeepsInv(Run(s, run'), CLoadOwn);
    RunExtends(s, run', CLoadOwn);
    run' := run' + [CLoadOwn];
    StepKeepsInv(Run(s, run'), CLoadOther(t.w));
    RunExtends(s, run', CLoadOther(t.w));
    run' := run' + [CLoadOther(t.w)];
    assert t.slots[SlotOf(t.cap, t.r)] == Expected(t, t.r);
    StepKeepsInv(Run(s, run'), CMove(x));
    RunExtends(s, run', CMove(x));
    run' := run' + [CMove(x)];
    StepKeepsInv(Run(s, run'), CDestroy);
    RunExtends(s, run', CDestroy);
    run' := run' + [CDestroy];
    StepKeepsInv(Run(s, run'), CPublish);
    RunExtends(s, run', CPublish);
    run' := run' + [CPublish];
    StepKeepsInv(Run(s, run'), CReturn);
    RunExtends(s, run', CReturn);
    run' := run' + [CReturn];
  }
}
