/** Linearizability of the ring as compiled, told of its own steps: what a load reads is a store of its
    modification order, and what a call decides is decided on wrapped indices. */
module WrappedHistory {
  import opened Machine
  import opened RingProtocol
  import Ring = RingWrapped
  import opened H = RingHistory
  import Lin = Linearizability

  function Observe<T>(m: Ring.Memory<T>, a: Action<T>): Obs<T>
    requires Ring.Formed(m) && Ring.Enabled(m, a)
  {
    match a
    case PCall(x) => PushCall(x)
    case PLoadOther(k) =>
      if SubWrap(m.prod.index, m.readStores[k]) == m.size then PushEffect(m.prod.item, false) else Internal
    case PPublish => PushEffect(m.prod.item, true)
    case PReturn => PushReturn(m.prod.ok)
    case CCall => PopCall
    case CLoadOther(k) => if m.cons.index == m.writeStores[k] then PopEffect(None) else Internal
    case CPublish => PopEffect(Some(m.cons.item))
    case CReturn => PopReturn(m.cons.result)
    case _ => Internal
  }

  ghost function History<T>(m: Ring.Memory<T>, run: seq<Action<T>>): seq<Obs<T>>
    requires Ring.ValidRun(m, run)
    decreases |run|
  {
    if run == [] then [] else [Observe(m, run[0])] + History(Ring.Step(m, run[0]), run[1..])
  }

  /** A call that fails has read a store at least as new as the bound for its thread's loads. */
  predicate FailsOn<T>(m: Ring.Memory<T>, a: Action<T>, read: nat, write: nat)
    requires Ring.Formed(m) && Ring.Enabled(m, a)
  {
    && (a.PLoadOther? && SubWrap(m.prod.index, m.readStores[a.k]) == m.size ==> a.k >= read)
    && (a.CLoadOther? && m.cons.index == m.writeStores[a.k] ==> a.k >= write)
  }

  /** Every call that fails has read the newest store. */
  ghost predicate HonestFailures<T>(m: Ring.Memory<T>, run: seq<Action<T>>)
    requires Ring.ValidRun(m, run)
    decreases |run|
  {
    run == [] ||
    (FailsOn(m, run[0], |m.readStores| - 1, |m.writeStores| - 1) && HonestFailures(Ring.Step(m, run[0]), run[1..]))
  }

  /** Every call that fails has read a store that was the newest at some moment since the call; `read`
      and `write` are the newest stores when the pending push and pop were called. */
  ghost predicate FreshFailures<T>(m: Ring.Memory<T>, run: seq<Action<T>>, read: nat, write: nat)
    requires Ring.ValidRun(m, run)
    decreases |run|
  {
    run == [] ||
    (FailsOn(m, run[0], read, write)
     && FreshFailures(Ring.Step(m, run[0]), run[1..],
                      if run[0].PCall? then |m.readStores| - 1 else read,
                      if run[0].CCall? then |m.writeStores| - 1 else write))
  }

  lemma ObserveRefines<T>(m: Ring.Memory<T>, a: Action<T>, read: nat, write: nat)
    requires Ring.Inv(m) && Ring.Formed(m) && Ring.Enabled(m, a)
    ensures RingProtocol.Enabled(Ring.Unwrap(m), a)
    ensures Observe(m, a) == H.Observe(Ring.Unwrap(m), a)
    ensures
      var s := Ring.Unwrap(m);
      FailsOn(m, a, read, write) <==>
        && (a.PLoadOther? && s.prod.index - a.k == s.cap ==> a.k >= read)
        && (a.CLoadOther? && s.cons.index == a.k ==> a.k >= write)
  {
    Ring.StepRefines(m, a);
    if a.PLoadOther? {
      Ring.FullTestIsExact(m, a.k);
    }
    if a.CLoadOther? {
      Ring.EmptyTestIsExact(m, a.k);
    }
    hide Ring.Inv, Ring.Formed, SubWrap;
  }

  lemma StoresCount<T>(m: Ring.Memory<T>)
    requires m.writeStores != [] && m.readStores != []
    ensures Ring.Unwrap(m).w == |m.writeStores| - 1 && Ring.Unwrap(m).r == |m.readStores| - 1
  {
  }

  /** The wrapped ring shows its callers what the unwrapped one shows them, and its failures read as new
      a store. */
  lemma {:induction false} HistoryRefines<T>(m: Ring.Memory<T>, run: seq<Action<T>>, read: nat, write: nat)
    requires Ring.Inv(m) && Ring.ValidRun(m, run)
    ensures RingProtocol.ValidRun(Ring.Unwrap(m), run)
    ensures History(m, run) == H.History(Ring.Unwrap(m), run)
    ensures HonestFailures(m, run) <==> H.HonestFailures(Ring.Unwrap(m), run)
    ensures FreshFailures(m, run, read, write) <==> Lin.FreshFailures(Ring.Unwrap(m), run, read, write)
    decreases |run|
  {
    if run != [] {
      var a := run[0];
      Ring.StepRefines(m, a);
      ObserveRefines(m, a, read, write);
      ObserveRefines(m, a, |m.readStores| - 1, |m.writeStores| - 1);
      StoresCount(m);
      hide Ring.Unwrap, Ring.Inv, Ring.Formed, Ring.Enabled, Ring.Step, RingProtocol.Enabled, RingProtocol.Step;
      hide FailsOn, Observe, H.Observe;
      HistoryRefines(Ring.Step(m, a), run[1..],
                     if a.PCall? then |m.readStores| - 1 else read, if a.CCall? then |m.writeStores| - 1 else write);
    }
  }

  /** The effects at the points named by `Observe` are a run of the bounded FIFO if and only if every
      failed call read the newest store; they then lead to what is queued. */
  lemma EffectPointsReplay<T>(size: size_t, run: seq<Action<T>>)
    requires RingSize(size) && Ring.ValidRun(Ring.Init<T>(size), run)
    ensures
      var m, h := Ring.Run(Ring.Init<T>(size), run), History(Ring.Init<T>(size), run);
      && (FifoReplay(size, [], h).Some? <==> HonestFailures(Ring.Init<T>(size), run))
      && (FifoReplay(size, [], h).Some? ==> m.delivered + FifoReplay(size, [], h).value == m.accepted)
      && PushWord(Between, h) == Some(PhaseOfPush(m.prod))
      && PopWord(Between, h) == Some(PhaseOfPop(m.cons))
  {
    var m := Ring.Init<T>(size);
    Ring.InitInv<T>(size);
    HistoryRefines(m, run, 0, 0);
    Ring.RunRefines(m, run);
    H.EffectPointsReplay<T>(size, run);
    RingProtocol.InvIsSafe(Ring.Unwrap(Ring.Run(m, run)));
  }

  /** Which runs of the compiled ring are linearizable, exactly. */
  lemma LinearizableExactly<T(!new)>(size: size_t, run: seq<Action<T>>)
    requires RingSize(size) && Ring.ValidRun(Ring.Init<T>(size), run)
    ensures
      var calls := Lin.Calls(History(Ring.Init<T>(size), run));
      Lin.Linearizable(size, calls) <==> Lin.Justified(size, 0, 0, calls)
  {
    Ring.InitInv<T>(size);
    HistoryRefines(Ring.Init<T>(size), run, 0, 0);
    Lin.LinearizableExactly<T>(size, run);
  }

  /** It is enough that every call that fails reads a store that was the newest at some moment since
      the call. */
  lemma FreshIsLinearizable<T(!new)>(size: size_t, run: seq<Action<T>>)
    requires RingSize(size) && Ring.ValidRun(Ring.Init<T>(size), run)
    requires FreshFailures(Ring.Init<T>(size), run, 0, 0)
    ensures Lin.Linearizable(size, Lin.Calls(History(Ring.Init<T>(size), run)))
  {
    Ring.InitInv<T>(size);
    HistoryRefines(Ring.Init<T>(size), run, 0, 0);
    Lin.FreshIsLinearizable<T>(size, run);
  }

  /** What the compiled ring accepts from the start is, in order, what was pushed and not refused. */
  lemma AcceptedIsKept<T>(size: size_t, run: seq<Action<T>>)
    requires RingSize(size) && Ring.ValidRun(Ring.Init<T>(size), run)
    ensures
      var m, h := Ring.Run(Ring.Init<T>(size), run), History(Ring.Init<T>(size), run);
      && |Outcomes(h)| == |Offered(h)| - |Undecided(PhaseOfPush(m.prod))|
      && m.accepted == Kept(Offered(h), Outcomes(h))
  {
    var m := Ring.Init<T>(size);
    Ring.InitInv<T>(size);
    HistoryRefines(m, run, 0, 0);
    Ring.RunRefines(m, run);
    H.AcceptedIsKept(Ring.Unwrap(m), run);
    assert Undecided(PhaseOfPush(Ring.Unwrap(m).prod)) + Offered(History(m, run)) == Offered(History(m, run));
    SamePhase(Ring.Run(m, run));
  }

  lemma SamePhase<T>(m: Ring.Memory<T>)
    requires m.writeStores != [] && m.readStores != []
    ensures PhaseOfPush(Ring.Unwrap(m).prod) == PhaseOfPush(m.prod)
  {
  }
}
