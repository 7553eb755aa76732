/** The parser thread and the strategy thread around the tick ring: whatever the interleaving, the
    engine computes the fold of the accepted ticks, and those are the messages' ticks that were kept. */
module Pipeline {
  import opened Machine
  import opened OrderBook
  import opened RingProtocol
  import opened RingHistory
  import Ring = RingWrapped
  import Wrapped = WrappedHistory
  import E = Engine
  import PositionManager
  import opened MarketParser
  import opened ParserLaws

  datatype Threads = Threads(ring: Ring.Memory<MarketTick>, engine: E.State)

  function Init(size: size_t): Threads {
    Threads(Ring.Init(size), E.START)
  }

  predicate Enabled(s: Threads, a: Action<MarketTick>)
    requires Ring.Formed(s.ring)
  {
    Ring.Enabled(s.ring, a)
  }

  /** The strategy thread processes a tick when its `pop` returns it. */
  function Step(sel: E.Selection, s: Threads, a: Action<MarketTick>): Threads
    requires Ring.Formed(s.ring) && Enabled(s, a)
  {
    var engine :=
      if a.CReturn? && s.ring.cons.result.Some? then E.Step(sel, s.engine, s.ring.cons.result.value)
      else s.engine;
    Threads(Ring.Step(s.ring, a), engine)
  }

  ghost predicate ValidRun(sel: E.Selection, s: Threads, run: seq<Action<MarketTick>>)
    decreases |run|
  {
    run == [] || (Ring.Formed(s.ring) && Enabled(s, run[0]) && ValidRun(sel, Step(sel, s, run[0]), run[1..]))
  }

  ghost function Run(sel: E.Selection, s: Threads, run: seq<Action<MarketTick>>): Threads
    requires ValidRun(sel, s, run)
    decreases |run|
  {
    if run == [] then s else Run(sel, Step(sel, s, run[0]), run[1..])
  }

  predicate Returning(s: Threads) {
    s.ring.cons.CDone? && s.ring.cons.result.Some?
  }

  /** Completed pops: a tick taken but not yet returned is not processed. */
  function Processed(s: Threads): int {
    |s.ring.delivered| - if Returning(s) then 1 else 0
  }

  ghost predicate Inv(sel: E.Selection, s: Threads) {
    && Ring.Inv(s.ring)
    && 0 <= Processed(s) <= |s.ring.accepted|
    && (Returning(s) ==> s.ring.cons.result.value == s.ring.accepted[Processed(s)])
    && s.engine == E.Run(sel, E.START, s.ring.accepted[..Processed(s)])
  }

  lemma InitInv(sel: E.Selection, size: size_t)
    requires RingSize(size)
    ensures Inv(sel, Init(size))
  {
    Ring.InitInv<MarketTick>(size);
  }

  lemma DeliveredIsPrefix(m: Ring.Memory<MarketTick>)
    requires Ring.Inv(m)
    ensures |m.delivered| <= |m.accepted| && m.delivered == m.accepted[..|m.delivered|]
  {
  }

  lemma TakenIsNext(m: Ring.Memory<MarketTick>)
    requires Ring.Inv(m) && m.cons.CDestroyed?
    ensures |m.delivered| < |m.accepted| && m.cons.item == m.accepted[|m.delivered|]
  {
  }

  lemma ReturnKeepsInv(sel: E.Selection, s: Threads)
    requires Inv(sel, s) && Ring.Formed(s.ring) && Enabled(s, CReturn) && Ring.Inv(Ring.Step(s.ring, CReturn))
    ensures Inv(sel, Step(sel, s, CReturn))
  {
    hide E.Step, Ring.Inv, Ring.Formed;
    DeliveredIsPrefix(Ring.Step(s.ring, CReturn));
    var k := Processed(s);
    if Returning(s) {
      assert s.ring.accepted[..k + 1][..k] == s.ring.accepted[..k];
    }
  }

  lemma PublishKeepsInv(sel: E.Selection, s: Threads)
    requires Inv(sel, s) && Ring.Formed(s.ring) && Enabled(s, CPublish) && Ring.Inv(Ring.Step(s.ring, CPublish))
    ensures Inv(sel, Step(sel, s, CPublish))
  {
    TakenIsNext(s.ring);
    hide E.Step, Ring.Inv, Ring.Formed;
  }

  /** What the other actions leave alone. */
  lemma OthersKeepPops(m: Ring.Memory<MarketTick>, a: Action<MarketTick>)
    requires Ring.Formed(m) && Ring.Enabled(m, a) && !a.CReturn? && !a.CPublish?
    ensures
      var m' := Ring.Step(m, a);
      && m.accepted <= m'.accepted && m'.delivered == m.delivered
      && (m.cons.CDone? && m.cons.result.Some? <==> m'.cons.CDone? && m'.cons.result.Some?)
      && (m.cons.CDone? && m.cons.result.Some? ==> m'.cons == m.cons)
  {
    hide Ring.Mask, SubWrap, AddWrap;
  }

  lemma OtherKeepsInv(sel: E.Selection, s: Threads, a: Action<MarketTick>)
    requires Inv(sel, s) && Ring.Formed(s.ring) && Enabled(s, a) && Ring.Inv(Ring.Step(s.ring, a))
    requires !a.CReturn? && !a.CPublish?
    ensures Inv(sel, Step(sel, s, a))
  {
    hide E.Step, E.Run, Ring.Inv, Ring.Formed, Ring.Enabled, Ring.Step;
    DeliveredIsPrefix(s.ring);
    OthersKeepPops(s.ring, a);
    SamePrefix(s.ring.accepted, Step(sel, s, a).ring.accepted, Processed(s));
  }

  lemma SamePrefix<T>(x: seq<T>, y: seq<T>, k: nat)
    requires x <= y && k <= |x|
    ensures x[..k] == y[..k] && (k < |x| ==> x[k] == y[k])
  {
  }

  lemma RingKeepsInv(m: Ring.Memory<MarketTick>, a: Action<MarketTick>)
    requires Ring.Inv(m) && Ring.Formed(m) && Ring.Enabled(m, a)
    ensures Ring.Inv(Ring.Step(m, a))
  {
    hide Ring.Inv, Ring.Formed, Ring.Enabled, Ring.Step;
    Ring.StepRefines(m, a);
  }

  lemma StepKeepsInv(sel: E.Selection, s: Threads, a: Action<MarketTick>)
    requires Inv(sel, s) && Ring.Formed(s.ring) && Enabled(s, a)
    ensures Inv(sel, Step(sel, s, a))
  {
    hide Ring.Inv, Ring.Formed, Ring.Enabled, Ring.Step, E.Run, Step;
    RingKeepsInv(s.ring, a);
    hide Inv, Enabled;
    match a
    case CReturn => ReturnKeepsInv(sel, s);
    case CPublish => PublishKeepsInv(sel, s);
    case _ => OtherKeepsInv(sel, s, a);
  }

  lemma {:induction false} RunKeepsInv(sel: E.Selection, s: Threads, run: seq<Action<MarketTick>>)
    requires Inv(sel, s) && ValidRun(sel, s, run)
    ensures Inv(sel, Run(sel, s, run))
    decreases |run|
  {
    if run != [] {
      StepKeepsInv(sel, s, run[0]);
      RunKeepsInv(sel, Step(sel, s, run[0]), run[1..]);
    }
  }

  /** In every state of every interleaving, across wraps and stale loads, the engine is the sequential
      engine folded over the first ticks accepted, one for each completed pop. */
  lemma EngineFoldsAcceptedTicks(sel: E.Selection, size: size_t, run: seq<Action<MarketTick>>)
    requires RingSize(size) && ValidRun(sel, Init(size), run)
    ensures
      var s := Run(sel, Init(size), run);
      0 <= Processed(s) <= |s.ring.accepted| && s.engine == E.Run(sel, E.START, s.ring.accepted[..Processed(s)])
  {
    InitInv(sel, size);
    RunKeepsInv(sel, Init(size), run);
  }

  /** Two executions, on rings of any sizes and under any schedules, that accept the same ticks and
      drain them end with the same book, signals, position, profit and log. */
  lemma ScheduleIsInvisible(sel: E.Selection, size1: size_t, size2: size_t,
                            run1: seq<Action<MarketTick>>, run2: seq<Action<MarketTick>>)
    requires RingSize(size1) && RingSize(size2)
    requires ValidRun(sel, Init(size1), run1) && ValidRun(sel, Init(size2), run2)
    requires
      var s1, s2 := Run(sel, Init(size1), run1), Run(sel, Init(size2), run2);
      && s1.ring.accepted == s2.ring.accepted
      && Processed(s1) == |s1.ring.accepted| && Processed(s2) == |s2.ring.accepted|
    ensures Run(sel, Init(size1), run1).engine == Run(sel, Init(size2), run2).engine
    ensures
      var s1 := Run(sel, Init(size1), run1);
      s1.engine == E.Run(sel, E.START, s1.ring.accepted)
  {
    EngineFoldsAcceptedTicks(sel, size1, run1);
    EngineFoldsAcceptedTicks(sel, size2, run2);
    var s1, s2 := Run(sel, Init(size1), run1), Run(sel, Init(size2), run2);
    assert s1.ring.accepted[..|s1.ring.accepted|] == s1.ring.accepted;
    assert s2.ring.accepted[..|s2.ring.accepted|] == s2.ring.accepted;
  }

  // ---------------------------------------------------------------- from messages to trades

  /** The ticks the parser thread offers for what it receives. */
  function Feed(initialized: bool, payloads: seq<Payload>): seq<MarketTick>
    decreases |payloads|
  {
    if payloads == [] then [] else Parsed(initialized, payloads[0]).ticks + Feed(initialized, payloads[1..])
  }

  lemma {:induction false} FeedInRange(initialized: bool, payloads: seq<Payload>)
    ensures InRange(Feed(initialized, payloads))
    decreases |payloads|
  {
    hide Document;
    if payloads != [] {
      if payloads[0].doc.Some? {
        DocumentInRange(payloads[0].doc.value);
      }
      FeedInRange(initialized, payloads[1..]);
    }
  }

  lemma {:induction false} KeptOfPrefix<T>(items: seq<T>, all: seq<T>, outcomes: seq<bool>)
    requires |outcomes| <= |items| && items <= all
    ensures Kept(items, outcomes) == Kept(all, outcomes)
    decreases |outcomes|
  {
    if outcomes != [] {
      KeptOfPrefix(items[1..], all[1..], outcomes[1..]);
    }
  }

  lemma {:induction false} KeptInRange(items: seq<MarketTick>, outcomes: seq<bool>)
    requires |outcomes| <= |items| && InRange(items)
    ensures InRange(Kept(items, outcomes))
    decreases |outcomes|
  {
    if outcomes != [] {
      KeptInRange(items[1..], outcomes[1..]);
    }
  }

  lemma {:induction false} AllKept<T>(items: seq<T>, outcomes: seq<bool>)
    requires |outcomes| == |items| && forall i :: 0 <= i < |outcomes| ==> outcomes[i]
    ensures Kept(items, outcomes) == items
    decreases |outcomes|
  {
    if outcomes != [] {
      AllKept(items[1..], outcomes[1..]);
      assert [items[0]] + items[1..] == items;
    }
  }

  lemma {:induction false} RingOfRun(sel: E.Selection, s: Threads, run: seq<Action<MarketTick>>)
    requires ValidRun(sel, s, run)
    ensures Ring.ValidRun(s.ring, run) && Run(sel, s, run).ring == Ring.Run(s.ring, run)
    decreases |run|
  {
    hide Ring.Formed, Ring.Enabled, Ring.Step, E.Step;
    if run != [] {
      RingOfRun(sel, Step(sel, s, run[0]), run[1..]);
    }
  }

  /** What the ring's callers see of a run of the two threads. */
  ghost function Seen(sel: E.Selection, size: size_t, run: seq<Action<MarketTick>>): seq<Obs<MarketTick>>
    requires ValidRun(sel, Init(size), run)
  {
    RingOfRun(sel, Init(size), run);
    Wrapped.History(Ring.Init<MarketTick>(size), run)
  }

  /** End to end, at any moment of any interleaving in which the parser thread pushes the ticks of its
      payloads in order: the ring has accepted those that were not refused, every one at a price the
      book can hold, and the position and the logged trades are those that the tops of the ones
      processed so far decide. */
  lemma MessagesToTrades(sel: E.Selection, size: size_t, initialized: bool, payloads: seq<Payload>,
                         run: seq<Action<MarketTick>>)
    requires RingSize(size) && ValidRun(sel, Init(size), run)
    requires Offered(Seen(sel, size, run)) <= Feed(initialized, payloads)
    ensures
      var s, outcomes := Run(sel, Init(size), run), Outcomes(Seen(sel, size, run));
      && |outcomes| <= |Feed(initialized, payloads)|
      && s.ring.accepted == Kept(Feed(initialized, payloads), outcomes) && InRange(s.ring.accepted)
      && 0 <= Processed(s) <= |s.ring.accepted|
      && (var fills := E.FillsOf(sel, s.ring.accepted[..Processed(s)]);
          && s.engine.position == PositionManager.AddFills(PositionManager.FLAT, fills)
          && E.TradesIn(s.engine.log) == fills)
  {
    hide Ring.Formed, Ring.Step, E.Step, Parsed, InRange;
    var s, h := Run(sel, Init(size), run), Seen(sel, size, run);
    RingOfRun(sel, Init(size), run);
    Wrapped.AcceptedIsKept<MarketTick>(size, run);
    KeptOfPrefix(Offered(h), Feed(initialized, payloads), Outcomes(h));
    FeedInRange(initialized, payloads);
    KeptInRange(Feed(initialized, payloads), Outcomes(h));
    EngineFoldsAcceptedTicks(sel, size, run);
    E.RunTradesOnTops(sel, s.ring.accepted[..Processed(s)]);
  }

  /** When everything has been pushed and drained and nothing was refused, the engine is the sequential
      engine run on the messages themselves. */
  lemma NothingLost(sel: E.Selection, size: size_t, initialized: bool, payloads: seq<Payload>,
                    run: seq<Action<MarketTick>>)
    requires RingSize(size) && ValidRun(sel, Init(size), run)
    requires Offered(Seen(sel, size, run)) == Feed(initialized, payloads)
    requires forall i :: 0 <= i < |Outcomes(Seen(sel, size, run))| ==> Outcomes(Seen(sel, size, run))[i]
    requires
      var s := Run(sel, Init(size), run);
      s.ring.prod.PIdle? && Processed(s) == |s.ring.accepted|
    ensures Run(sel, Init(size), run).engine == E.Run(sel, E.START, Feed(initialized, payloads))
  {
    hide Ring.Formed, Ring.Step, E.Step, Parsed;
    var s, h := Run(sel, Init(size), run), Seen(sel, size, run);
    RingOfRun(sel, Init(size), run);
    Wrapped.AcceptedIsKept<MarketTick>(size, run);
    AllKept(Offered(h), Outcomes(h));
    EngineFoldsAcceptedTicks(sel, size, run);
    assert s.ring.accepted[..|s.ring.accepted|] == s.ring.accepted;
  }
}
