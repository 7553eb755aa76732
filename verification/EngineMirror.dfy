/** Complement-market symmetry. A prediction market quotes an outcome at `p` cents exactly when its
    complement is quoted at `100 - p`, with bids and asks exchanged. Fed the complement's ticks, the
    engine should hold the complement's position with the same profit. */
module EngineMirror {
  import opened Machine
  import opened OrderBook
  import opened Microprice
  import opened PositionManager
  import opened Engine

  /** Prices out of range stay out of range. */
  function MirrorTick(t: MarketTick): MarketTick {
    MarketTick((100 - t.price) % 256, t.size, !t.isBid)
  }

  function MirrorTicks(ticks: seq<MarketTick>): seq<MarketTick> {
    seq(|ticks|, i requires 0 <= i < |ticks| => MirrorTick(ticks[i]))
  }

  function MirrorSide(side: Levels): Levels {
    seq(LEVELS, i requires 0 <= i < LEVELS => side[100 - i])
  }

  function MirrorBook(b: Book): Book {
    Book(MirrorSide(b.asks), MirrorSide(b.bids))
  }

  function MirrorMomentum(m: MomentumAlpha.Momentum): MomentumAlpha.Momentum {
    if m.hasPrev then MomentumAlpha.Momentum(true, 100.0 - m.prev) else m
  }

  function MirrorOfi(o: OfiAlpha.Ofi): OfiAlpha.Ofi
    requires o.initialized ==> TopOk(o.prev)
  {
    if o.initialized then OfiAlpha.Ofi(true, MirrorTop(o.prev)) else o
  }

  function MirrorEntry(e: LogEntry): LogEntry {
    LogEntry(e.kind, 1.0 - e.price, -e.size, e.pnl)
  }

  function MirrorLog(log: seq<LogEntry>): seq<LogEntry> {
    seq(|log|, i requires 0 <= i < |log| => MirrorEntry(log[i]))
  }

  predicate Mirrorable(s: State) {
    && (s.ofi.initialized ==> TopOk(s.ofi.prev))
    && (s.position.size == 0 ==> s.position.average == 0.0)
  }

  /** The engine of the complement market: position negated, average `1 - a`, profit unchanged. */
  function MirrorState(s: State): State
    requires Mirrorable(s)
  {
    State(MirrorBook(s.book), MirrorMomentum(s.momentum), MirrorOfi(s.ofi), Complement(s.position),
          s.emittedInitial, s.ticks, MirrorLog(s.log))
  }

  // ---------------------------------------------------------------- the parts

  lemma MirrorApply(b: Book, t: MarketTick)
    ensures Apply(MirrorBook(b), MirrorTick(t)) == MirrorBook(Apply(b, t))
  {
    assert Apply(MirrorBook(b), MirrorTick(t)).bids == MirrorBook(Apply(b, t)).bids;
    assert Apply(MirrorBook(b), MirrorTick(t)).asks == MirrorBook(Apply(b, t)).asks;
  }

  function MirrorPrice(p: uint8): uint8 {
    if p > MAX_PRICE then p else 100 - p
  }

  lemma MirrorScan(side: Levels, p: uint8)
    ensures IsHighest(side, p) ==> IsLowest(MirrorSide(side), MirrorPrice(p))
    ensures IsLowest(side, p) ==> IsHighest(MirrorSide(side), MirrorPrice(p))
  {
    var m := MirrorSide(side);
    assert forall q :: 0 <= q < LEVELS ==> m[q] == side[100 - q];
  }

  /** The best-price scans of the mirrored book. */
  lemma MirrorSignalTop(b: Book)
    ensures SignalTop(MirrorBook(b)) ==
              match SignalTop(b) { case None => None case Some(t) => Some(MirrorTop(t)) }
    ensures TopOf(MirrorBook(b)) ==
              match TopOf(b) { case None => None case Some(t) => Some(MirrorTop(t)) }
  {
    var m := MirrorBook(b);
    MirrorScan(b.bids, BestBid(b));
    MirrorScan(b.asks, BestAsk(b));
    BestIsUnique(m.asks, BestAsk(m), MirrorPrice(BestBid(b)));
    BestIsUnique(m.bids, BestBid(m), MirrorPrice(BestAsk(b)));
    assert BestAsk(m) == MirrorPrice(BestBid(b));
    assert BestBid(m) == MirrorPrice(BestAsk(b));
  }

  lemma MirrorPrices(t: Top, order: int)
    requires TopOk(t)
    ensures MidPrice(MirrorTop(t)) == 1.0 - MidPrice(t)
    ensures order != 0 ==> FillAt(MirrorTop(t), -order).price == 1.0 - FillAt(t, order).price
  {
  }

  lemma MirrorMarked(s: State, t: Top)
    requires Mirrorable(s) && TopOk(t)
    ensures Mirrorable(Marked(s, t))
    ensures Marked(MirrorState(s), MirrorTop(t)) == MirrorState(Marked(s, t))
  {
    MirrorPrices(t, 0);
    ComplementEquity(s.position, MidPrice(t));
    hide MidPrice, Equity;
    assert Marked(MirrorState(s), MirrorTop(t)).log == MirrorLog(Marked(s, t).log);
  }

  lemma FlatAverageIsZero(p: Position, f: Fill)
    requires p.size == 0 ==> p.average == 0.0
    ensures AddFill(p, f).size == 0 ==> AddFill(p, f).average == 0.0
  {
  }

  lemma MirrorTraded(s: State, t: Top, order: int)
    requires Mirrorable(s) && TopOk(t)
    ensures Mirrorable(Traded(s, FillAt(t, order)))
    ensures Traded(MirrorState(s), FillAt(MirrorTop(t), -order)) == MirrorState(Traded(s, FillAt(t, order)))
  {
    var f := FillAt(t, order);
    if order != 0 {
      MirrorPrices(t, order);
      FlatAverageIsZero(s.position, f);
      ComplementFill(s.position, f);
      hide AddFill, CentsToPrice;
      assert FillAt(MirrorTop(t), -order) == Fill(-f.size, 1.0 - f.price);
      assert Traded(MirrorState(s), FillAt(MirrorTop(t), -order)).log == MirrorLog(Traded(s, f).log);
    }
  }

  /** What a wrapped size sum upsets: the momentum signal at any update, the order-flow signal at any
      update but its first, which only stores the top. */
  predicate Upsets(sel: Selection, s: State, t: Top) {
    !NoWrap(t) && (UsesMomentum(sel) || s.ofi.initialized)
  }

  /** Both signals of the mirrored engine, exactly: states mirrored and scores negated, unless the size
      sum wrapped where that matters. */
  lemma MirrorSignals(sel: Selection, s: State, t: Top)
    requires Mirrorable(s) && SignalTop(s.book) == Some(t)
    ensures
      var (momentum, jump, ofi, confidence) := Signals(sel, s);
      var (momentum', jump', ofi', confidence') := Signals(sel, MirrorState(s));
      && (ofi.initialized ==> TopOk(ofi.prev)) && ofi' == MirrorOfi(ofi)
      && (momentum' == MirrorMomentum(momentum) && jump' == -jump && confidence' == -confidence <==> !Upsets(sel, s, t))
      && (UsesMomentum(sel) && !NoWrap(t) ==> momentum' != MirrorMomentum(momentum))
  {
    MirrorSignalTop(s.book);
    MirrorMicro(t);
    if s.ofi.initialized {
      OfiAlpha.MirrorConfidence(s.ofi.prev, t);
    }
    hide MicropriceCents, OfiAlpha.Confidence;
  }

  lemma MirrorOrder(sel: Selection, jump: real, confidence: real)
    ensures Order(Score(sel, -jump, -confidence)) == -Order(Score(sel, jump, confidence))
  {
  }

  // ---------------------------------------------------------------- one step

  lemma MirrorOnTop(sel: Selection, s: State, t: Top)
    requires Mirrorable(s) && SignalTop(s.book) == Some(t) && !Upsets(sel, s, t)
    ensures Mirrorable(OnTop(sel, s, t))
    ensures OnTop(sel, MirrorState(s), MirrorTop(t)) == MirrorState(OnTop(sel, s, t))
  {
    hide Signals, Score, Order, Marked, Traded, SignalTop, MirrorBook, Complement, MirrorLog, CentsToPrice;
    var first := if s.emittedInitial then s else Marked(s, t).(emittedInitial := true);
    MirrorMarked(s, t);
    MarkedIsNoTrade(s, t);
    MarkedIsNoTrade(MirrorState(s), MirrorTop(t));
    var first' :=
      if s.emittedInitial then MirrorState(s)
      else Marked(MirrorState(s), MirrorTop(t)).(emittedInitial := true);
    assert Mirrorable(first) && first' == MirrorState(first);
    MirrorSignals(sel, first, t);
    var (momentum, jump, ofi, confidence) := Signals(sel, first);
    var updated := first.(momentum := momentum, ofi := ofi);
    MirrorOrder(sel, jump, confidence);
    var order := Order(Score(sel, jump, confidence));
    MirrorTraded(updated, t, order);
    MirrorMarked(Traded(updated, FillAt(t, order)), t);
  }

  /** Whether the tick leads to a signal update whose size sum wrapped. */
  predicate Wraps(b: Book) {
    SignalTop(b).Some? && !NoWrap(SignalTop(b).value)
  }

  lemma StepKeepsMirrorable(sel: Selection, s: State, tick: MarketTick)
    requires Mirrorable(s)
    ensures Mirrorable(Step(sel, s, tick))
  {
    hide MirrorBook, MirrorLog, AddFill, MicropriceCents;
    var s1 := Counted(s, tick);
    match SignalTop(s1.book) {
      case None =>
      case Some(t) =>
        var first := if s1.emittedInitial then s1 else Marked(s1, t).(emittedInitial := true);
        var order := Order(Score(sel, Signals(sel, first).1, Signals(sel, first).3));
        FlatAverageIsZero(s.position, FillAt(t, order));
    }
  }

  lemma WrappedOnTopBreaks(sel: Selection, s: State, t: Top)
    requires Mirrorable(s) && SignalTop(s.book) == Some(t) && !NoWrap(t) && UsesMomentum(sel)
    ensures OnTop(sel, MirrorState(s), MirrorTop(t)).momentum != MirrorMomentum(OnTop(sel, s, t).momentum)
  {
    hide Signals, OnTop, MirrorBook, MirrorLog, Complement, SignalTop;
    SignalsAfterOnTop(sel, s, t);
    SignalsAfterOnTop(sel, MirrorState(s), MirrorTop(t));
    MirrorSignals(sel, s, t);
  }

  /** The scores of the update a tick leads to, if it leads to one, are opposite in two engines. */
  predicate ScoresNegated(sel: Selection, s: State, s': State, tick: MarketTick) {
    SignalTop(Apply(s.book, tick)).Some? ==>
      var (_, jump, _, confidence) := Signals(sel, Counted(s, tick));
      var (_, jump', _, confidence') := Signals(sel, Counted(s', MirrorTick(tick)));
      jump' == -jump && confidence' == -confidence
  }

  /** One step commutes with mirroring and negates the scores exactly when no wrapped size sum upsets
      it. */
  lemma StepMirrors(sel: Selection, s: State, tick: MarketTick)
    requires Mirrorable(s)
    ensures Mirrorable(Step(sel, s, tick))
    ensures
      && Step(sel, MirrorState(s), MirrorTick(tick)) == MirrorState(Step(sel, s, tick))
      && ScoresNegated(sel, s, MirrorState(s), tick)
      <==> !(Wraps(Apply(s.book, tick)) && (UsesMomentum(sel) || s.ofi.initialized))
  {
    StepKeepsMirrorable(sel, s, tick);
    MirrorApply(s.book, tick);
    var s1 := Counted(s, tick);
    assert Counted(MirrorState(s), MirrorTick(tick)) == MirrorState(s1);
    MirrorSignalTop(s1.book);
    hide OnTop, SignalTop, MirrorBook, MirrorLog, Complement, Marked, Signals, MirrorTop, NoWrap;
    match SignalTop(s1.book) {
      case None =>
      case Some(t) =>
        MirrorSignals(sel, s1, t);
        if !Upsets(sel, s1, t) {
          MirrorOnTop(sel, s1, t);
        } else if UsesMomentum(sel) {
          WrappedOnTopBreaks(sel, s1, t);
        }
    }
  }

  // ---------------------------------------------------------------- whole runs

  /** No signal update of the run has a size sum that wraps. */
  predicate NeverWraps(ticks: seq<MarketTick>)
    decreases |ticks|
  {
    ticks == [] || (!Wraps(BookAfter(ticks)) && NeverWraps(ticks[..|ticks| - 1]))
  }

  /** No update of the run has a size sum that wraps; for the order-flow signal alone, none but the
      first. */
  predicate NeverUpset(sel: Selection, ticks: seq<MarketTick>)
    decreases |ticks|
  {
    ticks == [] ||
    var before := ticks[..|ticks| - 1];
    !(Wraps(BookAfter(ticks)) && (UsesMomentum(sel) || LastTop(before).Some?)) && NeverUpset(sel, before)
  }

  /** The mirrored run is the mirror of the run and its scores are opposite, at every step. */
  ghost predicate MirroredThroughout(sel: Selection, ticks: seq<MarketTick>)
    decreases |ticks|
  {
    && Mirrorable(Run(sel, START, ticks))
    && Run(sel, START, MirrorTicks(ticks)) == MirrorState(Run(sel, START, ticks))
    && (ticks == [] ||
        var before := ticks[..|ticks| - 1];
        && ScoresNegated(sel, Run(sel, START, before), Run(sel, START, MirrorTicks(before)), ticks[|ticks| - 1])
        && MirroredThroughout(sel, before))
  }

  lemma MirrorOfStart()
    ensures Mirrorable(START) && MirrorState(START) == START
  {
    assert MirrorBook(EmptyBook()).bids == EmptyBook().bids;
    assert MirrorBook(EmptyBook()).asks == EmptyBook().asks;
    assert MirrorLog([]) == [];
  }

  lemma MirrorTicksSnoc(ticks: seq<MarketTick>)
    requires ticks != []
    ensures MirrorTicks(ticks)[..|ticks| - 1] == MirrorTicks(ticks[..|ticks| - 1])
    ensures MirrorTicks(ticks)[|ticks| - 1] == MirrorTick(ticks[|ticks| - 1])
  {
  }

  /** Symmetry of whole runs, exactly, for every selection: states mirrored and scores negated at every
      step, if and only if no update wraps where that matters. */
  lemma {:induction false} RunMirrors(sel: Selection, ticks: seq<MarketTick>)
    ensures MirroredThroughout(sel, ticks) <==> NeverUpset(sel, ticks)
    decreases |ticks|
  {
    MirrorOfStart();
    if ticks != [] {
      var before := ticks[..|ticks| - 1];
      RunMirrors(sel, before);
      MirrorTicksSnoc(ticks);
      SignalsRememberLastTop(sel, before);
      hide Step, MirrorState, Wraps, ScoresNegated;
      if MirroredThroughout(sel, before) {
        StepMirrors(sel, Run(sel, START, before), ticks[|ticks| - 1]);
      }
    }
  }

  /** A run none of whose updates wraps meets that condition; with the momentum signal, only such a run. */
  lemma {:induction false} NeverWrapsIsNeverUpset(sel: Selection, ticks: seq<MarketTick>)
    ensures NeverWraps(ticks) ==> NeverUpset(sel, ticks)
    ensures UsesMomentum(sel) ==> (NeverWraps(ticks) <==> NeverUpset(sel, ticks))
    decreases |ticks|
  {
    hide Wraps, BookAfter, LastTop;
    if ticks != [] {
      NeverWrapsIsNeverUpset(sel, ticks[..|ticks| - 1]);
    }
  }

  // ---------------------------------------------------------------- when sizes cannot wrap

  predicate SmallSizes(ticks: seq<MarketTick>) {
    forall i :: 0 <= i < |ticks| ==> ticks[i].size < TWO_31
  }

  predicate SmallLevels(b: Book) {
    forall p :: 0 <= p < LEVELS ==> b.bids[p] < TWO_31 && b.asks[p] < TWO_31
  }

  /** Ticks with sizes below 2^31 never wrap, so runs on them are mirrored. */
  lemma {:induction false} SmallSizesNeverWrap(ticks: seq<MarketTick>)
    requires SmallSizes(ticks)
    ensures SmallLevels(BookAfter(ticks)) && NeverWraps(ticks)
    decreases |ticks|
  {
    if ticks != [] {
      SmallSizesNeverWrap(ticks[..|ticks| - 1]);
    }
  }

  // ---------------------------------------------------------------- a run that wraps

  lemma TopOfTwoLevels(b: Book, bid: uint8, ask: uint8, x: uint32, y: uint32)
    requires bid <= MAX_PRICE && ask <= MAX_PRICE && x != 0 && y != 0 && AddU32(x, y) != 0
    requires b.bids == EmptyBook().bids[bid := x] && b.asks == EmptyBook().asks[ask := y]
    ensures SignalTop(b) == Some(Top(bid, ask, x, y))
  {
    BestIsUnique(b.bids, bid, BestBid(b));
    BestIsUnique(b.asks, ask, BestAsk(b));
  }

  /** Momentum buys on the third tick, when the tops say so. */
  lemma BuysOnThird(ticks: seq<MarketTick>, first: Top, second: Top)
    requires |ticks| == 3 && second.ask == 60
    requires SignalTop(BookAfter(ticks[..1])) == None
    requires SignalTop(BookAfter(ticks[..2])) == Some(first)
    requires SignalTop(BookAfter(ticks)) == Some(second)
    requires Micro(second) - Micro(first) > 1.0
    ensures FillsOf(SelectMomentum, ticks) == [Fill(10, CentsToPrice(60))]
  {
    hide Micro, SignalTop, BookAfter, FillsOf, LastTop, CentsToPrice, SizeSum;
    var t1, t2 := ticks[..1], ticks[..2];
    assert t2[..1] == t1 && t1[..0] == [] && ticks[..2] == t2;
    FillsUnfold(SelectMomentum, t1);
    FillsUnfold(SelectMomentum, t2);
    FillsUnfold(SelectMomentum, ticks);
    assert Decision(SelectMomentum, None, first) == 0;
    assert Decision(SelectMomentum, Some(first), second) == 10;
    hide Decision;
    assert [] + [FillAt(second, 10)] == [Fill(10, CentsToPrice(60))];
  }

  /** From a size sum just below 2^32 to one that wraps to 1. */
  lemma WrapJumps(first: Top, second: Top)
    requires first.bid == second.bid == 40 && first.ask == second.ask == 60
    requires TopOk(first) && NoWrap(first) && SizeSum(first) != 0
    requires SizeSum(second) == 1 && second.askSize >= TWO_31 - 1
    ensures Micro(second) - Micro(first) > 1.0
  {
    MicroInSpread(first);
    WrappedMicroIsHuge(second);
    hide Micro, SizeSum;
  }

  lemma FillsUnfold(sel: Selection, ticks: seq<MarketTick>)
    requires ticks != []
    ensures FillsOf(sel, []) == [] && LastTop([]) == None
    ensures
      var before := ticks[..|ticks| - 1];
      match SignalTop(BookAfter(ticks)) {
        case None => LastTop(ticks) == LastTop(before) && FillsOf(sel, ticks) == FillsOf(sel, before)
        case Some(t) =>
          var order := Decision(sel, LastTop(before), t);
          && LastTop(ticks) == Some(t)
          && FillsOf(sel, ticks) ==
               if order == 0 then FillsOf(sel, before) else FillsOf(sel, before) + [FillAt(t, order)]
      }
  {
    hide Decision, SignalTop, BookAfter;
  }

  lemma WrappedMicroIsHuge(t: Top)
    requires t.bid == 40 && t.ask == 60 && TWO_31 - 1 <= t.askSize && SizeSum(t) == 1
    ensures Micro(t) > 100.0
  {
    MicroTimes(t);
    hide MicropriceCents, SizeSum;
    assert Micro(t) * SizeSum(t) as real == Micro(t);
  }

  lemma OneLevelBooks(ticks: seq<MarketTick>, first: Top, second: Top)
    requires |ticks| == 3 && first.bid == second.bid == 40 && first.ask == second.ask == 60
    requires ticks[0].isBid != ticks[1].isBid == ticks[2].isBid
    requires forall i :: 0 <= i < 3 ==> ticks[i].price == if ticks[i].isBid then 40 else 60
    requires forall i :: 0 <= i < 3 ==> TWO_31 - 1 <= ticks[i].size <= TWO_31 + 1
    requires if ticks[0].isBid then first.bidSize == second.bidSize == ticks[0].size && first.askSize == ticks[1].size
                                    && second.askSize == ticks[2].size
             else first.askSize == second.askSize == ticks[0].size && first.bidSize == ticks[1].size
                  && second.bidSize == ticks[2].size
    requires SizeSum(first) != 0 && SizeSum(second) != 0
    ensures SignalTop(BookAfter(ticks[..1])) == None
    ensures SignalTop(BookAfter(ticks[..2])) == Some(first)
    ensures SignalTop(BookAfter(ticks)) == Some(second)
  {
    hide HighestBelow, LowestFrom;
    var t1, t2 := ticks[..1], ticks[..2];
    assert t2[..1] == t1 && t1[..0] == [] && ticks[..2] == t2;
    var b1, b2, b3 := BookAfter(t1), BookAfter(t2), BookAfter(ticks);
    assert BookAfter([]) == EmptyBook() && b1 == Apply(BookAfter(t1[..0]), ticks[0]);
    assert b2 == Apply(b1, ticks[1]) && b3 == Apply(b2, ticks[2]);
    hide BookAfter;
    if ticks[0].isBid {
      BestIsUnique(b1.asks, NO_PRICE, BestAsk(b1));
    } else {
      BestIsUnique(b1.bids, NO_PRICE, BestBid(b1));
    }
    hide BestBid, BestAsk;
    assert b2.bids == EmptyBook().bids[40 := first.bidSize] && b2.asks == EmptyBook().asks[60 := first.askSize];
    TopOfTwoLevels(b2, 40, 60, first.bidSize, first.askSize);
    assert b3.bids == EmptyBook().bids[40 := second.bidSize] && b3.asks == EmptyBook().asks[60 := second.askSize];
    TopOfTwoLevels(b3, 40, 60, second.bidSize, second.askSize);
  }

  lemma MarketBuys()
    ensures
      var ticks := [MarketTick(40, TWO_31, true), MarketTick(60, TWO_31 - 1, false), MarketTick(60, TWO_31 + 1, false)];
      FillsOf(SelectMomentum, ticks) == [Fill(10, CentsToPrice(60))]
  {
    hide FillsOf, BookAfter, SignalTop, Micro, CentsToPrice;
    var ticks := [MarketTick(40, TWO_31, true), MarketTick(60, TWO_31 - 1, false), MarketTick(60, TWO_31 + 1, false)];
    var first, second := Top(40, 60, TWO_31, TWO_31 - 1), Top(40, 60, TWO_31, TWO_31 + 1);
    OneLevelBooks(ticks, first, second);
    WrapJumps(first, second);
    BuysOnThird(ticks, first, second);
  }

  lemma ComplementBuysToo()
    ensures
      var mirrored :=
        [MarketTick(60, TWO_31, false), MarketTick(40, TWO_31 - 1, true), MarketTick(40, TWO_31 + 1, true)];
      FillsOf(SelectMomentum, mirrored) == [Fill(10, CentsToPrice(60))]
  {
    hide FillsOf, BookAfter, SignalTop, Micro, CentsToPrice;
    var mirrored :=
      [MarketTick(60, TWO_31, false), MarketTick(40, TWO_31 - 1, true), MarketTick(40, TWO_31 + 1, true)];
    var first, second := Top(40, 60, TWO_31 - 1, TWO_31), Top(40, 60, TWO_31 + 1, TWO_31);
    OneLevelBooks(mirrored, first, second);
    WrapJumps(first, second);
    BuysOnThird(mirrored, first, second);
  }

  /** Three ticks on one bid and one ask level, the last of which wraps the size sum to 1: momentum
      buys, and buys in the complement market too. */
  lemma WrapBreaksSymmetry()
    ensures
      var ticks := [MarketTick(40, TWO_31, true), MarketTick(60, TWO_31 - 1, false), MarketTick(60, TWO_31 + 1, false)];
      && FillsOf(SelectMomentum, ticks) == [Fill(10, CentsToPrice(60))]
      && FillsOf(SelectMomentum, MirrorTicks(ticks)) == [Fill(10, CentsToPrice(60))]
  {
    hide FillsOf, CentsToPrice;
    var ticks := [MarketTick(40, TWO_31, true), MarketTick(60, TWO_31 - 1, false), MarketTick(60, TWO_31 + 1, false)];
    assert MirrorTicks(ticks) ==
      [MarketTick(60, TWO_31, false), MarketTick(40, TWO_31 - 1, true), MarketTick(40, TWO_31 + 1, true)];
    MarketBuys();
    ComplementBuysToo();
  }
}
