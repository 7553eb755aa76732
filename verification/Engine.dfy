/** The strategy engine as a function of the ticks it pops: one step of its loop, its runs, and what
    the runs depend on. */
module Engine {
  import opened Machine
  import opened OrderBook
  import opened Microprice
  import opened PositionManager
  import MomentumAlpha
  import OfiAlpha

  datatype Selection = SelectMomentum | SelectOfi | SelectBoth

  predicate UsesMomentum(sel: Selection) { !sel.SelectOfi? }
  predicate UsesOfi(sel: Selection) { !sel.SelectMomentum? }

  const TRADE_SIZE: int := 10
  const THRESHOLD: real := 0.6
  const MARK_PERIOD: int := 1000

  /** What the engine hands to the logger, clocks aside. */
  datatype LogEntry = LogEntry(kind: char, price: real, size: int, pnl: real)

  datatype State = State(
    book: Book,
    momentum: MomentumAlpha.Momentum,
    ofi: OfiAlpha.Ofi,
    position: Position,
    emittedInitial: bool,
    ticks: uint64,
    log: seq<LogEntry>)

  const START: State :=
    State(EmptyBook(), MomentumAlpha.START, OfiAlpha.START, FLAT, false, 0, [])

  function CentsToPrice(cents: uint8): real {
    cents as real / 100.0
  }

  function MidPrice(t: Top): real {
    (CentsToPrice(t.bid) + CentsToPrice(t.ask)) * 0.5
  }

  /** Signed trade size for an averaged score. */
  function Order(score: real): int {
    if score >= THRESHOLD then TRADE_SIZE else if score <= -THRESHOLD then -TRADE_SIZE else 0
  }

  function Score(sel: Selection, momentum: real, ofi: real): real {
    match sel
    case SelectMomentum => momentum
    case SelectOfi => ofi
    case SelectBoth => (momentum + ofi) / 2.0
  }

  /** Buys lift the ask, sales hit the bid. */
  function FillAt(t: Top, order: int): Fill {
    Fill(order, CentsToPrice(if order > 0 then t.ask else t.bid))
  }

  function Marked(s: State, t: Top): State {
    s.(log := s.log + [LogEntry('P', MidPrice(t), s.position.size, Equity(s.position, MidPrice(t)))])
  }

  function Traded(s: State, f: Fill): State {
    if f.size == 0 then s
    else
      var position := AddFill(s.position, f);
      s.(position := position, log := s.log + [LogEntry('T', f.price, f.size, position.realized)])
  }

  /** Both signals' states and scores after an update; a signal that is not selected does not exist. */
  function Signals(sel: Selection, s: State)
    : (MomentumAlpha.Momentum, real, OfiAlpha.Ofi, real)
  {
    var (momentum, jump) := if UsesMomentum(sel) then MomentumAlpha.Update(s.momentum, s.book) else (s.momentum, 0.0);
    var (ofi, confidence) := if UsesOfi(sel) then OfiAlpha.Update(s.ofi, s.book) else (s.ofi, 0.0);
    (momentum, jump, ofi, confidence)
  }

  /** What follows the early exits of the loop, on a two-sided book with top `t`. */
  function OnTop(sel: Selection, s: State, t: Top): State {
    var first := if s.emittedInitial then s else Marked(s, t).(emittedInitial := true);
    var (momentum, jump, ofi, confidence) := Signals(sel, first);
    var traded := Traded(first.(momentum := momentum, ofi := ofi), FillAt(t, Order(Score(sel, jump, confidence))));
    if s.ticks % MARK_PERIOD == 0 then Marked(traded, t) else traded
  }

  function Counted(s: State, tick: MarketTick): State {
    s.(book := Apply(s.book, tick), ticks := (s.ticks + 1) % TWO_64)
  }

  /** The early exits of the loop: a one-sided book, or a size sum of zero, leaves the rest alone. */
  function AfterTick(sel: Selection, s: State): State {
    match SignalTop(s.book)
    case None => s
    case Some(t) => OnTop(sel, s, t)
  }

  /** One iteration that popped a tick. */
  function Step(sel: Selection, s: State, tick: MarketTick): State {
    AfterTick(sel, Counted(s, tick))
  }

  function Run(sel: Selection, s: State, ticks: seq<MarketTick>): State
    decreases |ticks|
  {
    if ticks == [] then s else Step(sel, Run(sel, s, ticks[..|ticks| - 1]), ticks[|ticks| - 1])
  }

  // ---------------------------------------------------------------- what the signals remember

  function BookAfter(ticks: seq<MarketTick>): Book
    decreases |ticks|
  {
    if ticks == [] then EmptyBook() else Apply(BookAfter(ticks[..|ticks| - 1]), ticks[|ticks| - 1])
  }

  /** The top at the latest signal update. */
  function LastTop(ticks: seq<MarketTick>): (r: Option<Top>)
    ensures r.Some? ==> TopOk(r.value) && SizeSum(r.value) != 0
    decreases |ticks|
  {
    if ticks == [] then None
    else if SignalTop(BookAfter(ticks)).Some? then SignalTop(BookAfter(ticks))
    else LastTop(ticks[..|ticks| - 1])
  }

  /** The signal states that remember a top. */
  function MomentumOf(sel: Selection, last: Option<Top>): MomentumAlpha.Momentum
    requires last.Some? ==> SizeSum(last.value) != 0
  {
    if last.Some? && UsesMomentum(sel) then MomentumAlpha.Momentum(true, Micro(last.value))
    else MomentumAlpha.START
  }

  function OfiOf(sel: Selection, last: Option<Top>): OfiAlpha.Ofi {
    if last.Some? && UsesOfi(sel) then OfiAlpha.Ofi(true, last.value) else OfiAlpha.START
  }

  /** When the engine buys, given the tops of two consecutive signal updates. */
  predicate Buys(sel: Selection, last: Option<Top>, t: Top)
    requires SizeSum(t) != 0 && (last.Some? ==> SizeSum(last.value) != 0)
  {
    && last.Some?
    && (UsesMomentum(sel) ==> Micro(t) - Micro(last.value) > 1.0)
    && (sel.SelectBoth? ==> OfiAlpha.Confidence(last.value, t) >= 0.2)
    && (sel.SelectOfi? ==> OfiAlpha.Confidence(last.value, t) >= 0.6)
  }

  predicate Sells(sel: Selection, last: Option<Top>, t: Top)
    requires SizeSum(t) != 0 && (last.Some? ==> SizeSum(last.value) != 0)
  {
    && last.Some?
    && (UsesMomentum(sel) ==> Micro(t) - Micro(last.value) < -1.0)
    && (sel.SelectBoth? ==> OfiAlpha.Confidence(last.value, t) <= -0.2)
    && (sel.SelectOfi? ==> OfiAlpha.Confidence(last.value, t) <= -0.6)
  }

  function Decision(sel: Selection, last: Option<Top>, t: Top): int
    requires SizeSum(t) != 0 && (last.Some? ==> SizeSum(last.value) != 0)
  {
    if Buys(sel, last, t) then TRADE_SIZE else if Sells(sel, last, t) then -TRADE_SIZE else 0
  }

  /** Exact gating: from the state that remembers a top, the averaged score crosses the threshold
      exactly when the gates on the two tops open. With both signals that takes a jump of more than a
      cent and a confidence of the same sign of at least 0.2. */
  lemma ScoreGates(sel: Selection, s: State, last: Option<Top>, t: Top)
    requires SignalTop(s.book) == Some(t) && (last.Some? ==> TopOk(last.value) && SizeSum(last.value) != 0)
    requires s.momentum == MomentumOf(sel, last) && s.ofi == OfiOf(sel, last)
    ensures
      var (momentum, jump, ofi, confidence) := Signals(sel, s);
      && momentum == MomentumOf(sel, Some(t)) && ofi == OfiOf(sel, Some(t))
      && Order(Score(sel, jump, confidence)) == Decision(sel, last, t)
  {
    hide MicropriceCents, OfiAlpha.NormalFlow, OfiAlpha.Pressure;
  }

  lemma SignalsAfterOnTop(sel: Selection, s: State, t: Top)
    ensures OnTop(sel, s, t).momentum == Signals(sel, s).0 && OnTop(sel, s, t).ofi == Signals(sel, s).2
    ensures OnTop(sel, s, t).book == s.book
  {
    hide MomentumAlpha.Update, OfiAlpha.Update, Score, Order, AddFill, Equity, MidPrice, CentsToPrice;
  }

  /** Memory: after any ticks, the signals hold exactly the top of their latest update, whatever came
      before it, and the order-flow signal was never reset. */
  lemma {:induction false} SignalsRememberLastTop(sel: Selection, ticks: seq<MarketTick>)
    ensures
      var s := Run(sel, START, ticks);
      && s.book == BookAfter(ticks)
      && s.momentum == MomentumOf(sel, LastTop(ticks))
      && s.ofi == OfiOf(sel, LastTop(ticks))
    decreases |ticks|
  {
    hide OnTop, Signals, Score, Decision, SignalTop, Apply;
    if ticks != [] {
      var before := ticks[..|ticks| - 1];
      SignalsRememberLastTop(sel, before);
      var s1 := Counted(Run(sel, START, before), ticks[|ticks| - 1]);
      match SignalTop(s1.book) {
        case None =>
        case Some(t) =>
          ScoreGates(sel, s1, LastTop(before), t);
          SignalsAfterOnTop(sel, s1, t);
      }
    }
  }

  /** The fills of a run, told from the tops alone. */
  function FillsOf(sel: Selection, ticks: seq<MarketTick>): seq<Fill>
    decreases |ticks|
  {
    if ticks == [] then []
    else
      var before := ticks[..|ticks| - 1];
      match SignalTop(BookAfter(ticks))
      case None => FillsOf(sel, before)
      case Some(t) =>
        var order := Decision(sel, LastTop(before), t);
        if order == 0 then FillsOf(sel, before) else FillsOf(sel, before) + [FillAt(t, order)]
  }

  /** The trades reported in a log. */
  function TradesIn(log: seq<LogEntry>): seq<Fill>
    decreases |log|
  {
    if log == [] then []
    else
      var e := log[|log| - 1];
      if e.kind == 'T' then TradesIn(log[..|log| - 1]) + [Fill(e.size, e.price)]
      else TradesIn(log[..|log| - 1])
  }

  lemma TradesInSnoc(log: seq<LogEntry>, e: LogEntry)
    ensures TradesIn(log + [e]) == if e.kind == 'T' then TradesIn(log) + [Fill(e.size, e.price)] else TradesIn(log)
  {
    assert (log + [e])[..|log|] == log;
  }

  lemma {:induction false} AddFillsSnoc(p: Position, fills: seq<Fill>, f: Fill)
    ensures AddFills(p, fills + [f]) == AddFill(AddFills(p, fills), f)
    decreases |fills|
  {
    hide AddFill;
    if fills == [] {
      assert AddFills(AddFill(p, f), []) == AddFill(p, f);
    } else {
      assert (fills + [f])[1..] == fills[1..] + [f];
      AddFillsSnoc(AddFill(p, fills[0]), fills[1..], f);
    }
  }

  lemma MarkedIsNoTrade(s: State, t: Top)
    ensures TradesIn(Marked(s, t).log) == TradesIn(s.log)
    ensures Marked(s, t) == s.(log := Marked(s, t).log)
  {
    TradesInSnoc(s.log, LogEntry('P', MidPrice(t), s.position.size, Equity(s.position, MidPrice(t))));
  }

  lemma TradedIsTrade(s: State, f: Fill)
    ensures Traded(s, f).position == if f.size == 0 then s.position else AddFill(s.position, f)
    ensures TradesIn(Traded(s, f).log) == if f.size == 0 then TradesIn(s.log) else TradesIn(s.log) + [f]
  {
    hide AddFill;
    TradesInSnoc(s.log, LogEntry('T', f.price, f.size, AddFill(s.position, f).realized));
  }

  lemma OnTopTrades(sel: Selection, s: State, last: Option<Top>, t: Top)
    requires SignalTop(s.book) == Some(t) && (last.Some? ==> TopOk(last.value) && SizeSum(last.value) != 0)
    requires s.momentum == MomentumOf(sel, last) && s.ofi == OfiOf(sel, last)
    ensures
      var order := Decision(sel, last, t);
      var s' := OnTop(sel, s, t);
      && s'.position == (if order == 0 then s.position else AddFill(s.position, FillAt(t, order)))
      && TradesIn(s'.log) == (if order == 0 then TradesIn(s.log) else TradesIn(s.log) + [FillAt(t, order)])
  {
    hide AddFill, Signals, Score, Decision, Order, SignalTop, MomentumOf, OfiOf, Marked, Traded, TradesIn, CentsToPrice;
    var first := if s.emittedInitial then s else Marked(s, t).(emittedInitial := true);
    var order := Decision(sel, last, t);
    MarkedIsNoTrade(s, t);
    ScoreGates(sel, first, last, t);
    var (momentum, jump, ofi, confidence) := Signals(sel, first);
    var updated := first.(momentum := momentum, ofi := ofi);
    TradedIsTrade(updated, FillAt(t, order));
    MarkedIsNoTrade(Traded(updated, FillAt(t, order)), t);
  }

  /** The whole run from the tops alone: the position is that of the fills the gates allow, and the
      log reports exactly those. */
  lemma {:induction false} RunTradesOnTops(sel: Selection, ticks: seq<MarketTick>)
    ensures Run(sel, START, ticks).position == AddFills(FLAT, FillsOf(sel, ticks))
    ensures TradesIn(Run(sel, START, ticks).log) == FillsOf(sel, ticks)
    decreases |ticks|
  {
    hide AddFill, OnTop;
    if ticks != [] {
      var before := ticks[..|ticks| - 1];
      RunTradesOnTops(sel, before);
      SignalsRememberLastTop(sel, before);
      var s1 := Counted(Run(sel, START, before), ticks[|ticks| - 1]);
      match SignalTop(s1.book) {
        case None =>
        case Some(t) =>
          OnTopTrades(sel, s1, LastTop(before), t);
          var order := Decision(sel, LastTop(before), t);
          AddFillsSnoc(FLAT, FillsOf(sel, before), FillAt(t, order));
      }
    }
  }

  /** The position after an update moves by the order its scores give. */
  lemma OnTopSize(sel: Selection, s: State, t: Top)
    ensures
      var (momentum, jump, ofi, confidence) :=
        Signals(sel, if s.emittedInitial then s else Marked(s, t).(emittedInitial := true));
      OnTop(sel, s, t).position.size == s.position.size + Order(Score(sel, jump, confidence))
  {
    hide Signals, Score, Equity, MidPrice, CentsToPrice, Average, Closed;
  }

  // ---------------------------------------------------------------- nothing new, no trade

  lemma SameTopNeverTrades(sel: Selection, t: Top)
    requires SizeSum(t) != 0
    ensures Decision(sel, Some(t), t) == 0
  {
    OfiAlpha.SameTopConfidence(t);
  }

  /** An update that finds the top as the previous update left it does not trade. */
  lemma UnchangedTopNeverTrades(sel: Selection, ticks: seq<MarketTick>, tick: MarketTick)
    requires SignalTop(BookAfter(ticks + [tick])) == LastTop(ticks)
    ensures Run(sel, START, ticks + [tick]).position == Run(sel, START, ticks).position
    ensures FillsOf(sel, ticks + [tick]) == FillsOf(sel, ticks)
  {
    hide AddFill, OnTop, Decision;
    assert (ticks + [tick])[..|ticks|] == ticks;
    RunTradesOnTops(sel, ticks);
    RunTradesOnTops(sel, ticks + [tick]);
    match LastTop(ticks) {
      case None =>
      case Some(t) => SameTopNeverTrades(sel, t);
    }
  }

  lemma OnTopEmitsInitial(sel: Selection, s: State, t: Top)
    ensures OnTop(sel, s, t).emittedInitial && OnTop(sel, s, t).book == s.book
  {
    hide Signals, Order, Score, AddFill, Equity, MidPrice;
  }

  /** On a top the signals already remember, at most a mark is logged. */
  lemma OnTopIdles(sel: Selection, s: State, t: Top)
    requires SignalTop(s.book) == Some(t) && s.emittedInitial
    requires s.momentum == MomentumOf(sel, Some(t)) && s.ofi == OfiOf(sel, Some(t))
    ensures OnTop(sel, s, t) == s || OnTop(sel, s, t) == Marked(s, t)
  {
    ScoreGates(sel, s, Some(t), t);
    SameTopNeverTrades(sel, t);
    hide Signals, Order, Score, Marked, Decision, CentsToPrice, AddFill;
  }

  /** The same tick twice in a row: the second changes nothing but the tick count and, at most, one
      mark-to-market entry in the log. */
  lemma RepeatedTickIsIdle(sel: Selection, ticks: seq<MarketTick>, tick: MarketTick)
    ensures
      var s := Run(sel, START, ticks + [tick]);
      var s' := Step(sel, s, tick);
      && s'.book == s.book && s'.momentum == s.momentum && s'.ofi == s.ofi
      && s'.position == s.position && s'.emittedInitial == s.emittedInitial
      && (s'.log == s.log || exists e: LogEntry :: e.kind == 'P' && s'.log == s.log + [e])
  {
    hide OnTop, MidPrice, Equity, MomentumOf, OfiOf;
    var all := ticks + [tick];
    assert all[..|ticks|] == ticks;
    var s := Run(sel, START, all);
    SignalsRememberLastTop(sel, all);
    SignalsRememberLastTop(sel, ticks);
    assert Apply(s.book, tick) == s.book;
    match SignalTop(s.book) {
      case None =>
      case Some(t) =>
        OnTopEmitsInitial(sel, Counted(Run(sel, START, ticks), tick), t);
        OnTopIdles(sel, Counted(s, tick), t);
    }
  }

  // ---------------------------------------------------------------- the engine's position

  /** A fill the engine can make. */
  predicate EngineFill(f: Fill) {
    (f.size == TRADE_SIZE || f.size == -TRADE_SIZE) && 0.0 <= f.price <= 1.0
  }

  lemma {:induction false} FillsAreEngineFills(sel: Selection, ticks: seq<MarketTick>)
    ensures forall i :: 0 <= i < |FillsOf(sel, ticks)| ==> EngineFill(FillsOf(sel, ticks)[i])
    decreases |ticks|
  {
    hide Decision;
    if ticks != [] {
      FillsAreEngineFills(sel, ticks[..|ticks| - 1]);
      match SignalTop(BookAfter(ticks)) {
        case None =>
        case Some(t) => DecisionIsEngineFill(sel, LastTop(ticks[..|ticks| - 1]), t);
      }
    }
  }

  lemma DecisionIsEngineFill(sel: Selection, last: Option<Top>, t: Top)
    requires TopOk(t) && SizeSum(t) != 0 && (last.Some? ==> SizeSum(last.value) != 0)
    ensures Decision(sel, last, t) != 0 ==> EngineFill(FillAt(t, Decision(sel, last, t)))
  {
    hide Buys, Sells;
  }

  function BuyCount(fills: seq<Fill>): nat
    decreases |fills|
  {
    if fills == [] then 0 else (if fills[0].size > 0 then 1 else 0) + BuyCount(fills[1..])
  }

  lemma {:induction false} TotalsOfEngineFills(fills: seq<Fill>)
    requires forall i :: 0 <= i < |fills| ==> EngineFill(fills[i])
    ensures BuyCount(fills) <= |fills|
    ensures TotalSize(fills) == TRADE_SIZE * (BuyCount(fills) - (|fills| - BuyCount(fills)))
    ensures TotalAbs(fills) == TRADE_SIZE * |fills|
    decreases |fills|
  {
    if fills != [] {
      assert EngineFill(fills[0]);
      forall i | 0 <= i < |fills[1..]|
        ensures EngineFill(fills[1..][i])
      {
        assert EngineFill(fills[i + 1]);
      }
      TotalsOfEngineFills(fills[1..]);
    }
  }

  lemma {:induction false} WorthBound(fills: seq<Fill>, mark: real)
    requires forall i :: 0 <= i < |fills| ==> EngineFill(fills[i])
    requires 0.0 <= mark <= 1.0
    ensures -((TRADE_SIZE * |fills|) as real) <= Worth(fills, mark) <= (TRADE_SIZE * |fills|) as real
    decreases |fills|
  {
    if fills != [] {
      forall i | 0 <= i < |fills[1..]|
        ensures EngineFill(fills[1..][i])
      {
        assert EngineFill(fills[i + 1]);
      }
      WorthBound(fills[1..], mark);
      WorthUnfolds(fills, mark);
      assert EngineFill(fills[0]);
      var d := mark - fills[0].price;
      assert -1.0 <= d <= 1.0;
      assert Amount(fills[0].size, d) == if fills[0].size > 0 then 10.0 * d else -10.0 * d;
    }
  }

  /** The engine's position after any ticks: ten times buys less sales; average entry price in [0, 1];
      equity, at any mark in [0, 1], within ten times the number of trades. */
  lemma EnginePosition(sel: Selection, ticks: seq<MarketTick>, mark: real)
    requires 0.0 <= mark <= 1.0
    ensures
      var p, fills := Run(sel, START, ticks).position, FillsOf(sel, ticks);
      && p.size == TRADE_SIZE * (BuyCount(fills) - (|fills| - BuyCount(fills)))
      && InUnit(p)
      && -((TRADE_SIZE * |fills|) as real) <= Equity(p, mark) <= (TRADE_SIZE * |fills|) as real
      && -(ClosedVolume(0, fills) as real) <= p.realized <= ClosedVolume(0, fills) as real
  {
    hide AddFill, Amount, FillsOf, Run, AddFills, Worth, ClosedVolume, TotalSize;
    var fills := FillsOf(sel, ticks);
    RunTradesOnTops(sel, ticks);
    FillsAreEngineFills(sel, ticks);
    TotalsOfEngineFills(fills);
    SizeIsTotal(FLAT, fills);
    EquityConserved(FLAT, fills, mark);
    AmountTrivial(0, mark - FLAT.average);
    WorthBound(fills, mark);
    forall i | 0 <= i < |fills|
      ensures 0.0 <= fills[i].price <= 1.0
    {
      assert EngineFill(fills[i]);
    }
    RealizedWithinClosedVolume(FLAT, fills);
  }

  /** No fill of a run crosses zero, and none overflows an `int` while the trades stay below the
      range. */
  lemma EngineNeverFlipsNorOverflows(sel: Selection, ticks: seq<MarketTick>)
    ensures
      var fills := FillsOf(sel, ticks);
      forall i :: 0 <= i < |fills| ==>
        var size := AddFills(FLAT, fills[..i]).size;
        && (size != 0 && !SameSign(size, fills[i].size) ==> Abs(fills[i].size) <= Abs(size))
        && (TRADE_SIZE * |fills| <= INT_MAX ==> NoOverflow(size, fills[i].size))
  {
    hide FillsOf, AddFills;
    var fills := FillsOf(sel, ticks);
    FillsAreEngineFills(sel, ticks);
    forall i | 0 <= i < |fills|
      ensures
        var size := AddFills(FLAT, fills[..i]).size;
        && (size != 0 && !SameSign(size, fills[i].size) ==> Abs(fills[i].size) <= Abs(size))
        && (TRADE_SIZE * |fills| <= INT_MAX ==> NoOverflow(size, fills[i].size))
    {
      FillNeitherFlipsNorOverflows(fills, i);
    }
  }

  lemma FillNeitherFlipsNorOverflows(fills: seq<Fill>, i: nat)
    requires i < |fills| && forall j :: 0 <= j < |fills| ==> EngineFill(fills[j])
    ensures
      var size := AddFills(FLAT, fills[..i]).size;
      && (size != 0 && !SameSign(size, fills[i].size) ==> Abs(fills[i].size) <= Abs(size))
      && (TRADE_SIZE * |fills| <= INT_MAX ==> NoOverflow(size, fills[i].size))
  {
    hide AddFills, TotalSize, TotalAbs, BuyCount;
    forall j | 0 <= j < |fills[..i]|
      ensures EngineFill(fills[..i][j])
    {
      assert EngineFill(fills[j]);
    }
    TotalsOfEngineFills(fills[..i]);
    TotalsOfEngineFills(fills);
    SizeIsTotal(FLAT, fills[..i]);
    assert EngineFill(fills[i]);
    if AddFills(FLAT, fills[..i]).size != 0 {
      TensAreApart(AddFills(FLAT, fills[..i]).size, 2 * BuyCount(fills[..i]) - i);
    }
    if TRADE_SIZE * |fills| <= INT_MAX {
      TotalBoundsOverflow(0, fills, i);
    }
  }

  lemma TensAreApart(size: int, n: int)
    requires size == TRADE_SIZE * n && size != 0
    ensures Abs(size) >= TRADE_SIZE
  {
  }
}
