/** The log of a run, entry by entry, told from tops alone: which tick writes what, and at which price. */
module EngineLedger {
  import opened Machine
  import opened OrderBook
  import opened Microprice
  import opened PositionManager
  import opened Engine
  import opened EngineLog

  /** A mark: the middle of the best prices, in dollars, the position, and what it is worth there. */
  function MarkRow(t: Top, fills: seq<Fill>): LogEntry {
    var mid := (t.bid + t.ask) as real / 200.0;
    LogEntry('P', mid, TotalSize(fills), Worth(fills, mid))
  }

  /** A trade: buys of 10 at the best ask, sales of 10 at the best bid, and the profit realized by then. */
  function TradeRow(t: Top, buys: bool, fills: seq<Fill>): LogEntry {
    var f := if buys then Fill(10, t.ask as real / 100.0) else Fill(-10, t.bid as real / 100.0);
    LogEntry('T', f.price, f.size, AddFills(FLAT, fills + [f]).realized)
  }

  /** A periodic mark is due at every thousandth tick of a 64-bit count. */
  predicate MarkDue(n: nat) {
    n % 0x1_0000_0000_0000_0000 % 1000 == 0
  }

  /** What an update writes: a mark if it is the first, the trade if the gates open, a mark if one is
      due, which counts that trade. */
  function RowsOn(sel: Selection, last: Option<Top>, t: Top, fills: seq<Fill>, first: bool, due: bool): seq<LogEntry>
    requires SizeSum(t) != 0 && (last.Some? ==> SizeSum(last.value) != 0)
  {
    (if first then [MarkRow(t, fills)] else [])
    + (if Buys(sel, last, t) then [TradeRow(t, true, fills)]
       else if Sells(sel, last, t) then [TradeRow(t, false, fills)]
       else [])
    + (if !due then []
       else if Buys(sel, last, t) then [MarkRow(t, fills + [Fill(10, t.ask as real / 100.0)])]
       else if Sells(sel, last, t) then [MarkRow(t, fills + [Fill(-10, t.bid as real / 100.0)])]
       else [MarkRow(t, fills)])
  }

  /** What the last of some ticks writes; an unusable top writes nothing. */
  function Rows(sel: Selection, ticks: seq<MarketTick>): seq<LogEntry>
    requires ticks != []
  {
    var before := ticks[..|ticks| - 1];
    match SignalTop(BookAfter(ticks))
    case None => []
    case Some(t) =>
      RowsOn(sel, LastTop(before), t, FillsOf(sel, before), LastTop(before) == None, MarkDue(|ticks|))
  }

  function Ledger(sel: Selection, ticks: seq<MarketTick>): seq<LogEntry>
    decreases |ticks|
  {
    if ticks == [] then [] else Ledger(sel, ticks[..|ticks| - 1]) + Rows(sel, ticks)
  }

  lemma MidIsMiddle(t: Top)
    ensures MidPrice(t) == (t.bid + t.ask) as real / 200.0
  {
  }

  lemma MarkedWrites(s: State, t: Top, fills: seq<Fill>)
    requires s.position == AddFills(FLAT, fills)
    ensures Marked(s, t) == s.(log := s.log + [MarkRow(t, fills)])
  {
    MidIsMiddle(t);
    EquityIsWorth(fills, MidPrice(t));
    hide MidPrice, Equity, AddFills, Worth, TotalSize;
  }

  lemma TradedWrites(s: State, t: Top, buys: bool, fills: seq<Fill>)
    requires s.position == AddFills(FLAT, fills)
    ensures
      var f := FillAt(t, if buys then 10 else -10);
      && Traded(s, f) == s.(position := AddFills(FLAT, fills + [f]), log := s.log + [TradeRow(t, buys, fills)])
  {
    AddFillsSnoc(FLAT, fills, FillAt(t, if buys then 10 else -10));
    hide AddFill, AddFills;
  }

  lemma NothingTraded(s: State, f: Fill)
    requires f.size == 0
    ensures Traded(s, f) == s
  {
  }

  lemma BookUnfolds(ticks: seq<MarketTick>)
    requires ticks != []
    ensures BookAfter(ticks) == Apply(BookAfter(ticks[..|ticks| - 1]), ticks[|ticks| - 1])
  {
  }

  lemma OnTopWrites(sel: Selection, s: State, last: Option<Top>, t: Top, fills: seq<Fill>)
    requires SignalTop(s.book) == Some(t) && (last.Some? ==> TopOk(last.value) && SizeSum(last.value) != 0)
    requires s.momentum == MomentumOf(sel, last) && s.ofi == OfiOf(sel, last)
    requires s.position == AddFills(FLAT, fills)
    ensures OnTop(sel, s, t).log == s.log + RowsOn(sel, last, t, fills, !s.emittedInitial, s.ticks % 1000 == 0)
  {
    hide AddFills, Signals, Score, Order, SignalTop, MomentumOf, OfiOf, Marked, Traded, MarkRow, TradeRow;
    hide CentsToPrice, Buys, Sells;
    var first := if s.emittedInitial then s else Marked(s, t).(emittedInitial := true);
    MarkedWrites(s, t, fills);
    ScoreGates(sel, first, last, t);
    var (momentum, jump, ofi, confidence) := Signals(sel, first);
    var updated := first.(momentum := momentum, ofi := ofi);
    var order := Decision(sel, last, t);
    FillInCents(t);
    var x := if s.emittedInitial then [] else [MarkRow(t, fills)];
    assert first.log == s.log + x;
    if order != 0 {
      TradedWrites(updated, t, order > 0, fills);
      MarkedWrites(Traded(updated, FillAt(t, order)), t, fills + [FillAt(t, order)]);
      Associates(s.log, x, [TradeRow(t, order > 0, fills)], [MarkRow(t, fills + [FillAt(t, order)])]);
    } else {
      NothingTraded(updated, FillAt(t, 0));
      MarkedWrites(updated, t, fills);
      Associates(s.log, x, [], [MarkRow(t, fills)]);
    }
  }

  lemma FillInCents(t: Top)
    ensures FillAt(t, 10) == Fill(10, t.ask as real / 100.0) && FillAt(t, -10) == Fill(-10, t.bid as real / 100.0)
  {
  }

  lemma Associates<T>(a: seq<T>, x: seq<T>, y: seq<T>, z: seq<T>)
    ensures a + x + y + z == a + (x + y + z) && a + x + y == a + (x + y + [])
  {
  }

  /** Whether the initial mark was made, and how many ticks were counted. */
  lemma {:induction false} RunCounts(sel: Selection, ticks: seq<MarketTick>)
    ensures Run(sel, START, ticks).ticks == |ticks| % 0x1_0000_0000_0000_0000
    ensures Run(sel, START, ticks).emittedInitial <==> LastTop(ticks).Some?
    decreases |ticks|
  {
    hide Signals, Score, Order, Marked, Traded, SignalTop, BookAfter;
    if ticks != [] {
      var before := ticks[..|ticks| - 1];
      RunCounts(sel, before);
      SignalsRememberLastTop(sel, before);
      BookUnfolds(ticks);
      CountWraps(|before|);
      var s1 := Counted(Run(sel, START, before), ticks[|ticks| - 1]);
      match SignalTop(s1.book) {
        case None =>
        case Some(t) => OnTopCounts(sel, s1, t);
      }
    }
  }

  lemma CountWraps(n: nat)
    ensures (n % TWO_64 + 1) % TWO_64 == (n + 1) % TWO_64
  {
  }

  lemma OnTopCounts(sel: Selection, s: State, t: Top)
    ensures OnTop(sel, s, t).ticks == s.ticks && OnTop(sel, s, t).emittedInitial
  {
    hide Signals, Order, Score, AddFill, Equity, MidPrice;
  }

  /** The log of any run, entry by entry. */
  lemma {:induction false} LogIsLedger(sel: Selection, ticks: seq<MarketTick>)
    ensures Run(sel, START, ticks).log == Ledger(sel, ticks)
    decreases |ticks|
  {
    hide OnTop, AddFills, RowsOn, SignalTop, BookAfter, Apply, FillsOf, LastTop;
    if ticks != [] {
      var before := ticks[..|ticks| - 1];
      LogIsLedger(sel, before);
      SignalsRememberLastTop(sel, before);
      BookUnfolds(ticks);
      RunCounts(sel, before);
      RunTradesOnTops(sel, before);
      CountWraps(|before|);
      var s1 := Counted(Run(sel, START, before), ticks[|ticks| - 1]);
      match SignalTop(s1.book) {
        case None => assert Ledger(sel, before) + [] == Ledger(sel, before);
        case Some(t) => OnTopWrites(sel, s1, LastTop(before), t, FillsOf(sel, before));
      }
    }
  }

  // ---------------------------------------------------------------- marks and fills

  function CountMarks(log: seq<LogEntry>): nat
    decreases |log|
  {
    if log == [] then 0 else (if log[|log| - 1].kind == 'P' then 1 else 0) + CountMarks(log[..|log| - 1])
  }

  /** How many of the prefixes of a run have a length due for a mark and a usable top. */
  function DueUpdates(ticks: seq<MarketTick>): nat
    decreases |ticks|
  {
    if ticks == [] then 0
    else (if MarkDue(|ticks|) && SignalTop(BookAfter(ticks)).Some? then 1 else 0) + DueUpdates(ticks[..|ticks| - 1])
  }

  lemma {:induction false} CountMarksConcat(x: seq<LogEntry>, y: seq<LogEntry>)
    ensures CountMarks(x + y) == CountMarks(x) + CountMarks(y)
    decreases |y|
  {
    if y == [] {
      assert x + y == x;
    } else {
      assert (x + y)[..|x + y| - 1] == x + y[..|y| - 1];
      CountMarksConcat(x, y[..|y| - 1]);
    }
  }

  lemma OneRow(e: LogEntry)
    ensures CountMarks([e]) == (if e.kind == 'P' then 1 else 0) && CountMarks([]) == 0
  {
    assert [e][..0] == [];
  }

  /** The marks of a run: one at its first usable top, and one at every due tick with a usable top. */
  lemma {:induction false} MarksOfRun(sel: Selection, ticks: seq<MarketTick>)
    ensures CountMarks(Run(sel, START, ticks).log) == (if LastTop(ticks).Some? then 1 else 0) + DueUpdates(ticks)
    decreases |ticks|
  {
    LogIsLedger(sel, ticks);
    hide Run, FillsOf, SignalTop, BookAfter, Buys, Sells, AddFills, CountMarks, MarkDue;
    OneRow(LogEntry('P', 0.0, 0, 0.0));
    if ticks != [] {
      var before := ticks[..|ticks| - 1];
      LogIsLedger(sel, before);
      MarksOfRun(sel, before);
      MarksOfRows(sel, ticks);
      CountMarksConcat(Ledger(sel, before), Rows(sel, ticks));
    }
  }

  lemma MarksOfRows(sel: Selection, ticks: seq<MarketTick>)
    requires ticks != []
    ensures
      CountMarks(Rows(sel, ticks)) ==
        if SignalTop(BookAfter(ticks)).None? then 0
        else (if LastTop(ticks[..|ticks| - 1]) == None then 1 else 0) + (if MarkDue(|ticks|) then 1 else 0)
  {
    hide FillsOf, SignalTop, BookAfter, Buys, Sells, AddFills, CountMarks, MarkDue, Worth, LastTop;
    var before := ticks[..|ticks| - 1];
    OneRow(LogEntry('P', 0.0, 0, 0.0));
    match SignalTop(BookAfter(ticks)) {
      case None =>
      case Some(t) =>
        var last, fills := LastTop(before), FillsOf(sel, before);
        var x := if last == None then [MarkRow(t, fills)] else [];
        var y := if Buys(sel, last, t) then [TradeRow(t, true, fills)]
                 else if Sells(sel, last, t) then [TradeRow(t, false, fills)] else [];
        var after := if Buys(sel, last, t) then fills + [Fill(10, t.ask as real / 100.0)]
                     else if Sells(sel, last, t) then fills + [Fill(-10, t.bid as real / 100.0)] else fills;
        var z := if MarkDue(|ticks|) then [MarkRow(t, after)] else [];
        OneRow(MarkRow(t, fills));
        OneRow(TradeRow(t, true, fills));
        OneRow(TradeRow(t, false, fills));
        OneRow(MarkRow(t, after));
        CountMarksConcat(x, y);
        CountMarksConcat(x + y, z);
    }
  }

  /** A run that trades on a tick buys 10 at that tick's best ask or sells 10 at its best bid, both in
      hundredths of a dollar. */
  lemma FillPrices(sel: Selection, ticks: seq<MarketTick>, tick: MarketTick)
    requires FillsOf(sel, ticks + [tick]) != FillsOf(sel, ticks)
    ensures SignalTop(BookAfter(ticks + [tick])).Some?
    ensures |FillsOf(sel, ticks + [tick])| == |FillsOf(sel, ticks)| + 1
    ensures
      var t, fills := SignalTop(BookAfter(ticks + [tick])).value, FillsOf(sel, ticks + [tick]);
      var f := fills[|fills| - 1];
      && FillsOf(sel, ticks) == fills[..|fills| - 1]
      && (f.size == 10 || f.size == -10)
      && 100.0 * f.price == if f.size > 0 then t.ask as real else t.bid as real
  {
    hide Buys, Sells, BookAfter, SignalTop, LastTop;
    assert (ticks + [tick])[..|ticks|] == ticks;
  }
}
