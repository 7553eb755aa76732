/** The log as an account: what it reports can be recomputed from the trades it reports. */
module EngineLog {
  import opened OrderBook
  import opened Microprice
  import opened PositionManager
  import opened Engine

  /** A trade reports the profit realized by the trades up to it. A mark reports their total size, and as
      profit what they are worth at its price. */
  predicate Audited(log: seq<LogEntry>, i: nat)
    requires i < |log|
  {
    var e, before := log[i], TradesIn(log[..i]);
    if e.kind == 'T' then e.pnl == AddFills(FLAT, before + [Fill(e.size, e.price)]).realized
    else e.kind == 'P' && e.size == TotalSize(before) && e.pnl == Worth(before, e.price)
  }

  ghost predicate AllAudited(log: seq<LogEntry>) {
    forall i :: 0 <= i < |log| ==> Audited(log, i)
  }

  /** The position is the one its logged trades lead to. */
  ghost predicate Consistent(s: State) {
    s.position == AddFills(FLAT, TradesIn(s.log)) && AllAudited(s.log)
  }

  lemma AuditSnoc(log: seq<LogEntry>, e: LogEntry)
    requires AllAudited(log) && Audited(log + [e], |log|)
    ensures AllAudited(log + [e])
  {
    forall i | 0 <= i < |log + [e]|
      ensures Audited(log + [e], i)
    {
      if i < |log| {
        assert (log + [e])[..i] == log[..i];
        assert Audited(log, i);
      }
    }
  }

  lemma EquityIsWorth(fills: seq<Fill>, mark: real)
    ensures Equity(AddFills(FLAT, fills), mark) == Worth(fills, mark)
    ensures AddFills(FLAT, fills).size == TotalSize(fills)
  {
    hide AddFills, Worth, TotalSize;
    EquityConserved(FLAT, fills, mark);
    SizeIsTotal(FLAT, fills);
    AmountTrivial(0, mark);
  }

  lemma MarkedIsConsistent(s: State, t: Top)
    requires Consistent(s)
    ensures Consistent(Marked(s, t))
  {
    hide Equity, Worth, AddFills, TotalSize, MidPrice, TradesIn;
    var e := LogEntry('P', MidPrice(t), s.position.size, Equity(s.position, MidPrice(t)));
    EquityIsWorth(TradesIn(s.log), MidPrice(t));
    assert (s.log + [e])[..|s.log|] == s.log;
    assert Audited(s.log + [e], |s.log|);
    AuditSnoc(s.log, e);
    MarkedIsNoTrade(s, t);
  }

  lemma TradedIsConsistent(s: State, f: Fill)
    requires Consistent(s)
    ensures Consistent(Traded(s, f))
  {
    hide AddFill, AddFills, TradesIn;
    if f.size != 0 {
      var trades := TradesIn(s.log);
      var e := LogEntry('T', f.price, f.size, AddFill(s.position, f).realized);
      AddFillsSnoc(FLAT, trades, f);
      assert (s.log + [e])[..|s.log|] == s.log;
      assert Audited(s.log + [e], |s.log|);
      AuditSnoc(s.log, e);
      TradedIsTrade(s, f);
    }
  }

  lemma StepIsConsistent(sel: Selection, s: State, tick: MarketTick)
    requires Consistent(s)
    ensures Consistent(Step(sel, s, tick))
  {
    hide Marked, Traded, Signals, Score, Order, FillAt, TradesIn, AddFills, AllAudited, Apply;
    var s1 := Counted(s, tick);
    match SignalTop(s1.book) {
      case None =>
      case Some(t) =>
        MarkedIsConsistent(s1, t);
        MarkedIsNoTrade(s1, t);
        var first := if s1.emittedInitial then s1 else Marked(s1, t).(emittedInitial := true);
        var (momentum, jump, ofi, confidence) := Signals(sel, first);
        var updated := first.(momentum := momentum, ofi := ofi);
        var f := FillAt(t, Order(Score(sel, jump, confidence)));
        TradedIsConsistent(updated, f);
        MarkedIsConsistent(Traded(updated, f), t);
    }
  }

  /** After any ticks, every entry of the log agrees with the trades logged before it, and replaying the
      logged trades gives the engine's position, average and profit. */
  lemma {:induction false} LogIsAuditable(sel: Selection, ticks: seq<MarketTick>)
    ensures Consistent(Run(sel, START, ticks))
    decreases |ticks|
  {
    if ticks == [] {
      assert TradesIn([]) == [] && AddFills(FLAT, []) == FLAT;
    } else {
      LogIsAuditable(sel, ticks[..|ticks| - 1]);
      StepIsConsistent(sel, Run(sel, START, ticks[..|ticks| - 1]), ticks[|ticks| - 1]);
    }
  }
}
