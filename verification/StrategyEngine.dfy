/** The engine object: book, signals and position updated in place, tick by tick. */
module StrategyEngine {
  import opened Machine
  import opened OrderBook
  import opened Microprice
  import opened PositionManager
  import E = Engine
  import MomentumAlpha
  import OfiAlpha

  /** An element of the engine's list of signals. */
  datatype Signal = MomentumAt(momentum: MomentumAlpha.MomentumAlpha) | OfiAt(ofi: OfiAlpha.OFIAlpha)

  /** The ticks among the outcomes of the loop's polls of the queue. */
  function Popped(polls: seq<Option<MarketTick>>): seq<MarketTick>
    decreases |polls|
  {
    if polls == [] then []
    else
      var rest := Popped(polls[..|polls| - 1]);
      match polls[|polls| - 1]
      case None => rest
      case Some(t) => rest + [t]
  }

  /** The sum of the first `i` scores. */
  function PartialScore(sel: E.Selection, jump: real, confidence: real, i: nat): real {
    if i == 0 then 0.0
    else if i == 1 then (if E.UsesMomentum(sel) then jump else confidence)
    else jump + confidence
  }

  /** A position an `int` holds with its negation. */
  predicate Fits(size: int) {
    Abs(size) <= INT_MAX
  }

  lemma RunSnoc(sel: E.Selection, s: E.State, ticks: seq<MarketTick>, t: MarketTick)
    ensures E.Run(sel, s, ticks + [t]) == E.Step(sel, E.Run(sel, s, ticks), t)
  {
    assert (ticks + [t])[..|ticks|] == ticks;
  }

  class StrategyEngine {
    const book: LimitOrderBook
    const positionManager: PositionManager
    const selection: E.Selection
    const signals: seq<Signal>
    var emittedInitialP: bool
    var logged: seq<E.LogEntry>  // what was handed to the logger

    /** The signals the selection calls for, in order. */
    predicate SignalsMatch() {
      match selection
      case SelectMomentum => |signals| == 1 && signals[0].MomentumAt?
      case SelectOfi => |signals| == 1 && signals[0].OfiAt?
      case SelectBoth => |signals| == 2 && signals[0].MomentumAt? && signals[1].OfiAt?
    }

    ghost predicate Valid()
      reads this, book, book.bids, book.asks, positionManager
    {
      && book.Valid()
      && SignalsMatch()
      && positionManager.Valid()
    }

    ghost function SignalObjects(): set<object>
      requires SignalsMatch()
    {
      (if E.UsesMomentum(selection) then {signals[0].momentum as object} else {}) +
      (if E.UsesOfi(selection) then {signals[|signals| - 1].ofi as object} else {})
    }

    ghost function MomentumValue(): MomentumAlpha.Momentum
      requires SignalsMatch()
      reads if E.UsesMomentum(selection) then {signals[0].momentum as object} else {}
    {
      if E.UsesMomentum(selection) then signals[0].momentum.Value() else MomentumAlpha.START
    }

    ghost function OfiValue(): OfiAlpha.Ofi
      requires SignalsMatch()
      reads if E.UsesOfi(selection) then {signals[|signals| - 1].ofi as object} else {}
    {
      if E.UsesOfi(selection) then signals[|signals| - 1].ofi.Value() else OfiAlpha.START
    }

    /** The state of the engine, the loop's tick counter included. */
    ghost function Value(ticks: uint64): E.State
      requires Valid()
      reads this, book, book.bids, book.asks, positionManager, SignalObjects()
    {
      E.State(book.Value(), MomentumValue(), OfiValue(), positionManager.Value(), emittedInitialP, ticks, logged)
    }

    constructor (selection: E.Selection)
      ensures Valid() && Value(0) == E.START && this.selection == selection
      ensures fresh(book) && fresh(book.bids) && fresh(book.asks) && fresh(positionManager) && fresh(SignalObjects())
    {
      this.selection := selection;
      book := new LimitOrderBook();
      positionManager := new PositionManager();
      emittedInitialP, logged := false, [];
      match selection {
        case SelectMomentum =>
          var momentum := new MomentumAlpha.MomentumAlpha();
          signals := [MomentumAt(momentum)];
        case SelectOfi =>
          var ofi := new OfiAlpha.OFIAlpha();
          signals := [OfiAt(ofi)];
        case SelectBoth =>
          var momentum := new MomentumAlpha.MomentumAlpha();
          var ofi := new OfiAlpha.OFIAlpha();
          signals := [MomentumAt(momentum), OfiAt(ofi)];
      }
    }

    /** A mark-to-market entry: the equity of the position at the mid price. */
    method LogMark(top: Top, ghost ticks: uint64)
      requires Valid() && top.bid <= MAX_PRICE && top.ask <= MAX_PRICE
      modifies this`logged
      ensures Valid() && Value(ticks) == E.Marked(old(Value(ticks)), top)
    {
      var midPrice := (E.CentsToPrice(top.bid) + E.CentsToPrice(top.ask)) * 0.5;
      var unrealized := positionManager.GetUnrealizedPnl(midPrice);
      var equityPnl := positionManager.realizedPnl + unrealized;
      logged := logged + [E.LogEntry('P', midPrice, positionManager.positionSize as int, equityPnl)];
    }

    /** Updates every signal and averages their scores. */
    method AverageScore(ghost ticks: uint64) returns (score: real)
      requires Valid()
      modifies SignalObjects()
      ensures Valid()
      ensures
        var (momentum, jump, ofi, confidence) := E.Signals(selection, old(Value(ticks)));
        && Value(ticks) == old(Value(ticks)).(momentum := momentum, ofi := ofi)
        && score == E.Score(selection, jump, confidence)
    {
      hide MomentumAlpha.Update, OfiAlpha.Update;
      ghost var s := Value(ticks);
      ghost var (momentum, jump, ofi, confidence) := E.Signals(selection, s);
      var scoreSum := 0.0;
      var n := |signals|;
      for i := 0 to n
        invariant book.Value() == s.book
        invariant scoreSum == PartialScore(selection, jump, confidence, i)
        invariant MomentumValue() == if i >= 1 then momentum else s.momentum
        invariant OfiValue() == if i >= n then ofi else s.ofi
      {
        var update: real;
        match signals[i] {
          case MomentumAt(alpha) => update := alpha.UpdateScore(book);
          case OfiAt(alpha) => update := alpha.UpdateScore(book);
        }
        scoreSum := scoreSum + update;
      }
      score := scoreSum / n as real;
    }

    /** Buys at the ask or sells at the bid when the score is strong enough. */
    method Trade(score: real, top: Top, ghost ticks: uint64)
      requires Valid() && TopOk(top)
      requires Fits(positionManager.positionSize as int)
      requires Fits(positionManager.positionSize as int + E.Order(score))
      modifies positionManager, this`logged
      ensures Valid()
      ensures Value(ticks) == E.Traded(old(Value(ticks)), E.FillAt(top, E.Order(score)))
    {
      hide AddFill, E.CentsToPrice;
      var fillSize: int32 := 0;
      var fillPrice := 0.0;
      if score >= E.THRESHOLD {
        fillSize := 10;
        fillPrice := E.CentsToPrice(top.ask);
      } else if score <= -E.THRESHOLD {
        fillSize := -10;
        fillPrice := E.CentsToPrice(top.bid);
      }
      SizeAfter(positionManager.Value(), fillSize as int, fillPrice);
      if fillSize != 0 {
        positionManager.AddFill(fillSize, fillPrice);
        logged := logged + [E.LogEntry('T', fillPrice, fillSize as int, positionManager.realizedPnl)];
      }
    }

    lemma SizeAfter(p: Position, size: int, price: real)
      ensures Filled(p, size, price) == AddFill(p, Fill(size, price))
      ensures AddFill(p, Fill(size, price)).size == p.size + size
    {
    }

    /** The top of book, unless a side is empty or the size sum is zero. */
    method ReadTop() returns (top: Option<Top>)
      requires book.Valid()
      ensures top == SignalTop(book.Value())
    {
      hide HighestBelow, LowestFrom;
      var bestBid := book.GetBestBid();
      var bestAsk := book.GetBestAsk();
      if bestBid == NO_PRICE || bestAsk == NO_PRICE {
        return None;
      }
      var bestBidSize := book.GetBidSize(bestBid);
      var bestAskSize := book.GetAskSize(bestAsk);
      var denom := AddU32(bestBidSize, bestAskSize);
      if denom == 0 {
        return None;
      }
      return Some(Top(bestBid, bestAsk, bestBidSize, bestAskSize));
    }

    /** The body of the loop after a successful pop; `ticks` counts this tick already. */
    method OnTick(tick: MarketTick, ticks: uint64)
      requires Valid() && Fits(positionManager.positionSize as int)
      requires
        Fits(E.AfterTick(selection, Value(ticks).(book := Apply(book.Value(), tick))).position.size)
      modifies this, book.bids, book.asks, positionManager, SignalObjects()
      ensures Valid()
      ensures Value(ticks) ==
                E.AfterTick(selection, old(Value(ticks)).(book := Apply(old(book.Value()), tick)))
    {
      ghost var s := Value(ticks).(book := Apply(book.Value(), tick));
      hide E.Signals, E.Score, E.Traded, E.Marked, E.Order, E.FillAt, HighestBelow, LowestFrom, AddFill;
      hide SignalTop, Apply;
      book.ApplyTick(tick);
      var found := ReadTop();
      if found == None {
        return;
      }
      var top := found.value;
      E.OnTopSize(selection, s, top);
      if !emittedInitialP {
        LogMark(top, ticks);
        emittedInitialP := true;
      }
      var combinedScore := AverageScore(ticks);
      Trade(combinedScore, top, ticks);
      if ticks % 1000 == 0 {
        LogMark(top, ticks);
      }
    }

    /** Counts a popped tick and processes it. */
    method CountTick(tick: MarketTick, ticks: uint64) returns (ticks': uint64)
      requires Valid() && Fits(positionManager.positionSize as int)
      requires Fits(E.Step(selection, Value(ticks), tick).position.size)
      modifies this, book.bids, book.asks, positionManager, SignalObjects()
      ensures Valid()
      ensures ticks' == (ticks + 1) % TWO_64
      ensures Value(ticks') == E.Step(selection, old(Value(ticks)), tick)
    {
      hide E.AfterTick, Apply;
      ticks' := (ticks + 1) % TWO_64;
      OnTick(tick, ticks');
    }

    /** The loop over any outcomes of its polls, from any state, is the sequential engine folded over
        the ticks popped, as long as the position fits an `int`. */
    method Run(polls: seq<Option<MarketTick>>)
      requires Valid()
      requires forall n :: 0 <= n <= |Popped(polls)| ==>
                 Fits(E.Run(selection, Value(0), Popped(polls)[..n]).position.size)
      modifies this, book.bids, book.asks, positionManager, SignalObjects()
      ensures Valid()
      ensures Value(|Popped(polls)| % TWO_64) == E.Run(selection, old(Value(0)), Popped(polls))
    {
      hide E.Step, E.Run, Popped;
      ghost var s := Value(0);
      var ticksProcessed: uint64 := 0;
      RunOfNothing(selection, s);
      for i := 0 to |polls|
        invariant Valid()
        invariant ticksProcessed == |Popped(polls[..i])| % TWO_64
        invariant Value(ticksProcessed) == E.Run(selection, s, Popped(polls[..i]))
      {
        PoppedSnoc(polls, i);
        PoppedIsPrefix(polls, i);
        PoppedIsPrefix(polls, i + 1);
        match polls[i] {
          case None =>
          case Some(tick) =>
            RunSnoc(selection, s, Popped(polls[..i]), tick);
            CountWraps(|Popped(polls[..i])|);
            ticksProcessed := CountTick(tick, ticksProcessed);
        }
      }
      assert polls[..|polls|] == polls;
    }
  }

  lemma RunOfNothing(sel: E.Selection, s: E.State)
    ensures Popped([]) == [] && E.Run(sel, s, []) == s
  {
  }

  lemma PoppedSnoc(polls: seq<Option<MarketTick>>, i: nat)
    requires i < |polls|
    ensures Popped(polls[..i + 1]) ==
              if polls[i].None? then Popped(polls[..i]) else Popped(polls[..i]) + [polls[i].value]
  {
    assert polls[..i + 1][..i] == polls[..i];
  }

  lemma {:induction false} PoppedIsPrefix(polls: seq<Option<MarketTick>>, i: nat)
    requires i <= |polls|
    ensures |Popped(polls[..i])| <= |Popped(polls)|
    ensures Popped(polls[..i]) == Popped(polls)[..|Popped(polls[..i])|]
    decreases |polls| - i
  {
    hide Popped;
    if i == |polls| {
      assert polls[..i] == polls;
    } else {
      PoppedSnoc(polls, i);
      PoppedIsPrefix(polls, i + 1);
    }
  }

  lemma CountWraps(n: nat)
    ensures (n % TWO_64 + 1) % TWO_64 == (n + 1) % TWO_64
  {
  }
}
