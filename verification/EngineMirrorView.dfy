/** What the complement market shows from outside: scores and the four numbers a trader sees, the stored
    microprice aside. Their symmetry is exact too, and survives some wrapped size sums. */
module EngineMirrorView {
  import opened Machine
  import opened OrderBook
  import opened Microprice
  import opened PositionManager
  import opened Engine
  import opened EngineMirror

  // ---------------------------------------------------------------- scores of two consecutive tops

  /** How far a wrapped size sum drives the microprices of the two markets apart: they add up to a
      hundred cents and this. */
  function Excess(t: Top): real
    requires SizeSum(t) != 0
  {
    if NoWrap(t) then 0.0 else 100.0 * TWO_32 as real / SizeSum(t) as real
  }

  lemma MirrorMicroExcess(t: Top)
    requires TopOk(t) && SizeSum(t) != 0
    ensures TopOk(MirrorTop(t)) && SizeSum(MirrorTop(t)) == SizeSum(t)
    ensures Micro(MirrorTop(t)) == 100.0 + Excess(t) - Micro(t)
  {
    MirrorMicroSum(t);
    SumCases(t);
    QuotientTimes(100.0 * TWO_32 as real, SizeSum(t) as real);
    hide Micro, SizeSum;
    var over := if NoWrap(t) then 0.0 else TWO_32 as real;
    ExcessOfSum(Micro(t) + Micro(MirrorTop(t)), SizeSum(t) as real, over, Excess(t));
  }

  lemma ExcessOfSum(m: real, d: real, over: real, e: real)
    requires d != 0.0 && m * d == 100.0 * (d + over) && e * d == 100.0 * over
    ensures m == 100.0 + e
  {
    assert (100.0 + e) * d == 100.0 * d + e * d;
    SameTimes(m, 100.0 + e, d);
  }

  /** The microprice's move between two tops crosses a cent, up or down, exactly when it does without
      what wrapping adds to it. */
  predicate MoveUnaffected(last: Top, t: Top)
    requires SizeSum(last) != 0 && SizeSum(t) != 0
  {
    var move, shift := Micro(t) - Micro(last), Excess(t) - Excess(last);
    (move > 1.0 <==> move > 1.0 + shift) && (move < -1.0 <==> move < -1.0 + shift)
  }

  /** The momentum scores of the two markets are opposite exactly then. */
  lemma MirrorJump(last: Top, t: Top)
    requires TopOk(last) && TopOk(t) && SizeSum(last) != 0 && SizeSum(t) != 0
    ensures TopOk(MirrorTop(last)) && TopOk(MirrorTop(t))
    ensures SizeSum(MirrorTop(last)) == SizeSum(last) && SizeSum(MirrorTop(t)) == SizeSum(t)
    ensures
      var jump := MomentumAlpha.Jump(Micro(last), Micro(t));
      MomentumAlpha.Jump(Micro(MirrorTop(last)), Micro(MirrorTop(t))) == -jump <==> MoveUnaffected(last, t)
  {
    MirrorMicroExcess(last);
    MirrorMicroExcess(t);
    hide Micro, Excess, SizeSum;
  }

  /** Two consecutive tops give opposite scores in the two markets. */
  predicate Balanced(sel: Selection, last: Option<Top>, t: Top)
    requires SizeSum(t) != 0 && (last.Some? ==> SizeSum(last.value) != 0)
  {
    last.Some? ==> (UsesMomentum(sel) ==> MoveUnaffected(last.value, t)) && (UsesOfi(sel) ==> NoWrap(t))
  }

  function MirrorLast(last: Option<Top>): Option<Top>
    requires last.Some? ==> TopOk(last.value)
  {
    if last.Some? then Some(MirrorTop(last.value)) else None
  }

  /** The scores of an update, from the two tops alone. */
  function ScoresOn(sel: Selection, last: Option<Top>, t: Top): (real, real)
    requires SizeSum(t) != 0 && (last.Some? ==> SizeSum(last.value) != 0)
  {
    (if last.Some? && UsesMomentum(sel) then MomentumAlpha.Jump(Micro(last.value), Micro(t)) else 0.0,
     if last.Some? && UsesOfi(sel) then OfiAlpha.Confidence(last.value, t) else 0.0)
  }

  lemma MirrorScores(sel: Selection, last: Option<Top>, t: Top)
    requires TopOk(t) && SizeSum(t) != 0 && (last.Some? ==> TopOk(last.value) && SizeSum(last.value) != 0)
    ensures SizeSum(MirrorTop(t)) != 0 && (last.Some? ==> SizeSum(MirrorTop(last.value)) != 0)
    ensures
      var (jump, confidence) := ScoresOn(sel, last, t);
      ScoresOn(sel, MirrorLast(last), MirrorTop(t)) == (-jump, -confidence) <==> Balanced(sel, last, t)
  {
    MirrorMicroExcess(t);
    if last.Some? {
      MirrorJump(last.value, t);
      OfiAlpha.MirrorConfidence(last.value, t);
    }
    hide Micro, OfiAlpha.Confidence, MoveUnaffected, SizeSum, MomentumAlpha.Jump;
  }

  // ---------------------------------------------------------------- updates of a run

  lemma {:induction false} MirrorTops(ticks: seq<MarketTick>)
    ensures BookAfter(MirrorTicks(ticks)) == MirrorBook(BookAfter(ticks))
    ensures LastTop(MirrorTicks(ticks)) == MirrorLast(LastTop(ticks))
    decreases |ticks|
  {
    hide SignalTop, MirrorBook, MirrorTop, Apply;
    MirrorOfStart();
    if ticks != [] {
      var before, tick := ticks[..|ticks| - 1], ticks[|ticks| - 1];
      MirrorTops(before);
      MirrorTicksSnoc(ticks);
      MirrorApply(BookAfter(before), tick);
      MirrorSignalTop(BookAfter(ticks));
    }
  }

  lemma ScoresOfUpdate(sel: Selection, s: State, last: Option<Top>, t: Top)
    requires SignalTop(s.book) == Some(t) && (last.Some? ==> TopOk(last.value) && SizeSum(last.value) != 0)
    requires s.momentum == MomentumOf(sel, last) && s.ofi == OfiOf(sel, last)
    ensures Signals(sel, s).1 == ScoresOn(sel, last, t).0 && Signals(sel, s).3 == ScoresOn(sel, last, t).1
    ensures Decision(sel, last, t) == Order(Score(sel, ScoresOn(sel, last, t).0, ScoresOn(sel, last, t).1))
  {
    ScoreGates(sel, s, last, t);
    hide MicropriceCents, OfiAlpha.Confidence, Decision, MomentumAlpha.Jump;
  }

  function OrderOn(sel: Selection, last: Option<Top>, t: Top): int
    requires SizeSum(t) != 0 && (last.Some? ==> SizeSum(last.value) != 0)
  {
    Order(Score(sel, ScoresOn(sel, last, t).0, ScoresOn(sel, last, t).1))
  }

  /** The position after an update that finds a top, or none. */
  function TradeOn(sel: Selection, last: Option<Top>, found: Option<Top>, p: Position): Position
    requires (found.Some? ==> SizeSum(found.value) != 0) && (last.Some? ==> SizeSum(last.value) != 0)
  {
    if found.None? || OrderOn(sel, last, found.value) == 0 then p
    else AddFill(p, FillAt(found.value, OrderOn(sel, last, found.value)))
  }

  /** What a tick does to a run: its scores and its trade, from tops alone. */
  lemma UpdateOnTops(sel: Selection, before: seq<MarketTick>, tick: MarketTick)
    ensures
      var s, last := Run(sel, START, before), LastTop(before);
      var found := SignalTop(Apply(s.book, tick));
      && s.book == BookAfter(before) && Apply(s.book, tick) == BookAfter(before + [tick])
      && (found.Some? ==>
            var (_, jump, _, confidence) := Signals(sel, Counted(s, tick));
            (jump, confidence) == ScoresOn(sel, last, found.value))
      && Run(sel, START, before + [tick]).position == TradeOn(sel, last, found, s.position)
  {
    hide Signals, Score, Order, OnTop, AddFill, SignalTop, Apply, ScoresOn, CentsToPrice, Decision;
    assert (before + [tick])[..|before|] == before;
    SignalsRememberLastTop(sel, before);
    var s1 := Counted(Run(sel, START, before), tick);
    match SignalTop(s1.book) {
      case None =>
      case Some(t) =>
        ScoresOfUpdate(sel, s1, LastTop(before), t);
        OnTopTrades(sel, s1, LastTop(before), t);
    }
  }

  /** Every update of the run has balanced tops. */
  predicate BalancedThroughout(sel: Selection, ticks: seq<MarketTick>)
    decreases |ticks|
  {
    ticks == [] ||
    var before, found := ticks[..|ticks| - 1], SignalTop(BookAfter(ticks));
    (found.Some? ==> Balanced(sel, LastTop(before), found.value)) && BalancedThroughout(sel, before)
  }

  /** The numbers a trader sees: position, average entry price, profit, equity at every mark. */
  ghost predicate NumbersMirrored(p: Position, p': Position) {
    && p'.size == -p.size
    && (p.size != 0 ==> p'.average == 1.0 - p.average)
    && p'.realized == p.realized
    && forall mark: real :: Equity(p', 1.0 - mark) == Equity(p, mark)
  }

  /** Opposite scores and mirrored numbers, at every step. */
  ghost predicate LooksMirrored(sel: Selection, ticks: seq<MarketTick>)
    decreases |ticks|
  {
    && NumbersMirrored(Run(sel, START, ticks).position, Run(sel, START, MirrorTicks(ticks)).position)
    && (ticks == [] ||
        var before := ticks[..|ticks| - 1];
        && ScoresNegated(sel, Run(sel, START, before), Run(sel, START, MirrorTicks(before)), ticks[|ticks| - 1])
        && LooksMirrored(sel, before))
  }

  lemma ComplementIsMirrored(p: Position)
    ensures NumbersMirrored(p, Complement(p))
  {
    forall mark: real
      ensures Equity(Complement(p), 1.0 - mark) == Equity(p, mark)
    {
      ComplementEquity(p, mark);
    }
  }

  lemma ComplementOfTrade(p: Position, t: Top, order: int)
    requires TopOk(t) && order != 0 && (p.size == 0 ==> p.average == 0.0)
    ensures AddFill(Complement(p), FillAt(MirrorTop(t), -order)) == Complement(AddFill(p, FillAt(t, order)))
    ensures AddFill(p, FillAt(t, order)).size == 0 ==> AddFill(p, FillAt(t, order)).average == 0.0
  {
    MirrorPrices(t, order);
    ComplementFill(p, FillAt(t, order));
    FlatAverageIsZero(p, FillAt(t, order));
    hide AddFill, CentsToPrice, Complement;
  }

  /** A position and its complement, as every position of a run is formed. */
  predicate Complements(p: Position, p': Position) {
    (p.size == 0 ==> p.average == 0.0) && p' == Complement(p)
  }

  lemma MirrorTrade(sel: Selection, last: Option<Top>, found: Option<Top>, p: Position, p': Position)
    requires found.Some? ==> TopOk(found.value) && SizeSum(found.value) != 0
    requires last.Some? ==> TopOk(last.value) && SizeSum(last.value) != 0
    requires found.Some? ==> Balanced(sel, last, found.value)
    requires Complements(p, p')
    ensures MirrorLast(found).Some? ==> SizeSum(MirrorLast(found).value) != 0
    ensures MirrorLast(last).Some? ==> SizeSum(MirrorLast(last).value) != 0
    ensures Complements(TradeOn(sel, last, found, p), TradeOn(sel, MirrorLast(last), MirrorLast(found), p'))
  {
    hide Score, Order, AddFill, ScoresOn, CentsToPrice, Complement, Balanced, SizeSum;
    if last.Some? {
      MirrorMicroExcess(last.value);
    }
    match found {
      case None =>
      case Some(t) =>
        var (jump, confidence) := ScoresOn(sel, last, t);
        MirrorScores(sel, last, t);
        MirrorOrder(sel, jump, confidence);
        var order := OrderOn(sel, last, t);
        if order != 0 {
          ComplementOfTrade(p, t, order);
        }
    }
  }

  /** The scores of an update are opposite exactly if its tops are balanced. */
  lemma BalancedIsNegated(sel: Selection, before: seq<MarketTick>, tick: MarketTick)
    ensures
      var found := SignalTop(BookAfter(before + [tick]));
      ScoresNegated(sel, Run(sel, START, before), Run(sel, START, MirrorTicks(before)), tick)
      <==> (found.Some? ==> Balanced(sel, LastTop(before), found.value))
  {
    hide Signals, SignalTop, Apply, ScoresOn, Run, LastTop, TradeOn, Balanced, MirrorTop, MirrorBook, MirrorTick;
    hide SizeSum;
    UpdateOnTops(sel, before, tick);
    UpdateOnTops(sel, MirrorTicks(before), MirrorTick(tick));
    MirrorTops(before);
    MirrorApply(BookAfter(before), tick);
    MirrorSignalTop(BookAfter(before + [tick]));
    match SignalTop(BookAfter(before + [tick])) {
      case None =>
      case Some(t) => MirrorScores(sel, LastTop(before), t);
    }
  }

  lemma BalancedStaysComplement(sel: Selection, before: seq<MarketTick>, tick: MarketTick)
    requires
      var found := SignalTop(BookAfter(before + [tick]));
      found.Some? ==> Balanced(sel, LastTop(before), found.value)
    requires Complements(Run(sel, START, before).position, Run(sel, START, MirrorTicks(before)).position)
    ensures Complements(Run(sel, START, before + [tick]).position,
                        Run(sel, START, MirrorTicks(before) + [MirrorTick(tick)]).position)
  {
    hide Signals, SignalTop, Apply, ScoresOn, Run, LastTop, TradeOn, Balanced, MirrorTop, MirrorBook, MirrorTick;
    hide Complements, SizeSum;
    UpdateOnTops(sel, before, tick);
    UpdateOnTops(sel, MirrorTicks(before), MirrorTick(tick));
    MirrorTops(before);
    MirrorApply(BookAfter(before), tick);
    MirrorSignalTop(BookAfter(before + [tick]));
    MirrorTrade(sel, LastTop(before), SignalTop(BookAfter(before + [tick])),
                Run(sel, START, before).position, Run(sel, START, MirrorTicks(before)).position);
  }

  lemma {:induction false} BalancedIsComplement(sel: Selection, ticks: seq<MarketTick>)
    requires BalancedThroughout(sel, ticks)
    ensures Complements(Run(sel, START, ticks).position, Run(sel, START, MirrorTicks(ticks)).position)
    decreases |ticks|
  {
    hide SignalTop, BookAfter, LastTop, Balanced, Step, MirrorTick;
    if ticks == [] {
      assert MirrorTicks([]) == [];
    } else {
      var before, tick := ticks[..|ticks| - 1], ticks[|ticks| - 1];
      BalancedIsComplement(sel, before);
      assert before + [tick] == ticks;
      BalancedStaysComplement(sel, before, tick);
      MirrorTicksSnoc(ticks);
      assert MirrorTicks(before) + [MirrorTick(tick)] == MirrorTicks(ticks);
    }
  }

  /** Symmetry as seen from outside, exactly, for every selection: at every step of a run the complement
      market shows opposite scores, the opposite position, the complementary average, and the same
      profit and marked equity, if and only if every update has balanced tops. */
  lemma {:induction false} MirroredNumbers(sel: Selection, ticks: seq<MarketTick>)
    ensures LooksMirrored(sel, ticks) <==> BalancedThroughout(sel, ticks)
    decreases |ticks|
  {
    hide SignalTop, BookAfter, LastTop, Balanced, Run, NumbersMirrored, ScoresNegated, MirrorTick;
    if BalancedThroughout(sel, ticks) {
      BalancedIsComplement(sel, ticks);
      ComplementIsMirrored(Run(sel, START, ticks).position);
    }
    if ticks != [] {
      var before, tick := ticks[..|ticks| - 1], ticks[|ticks| - 1];
      assert before + [tick] == ticks;
      MirroredNumbers(sel, before);
      BalancedIsNegated(sel, before, tick);
    }
  }

  // ---------------------------------------------------------------- whole states and what is seen

  lemma {:induction false} LastNeverWraps(sel: Selection, ticks: seq<MarketTick>)
    requires UsesMomentum(sel) && NeverUpset(sel, ticks) && LastTop(ticks).Some?
    ensures NoWrap(LastTop(ticks).value)
    decreases |ticks|
  {
    hide SignalTop, BookAfter;
    if SignalTop(BookAfter(ticks)).None? {
      LastNeverWraps(sel, ticks[..|ticks| - 1]);
    }
  }

  /** A run whose states are mirrored looks mirrored. */
  lemma {:induction false} NeverUpsetIsBalanced(sel: Selection, ticks: seq<MarketTick>)
    requires NeverUpset(sel, ticks)
    ensures BalancedThroughout(sel, ticks)
    decreases |ticks|
  {
    hide SignalTop, BookAfter, LastTop, Micro;
    if ticks != [] {
      var before := ticks[..|ticks| - 1];
      NeverUpsetIsBalanced(sel, before);
      if UsesMomentum(sel) && LastTop(before).Some? {
        LastNeverWraps(sel, before);
      }
    }
  }

  /** Not the other way: when only the first update wraps, momentum stores microprices that are not
      complementary, but nothing of that shows until the next update. */
  lemma WrappedStartLooksMirrored()
    ensures
      var ticks := [MarketTick(40, TWO_31, true), MarketTick(60, TWO_31 + 1, false)];
      BalancedThroughout(SelectMomentum, ticks) && !NeverUpset(SelectMomentum, ticks)
  {
    var ticks := [MarketTick(40, TWO_31, true), MarketTick(60, TWO_31 + 1, false)];
    var t1 := ticks[..1];
    assert t1[..0] == [] && BookAfter([]) == EmptyBook();
    assert BookAfter(t1) == Apply(EmptyBook(), ticks[0]) && BookAfter(ticks) == Apply(BookAfter(t1), ticks[1]);
    BestIsUnique(BookAfter(t1).asks, NO_PRICE, BestAsk(BookAfter(t1)));
    assert SignalTop(BookAfter(t1)) == None && LastTop(t1) == None;
    TopOfTwoLevels(BookAfter(ticks), 40, 60, TWO_31, TWO_31 + 1);
  }
}
