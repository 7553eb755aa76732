/** What the order-flow score means for the book: the flow of a tick is the size it adds at or above the
    best price of its side, bids counted up and asks down. */
module OfiLaws {
  import opened Machine
  import opened OrderBook
  import opened Microprice
  import opened OfiAlpha

  // ---------------------------------------------------------------- flow

  /** The flow of one bid tick: what it adds to its level, unless that lies behind the best bid. So a
      larger best bid counts what it grew, a better bid its size, a deleted one minus its size. */
  lemma BidFlow(b: Book, t: Top, t': Top, p: uint8, n: uint32)
    requires p <= MAX_PRICE && TopOf(b) == Some(t) && TopOf(Apply(b, MarketTick(p, n, true))) == Some(t')
    ensures Flow(t, t') == if p < t.bid then 0 else n - b.bids[p]
  {
    var b' := Apply(b, MarketTick(p, n, true));
    TopIsBest(b, t);
    TopIsBest(b', t');
    hide TopOf;
    assert IsHighest(b'.bids, t'.bid) && IsLowest(b.asks, t.ask) && IsLowest(b.asks, t'.ask);
    BestIsUnique(b.asks, t.ask, t'.ask);
    if n != 0 && p >= t.bid {
      BestIsUnique(b'.bids, p, t'.bid);
    } else if p != t.bid {
      BestIsUnique(b'.bids, t.bid, t'.bid);
    } else {
      assert t'.bid < t.bid;
    }
  }

  /** The flow of one ask tick: what it takes from its level, unless that lies behind the best ask. */
  lemma AskFlow(b: Book, t: Top, t': Top, p: uint8, n: uint32)
    requires p <= MAX_PRICE && TopOf(b) == Some(t) && TopOf(Apply(b, MarketTick(p, n, false))) == Some(t')
    ensures Flow(t, t') == if p > t.ask then 0 else b.asks[p] - n
  {
    var b' := Apply(b, MarketTick(p, n, false));
    TopIsBest(b, t);
    TopIsBest(b', t');
    hide TopOf;
    assert IsLowest(b'.asks, t'.ask) && IsHighest(b.bids, t.bid) && IsHighest(b.bids, t'.bid);
    BestIsUnique(b.bids, t.bid, t'.bid);
    if n != 0 && p <= t.ask {
      BestIsUnique(b'.asks, p, t'.ask);
    } else if p != t.ask {
      BestIsUnique(b'.asks, t.ask, t'.ask);
    } else {
      assert t'.ask > t.ask;
    }
  }

  /** The flow between any two tops is that of the bid side and that of the ask side. */
  lemma FlowSplits(prev: Top, t: Top)
    ensures Flow(prev, t) == Flow(prev, prev.(bid := t.bid, bidSize := t.bidSize))
                             + Flow(prev, prev.(ask := t.ask, askSize := t.askSize))
  {
  }

  // ---------------------------------------------------------------- score

  /** An exact quotient. */
  function Over(x: int, d: int): real
    requires d > 0
  {
    x as real / d as real
  }

  lemma OverTimes(x: int, d: int)
    requires d > 0
    ensures Over(x, d) * d as real == x as real
  {
    QuotientTimes(x as real, d as real);
  }

  lemma OverBounds(x: int, d: int)
    requires d > 0
    ensures (x >= d <==> Over(x, d) >= 1.0) && (x <= -d <==> Over(x, d) <= -1.0)
  {
    var q := Over(x, d);
    OverTimes(x, d);
    hide Over;
    assert (q - 1.0) * d as real == (x - d) as real && (-1.0 - q) * d as real == (-x - d) as real;
    SignOfProduct(q - 1.0, d as real);
    SignOfProduct(-1.0 - q, d as real);
  }

  lemma FlowPart(flow: int, sum: int)
    requires sum > 0
    ensures AtLeastOne(sum) == sum as real
    ensures Ratio(flow as real, sum as real) ==
              if flow >= sum then 1.0 else if flow <= -sum then -1.0 else Over(flow, sum)
  {
    OverBounds(flow, sum);
  }

  /** Half the imbalance of the sizes at the top; none on a locked book. */
  function HalfImbalance(t: Top): real
    requires TopOk(t)
  {
    if t.bid == t.ask then 0.0 else Over(t.bidSize - t.askSize, 2 * (t.bidSize + t.askSize))
  }

  /** The score on an uncrossed book whose size sum does not wrap: 65 parts in a hundred the flow over
      the sizes at the top, at most 1 either way, and 35 half their imbalance. */
  lemma ConfidenceValue(prev: Top, t: Top)
    requires TopOk(t) && t.bid <= t.ask && NoWrap(t)
    ensures
      var flow, sum := Flow(prev, t), t.bidSize + t.askSize;
      var part := if flow >= sum then 1.0 else if flow <= -sum then -1.0 else Over(flow, sum);
      Confidence(prev, t) == 0.65 * part + 0.35 * HalfImbalance(t)
  {
    PressureIsImbalance(t);
    hide Flow, Pressure, Ratio, Blend;
    assert SizeSum(t) == t.bidSize + t.askSize;
    FlowPart(Flow(prev, t), SizeSum(t));
    assert Pressure(t) == HalfImbalance(t);
    hide Over, HalfImbalance;
    BlendUnclamped(NormalFlow(prev, t), Pressure(t));
  }

  /** The same when the book is crossed: the pressure then points the other way, in whole cents. */
  lemma CrossedPressure(t: Top)
    requires TopOk(t) && t.bid > t.ask && NoWrap(t)
    ensures
      var x := (t.bid - t.ask) as real * Over(t.askSize - t.bidSize, 2 * (t.bidSize + t.askSize));
      Pressure(t) == if x > 1.0 then 1.0 else if x < -1.0 then -1.0 else x
  {
    hide Micro;
    var b, a, x, y := t.bid as real, t.ask as real, t.bidSize as real, t.askSize as real;
    MicroTimes(t);
    SumCases(t);
    CrossedDistance(b, a, x, y, Micro(t));
    assert (t.bid - t.ask) as real == b - a && (t.askSize - t.bidSize) as real == y - x;
    assert (2 * (t.bidSize + t.askSize)) as real == 2.0 * (x + y);
    assert AtLeastOne(t.ask - t.bid) == 1.0 && MidCents(t.bid, t.ask) == (b + a) * 0.5;
    assert Pressure(t) == Clamp((Micro(t) - (b + a) * 0.5) / 1.0);
    assert (b - a) * ((y - x) / (2.0 * (x + y)))
        == (t.bid - t.ask) as real * Over(t.askSize - t.bidSize, 2 * (t.bidSize + t.askSize));
  }

  lemma CrossedDistance(b: real, a: real, x: real, y: real, m: real)
    requires x + y > 0.0 && m * (x + y) == b * y + a * x
    ensures (m - (b + a) * 0.5) / 1.0 == (b - a) * ((y - x) / (2.0 * (x + y)))
  {
    var q := (y - x) / (2.0 * (x + y));
    QuotientTimes(y - x, 2.0 * (x + y));
    assert (m - (b + a) * 0.5) * (2.0 * (x + y)) == 2.0 * (m * (x + y)) - (b + a) * (x + y);
    assert 2.0 * (b * y + a * x) - (b + a) * (x + y) == (b - a) * (y - x);
    assert ((b - a) * q) * (2.0 * (x + y)) == (b - a) * (y - x);
    SameTimes(m - (b + a) * 0.5, (b - a) * q, 2.0 * (x + y));
  }

  /** When the 32-bit size sum vanishes there is no pressure, and any flow at all counts in full. */
  lemma VanishedSum(prev: Top, t: Top)
    requires SizeSum(t) == 0
    ensures Confidence(prev, t) == if Flow(prev, t) > 0 then 0.65 else if Flow(prev, t) < 0 then -0.65 else 0.0
  {
    hide Flow;
    var flow := Flow(prev, t);
    FlowPart(flow, 1);
    assert AtLeastOne(0) == 1.0 && 1 as real == 1.0;
    BlendUnclamped(NormalFlow(prev, t), 0.0);
    assert Over(0, 1) == 0.0;
  }

  lemma SameTopFlow(t: Top)
    ensures Flow(t, t) == 0
  {
  }

  lemma Grown(x: int, y: int, n: int)
    requires x > 0 && y > 0 && n > 0
    ensures 0.0 < Over(n, x + n + y) < 1.0
    ensures Over(x + n - y, 2 * (x + n + y)) >= Over(x - y, 2 * (x + y))
  {
    OverTimes(n, x + n + y);
    SignOfProduct(Over(n, x + n + y), (x + n + y) as real);
    OverBounds(n, x + n + y);
    ImbalanceAsShare(x, y);
    ImbalanceAsShare(x + n, y);
    SharesShrink(y, x + y, x + n + y);
    hide Over;
  }

  /** Half the imbalance is one half less the other side's share. */
  lemma ImbalanceAsShare(x: int, y: int)
    requires x > 0 && y > 0
    ensures Over(x - y, 2 * (x + y)) == 0.5 - Over(y, x + y)
  {
    var d, q := (x + y) as real, Over(y, x + y);
    OverTimes(y, x + y);
    assert (0.5 - q) * (2.0 * d) == d - 2.0 * (q * d);
    QuotientIs((x - y) as real, (2 * (x + y)) as real, 0.5 - q);
  }

  lemma SharesShrink(y: int, d: int, d': int)
    requires 0 < y && 0 < d < d'
    ensures Over(y, d') <= Over(y, d)
  {
    var q, q' := Over(y, d), Over(y, d');
    OverTimes(y, d);
    OverTimes(y, d');
    hide Over;
    SignOfProduct(q, d as real);
    assert (q - q') * d' as real == q * (d' - d) as real;
    PositiveProduct(q, (d' - d) as real);
    SignOfProduct(q - q', d' as real);
  }

  lemma OverNegates(x: int, d: int)
    requires d > 0
    ensures Over(-x, d) == -Over(x, d)
  {
    NegatedQuotient(x as real, d as real);
  }

  /** On one side's growth: the shares that `ConfidenceValue` reads. */
  lemma GrownParts(x: int, y: int, n: int)
    requires x > 0 && y > 0 && n > 0
    ensures Over(-n, x + n + y) == -Over(n, x + n + y) && Over(0, x + y) == 0.0
    ensures Over(y - (x + n), 2 * (x + n + y)) <= Over(y - x, 2 * (x + y))
    ensures 0.0 < Over(n, x + n + y) < 1.0
    ensures Over(x + n - y, 2 * (x + n + y)) >= Over(x - y, 2 * (x + y))
  {
    Grown(x, y, n);
    OverNegates(n, x + n + y);
    OverNegates(x + n - y, 2 * (x + n + y));
    OverNegates(x - y, 2 * (x + y));
    assert y - (x + n) == -(x + n - y) && y - x == -(x - y);
  }

  lemma GrownBidScore(t: Top, n: uint32)
    requires TopOk(t) && t.bid <= t.ask && n > 0 && t.bidSize + n + t.askSize < TWO_32
    requires Flow(t, t.(bidSize := t.bidSize + n)) == n
    ensures Confidence(t, t.(bidSize := t.bidSize + n)) > Confidence(t, t)
  {
    GrownParts(t.bidSize, t.askSize, n);
    SameTopFlow(t);
    hide Flow, Confidence, Over;
    var t' := t.(bidSize := t.bidSize + n);
    assert HalfImbalance(t') >= HalfImbalance(t);
    hide HalfImbalance;
    ConfidenceValue(t, t);
    assert Confidence(t, t) == 0.35 * HalfImbalance(t);
    ConfidenceValue(t, t');
    assert Confidence(t, t') == 0.65 * Over(n, t.bidSize + n + t.askSize) + 0.35 * HalfImbalance(t');
  }

  lemma GrownAskScore(t: Top, n: uint32)
    requires TopOk(t) && t.bid <= t.ask && n > 0 && t.bidSize + t.askSize + n < TWO_32
    requires Flow(t, t.(askSize := t.askSize + n)) + n == 0
    ensures Confidence(t, t.(askSize := t.askSize + n)) < Confidence(t, t)
  {
    GrownParts(t.askSize, t.bidSize, n);
    SameTopFlow(t);
    assert t.bidSize + (t.askSize + n) == t.askSize + n + t.bidSize;
    hide Flow, Confidence, Over;
    var t' := t.(askSize := t.askSize + n);
    assert HalfImbalance(t') <= HalfImbalance(t);
    hide HalfImbalance;
    ConfidenceValue(t, t);
    assert Confidence(t, t) == 0.35 * HalfImbalance(t);
    ConfidenceValue(t, t');
    assert Confidence(t, t') == -0.65 * Over(n, t.askSize + n + t.bidSize) + 0.35 * HalfImbalance(t');
  }

  lemma GrownBid(b: Book, t: Top, n: uint32)
    requires TopOf(b) == Some(t) && n > 0 && t.bidSize + n < TWO_32
    ensures TopOf(Apply(b, MarketTick(t.bid, t.bidSize + n, true))) == Some(t.(bidSize := t.bidSize + n))
    ensures Flow(t, t.(bidSize := t.bidSize + n)) == n
  {
    var t' := t.(bidSize := t.bidSize + n);
    TopIsBest(b, t);
    TopIsBest(Apply(b, MarketTick(t.bid, t.bidSize + n, true)), t');
    hide TopOf;
    BidFlow(b, t, t', t.bid, t.bidSize + n);
  }

  lemma GrownAsk(b: Book, t: Top, n: uint32)
    requires TopOf(b) == Some(t) && n > 0 && t.askSize + n < TWO_32
    ensures TopOf(Apply(b, MarketTick(t.ask, t.askSize + n, false))) == Some(t.(askSize := t.askSize + n))
    ensures Flow(t, t.(askSize := t.askSize + n)) + n == 0
  {
    var t' := t.(askSize := t.askSize + n);
    TopIsBest(b, t);
    TopIsBest(Apply(b, MarketTick(t.ask, t.askSize + n, false)), t');
    hide TopOf;
    AskFlow(b, t, t', t.ask, t.askSize + n);
  }

  /** A signal that has seen the top of a book is scored by the flow since: a best bid that grows raises
      the score, a best ask that grows lowers it. */
  lemma GrowthMovesScore(b: Book, t: Top, n: uint32)
    requires TopOf(b) == Some(t) && t.bid <= t.ask && n > 0 && t.bidSize + t.askSize + n < TWO_32
    ensures Update(Ofi(true, t), Apply(b, MarketTick(t.bid, t.bidSize + n, true))).1 > Update(Ofi(true, t), b).1
    ensures Update(Ofi(true, t), Apply(b, MarketTick(t.ask, t.askSize + n, false))).1 < Update(Ofi(true, t), b).1
  {
    hide TopOf, Confidence, Apply, Flow;
    GrownBid(b, t, n);
    GrownAsk(b, t, n);
    GrownBidScore(t, n);
    GrownAskScore(t, n);
  }

  /** A one-sided book resets the signal: it scores nothing then, and nothing at the next update. */
  lemma ResetForgets(o: Ofi, b: Book, next: Book)
    requires TopOf(b) == None
    ensures Update(o, b).1 == 0.0 && Update(Update(o, b).0, next).1 == 0.0
  {
  }
}
