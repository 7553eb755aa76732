/** The order-flow signal: change of the top of book, blended with the imbalance at the top. */
module OfiAlpha {
  import opened Machine
  import opened OrderBook
  import opened Microprice

  datatype Ofi = Ofi(initialized: bool, prev: Top)

  const START: Ofi := Ofi(false, Top(NO_PRICE, NO_PRICE, 0, 0))

  function Clamp(x: real): (r: real)
    ensures -1.0 <= r <= 1.0
    ensures -1.0 <= x <= 1.0 ==> r == x
  {
    if x < -1.0 then -1.0 else if x > 1.0 then 1.0 else x
  }

  function AtLeastOne(x: int): (r: real)
    ensures r >= 1.0
  {
    if x < 1 then 1.0 else x as real
  }

  /** Order-flow imbalance between two tops: each side counts the size now at a price no worse than
      before, less the size that was at a price no better. */
  function Flow(prev: Top, t: Top): int {
    (if t.bid >= prev.bid then t.bidSize else 0) - (if t.bid <= prev.bid then prev.bidSize else 0)
    - (if t.ask <= prev.ask then t.askSize else 0) + (if t.ask >= prev.ask then prev.askSize else 0)
  }

  /** How far the microprice sits from the middle; no pressure is read off a zero sum. */
  function Pressure(t: Top): real {
    if SizeSum(t) == 0 then 0.0
    else Ratio(Micro(t) - MidCents(t.bid, t.ask), AtLeastOne(t.ask - t.bid))
  }

  /** A ratio, clamped. */
  function Ratio(x: real, d: real): (r: real)
    requires d != 0.0
    ensures -1.0 <= r <= 1.0
  {
    Clamp(x / d)
  }

  function Blend(flow: real, pressure: real): real {
    Clamp(0.65 * flow + 0.35 * pressure)
  }

  function NormalFlow(prev: Top, t: Top): real {
    Ratio(Flow(prev, t) as real, AtLeastOne(SizeSum(t)))
  }

  function Confidence(prev: Top, t: Top): real {
    Blend(NormalFlow(prev, t), Pressure(t))
  }

  /** One update. A one-sided book resets the signal, which then keeps its last top unused. */
  function Update(o: Ofi, b: Book): (Ofi, real) {
    match TopOf(b)
    case None => (o.(initialized := false), 0.0)
    case Some(t) => (Ofi(true, t), if o.initialized then Confidence(o.prev, t) else 0.0)
  }

  // ---------------------------------------------------------------- laws

  /** Where the size sum does not wrap on an uncrossed book, the pressure clamp does nothing: the
      pressure is the size imbalance, halved, and a locked book has none. */
  lemma PressureIsImbalance(t: Top)
    requires TopOk(t) && t.bid <= t.ask && NoWrap(t)
    ensures Pressure(t) == if t.bid == t.ask then 0.0
                           else (t.bidSize - t.askSize) as real / (2 * (t.bidSize + t.askSize)) as real
    ensures -0.5 < Pressure(t) < 0.5
  {
    hide Micro;
    assert SizeSum(t) == t.bidSize + t.askSize;
    if t.bid == t.ask {
      MicroInSpread(t);
      ZeroOver(AtLeastOne(t.ask - t.bid));
      assert Micro(t) - MidCents(t.bid, t.ask) == 0.0;
    } else {
      PressureClosedForm(t);
      ImbalanceBound(t.bidSize as real, t.askSize as real);
      assert (t.bidSize - t.askSize) as real == t.bidSize as real - t.askSize as real;
      assert (2 * (t.bidSize + t.askSize)) as real == 2.0 * (t.bidSize as real + t.askSize as real);
    }
  }

  lemma ZeroOver(d: real)
    requires d != 0.0
    ensures 0.0 / d == 0.0
  {
  }

  lemma RatioOfZero(d: real)
    requires d != 0.0
    ensures Ratio(0.0, d) == 0.0
  {
    ZeroOver(d);
  }

  lemma ImbalanceBound(x: real, y: real)
    requires x > 0.0 && y > 0.0
    ensures -0.5 < (x - y) / (2.0 * (x + y)) < 0.5
  {
    var d := 2.0 * (x + y);
    var q := (x - y) / d;
    QuotientTimes(x - y, d);
    assert q * d == x - y && 0.5 * d == x + y;
    assert (q - 0.5) * d == q * d - 0.5 * d;
    assert (-0.5 - q) * d == -(0.5 * d) - q * d;
    if q >= 0.5 {
      ProductsNonNegative(q - 0.5, d, d);
    }
    if q <= -0.5 {
      ProductsNonNegative(-0.5 - q, d, d);
    }
  }

  /** Without a wrap and without a crossed book, confidence never reaches 0.825. */
  lemma ConfidenceBound(prev: Top, t: Top)
    requires TopOk(t) && t.bid <= t.ask && NoWrap(t)
    ensures -0.825 < Confidence(prev, t) < 0.825
  {
    PressureIsImbalance(t);
    hide Pressure, Ratio;
  }

  /** A top that did not change has no flow, so its confidence cannot reach the trading threshold. */
  lemma SameTopConfidence(t: Top)
    ensures Flow(t, t) == 0
    ensures -0.35 <= Confidence(t, t) <= 0.35
  {
    ZeroOver(AtLeastOne(SizeSum(t)));
    assert NormalFlow(t, t) == 0.0;
    PressureBound(t);
    hide Pressure, NormalFlow;
  }

  lemma PressureBound(t: Top)
    ensures -1.0 <= Pressure(t) <= 1.0
  {
  }

  lemma MirrorFlow(prev: Top, t: Top)
    requires TopOk(prev) && TopOk(t)
    ensures Flow(MirrorTop(prev), MirrorTop(t)) == -Flow(prev, t)
  {
  }

  lemma NegatedQuotient(x: real, d: real)
    requires d != 0.0
    ensures -x / d == -(x / d)
  {
    QuotientTimes(x, d);
    QuotientIs(-x, d, -(x / d));
  }

  lemma ExcessTimes(b: real, a: real, x: real, y: real, d: real, m: real)
    requires m * d == b * y + a * x
    ensures (m - (a + b)) * d == (y - d) * b + (x - d) * a
  {
    assert (m - (a + b)) * d == m * d - a * d - b * d;
  }

  lemma SignOfScaled(w: real, x: real)
    requires w > 0.0 && x >= 0.0
    ensures w * x >= 0.0 && (x > 0.0 ==> w * x > 0.0)
  {
  }

  lemma MicroAboveSum(b: real, a: real, x: real, y: real, d: real, m: real)
    requires 0.0 <= b && 0.0 <= a && 0.0 < d < x && d < y && m * d == b * y + a * x
    ensures m >= a + b && (a + b > 0.0 ==> m > a + b)
  {
    ExcessTimes(b, a, x, y, d, m);
    SignOfScaled(y - d, b);
    SignOfScaled(x - d, a);
    SignOfProduct(m - (a + b), d);
  }

  lemma PositiveRatio(x: real, d: real)
    requires x >= 0.0 && d > 0.0
    ensures Ratio(x, d) >= 0.0 && (x > 0.0 ==> Ratio(x, d) > 0.0)
  {
    QuotientTimes(x, d);
    SignOfProduct(x / d, d);
  }

  /** After a wrap the divisor is below both sizes, so the microprice is above both prices together. */
  lemma WrappedPressure(t: Top)
    requires TopOk(t) && SizeSum(t) != 0 && !NoWrap(t)
    ensures Pressure(t) >= 0.0 && (t.bid + t.ask > 0 ==> Pressure(t) > 0.0)
  {
    MicroTimes(t);
    SumCases(t);
    hide Micro;
    MicroAboveSum(t.bid as real, t.ask as real, t.bidSize as real, t.askSize as real, SizeSum(t) as real, Micro(t));
    PositiveRatio(Micro(t) - MidCents(t.bid, t.ask), AtLeastOne(t.ask - t.bid));
    hide Ratio;
  }

  lemma BlendUnclamped(flow: real, pressure: real)
    requires -1.0 <= flow <= 1.0 && -1.0 <= pressure <= 1.0
    ensures Blend(flow, pressure) == 0.65 * flow + 0.35 * pressure
  {
  }

  /** The complement market has the opposite confidence exactly when the size sum does not wrap. */
  lemma MirrorConfidence(prev: Top, t: Top)
    requires TopOk(prev) && TopOk(t) && SizeSum(t) != 0
    ensures Confidence(MirrorTop(prev), MirrorTop(t)) == -Confidence(prev, t) <==> NoWrap(t)
  {
    var t' := MirrorTop(t);
    MirrorNormalFlow(prev, t);
    if NoWrap(t) {
      MirrorPressure(t);
    } else {
      WrappedPressure(t);
      WrappedPressure(t');
    }
    PressureBound(t);
    PressureBound(t');
    hide Pressure, NormalFlow, Blend;
    BlendUnclamped(NormalFlow(prev, t), Pressure(t));
    BlendUnclamped(NormalFlow(MirrorTop(prev), t'), Pressure(t'));
  }

  lemma MirrorNormalFlow(prev: Top, t: Top)
    requires TopOk(prev) && TopOk(t)
    ensures NormalFlow(MirrorTop(prev), MirrorTop(t)) == -NormalFlow(prev, t)
  {
    MirrorFlow(prev, t);
    NegatedQuotient(Flow(prev, t) as real, AtLeastOne(SizeSum(t)));
    assert (-Flow(prev, t)) as real == -(Flow(prev, t) as real);
    assert SizeSum(MirrorTop(t)) == SizeSum(t);
  }

  lemma MirrorPressure(t: Top)
    requires TopOk(t) && NoWrap(t)
    ensures Pressure(MirrorTop(t)) == -Pressure(t)
  {
    hide Micro;
    MirrorMicro(t);
    NegatedQuotient(Micro(t) - MidCents(t.bid, t.ask), AtLeastOne(t.ask - t.bid));
    assert MidCents(MirrorTop(t).bid, MirrorTop(t).ask) == 100.0 - MidCents(t.bid, t.ask);
    assert MirrorTop(t).ask - MirrorTop(t).bid == t.ask - t.bid;
  }

  // ---------------------------------------------------------------- the object

  class OFIAlpha {
    var initialized: bool
    var prevBestBid: uint8
    var prevBestAsk: uint8
    var prevBestBidSize: uint32
    var prevBestAskSize: uint32

    ghost function Value(): Ofi
      reads this
    {
      Ofi(initialized, Top(prevBestBid, prevBestAsk, prevBestBidSize, prevBestAskSize))
    }

    constructor ()
      ensures Value() == START
    {
      initialized := false;
      prevBestBid, prevBestAsk := NO_PRICE, NO_PRICE;
      prevBestBidSize, prevBestAskSize := 0, 0;
    }

    method UpdateScore(book: LimitOrderBook) returns (score: real)
      requires book.Valid()
      modifies this
      ensures (Value(), score) == Update(old(Value()), book.Value())
    {
      var bestBid := book.GetBestBid();
      var bestAsk := book.GetBestAsk();
      if bestBid == NO_PRICE || bestAsk == NO_PRICE {
        initialized := false;
        return 0.0;
      }
      var bestBidSize := book.GetBidSize(bestBid);
      var bestAskSize := book.GetAskSize(bestAsk);
      ghost var prev, top := Value().prev, Top(bestBid, bestAsk, bestBidSize, bestAskSize);
      assert TopOf(book.Value()) == Some(top);
      if !initialized {
        prevBestBid, prevBestAsk := bestBid, bestAsk;
        prevBestBidSize, prevBestAskSize := bestBidSize, bestAskSize;
        initialized := true;
        return 0.0;
      }
      var ofi := 0.0;
      if bestBid > prevBestBid {
        ofi := ofi + bestBidSize as real;
      } else if bestBid == prevBestBid {
        ofi := ofi + (bestBidSize - prevBestBidSize) as real;
      } else {
        ofi := ofi - prevBestBidSize as real;
      }
      if bestAsk < prevBestAsk {
        ofi := ofi - bestAskSize as real;
      } else if bestAsk == prevBestAsk {
        ofi := ofi - (bestAskSize - prevBestAskSize) as real;
      } else {
        ofi := ofi + prevBestAskSize as real;
      }
      assert ofi == Flow(prev, top) as real;
      hide MicropriceCents, MidCents, Ratio, Blend, Flow;
      var denomSizes := AddU32(bestBidSize, bestAskSize);
      var midCents := MidCents(bestBid, bestAsk);
      var micropriceCents :=
        if denomSizes == 0 then midCents
        else MicropriceCents(bestBid, bestAsk, bestBidSize, bestAskSize, denomSizes);
      var spreadCents := AtLeastOne(bestAsk - bestBid);
      RatioOfZero(spreadCents);
      var bookPressure := Ratio(micropriceCents - midCents, spreadCents);
      assert bookPressure == Pressure(top);
      var ofiNorm := Ratio(ofi, AtLeastOne(denomSizes));
      score := Blend(ofiNorm, bookPressure);
      prevBestBid, prevBestAsk := bestBid, bestAsk;
      prevBestBidSize, prevBestAskSize := bestBidSize, bestAskSize;
    }
  }
}
