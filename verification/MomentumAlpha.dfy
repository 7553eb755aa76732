/** The momentum signal: full confidence when the microprice jumps by more than a cent. */
module MomentumAlpha {
  import opened Machine
  import opened OrderBook
  import opened Microprice

  datatype Momentum = Momentum(hasPrev: bool, prev: real)

  const START: Momentum := Momentum(false, 0.0)

  /** The confidence for a microprice move, in cents. */
  function Jump(before: real, now: real): real {
    if now - before > 1.0 then 1.0 else if now - before < -1.0 then -1.0 else 0.0
  }

  /** One update: an unusable book changes nothing, the first usable one only records. */
  function Update(m: Momentum, b: Book): (Momentum, real) {
    match SignalTop(b)
    case None => (m, 0.0)
    case Some(t) => (Momentum(true, Micro(t)), if m.hasPrev then Jump(m.prev, Micro(t)) else 0.0)
  }

  class MomentumAlpha {
    var hasPrev: bool
    var prevMicropriceCents: real

    ghost function Value(): Momentum
      reads this
    {
      Momentum(hasPrev, prevMicropriceCents)
    }

    constructor ()
      ensures Value() == START
    {
      hasPrev, prevMicropriceCents := false, 0.0;
    }

    method UpdateScore(book: LimitOrderBook) returns (score: real)
      requires book.Valid()
      modifies this
      ensures (Value(), score) == Update(old(Value()), book.Value())
    {
      var bestBid := book.GetBestBid();
      var bestAsk := book.GetBestAsk();
      if bestBid == NO_PRICE || bestAsk == NO_PRICE {
        return 0.0;
      }
      var bestBidSize := book.GetBidSize(bestBid);
      var bestAskSize := book.GetAskSize(bestAsk);
      var denom := AddU32(bestBidSize, bestAskSize);
      if denom == 0 {
        return 0.0;
      }
      ghost var top := Top(bestBid, bestAsk, bestBidSize, bestAskSize);
      assert SignalTop(book.Value()) == Some(top);
      hide MicropriceCents;
      var micropriceCents := MicropriceCents(bestBid, bestAsk, bestBidSize, bestAskSize, denom);
      if !hasPrev {
        prevMicropriceCents := micropriceCents;
        hasPrev := true;
        return 0.0;
      }
      var delta := micropriceCents - prevMicropriceCents;
      prevMicropriceCents := micropriceCents;
      if delta > 1.0 {
        return 1.0;
      }
      if delta < -1.0 {
        return -1.0;
      }
      return 0.0;
    }
  }
}
