/** The microprice of the top of book, in real arithmetic over a 32-bit size sum. */
module Microprice {
  import opened Machine
  import opened OrderBook

  /** The two sizes add up within 32 bits. */
  predicate NoWrap(t: Top) {
    t.bidSize + t.askSize < TWO_32
  }

  /** The top at which the signals are updated: a two-sided book whose size sum is not zero. */
  function SignalTop(b: Book): (r: Option<Top>)
    ensures r.Some? ==> TopOk(r.value) && SizeSum(r.value) != 0
  {
    match TopOf(b)
    case None => None
    case Some(t) => if SizeSum(t) == 0 then None else Some(t)
  }

  /** Every two-sided book is usable, crossed or not, unless its two sizes make exactly 2^32. */
  lemma UsableTops(b: Book, t: Top)
    ensures SignalTop(b) == Some(t) <==> TopOf(b) == Some(t) && t.bidSize + t.askSize != 0x1_0000_0000
  {
    hide BestBid, BestAsk;
  }

  /** Each price weighted by the size opposite. */
  function MicropriceCents(bid: uint8, ask: uint8, bidSize: uint32, askSize: uint32, denom: uint32): real
    requires denom != 0
  {
    (bid as real * askSize as real + ask as real * bidSize as real) / denom as real
  }

  function Micro(t: Top): real
    requires SizeSum(t) != 0
  {
    MicropriceCents(t.bid, t.ask, t.bidSize, t.askSize, SizeSum(t))
  }

  function MidCents(bid: uint8, ask: uint8): real {
    (bid as real + ask as real) * 0.5
  }

  lemma QuotientTimes(x: real, d: real)
    requires d != 0.0
    ensures (x / d) * d == x
  {
  }

  lemma QuotientIs(x: real, d: real, q: real)
    requires d != 0.0 && q * d == x
    ensures x / d == q
  {
    QuotientTimes(x, d);
    assert (x / d - q) * d == 0.0;
  }

  lemma SignOfProduct(x: real, d: real)
    requires d > 0.0
    ensures x * d >= 0.0 <==> x >= 0.0
    ensures x * d > 0.0 <==> x > 0.0
  {
  }

  lemma MicroTimes(t: Top)
    requires SizeSum(t) != 0
    ensures Micro(t) * SizeSum(t) as real
         == t.bid as real * t.askSize as real + t.ask as real * t.bidSize as real
  {
    QuotientTimes(t.bid as real * t.askSize as real + t.ask as real * t.bidSize as real, SizeSum(t) as real);
  }

  /** The sum is the true one, or 2^32 less. */
  lemma SumCases(t: Top)
    ensures SizeSum(t) as real == t.bidSize as real + t.askSize as real - (if NoWrap(t) then 0.0 else TWO_32 as real)
  {
    assert SizeSum(t) == t.bidSize + t.askSize - if NoWrap(t) then 0 else TWO_32;
  }

  // ---------------------------------------------------------------- the microprice and the spread

  /** Distances of the microprice from both prices, times the divisor. */
  lemma Distances(b: real, a: real, x: real, y: real, d: real, m: real, over: real)
    requires m * d == b * y + a * x && d == x + y - over
    ensures (m - b) * d == (a - b) * x + b * over
    ensures (a - m) * d == (a - b) * y - a * over
  {
    assert (m - b) * d == m * d - b * (x + y - over);
    assert (a - m) * d == a * (x + y - over) - m * d;
  }

  lemma OverflowDominates(b: real, a: real, y: real, over: real)
    requires 0.0 <= b <= a && 0.0 <= y < over && a > 0.0
    ensures (a - b) * y - a * over < 0.0
  {
    PositiveProduct(over - y, a);
    ProductsNonNegative(y, b, b);
    Expand(b, a, y, over);
  }

  lemma Expand(b: real, a: real, y: real, over: real)
    ensures (a - b) * y - a * over == -((over - y) * a) - y * b
  {
  }

  lemma PositiveProduct(x: real, d: real)
    requires x > 0.0 && d > 0.0
    ensures x * d > 0.0
  {
  }

  /** On an uncrossed book the microprice lies in the spread exactly when the size sum did not wrap
      (a book whose prices are all zero aside). */
  lemma MicroInSpread(t: Top)
    requires TopOk(t) && t.bid <= t.ask && SizeSum(t) != 0
    ensures t.bid as real <= Micro(t) <= t.ask as real <==> NoWrap(t) || t.ask == 0
  {
    hide Micro, SizeSum;
    var b, a, x, y := t.bid as real, t.ask as real, t.bidSize as real, t.askSize as real;
    var d, m, over := SizeSum(t) as real, Micro(t), if NoWrap(t) then 0.0 else TWO_32 as real;
    MicroTimes(t);
    SumCases(t);
    Distances(b, a, x, y, d, m, over);
    SignOfProduct(m - b, d);
    SignOfProduct(a - m, d);
    if NoWrap(t) {
      ProductsNonNegative(a - b, x, y);
    } else if t.ask == 0 {
      assert (m - b) * d == 0.0 && (a - m) * d == 0.0;
    } else {
      OverflowDominates(b, a, y, over);
    }
  }

  lemma ProductsNonNegative(w: real, x: real, y: real)
    requires w >= 0.0 && x >= 0.0 && y >= 0.0
    ensures w * x >= 0.0 && w * y >= 0.0
  {
  }

  /** How far the microprice sits from the middle, as a fraction of the spread: the imbalance of the
      sizes, whatever the prices. */
  lemma PressureClosedForm(t: Top)
    requires TopOk(t) && t.bid < t.ask && NoWrap(t)
    ensures SizeSum(t) == t.bidSize + t.askSize != 0
    ensures (Micro(t) - MidCents(t.bid, t.ask)) / (t.ask - t.bid) as real
         == (t.bidSize - t.askSize) as real / (2 * (t.bidSize + t.askSize)) as real
  {
    hide Micro;
    var b, a, x, y := t.bid as real, t.ask as real, t.bidSize as real, t.askSize as real;
    MicroTimes(t);
    SumCases(t);
    ImbalanceOf(b, a, x, y, Micro(t));
    assert (t.ask - t.bid) as real == a - b;
    assert (t.bidSize - t.askSize) as real == x - y;
    assert (2 * (t.bidSize + t.askSize)) as real == 2.0 * (x + y);
  }

  lemma ImbalanceOf(b: real, a: real, x: real, y: real, m: real)
    requires b < a && x + y > 0.0 && m * (x + y) == b * y + a * x
    ensures (m - (b + a) * 0.5) / (a - b) == (x - y) / (2.0 * (x + y))
  {
    var q := (x - y) / (2.0 * (x + y));
    QuotientTimes(x - y, 2.0 * (x + y));
    Distances(b, a, x, y, x + y, m, 0.0);
    // both sides times 2 (x + y)
    assert (m - (b + a) * 0.5) * (2.0 * (x + y)) == (m - b) * (x + y) - (a - m) * (x + y);
    assert (m - b) * (x + y) - (a - m) * (x + y) == (a - b) * (x - y);
    assert (q * (a - b)) * (2.0 * (x + y)) == (a - b) * (x - y);
    SameTimes(m - (b + a) * 0.5, q * (a - b), 2.0 * (x + y));
    QuotientIs(m - (b + a) * 0.5, a - b, q);
  }

  lemma SameTimes(p: real, q: real, d: real)
    requires d != 0.0 && p * d == q * d
    ensures p == q
  {
    assert (p - q) * d == 0.0;
  }

  // ---------------------------------------------------------------- complement market

  /** The same top in the complement market: sides swapped, every price `p` read as `100 - p`. */
  function MirrorTop(t: Top): Top
    requires TopOk(t)
  {
    Top(100 - t.ask, 100 - t.bid, t.askSize, t.bidSize)
  }

  /** The two microprices of the complement markets, times the divisor, add up to 100 true sums. */
  lemma MirrorMicroSum(t: Top)
    requires TopOk(t) && SizeSum(t) != 0
    ensures TopOk(MirrorTop(t)) && SizeSum(MirrorTop(t)) == SizeSum(t)
    ensures (Micro(t) + Micro(MirrorTop(t))) * SizeSum(t) as real
         == 100.0 * (t.bidSize as real + t.askSize as real)
  {
    var b, a, x, y := t.bid as real, t.ask as real, t.bidSize as real, t.askSize as real;
    MirrorWeights(b, a, x, y);
    assert MirrorTop(t).bid as real == 100.0 - a && MirrorTop(t).ask as real == 100.0 - b;
    MicroTimes(t);
    MicroTimes(MirrorTop(t));
    hide Micro;
    assert (Micro(t) + Micro(MirrorTop(t))) * SizeSum(t) as real
        == Micro(t) * SizeSum(t) as real + Micro(MirrorTop(t)) * SizeSum(t) as real;
  }

  lemma MirrorWeights(b: real, a: real, x: real, y: real)
    ensures (b * y + a * x) + ((100.0 - a) * x + (100.0 - b) * y) == 100.0 * (x + y)
  {
  }

  /** The microprice of the complement is the complement of the microprice exactly when the size sum
      did not wrap. */
  lemma MirrorMicro(t: Top)
    requires TopOk(t) && SizeSum(t) != 0
    ensures TopOk(MirrorTop(t)) && SizeSum(MirrorTop(t)) == SizeSum(t)
    ensures Micro(MirrorTop(t)) == 100.0 - Micro(t) <==> NoWrap(t)
  {
    MirrorMicroSum(t);
    SumCases(t);
    hide Micro, SizeSum;
    HundredSums(Micro(t) + Micro(MirrorTop(t)), SizeSum(t) as real, t.bidSize as real + t.askSize as real);
  }

  lemma HundredSums(m: real, d: real, sum: real)
    requires d != 0.0 && m * d == 100.0 * sum
    ensures m == 100.0 <==> d == sum
  {
    if d == sum {
      SameTimes(m, 100.0, d);
    }
  }
}
