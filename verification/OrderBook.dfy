/** The price-level book: 101 cent levels a side, best prices found by scanning. */
module OrderBook {
  import opened Machine

  const MAX_PRICE: uint8 := 100
  const LEVELS: nat := 101
  /** The answer of a scan that finds nothing. */
  const NO_PRICE: uint8 := 255

  datatype MarketTick = MarketTick(price: uint8, size: uint32, isBid: bool)

  type Levels = s: seq<uint32> | |s| == LEVELS witness seq(LEVELS, _ => 0)

  datatype Book = Book(bids: Levels, asks: Levels)

  function EmptyBook(): Book {
    Book(seq(LEVELS, _ => 0), seq(LEVELS, _ => 0))
  }

  /** A tick overwrites its level; a price outside the range changes nothing. */
  function Apply(b: Book, t: MarketTick): Book {
    if t.price > MAX_PRICE then b
    else if t.isBid then b.(bids := b.bids[t.price := t.size])
    else b.(asks := b.asks[t.price := t.size])
  }

  function ApplyAll(b: Book, ticks: seq<MarketTick>): Book
    decreases |ticks|
  {
    if ticks == [] then b else ApplyAll(Apply(b, ticks[0]), ticks[1..])
  }

  /** `p` is the highest level in use, or the sentinel when none is. */
  predicate IsHighest(side: Levels, p: uint8) {
    if p == NO_PRICE then forall q :: 0 <= q < LEVELS ==> side[q] == 0
    else p <= MAX_PRICE && side[p] != 0 && forall q :: p < q < LEVELS ==> side[q] == 0
  }

  predicate IsLowest(side: Levels, p: uint8) {
    if p == NO_PRICE then forall q :: 0 <= q < LEVELS ==> side[q] == 0
    else p <= MAX_PRICE && side[p] != 0 && forall q :: 0 <= q < p ==> side[q] == 0
  }

  function HighestBelow(side: Levels, n: nat): (p: uint8)
    requires n <= LEVELS
    requires forall q :: n <= q < LEVELS ==> side[q] == 0
    ensures IsHighest(side, p)
  {
    if n == 0 then NO_PRICE else if side[n - 1] != 0 then n - 1 else HighestBelow(side, n - 1)
  }

  function LowestFrom(side: Levels, n: nat): (p: uint8)
    requires n <= LEVELS
    requires forall q :: 0 <= q < n ==> side[q] == 0
    ensures IsLowest(side, p)
    decreases LEVELS - n
  {
    if n == LEVELS then NO_PRICE else if side[n] != 0 then n else LowestFrom(side, n + 1)
  }

  function BestBid(b: Book): (p: uint8)
    ensures IsHighest(b.bids, p)
  {
    HighestBelow(b.bids, LEVELS)
  }

  function BestAsk(b: Book): (p: uint8)
    ensures IsLowest(b.asks, p)
  {
    LowestFrom(b.asks, 0)
  }

  lemma BestIsUnique(side: Levels, p: uint8, q: uint8)
    ensures IsHighest(side, p) && IsHighest(side, q) ==> p == q
    ensures IsLowest(side, p) && IsLowest(side, q) ==> p == q
  {
  }

  /** Both best prices with their sizes. */
  datatype Top = Top(bid: uint8, ask: uint8, bidSize: uint32, askSize: uint32)

  predicate TopOk(t: Top) {
    t.bid <= MAX_PRICE && t.ask <= MAX_PRICE && t.bidSize != 0 && t.askSize != 0
  }

  /** The size sum as the program computes it, in 32 bits. */
  function SizeSum(t: Top): uint32 {
    AddU32(t.bidSize, t.askSize)
  }

  /** The top of a two-sided book. */
  function TopOf(b: Book): (r: Option<Top>)
    ensures r.Some? ==> TopOk(r.value)
    ensures r.Some? <==> BestBid(b) != NO_PRICE && BestAsk(b) != NO_PRICE
  {
    var bid, ask := BestBid(b), BestAsk(b);
    if bid == NO_PRICE || ask == NO_PRICE then None
    else Some(Top(bid, ask, b.bids[bid], b.asks[ask]))
  }

  /** The top, told by the levels of any book: each best price is in use and nothing better is, and its
      size is that level's; there is none exactly when a side has no level in use. */
  lemma TopIsBest(b: Book, t: Top)
    ensures
      TopOf(b) == Some(t) <==>
        && t.bid <= 100 && b.bids[t.bid] == t.bidSize != 0 && (forall q :: t.bid < q <= 100 ==> b.bids[q] == 0)
        && t.ask <= 100 && b.asks[t.ask] == t.askSize != 0 && (forall q :: 0 <= q < t.ask ==> b.asks[q] == 0)
    ensures
      TopOf(b) == None <==>
        (forall q :: 0 <= q <= 100 ==> b.bids[q] == 0) || (forall q :: 0 <= q <= 100 ==> b.asks[q] == 0)
  {
    BestIsUnique(b.bids, t.bid, BestBid(b));
    BestIsUnique(b.asks, t.ask, BestAsk(b));
    hide HighestBelow, LowestFrom;
  }

  // ---------------------------------------------------------------- last write wins

  /** The size last written to a level, or the one it had. */
  function LastWritten(b: Book, ticks: seq<MarketTick>, isBid: bool, p: nat): uint32
    requires p < LEVELS
    decreases |ticks|
  {
    if ticks == [] then (if isBid then b.bids[p] else b.asks[p])
    else
      var t := ticks[|ticks| - 1];
      if t.price == p && t.isBid == isBid then t.size
      else LastWritten(b, ticks[..|ticks| - 1], isBid, p)
  }

  lemma {:induction false} ApplyAllSnoc(b: Book, ticks: seq<MarketTick>, t: MarketTick)
    ensures ApplyAll(b, ticks + [t]) == Apply(ApplyAll(b, ticks), t)
    decreases |ticks|
  {
    if ticks == [] {
      assert ApplyAll(Apply(b, t), []) == Apply(b, t);
    } else {
      assert (ticks + [t])[1..] == ticks[1..] + [t];
      ApplyAllSnoc(Apply(b, ticks[0]), ticks[1..], t);
    }
  }

  /** After any ticks, every level of both sides holds its last written size. */
  lemma {:induction false} LastWriteWins(b: Book, ticks: seq<MarketTick>, isBid: bool, p: nat)
    requires p < LEVELS
    ensures (if isBid then ApplyAll(b, ticks).bids[p] else ApplyAll(b, ticks).asks[p])
         == LastWritten(b, ticks, isBid, p)
    decreases |ticks|
  {
    if ticks != [] {
      var n := |ticks| - 1;
      assert ticks == ticks[..n] + [ticks[n]];
      ApplyAllSnoc(b, ticks[..n], ticks[n]);
      LastWriteWins(b, ticks[..n], isBid, p);
    }
  }

  lemma {:induction false} ApplyAllConcat(b: Book, x: seq<MarketTick>, y: seq<MarketTick>)
    ensures ApplyAll(b, x + y) == ApplyAll(ApplyAll(b, x), y)
    decreases |x|
  {
    if x == [] {
      assert x + y == y;
    } else {
      assert (x + y)[1..] == x[1..] + y;
      ApplyAllConcat(Apply(b, x[0]), x[1..], y);
    }
  }

  // ---------------------------------------------------------------- the object

  class LimitOrderBook {
    const bids: array<uint32>
    const asks: array<uint32>

    ghost predicate Valid()
      reads this, bids, asks
    {
      bids.Length == LEVELS && asks.Length == LEVELS && bids != asks
    }

    ghost function Value(): Book
      requires Valid()
      reads this, bids, asks
    {
      Book(bids[..], asks[..])
    }

    constructor ()
      ensures Valid() && fresh(bids) && fresh(asks)
      ensures Value() == EmptyBook()
    {
      bids := new uint32[LEVELS](_ => 0);
      asks := new uint32[LEVELS](_ => 0);
      new;
      assert bids[..] == EmptyBook().bids && asks[..] == EmptyBook().asks;
    }

    method ApplyTick(tick: MarketTick)
      requires Valid()
      modifies bids, asks
      ensures Valid() && Value() == Apply(old(Value()), tick)
    {
      if tick.price > MAX_PRICE {
        return;
      }
      if tick.isBid {
        bids[tick.price] := tick.size;
      } else {
        asks[tick.price] := tick.size;
      }
      assert Value().bids == Apply(old(Value()), tick).bids;
      assert Value().asks == Apply(old(Value()), tick).asks;
    }

    method GetBestBid() returns (best: uint8)
      requires Valid()
      ensures best == BestBid(Value()) && IsHighest(bids[..], best)
    {
      var p := MAX_PRICE as int;
      while p >= 0
        invariant -1 <= p <= MAX_PRICE
        invariant forall q :: p < q < LEVELS ==> bids[q] == 0
      {
        if bids[p] != 0 {
          BestIsUnique(bids[..], p, BestBid(Value()));
          return p;
        }
        p := p - 1;
      }
      BestIsUnique(bids[..], NO_PRICE, BestBid(Value()));
      return NO_PRICE;
    }

    method GetBestAsk() returns (best: uint8)
      requires Valid()
      ensures best == BestAsk(Value()) && IsLowest(asks[..], best)
    {
      var p: int := 0;
      while p <= MAX_PRICE
        invariant 0 <= p <= LEVELS
        invariant forall q :: 0 <= q < p ==> asks[q] == 0
      {
        if asks[p] != 0 {
          BestIsUnique(asks[..], p, BestAsk(Value()));
          return p;
        }
        p := p + 1;
      }
      BestIsUnique(asks[..], NO_PRICE, BestAsk(Value()));
      return NO_PRICE;
    }

    method GetBidSize(price: uint8) returns (size: uint32)
      requires Valid()
      ensures size == if price > MAX_PRICE then 0 else Value().bids[price]
    {
      return if price > MAX_PRICE then 0 else bids[price];
    }

    method GetAskSize(price: uint8) returns (size: uint32)
      requires Valid()
      ensures size == if price > MAX_PRICE then 0 else Value().asks[price]
    {
      return if price > MAX_PRICE then 0 else asks[price];
    }
  }
}
