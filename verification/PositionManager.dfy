/** Position, average entry price and realized profit over fills. Prices and money are real numbers,
    so the laws below are exact; rounding of `double` is not modelled. */
module PositionManager {
  import opened Machine

  datatype Fill = Fill(size: int, price: real)

  /** Long positions are positive, short ones negative. */
  datatype Position = Position(size: int, realized: real, average: real)

  const FLAT: Position := Position(0, 0.0, 0.0)

  predicate SameSign(x: int, y: int) {
    (x > 0 && y > 0) || (x < 0 && y < 0)
  }

  /** The signed part of the position that a fill closes. */
  function Closed(size: int, fill: int): int {
    if size > 0 && fill < 0 then Min(size, -fill)
    else if size < 0 && fill > 0 then -Min(-size, fill)
    else 0
  }

  /** `n` units at `x` each. */
  function Amount(n: int, x: real): real {
    n as real * x
  }

  /** The mean of two prices by signed quantity. */
  function Mean(x: real, m: int, y: real, n: int): real
    requires m + n != 0
  {
    (Amount(m, x) + Amount(n, y)) / (m + n) as real
  }

  /** The entry price after a fill: the mean by quantity of what is open on one side; a fill that
      opens or flips enters at its own price; a partial close leaves the entry price alone. */
  function Average(p: Position, f: Fill): real {
    var size := p.size + f.size;
    if size == 0 then (if f.size == 0 then p.average else 0.0)
    else if SameSign(p.size, f.size) then Mean(p.average, p.size, f.price, f.size)
    else if Abs(f.size) < Abs(p.size) then p.average
    else f.price
  }

  function AddFill(p: Position, f: Fill): Position {
    Position(
      p.size + f.size,
      p.realized + Amount(Closed(p.size, f.size), f.price - p.average),
      Average(p, f))
  }

  function AddFills(p: Position, fills: seq<Fill>): Position
    decreases |fills|
  {
    if fills == [] then p else AddFills(AddFill(p, fills[0]), fills[1..])
  }

  function Unrealized(p: Position, mark: real): real {
    Amount(p.size, mark - p.average)
  }

  function Equity(p: Position, mark: real): real {
    p.realized + Unrealized(p, mark)
  }

  // ---------------------------------------------------------------- real arithmetic

  lemma DivMul(x: real, d: real)
    requires d != 0.0
    ensures (x / d) * d == x
  {
  }

  lemma MulDiv(x: real, d: real)
    requires d != 0.0
    ensures (x * d) / d == x
  {
    DivMul(x * d, d);
    var q := (x * d) / d;
    assert (q - x) * d == 0.0;
  }

  lemma AmountAdds(m: int, n: int, x: real)
    ensures Amount(m + n, x) == Amount(m, x) + Amount(n, x)
  {
    assert (m + n) as real == m as real + n as real;
  }

  lemma AmountOfDifference(n: int, x: real, y: real)
    ensures Amount(n, x - y) == Amount(n, x) - Amount(n, y)
  {
  }

  lemma AmountNegates(n: int, x: real)
    ensures Amount(-n, x) == -Amount(n, x) == Amount(n, -x)
  {
    assert (-n) as real == -(n as real);
  }

  lemma AmountTrivial(n: int, x: real)
    ensures Amount(0, x) == 0.0 && Amount(n, 0.0) == 0.0 && Amount(n, 1.0) == n as real
  {
  }

  lemma AmountSign(n: int, x: real)
    requires n >= 0 && x >= 0.0
    ensures Amount(n, x) >= 0.0
  {
  }

  /** Equal amounts of equal quantities have equal prices. */
  lemma AmountCancels(n: int, x: real, y: real)
    requires n != 0 && Amount(n, x) == Amount(n, y)
    ensures x == y
  {
    MulDiv(x, n as real);
    MulDiv(y, n as real);
  }

  lemma MeanValue(x: real, m: int, y: real, n: int)
    requires m + n != 0
    ensures Amount(m + n, Mean(x, m, y, n)) == Amount(m, x) + Amount(n, y)
  {
    DivMul(Amount(m, x) + Amount(n, y), (m + n) as real);
  }

  lemma MeanUnique(x: real, m: int, y: real, n: int, q: real)
    requires m + n != 0 && Amount(m + n, q) == Amount(m, x) + Amount(n, y)
    ensures Mean(x, m, y, n) == q
  {
    hide Amount, Mean;
    MeanValue(x, m, y, n);
    AmountCancels(m + n, Mean(x, m, y, n), q);
  }

  // ---------------------------------------------------------------- conservation

  /** Entry value: what stays open keeps its price and what enters comes in at the fill's. */
  lemma EntryValue(p: Position, f: Fill)
    ensures Amount(p.size + f.size, Average(p, f))
         == Amount(p.size - Closed(p.size, f.size), p.average) + Amount(f.size + Closed(p.size, f.size), f.price)
  {
    hide Amount, Mean;
    AmountTrivial(0, p.average);
    AmountTrivial(0, f.price);
    AmountTrivial(0, Average(p, f));
    if SameSign(p.size, f.size) {
      MeanValue(p.average, p.size, f.price, f.size);
    }
  }

  /** A fill moves equity, at any mark, by its size times its distance to the mark. */
  lemma FillConservesEquity(p: Position, f: Fill, mark: real)
    ensures Equity(AddFill(p, f), mark) == Equity(p, mark) + Amount(f.size, mark - f.price)
  {
    hide Amount, Mean, Average, Closed;
    var c, a := Closed(p.size, f.size), p.average;
    EntryValue(p, f);
    AmountOfDifference(c, f.price, a);
    AmountOfDifference(p.size + f.size, mark, Average(p, f));
    AmountOfDifference(p.size, mark, a);
    AmountOfDifference(f.size, mark, f.price);
    AmountAdds(p.size, f.size, mark);
    AmountAdds(p.size, -c, a);
    AmountNegates(c, a);
    AmountAdds(f.size, c, f.price);
  }

  function Sum(g: Fill -> real, fills: seq<Fill>): real
    decreases |fills|
  {
    if fills == [] then 0.0 else g(fills[0]) + Sum(g, fills[1..])
  }

  /** What the fills are worth at a mark: each its size times its distance to the mark. */
  function Worth(fills: seq<Fill>, mark: real): real {
    Sum((f: Fill) => Amount(f.size, mark - f.price), fills)
  }

  function CashSpent(fills: seq<Fill>): real {
    Sum((f: Fill) => Amount(f.size, f.price), fills)
  }

  function TotalSize(fills: seq<Fill>): int
    decreases |fills|
  {
    if fills == [] then 0 else fills[0].size + TotalSize(fills[1..])
  }

  lemma {:induction false} SizeIsTotal(p: Position, fills: seq<Fill>)
    ensures AddFills(p, fills).size == p.size + TotalSize(fills)
    decreases |fills|
  {
    if fills != [] {
      SizeIsTotal(AddFill(p, fills[0]), fills[1..]);
    }
  }

  lemma WorthUnfolds(fills: seq<Fill>, mark: real)
    requires fills != []
    ensures Worth(fills, mark) == Amount(fills[0].size, mark - fills[0].price) + Worth(fills[1..], mark)
  {
  }

  /** Equity conservation over any fills, at every mark. */
  lemma {:induction false} EquityConserved(p: Position, fills: seq<Fill>, mark: real)
    ensures Equity(AddFills(p, fills), mark) == Equity(p, mark) + Worth(fills, mark)
    decreases |fills|
  {
    hide Amount, AddFill;
    if fills != [] {
      var p' := AddFill(p, fills[0]);
      FillConservesEquity(p, fills[0], mark);
      EquityConserved(p', fills[1..], mark);
      WorthUnfolds(fills, mark);
    }
  }

  lemma {:induction false} SumWithout(g: Fill -> real, x: seq<Fill>, i: nat)
    requires i < |x|
    ensures Sum(g, x) == g(x[i]) + Sum(g, x[..i] + x[i + 1..])
    ensures TotalSize(x) == x[i].size + TotalSize(x[..i] + x[i + 1..])
    decreases |x|
  {
    var rest := x[..i] + x[i + 1..];
    if i == 0 {
      assert rest == x[1..];
    } else {
      assert rest[1..] == x[1..][..i - 1] + x[1..][i..];
      SumWithout(g, x[1..], i - 1);
    }
  }

  lemma MultisetWithout(x: seq<Fill>, i: nat)
    requires i < |x|
    ensures multiset(x[..i] + x[i + 1..]) == multiset(x) - multiset{x[i]}
  {
    assert x == x[..i] + ([x[i]] + x[i + 1..]);
  }

  lemma {:induction false} SumOfPermutation(g: Fill -> real, x: seq<Fill>, y: seq<Fill>)
    requires multiset(x) == multiset(y)
    ensures Sum(g, x) == Sum(g, y) && TotalSize(x) == TotalSize(y)
    decreases |x|
  {
    if x == [] {
      assert |multiset(y)| == 0;
      assert y == [];
    } else {
      assert x[0] in multiset(y);
      var i :| 0 <= i < |y| && y[i] == x[0];
      MultisetWithout(x, 0);
      MultisetWithout(y, i);
      SumWithout(g, x, 0);
      SumWithout(g, y, i);
      SumOfPermutation(g, x[..0] + x[1..], y[..i] + y[i + 1..]);
    }
  }

  /** The order of the fills changes neither the position nor the equity. */
  lemma FillOrderIsInvisible(p: Position, x: seq<Fill>, y: seq<Fill>, mark: real)
    requires multiset(x) == multiset(y)
    ensures AddFills(p, x).size == AddFills(p, y).size
    ensures Equity(AddFills(p, x), mark) == Equity(AddFills(p, y), mark)
  {
    hide Amount, AddFill;
    SizeIsTotal(p, x);
    SizeIsTotal(p, y);
    EquityConserved(p, x, mark);
    EquityConserved(p, y, mark);
    SumOfPermutation((f: Fill) => Amount(f.size, mark - f.price), x, y);
  }

  lemma {:induction false} WorthIsLinear(fills: seq<Fill>, mark: real)
    ensures Worth(fills, mark) == Amount(TotalSize(fills), mark) - CashSpent(fills)
    decreases |fills|
  {
    hide Amount;
    if fills == [] {
      AmountTrivial(0, mark);
    } else {
      WorthIsLinear(fills[1..], mark);
      WorthUnfolds(fills, mark);
      AmountAdds(fills[0].size, TotalSize(fills[1..]), mark);
      AmountOfDifference(fills[0].size, mark, fills[0].price);
    }
  }

  /** Back to flat, realized profit is exactly the cash taken in. */
  lemma FlatRealizesCash(fills: seq<Fill>)
    requires AddFills(FLAT, fills).size == 0
    ensures AddFills(FLAT, fills).realized == -CashSpent(fills)
  {
    hide Amount, AddFill;
    SizeIsTotal(FLAT, fills);
    EquityConserved(FLAT, fills, 0.0);
    WorthIsLinear(fills, 0.0);
    AmountTrivial(0, 0.0);
    AmountTrivial(0, 0.0 - AddFills(FLAT, fills).average);
  }

  // ---------------------------------------------------------------- splitting

  lemma SplitClosed(size: int, a: int, b: int)
    requires (a >= 0 && b >= 0) || (a <= 0 && b <= 0)
    ensures Closed(size, a) + Closed(size + a, b) == Closed(size, a + b)
    ensures a != 0 && Closed(size + a, b) != 0 ==> !SameSign(size, a) && Abs(a) < Abs(size)
  {
  }

  lemma SplitMean(average: real, size: int, a: int, b: int, price: real)
    requires size + a != 0 && size + a + b != 0
    ensures Mean(Mean(average, size, price, a), size + a, price, b) == Mean(average, size, price, a + b)
  {
    hide Amount, Mean;
    MeanValue(average, size, price, a);
    MeanValue(average, size, price, a + b);
    AmountAdds(a, b, price);
    assert size + a + b == size + (a + b);
    MeanUnique(Mean(average, size, price, a), size + a, price, b, Mean(average, size, price, a + b));
  }

  lemma MeanOfOnePrice(a: int, b: int, price: real)
    requires a + b != 0
    ensures Mean(price, a, price, b) == price
  {
    hide Amount, Mean;
    AmountAdds(a, b, price);
    MeanUnique(price, a, price, b, price);
  }

  lemma SplitAverage(p: Position, a: int, b: int, price: real)
    requires SameSign(a, b)
    ensures Average(AddFill(p, Fill(a, price)), Fill(b, price)) == Average(p, Fill(a + b, price))
  {
    hide Amount, Mean, Closed;
    if SameSign(p.size, a) {
      SplitMean(p.average, p.size, a, b, price);
    } else if p.size + a != 0 && SameSign(p.size + a, b) {
      MeanOfOnePrice(p.size + a, b, price);
    }
  }

  lemma SplitRealized(p: Position, a: int, b: int, price: real)
    requires SameSign(a, b)
    ensures AddFill(AddFill(p, Fill(a, price)), Fill(b, price)).realized
         == AddFill(p, Fill(a + b, price)).realized
  {
    hide Amount, Mean, Closed;
    SplitClosed(p.size, a, b);
    var c1, c2 := Closed(p.size, a), Closed(p.size + a, b);
    AmountAdds(c1, c2, price - p.average);
    if c2 == 0 {
      AmountTrivial(0, price - p.average);
      AmountTrivial(0, price - Average(p, Fill(a, price)));
    }
  }

  /** Filling `a + b` at one price is filling `a`, then `b`: before, at or past zero. */
  lemma FillSplittingIsInvisible(p: Position, a: int, b: int, price: real)
    requires (a >= 0 && b >= 0) || (a <= 0 && b <= 0)
    ensures AddFill(AddFill(p, Fill(a, price)), Fill(b, price)) == AddFill(p, Fill(a + b, price))
  {
    hide Amount, Mean;
    if a == 0 || b == 0 {
      NoFill(p, price);
      NoFill(AddFill(p, Fill(a, price)), price);
    } else {
      hide Average, Closed;
      SplitAverage(p, a, b, price);
      SplitRealized(p, a, b, price);
    }
  }

  lemma NoFill(p: Position, price: real)
    ensures AddFill(p, Fill(0, price)) == p
  {
    AmountTrivial(0, price - p.average);
  }

  // ---------------------------------------------------------------- closed volume and price hull

  function TotalAbs(fills: seq<Fill>): nat
    decreases |fills|
  {
    if fills == [] then 0 else Abs(fills[0].size) + TotalAbs(fills[1..])
  }

  /** Quantity closed by the fills, from a position size on. */
  function ClosedVolume(size: int, fills: seq<Fill>): nat
    decreases |fills|
  {
    if fills == [] then 0
    else Abs(Closed(size, fills[0].size)) + ClosedVolume(size + fills[0].size, fills[1..])
  }

  /** Every unit filled either opens or closes: twice what was closed is what was filled, less what
      the position grew. */
  lemma {:induction false} ClosedVolumeLaw(size: int, fills: seq<Fill>)
    ensures 2 * ClosedVolume(size, fills) == TotalAbs(fills) + Abs(size) - Abs(size + TotalSize(fills))
    decreases |fills|
  {
    if fills != [] {
      ClosedVolumeLaw(size + fills[0].size, fills[1..]);
    }
  }

  /** The prices of the fills that built the current position: a flip starts afresh, a partial close
      adds nothing. */
  function Built(size: int, prices: seq<real>, f: Fill): seq<real> {
    if f.size == 0 then prices
    else if size == 0 || SameSign(size, f.size) then prices + [f.price]
    else if Abs(f.size) < Abs(size) then prices
    else if size + f.size == 0 then []
    else [f.price]
  }

  function Builders(size: int, prices: seq<real>, fills: seq<Fill>): seq<real>
    decreases |fills|
  {
    if fills == [] then prices
    else Builders(size + fills[0].size, Built(size, prices, fills[0]), fills[1..])
  }

  predicate AllWithin(prices: seq<real>, lo: real, hi: real) {
    forall i :: 0 <= i < |prices| ==> lo <= prices[i] <= hi
  }

  /** A position whose average is 0 when flat and otherwise lies in any interval holding its builders. */
  ghost predicate InHull(p: Position, prices: seq<real>) {
    && (p.size == 0 ==> p.average == 0.0 && prices == [])
    && (p.size != 0 ==> prices != [] && forall lo, hi :: AllWithin(prices, lo, hi) ==> lo <= p.average <= hi)
  }

  /** The mean of two prices held on one side lies between any bounds of both. */
  lemma MeanIsBetween(x: real, m: int, y: real, n: int, lo: real, hi: real)
    requires SameSign(m, n) && lo <= x <= hi && lo <= y <= hi
    ensures lo <= Mean(x, m, y, n) <= hi
  {
    MeanIsAbove(x, m, y, n, lo);
    MeanIsAbove(-x, m, -y, n, -hi);
    MeanOfNegations(x, m, y, n);
  }

  lemma MeanOfNegations(x: real, m: int, y: real, n: int)
    requires m + n != 0
    ensures Mean(-x, m, -y, n) == -Mean(x, m, y, n)
    ensures Mean(x, -m, y, -n) == Mean(x, m, y, n)
  {
    hide Amount, Mean;
    var q := Mean(x, m, y, n);
    MeanValue(x, m, y, n);
    AmountNegates(m, x);
    AmountNegates(n, y);
    AmountNegates(m + n, q);
    assert -m + -n == -(m + n);
    MeanUnique(-x, m, -y, n, -q);
    MeanUnique(x, -m, y, -n, q);
  }

  lemma MeanIsAbove(x: real, m: int, y: real, n: int, lo: real)
    requires SameSign(m, n) && lo <= x && lo <= y
    ensures lo <= Mean(x, m, y, n)
    decreases m < 0
  {
    hide Amount, Mean;
    if m < 0 {
      MeanOfNegations(x, m, y, n);
      MeanIsAbove(x, -m, y, -n, lo);
    } else {
      var q := Mean(x, m, y, n);
      MeanValue(x, m, y, n);
      AmountSign(m, x - lo);
      AmountSign(n, y - lo);
      AmountOfDifference(m, x, lo);
      AmountOfDifference(n, y, lo);
      AmountAdds(m, n, lo);
      AmountOfDifference(m + n, q, lo);
      if q < lo {
        AmountNegative(m + n, q - lo);
      }
    }
  }

  lemma AmountNegative(n: int, x: real)
    requires n > 0 && x < 0.0
    ensures Amount(n, x) < 0.0
  {
  }

  lemma FillKeepsHull(p: Position, prices: seq<real>, f: Fill)
    requires InHull(p, prices)
    ensures InHull(AddFill(p, f), Built(p.size, prices, f))
  {
    hide Amount, Mean;
    var p', prices' := AddFill(p, f), Built(p.size, prices, f);
    forall lo, hi | p'.size != 0 && AllWithin(prices', lo, hi)
      ensures lo <= p'.average <= hi
    {
      if SameSign(p.size, f.size) {
        assert prices' == prices + [f.price] && prices'[|prices|] == f.price;
        assert forall i :: 0 <= i < |prices| ==> prices'[i] == prices[i];
        assert AllWithin(prices, lo, hi);
        MeanIsBetween(p.average, p.size, f.price, f.size, lo, hi);
      } else if f.size != 0 && (p.size == 0 || SameSign(p'.size, f.size)) {
        assert prices'[0] == f.price;
      }
    }
  }

  /** The average entry price stays in the hull of the prices that built the position, and is 0 when
      flat, over any fills. */
  lemma {:induction false} AverageInHull(p: Position, prices: seq<real>, fills: seq<Fill>)
    requires InHull(p, prices)
    ensures InHull(AddFills(p, fills), Builders(p.size, prices, fills))
    decreases |fills|
  {
    if fills != [] {
      var f := fills[0];
      FillKeepsHull(p, prices, f);
      AverageInHull(AddFill(p, f), Built(p.size, prices, f), fills[1..]);
    }
  }

  predicate PricesInUnit(fills: seq<Fill>) {
    forall i :: 0 <= i < |fills| ==> 0.0 <= fills[i].price <= 1.0
  }

  /** A position reached with prices in [0, 1]. */
  predicate InUnit(p: Position) {
    0.0 <= p.average <= 1.0 && (p.size == 0 ==> p.average == 0.0)
  }

  lemma FillKeepsUnit(p: Position, f: Fill)
    requires InUnit(p) && 0.0 <= f.price <= 1.0
    ensures InUnit(AddFill(p, f))
    ensures -(Abs(Closed(p.size, f.size)) as real) <= AddFill(p, f).realized - p.realized
         <= Abs(Closed(p.size, f.size)) as real
  {
    hide Amount, Mean;
    if SameSign(p.size, f.size) {
      MeanIsBetween(p.average, p.size, f.price, f.size, 0.0, 1.0);
    }
    var c, d := Closed(p.size, f.size), f.price - p.average;
    var n := Abs(c);
    AmountNegates(c, d);
    AmountNegates(n, d);
    AmountTrivial(n, d);
    AmountSign(n, 1.0 - d);
    AmountSign(n, 1.0 - -d);
    AmountOfDifference(n, 1.0, d);
    AmountOfDifference(n, 1.0, -d);
  }

  /** For prices in [0, 1], realized profit never exceeds the quantity closed. */
  lemma {:induction false} RealizedWithinClosedVolume(p: Position, fills: seq<Fill>)
    requires InUnit(p) && PricesInUnit(fills)
    ensures InUnit(AddFills(p, fills))
    ensures -(ClosedVolume(p.size, fills) as real) <= AddFills(p, fills).realized - p.realized
         <= ClosedVolume(p.size, fills) as real
    decreases |fills|
  {
    if fills != [] {
      FillKeepsUnit(p, fills[0]);
      RealizedWithinClosedVolume(AddFill(p, fills[0]), fills[1..]);
    }
  }

  // ---------------------------------------------------------------- complement market

  /** The position in the complement market, where every price `x` reads `1 - x`. */
  function Complement(p: Position): Position {
    Position(-p.size, p.realized, if p.size == 0 then p.average else 1.0 - p.average)
  }

  lemma ComplementFill(p: Position, f: Fill)
    requires p.size == 0 ==> p.average == 0.0
    ensures AddFill(Complement(p), Fill(-f.size, 1.0 - f.price)) == Complement(AddFill(p, f))
  {
    hide Amount, Mean, Average;
    ComplementAverage(p, f);
    var c, d := Closed(p.size, f.size), f.price - p.average;
    AmountNegates(-c, d);
    assert Closed(-p.size, -f.size) == -c;
    if p.size == 0 {
      AmountTrivial(0, d);
      AmountTrivial(0, 1.0 - f.price - p.average);
    } else {
      assert (1.0 - f.price) - (1.0 - p.average) == -d;
    }
  }

  lemma ComplementAverage(p: Position, f: Fill)
    requires p.size == 0 ==> p.average == 0.0
    ensures Average(Complement(p), Fill(-f.size, 1.0 - f.price))
         == if p.size + f.size == 0 then Average(p, f) else 1.0 - Average(p, f)
  {
    hide Amount, Mean;
    if SameSign(p.size, f.size) {
      ComplementMean(p.average, p.size, f.price, f.size);
    }
  }

  lemma ComplementMean(x: real, m: int, y: real, n: int)
    requires m + n != 0
    ensures Mean(1.0 - x, -m, 1.0 - y, -n) == 1.0 - Mean(x, m, y, n)
  {
    hide Amount, Mean;
    var q := Mean(x, m, y, n);
    MeanOfNegations(1.0 - x, m, 1.0 - y, n);
    MeanValue(x, m, y, n);
    AmountOfDifference(m, 1.0, x);
    AmountOfDifference(n, 1.0, y);
    AmountOfDifference(m + n, 1.0, q);
    AmountAdds(m, n, 1.0);
    MeanUnique(1.0 - x, m, 1.0 - y, n, 1.0 - q);
  }

  lemma ComplementEquity(p: Position, mark: real)
    ensures Equity(Complement(p), 1.0 - mark) == Equity(p, mark)
  {
    hide Amount;
    if p.size == 0 {
      AmountTrivial(0, mark - p.average);
      AmountTrivial(0, 1.0 - mark - p.average);
    } else {
      AmountNegates(-p.size, mark - p.average);
      assert (1.0 - mark) - (1.0 - p.average) == -(mark - p.average);
    }
  }

  // ---------------------------------------------------------------- the object

  const INT_MAX: int := TWO_31 - 1

  /** No `int` computed by `add_fill` overflows. */
  predicate NoOverflow(size: int, fill: int) {
    if size == 0 || fill == 0 then true
    else if SameSign(size, fill) then Abs(size) + Abs(fill) <= INT_MAX
    else Abs(size) <= INT_MAX && Abs(fill) <= INT_MAX
  }

  predicate FitsInt(x: int) {
    -TWO_31 <= x <= INT_MAX
  }

  /** Every sum and negation of `int`s in the branch that `add_fill` takes. */
  function IntsComputed(size: int, fill: int): seq<int> {
    if size == 0 || fill == 0 then []
    else if SameSign(size, fill) then [Abs(size), Abs(fill), Abs(size) + Abs(fill), size + fill]
    else [Abs(size), Abs(fill), size + fill]
  }

  /** The guard is exact: it holds if and only if every one of them fits. */
  lemma NoOverflowIsExact(size: int, fill: int)
    requires FitsInt(size) && FitsInt(fill)
    ensures
      var ints := IntsComputed(size, fill);
      NoOverflow(size, fill) <==> forall i :: 0 <= i < |ints| ==> FitsInt(ints[i])
  {
    var ints := IntsComputed(size, fill);
    if size != 0 && fill != 0 {
      assert FitsInt(ints[0]) <==> Abs(size) <= INT_MAX;
      assert FitsInt(ints[1]) <==> Abs(fill) <= INT_MAX;
      assert SameSign(size, fill) ==> (FitsInt(ints[2]) <==> Abs(size) + Abs(fill) <= INT_MAX);
    }
  }

  /** Fills that never exceed `int` in total can never overflow on the way. */
  lemma {:induction false} TotalBoundsOverflow(size: int, fills: seq<Fill>, i: nat)
    requires Abs(size) + TotalAbs(fills) <= INT_MAX && i < |fills|
    ensures NoOverflow(size + TotalSize(fills[..i]), fills[i].size)
    decreases |fills|
  {
    if i > 0 {
      TotalBoundsOverflow(size + fills[0].size, fills[1..], i - 1);
      assert fills[..i][1..] == fills[1..][..i - 1];
    }
  }

  /** Means by quantity and by signed size agree on one side. */
  lemma MeanByQuantity(x: real, m: int, y: real, n: int, weighted: real, total: real)
    requires SameSign(m, n) && total == (Abs(m) + Abs(n)) as real
    requires weighted == x * Abs(m) as real + y * Abs(n) as real
    ensures weighted / total == Mean(x, m, y, n)
  {
    MeanOfNegations(x, m, y, n);
    assert Amount(Abs(m), x) == x * Abs(m) as real && Amount(Abs(n), y) == y * Abs(n) as real;
  }

  /** What a closing fill realizes, by the side it closes. */
  lemma ClosedBySide(p: Position, fill: int, price: real)
    requires p.size != 0 && fill != 0 && !SameSign(p.size, fill)
    ensures Amount(Closed(p.size, fill), price - p.average)
         == if p.size > 0 then Amount(Min(Abs(fill), Abs(p.size)), price - p.average)
            else Amount(Min(Abs(fill), Abs(p.size)), p.average - price)
  {
    hide Amount;
    AmountNegates(Min(Abs(fill), Abs(p.size)), price - p.average);
    assert p.average - price == -(price - p.average);
  }

  /** `AddFill` on plain numbers, where the class has a method of that name. */
  function Filled(p: Position, size: int, price: real): Position {
    AddFill(p, Fill(size, price))
  }

  /** A closing fill by its branches. */
  lemma ReducedBy(p: Position, fill: int, price: real)
    requires p.size != 0 && fill != 0 && !SameSign(p.size, fill)
    ensures
      var q, closing := Filled(p, fill, price), Min(Abs(fill), Abs(p.size)) as real;
      && q.size == p.size + fill
      && q.realized == p.realized
           + (if p.size > 0 then closing * (price - p.average) else closing * (p.average - price))
      && q.average == if q.size == 0 then 0.0 else if SameSign(q.size, fill) then price else p.average
  {
    ClosedBySide(p, fill, price);
  }

  class PositionManager {
    var positionSize: int32
    var realizedPnl: real
    var averageEntryPrice: real

    ghost function Value(): Position
      reads this
    {
      Position(positionSize as int, realizedPnl, averageEntryPrice)
    }

    /** A flat position has no entry price. */
    predicate Valid()
      reads this
    {
      positionSize == 0 ==> averageEntryPrice == 0.0
    }

    constructor ()
      ensures Valid() && Value() == FLAT
    {
      positionSize, realizedPnl, averageEntryPrice := 0, 0.0, 0.0;
    }

    method AddFill(fillSize: int32, fillPrice: real)
      requires Valid() && NoOverflow(positionSize as int, fillSize as int)
      modifies this
      ensures Valid() && Value() == Filled(old(Value()), fillSize as int, fillPrice)
    {
      if fillSize == 0 {
        return;
      }
      if positionSize == 0 {
        positionSize := fillSize;
        averageEntryPrice := fillPrice;
        return;
      }
      var sameDirection := (positionSize > 0 && fillSize > 0) || (positionSize < 0 && fillSize < 0);
      if sameDirection {
        Increase(fillSize, fillPrice);
      } else {
        Reduce(fillSize, fillPrice);
      }
    }

    /** The branch of `AddFill` for a fill on the side of the position. */
    method Increase(fillSize: int32, fillPrice: real)
      requires NoOverflow(positionSize as int, fillSize as int)
      requires SameSign(positionSize as int, fillSize as int)
      modifies this
      ensures Value() == Filled(old(Value()), fillSize as int, fillPrice)
    {
      hide Amount, Mean;
      ghost var m, n := positionSize as int, fillSize as int;
      AmountTrivial(0, fillPrice - averageEntryPrice);
      var oldAbs := if positionSize >= 0 then positionSize else -positionSize;
      var addAbs := if fillSize >= 0 then fillSize else -fillSize;
      var newAbs := oldAbs + addAbs;
      var weighted := averageEntryPrice * oldAbs as real + fillPrice * addAbs as real;
      assert oldAbs as real == Abs(m) as real && addAbs as real == Abs(n) as real;
      assert newAbs as real == (Abs(m) + Abs(n)) as real;
      MeanByQuantity(averageEntryPrice, m, fillPrice, n, weighted, newAbs as real);
      averageEntryPrice := weighted / newAbs as real;
      positionSize := positionSize + fillSize;
      assert positionSize as int == m + n;
      assert Closed(m, n) == 0;
    }

    /** The branch of `AddFill` for a fill against the position. */
    method Reduce(fillSize: int32, fillPrice: real)
      requires NoOverflow(positionSize as int, fillSize as int)
      requires positionSize != 0 && fillSize != 0 && !SameSign(positionSize as int, fillSize as int)
      modifies this
      ensures Valid() && Value() == Filled(old(Value()), fillSize as int, fillPrice)
    {
      var posAbs := if positionSize >= 0 then positionSize else -positionSize;
      var fillAbs := if fillSize >= 0 then fillSize else -fillSize;
      var closingAbs := if fillAbs < posAbs then fillAbs else posAbs;
      ReducedBy(Value(), fillSize as int, fillPrice);
      hide Filled;
      assert closingAbs as real == Min(Abs(fillSize as int), Abs(positionSize as int)) as real;
      if positionSize > 0 {
        realizedPnl := realizedPnl + closingAbs as real * (fillPrice - averageEntryPrice);
      } else {
        realizedPnl := realizedPnl + closingAbs as real * (averageEntryPrice - fillPrice);
      }
      positionSize := positionSize + fillSize;
      if positionSize == 0 {
        averageEntryPrice := 0.0;
        return;
      }
      var flipped := (positionSize > 0 && fillSize > 0) || (positionSize < 0 && fillSize < 0);
      if flipped {
        averageEntryPrice := fillPrice;
      }
    }

    method GetUnrealizedPnl(currentMidPrice: real) returns (pnl: real)
      ensures pnl == Unrealized(Value(), currentMidPrice)
    {
      return positionSize as real * (currentMidPrice - averageEntryPrice);
    }
  }
}
