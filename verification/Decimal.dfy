/** Prices and sizes as decimal strings, against the exact value of the digits. */
module Decimal {
  import opened Machine

  predicate IsDigit(c: char) {
    '0' <= c <= '9'
  }

  predicate AllDigits(s: string) {
    forall i :: 0 <= i < |s| ==> IsDigit(s[i])
  }

  function Digit(c: char): (d: nat)
    requires IsDigit(c)
    ensures d <= 9
  {
    c as int - '0' as int
  }

  /** The value of an integer's digits. */
  function Whole(s: string): nat
    requires AllDigits(s)
  {
    if s == "" then 0 else 10 * Whole(s[..|s| - 1]) + Digit(s[|s| - 1])
  }

  /** The value of the digits after a decimal point. */
  function Fraction(s: string): (r: real)
    requires AllDigits(s)
    ensures 0.0 <= r < 1.0
  {
    if s == "" then 0.0 else (Digit(s[0]) as real + Fraction(s[1..])) / 10.0
  }

  /** The first decimal point, or the length of a string without one. */
  function FindDot(s: string): (dot: nat)
    ensures dot <= |s| && (dot < |s| ==> s[dot] == '.')
    ensures forall i :: 0 <= i < dot ==> s[i] != '.'
  {
    if s == "" || s[0] == '.' then 0
    else
      assert forall i :: 1 <= i < |s| ==> s[i] == s[1..][i - 1];
      1 + FindDot(s[1..])
  }

  /** A 32-bit integer: digits only, at least one, in range. */
  function U32(s: string): Option<uint32> {
    if s != "" && AllDigits(s) && Whole(s) < TWO_32 then Some(Whole(s)) else None
  }

  predicate AllZero(s: string) {
    forall i :: 0 <= i < |s| ==> s[i] == '0'
  }

  /** Digits, with at most one point among them. */
  predicate IsDecimal(s: string) {
    AllDigits(s[..FindDot(s)]) && (FindDot(s) < |s| ==> AllDigits(s[FindDot(s) + 1..]))
  }

  /** The exact value of a decimal, point or not; no digits before the point count as zero. */
  function Value(s: string): real
    requires IsDecimal(s)
  {
    var dot := FindDot(s);
    Whole(s[..dot]) as real + if dot < |s| then Fraction(s[dot + 1..]) else 0.0
  }

  function RoundHalfUp(x: real): int {
    (x + 0.5).Floor
  }

  /** A decimal with a point: an optional integer part in 32 bits, then digits. */
  predicate Dotted(s: string) {
    var dot := FindDot(s);
    && dot < |s|
    && (dot == 0 || U32(s[..dot]).Some?)
    && AllDigits(s[dot + 1..])
  }

  /** What a price means in cents: without a point, cents already; with one, the exact value in cents,
      rounded half up, in 32 bits. The digits after the point may not be missing. */
  function PriceCents(s: string): (r: Option<uint32>)
    ensures r.Some? ==> IsDecimal(s)
  {
    if FindDot(s) == |s| then U32(s)
    else if Dotted(s) && FindDot(s) + 1 < |s| then Some(ExactCents(s) % TWO_32)
    else None
  }

  /** The exact value in cents, to the nearest, ties up. */
  function ExactCents(s: string): int
    requires Dotted(s)
  {
    RoundHalfUp(100.0 * Value(s))
  }

  /** What a size means: an integer when nothing but zeros follows the point, else the exact value in
      millionths, cut off; out of 32 bits is refused. */
  function SizeUnits(s: string): (r: Option<uint32>)
    ensures r.Some? ==> IsDecimal(s)
  {
    var dot := FindDot(s);
    if dot == |s| then U32(s)
    else if !Dotted(s) then None
    else if AllZero(s[dot + 1..]) then Some(Whole(s[..dot]))
    else
      var scaled := (1000000.0 * Value(s)).Floor;
      if scaled < TWO_32 then Some(scaled) else None
  }

  // ---------------------------------------------------------------- digits and exact values

  lemma FloorOf(n: int, f: real)
    requires 0.0 <= f < 1.0
    ensures (n as real + f).Floor == n
  {
  }

  function Tail(s: string, k: nat): string {
    if k <= |s| then s[k..] else ""
  }

  /** The first `k` digits, zeros appended where there are fewer. */
  function Leading(s: string, k: nat): nat
    requires AllDigits(s)
  {
    if k == 0 then 0
    else 10 * Leading(s, k - 1) + if k - 1 < |s| then Digit(s[k - 1]) else 0
  }

  function Shifted(x: real, k: nat): real {
    if k == 0 then x else 10.0 * Shifted(x, k - 1)
  }

  function Pow10(k: nat): nat {
    if k == 0 then 1 else 10 * Pow10(k - 1)
  }

  /** The cents of a dotted price from its parts. */
  lemma CentsOfParts(s: string, whole: nat, frac: string)
    requires Dotted(s) && whole == Whole(s[..FindDot(s)]) && frac == s[FindDot(s) + 1..]
    ensures ExactCents(s) == 100 * whole + Leading(frac, 2) + (if |frac| >= 3 && Digit(frac[2]) >= 5 then 1 else 0) >= 0
  {
    RoundingLooksAtThreeDigits(whole, frac);
    hide FindDot, Whole, Fraction, RoundHalfUp;
  }

  lemma {:induction false} LeadingBound(s: string, k: nat)
    requires AllDigits(s)
    ensures Leading(s, k) < Pow10(k)
  {
    if k > 0 {
      LeadingBound(s, k - 1);
    }
  }

  /** Moving the point right by `k` places exposes the first `k` digits and leaves the others. */
  lemma {:induction false} ShiftExposesDigits(s: string, k: nat)
    requires AllDigits(s)
    ensures AllDigits(Tail(s, k))
    ensures Shifted(Fraction(s), k) == Leading(s, k) as real + Fraction(Tail(s, k))
  {
    if k > 0 {
      ShiftExposesDigits(s, k - 1);
      var t := Tail(s, k - 1);
      if k - 1 < |s| {
        assert t[0] == s[k - 1] && t[1..] == Tail(s, k);
        assert 10.0 * Fraction(t) == Digit(t[0]) as real + Fraction(t[1..]);
      } else {
        assert t == "" && Tail(s, k) == "";
      }
    }
  }

  lemma HalfIsFirstDigit(s: string)
    requires AllDigits(s)
    ensures Fraction(s) >= 0.5 <==> s != "" && Digit(s[0]) >= 5
  {
  }

  /** Rounding to cents looks at three digits. */
  lemma RoundingLooksAtThreeDigits(whole: nat, frac: string)
    requires AllDigits(frac)
    ensures RoundHalfUp(100.0 * (whole as real + Fraction(frac)))
         == 100 * whole + Leading(frac, 2) + if |frac| >= 3 && Digit(frac[2]) >= 5 then 1 else 0
  {
    ShiftExposesDigits(frac, 2);
    var rest := Tail(frac, 2);
    HalfIsFirstDigit(rest);
    assert Shifted(Fraction(frac), 2) == 100.0 * Fraction(frac) by {
      assert Shifted(Fraction(frac), 1) == 10.0 * Shifted(Fraction(frac), 0);
    }
    var n := 100 * whole + Leading(frac, 2);
    assert 100.0 * (whole as real + Fraction(frac)) == n as real + Fraction(rest);
    if Fraction(rest) >= 0.5 {
      FloorOf(n + 1, Fraction(rest) - 0.5);
      assert rest[0] == frac[2];
    } else {
      FloorOf(n, Fraction(rest) + 0.5);
    }
  }

  /** Millionths look at six digits. */
  lemma MillionthsLookAtSixDigits(whole: nat, frac: string)
    requires AllDigits(frac)
    ensures (1000000.0 * (whole as real + Fraction(frac))).Floor == 1000000 * whole + Leading(frac, 6)
  {
    ShiftExposesDigits(frac, 6);
    SixShifts(Fraction(frac));
    FloorOf(1000000 * whole + Leading(frac, 6), Fraction(Tail(frac, 6)));
  }

  lemma SixShifts(x: real)
    ensures Shifted(x, 6) == 1000000.0 * x
  {
    assert Shifted(x, 3) == 1000.0 * x by {
      assert Shifted(x, 1) == 10.0 * x;
    }
    assert Shifted(x, 5) == 10.0 * (10.0 * Shifted(x, 3));
  }

  // ---------------------------------------------------------------- the parsers

  function DigitPrefix(s: string): (n: nat)
    ensures n <= |s| && AllDigits(s[..n])
    ensures n < |s| ==> !IsDigit(s[n])
  {
    if s == "" || !IsDigit(s[0]) then 0
    else
      assert forall i :: 0 <= i < DigitPrefix(s[1..]) ==> s[i + 1] == s[1..][i];
      1 + DigitPrefix(s[1..])
  }

  /** `std::from_chars` for an unsigned 32-bit result: the value of the longest run of digits and where
      it ends, or an error when there is none or it is out of range. */
  function FromChars(s: string): Option<(uint32, nat)> {
    var n := DigitPrefix(s);
    if n == 0 || Whole(s[..n]) >= TWO_32 then None else Some((Whole(s[..n]), n))
  }

  method ParseU32(sv: string) returns (out: Option<uint32>)
    ensures out == U32(sv)
  {
    if sv == "" {
      return None;
    }
    assert AllDigits(sv) <==> DigitPrefix(sv) == |sv|;
    assert sv[..|sv|] == sv;
    var res := FromChars(sv);
    if res == None || res.value.1 != |sv| {
      return None;
    }
    return Some(res.value.0);
  }

  method ParsePriceCents(sv: string) returns (outCents: Option<uint32>)
    ensures outCents == PriceCents(sv)
  {
    hide FindDot, Whole, ExactCents;
    var dot := FindDot(sv);
    if dot == |sv| {
      outCents := ParseU32(sv);
      return;
    }
    var intPart, fracPart := sv[..dot], sv[dot + 1..];
    if fracPart == "" {
      return None;
    }
    var whole: uint32 := 0;
    if intPart == "" {
      WholeOfNothing(intPart);
    } else {
      var parsed := ParseU32(intPart);
      if parsed == None {
        return None;
      }
      whole := parsed.value;
    }
    var cents := CentsFromDigits(whole, fracPart);
    if cents != None {
      CentsOfParts(sv, whole, fracPart);
    }
    return cents;
  }

  lemma WholeOfNothing(s: string)
    requires s == ""
    ensures AllDigits(s) && Whole(s) == 0
  {
  }

  /** The rest of `ParsePriceCents`, once the integer part is read. */
  method CentsFromDigits(whole: uint32, fracPart: string) returns (outCents: Option<uint32>)
    requires fracPart != ""
    ensures outCents.Some? <==> AllDigits(fracPart)
    ensures
      outCents.Some? ==>
        outCents.value ==
          (100 * whole + Leading(fracPart, 2) + if |fracPart| >= 3 && Digit(fracPart[2]) >= 5 then 1 else 0) % TWO_32
  {
    hide Leading;
    if !IsDigit(fracPart[0]) {
      return None;
    }
    var d0 := Digit(fracPart[0]);
    var d1 := 0;
    if |fracPart| >= 2 {
      if !IsDigit(fracPart[1]) {
        return None;
      }
      d1 := Digit(fracPart[1]);
    }
    var roundingDigit := 0;
    if |fracPart| >= 3 {
      if !IsDigit(fracPart[2]) {
        return None;
      }
      roundingDigit := Digit(fracPart[2]);
    }
    var i := 3;
    while i < |fracPart|
      invariant i >= 3
      invariant forall j :: 0 <= j < |fracPart| && j < i ==> IsDigit(fracPart[j])
    {
      if !IsDigit(fracPart[i]) {
        return None;
      }
      i := i + 1;
    }
    LeadingTwo(fracPart, d0, d1);
    WrappedCents(whole, d0 * 10 + d1);
    hide AddU32;
    var cents: uint32 := AddU32((whole * 100) % TWO_32, d0 * 10 + d1);
    if roundingDigit >= 5 {
      cents := AddU32(cents, 1);
    }
    return Some(cents);
  }

  lemma LeadingTwo(s: string, d0: nat, d1: nat)
    requires AllDigits(s) && s != "" && d0 == Digit(s[0])
    requires d1 == if |s| >= 2 then Digit(s[1]) else 0
    ensures Leading(s, 2) == d0 * 10 + d1
  {
    assert Leading(s, 1) == d0;
  }

  lemma WrappedCents(whole: nat, d: nat)
    requires d < 100
    ensures AddU32((whole * 100) % TWO_32, d) == (100 * whole + d) % TWO_32
    ensures AddU32((100 * whole + d) % TWO_32, 1) == (100 * whole + d + 1) % TWO_32
  {
    WrapThenAdd(whole * 100, d);
    WrapThenAdd(100 * whole + d, 1);
  }

  method ParseSizeU32(sv: string) returns (out: Option<uint32>)
    ensures out == SizeUnits(sv)
  {
    hide FindDot, Whole, Fraction, Leading;
    var dot := FindDot(sv);
    if dot == |sv| {
      out := ParseU32(sv);
      return;
    }
    var intPart, fracPart := sv[..dot], sv[dot + 1..];
    var whole: uint32 := 0;
    if intPart == "" {
      WholeOfNothing(intPart);
    } else {
      var parsed := ParseU32(intPart);
      if parsed == None {
        return None;
      }
      whole := parsed.value;
    }
    if fracPart == "" {
      return Some(whole);
    }
    var nonzero := AnyNonzero(fracPart);
    if nonzero == None {
      return None;
    }
    if !nonzero.value {
      return Some(whole);
    }
    var fracScaled := ScaleToSixDigits(fracPart);
    var scaled: uint64 := whole * 1000000 + fracScaled;
    MillionthsLookAtSixDigits(whole, fracPart);
    if scaled >= TWO_32 {
      return None;
    }
    return Some(scaled);
  }

  /** The first loop of `ParseSizeU32`: refuses what is not a digit, looks for a digit other than zero. */
  method AnyNonzero(fracPart: string) returns (nonzero: Option<bool>)
    ensures nonzero == if AllDigits(fracPart) then Some(!AllZero(fracPart)) else None
  {
    var anyNonzero := false;
    for i := 0 to |fracPart|
      invariant AllDigits(fracPart[..i])
      invariant anyNonzero <==> !AllZero(fracPart[..i])
    {
      if !IsDigit(fracPart[i]) {
        return None;
      }
      if fracPart[i] != '0' {
        anyNonzero := true;
      }
      assert fracPart[..i + 1] == fracPart[..i] + [fracPart[i]];
    }
    assert fracPart[..|fracPart|] == fracPart;
    return Some(anyNonzero);
  }

  /** Its accumulating and padding loops, in 32 bits. */
  method ScaleToSixDigits(fracPart: string) returns (fracScaled: uint32)
    requires AllDigits(fracPart)
    ensures fracScaled == Leading(fracPart, 6) < 1000000
  {
    fracScaled := 0;
    var digits := 0;
    while digits < 6 && digits < |fracPart|
      invariant digits <= 6 && digits <= |fracPart| && fracScaled == Leading(fracPart, digits)
    {
      LeadingIsSmall(fracPart, digits + 1);
      fracScaled := fracScaled * 10 + Digit(fracPart[digits]);
      digits := digits + 1;
    }
    while digits < 6
      invariant digits <= 6 && fracScaled == Leading(fracPart, digits)
      invariant digits < 6 ==> digits >= |fracPart|
    {
      LeadingIsSmall(fracPart, digits + 1);
      fracScaled := fracScaled * 10;
      digits := digits + 1;
    }
    LeadingIsSmall(fracPart, 6);
  }

  lemma LeadingIsSmall(s: string, k: nat)
    requires AllDigits(s) && k <= 6
    ensures Leading(s, k) < 1000000
  {
    LeadingBound(s, k);
    assert Pow10(0) == 1 && Pow10(2) == 100 && Pow10(4) == 10000 && Pow10(6) == 1000000;
  }

  // ---------------------------------------------------------------- laws of prices

  /** A dotted price is the exact value in cents, to the nearest and ties up, exactly when the price is
      below the one whose cents round to 2^32. */
  lemma PriceIsExact(s: string)
    requires Dotted(s) && FindDot(s) + 1 < |s|
    ensures PriceCents(s) == Some(ExactCents(s)) <==> Value(s) < 42949672.955
  {
    hide FindDot, Whole, Fraction, Leading, Value;
    CentsOfParts(s, Whole(s[..FindDot(s)]), s[FindDot(s) + 1..]);
    RoundsBelow(100.0 * Value(s), TWO_32);
  }

  lemma RoundsBelow(x: real, n: int)
    ensures RoundHalfUp(x) < n <==> x < n as real - 0.5
  {
  }

  /** It is then within half a cent. */
  lemma PriceIsNear(s: string)
    requires Dotted(s)
    ensures -0.5 < ExactCents(s) as real - 100.0 * Value(s) <= 0.5
  {
    hide FindDot, Whole, Fraction;
    NearestInteger(100.0 * Value(s));
  }

  lemma NearestInteger(x: real)
    ensures -0.5 < RoundHalfUp(x) as real - x <= 0.5
  {
  }

  lemma FloorsInOrder(x: real, y: real)
    ensures x <= y ==> x.Floor <= y.Floor
  {
  }

  /** A price in cents already. */
  predicate NoPoint(s: string) {
    FindDot(s) == |s|
  }

  /** The unit of a price is a cent or its value's own, a hundred cents. */
  lemma PriceByUnit(s: string)
    requires PriceCents(s).Some? && (NoPoint(s) || Value(s) < 42949672.955)
    ensures Value(s) >= 0.0
    ensures NoPoint(s) ==> Value(s) == PriceCents(s).value as real
    ensures !NoPoint(s) ==> PriceCents(s).value == (100.0 * Value(s) + 0.5).Floor
  {
    hide FindDot, Whole, Fraction;
    if NoPoint(s) {
      assert s[..FindDot(s)] == s;
    } else {
      PriceIsExact(s);
    }
  }

  /** When two prices that do not wrap read in the order of their values, exactly: always, unless the
      lower has a point, the higher has none, and the lower's cents round above it. */
  lemma PricesKeepOrder(s: string, t: string)
    requires PriceCents(s).Some? && (NoPoint(s) || Value(s) < 42949672.955)
    requires PriceCents(t).Some? && (NoPoint(t) || Value(t) < 42949672.955)
    requires Value(s) <= Value(t)
    ensures PriceCents(s).value <= PriceCents(t).value <==>
              NoPoint(s) || !NoPoint(t) || 100.0 * Value(s) < Value(t) + 0.5
  {
    PriceByUnit(s);
    PriceByUnit(t);
    hide PriceCents, NoPoint, Value;
    FloorsInOrder(100.0 * Value(s) + 0.5, 100.0 * Value(t) + 0.5);
    if NoPoint(s) && !NoPoint(t) {
      FloorsInOrder(PriceCents(s).value as real, 100.0 * Value(t) + 0.5);
    }
  }

  lemma {:induction false} ZeroAddsNothing(s: string)
    requires AllDigits(s)
    ensures AllDigits(s + "0") && Fraction(s + "0") == Fraction(s)
  {
    if s == "" {
      assert Fraction("0"[1..]) == 0.0;
      assert "" + "0" == "0";
    } else {
      assert (s + "0")[1..] == s[1..] + "0";
      ZeroAddsNothing(s[1..]);
    }
  }

  lemma DotOfAppended(s: string, t: string)
    requires FindDot(s) < |s|
    ensures FindDot(s + t) == FindDot(s)
  {
    var dot := FindDot(s);
    assert (s + t)[dot] == '.';
    assert forall i :: 0 <= i < dot ==> (s + t)[i] == s[i];
  }

  lemma ZeroKeepsValue(s: string)
    requires Dotted(s)
    ensures Dotted(s + "0") && FindDot(s + "0") == FindDot(s) && Value(s + "0") == Value(s)
  {
    hide FindDot, Whole, Fraction, U32;
    var dot := FindDot(s);
    DotOfAppended(s, "0");
    assert (s + "0")[..dot] == s[..dot] && (s + "0")[dot + 1..] == s[dot + 1..] + "0";
    ZeroAddsNothing(s[dot + 1..]);
  }

  /** A trailing zero changes no price. */
  lemma TrailingZeroIsInvisible(s: string)
    requires Dotted(s) && FindDot(s) + 1 < |s|
    ensures PriceCents(s + "0") == PriceCents(s)
  {
    hide FindDot, ExactCents, Dotted, Value;
    ZeroKeepsValue(s);
    SameCents(s, s + "0");
  }

  lemma SameCents(s: string, t: string)
    requires Dotted(s) && Dotted(t) && Value(s) == Value(t)
    ensures ExactCents(s) == ExactCents(t)
  {
    hide Dotted, Value;
  }

  // ---------------------------------------------------------------- printing

  function DigitChar(d: nat): (c: char)
    requires d <= 9
    ensures IsDigit(c) && Digit(c) == d
  {
    '0' + d as char
  }

  function PrintNat(n: nat): (s: string)
    ensures s != "" && AllDigits(s) && Whole(s) == n
  {
    if n < 10 then
      assert [DigitChar(n)][..0] == "";
      [DigitChar(n)]
    else
      assert (PrintNat(n / 10) + [DigitChar(n % 10)])[..|PrintNat(n / 10)|] == PrintNat(n / 10);
      PrintNat(n / 10) + [DigitChar(n % 10)]
  }

  /** Cents with two decimals. */
  function PrintPrice(cents: nat): string {
    PrintNat(cents / 100) + "." + [DigitChar(cents / 10 % 10), DigitChar(cents % 10)]
  }

  lemma DotAfterDigits(s: string, t: string)
    requires AllDigits(s) && (t == "" || t[0] == '.')
    ensures FindDot(s + t) == |s|
  {
    assert forall i :: 0 <= i < |s| ==> (s + t)[i] == s[i];
    if t != "" {
      assert (s + t)[|s|] == '.';
    }
  }

  lemma LeadingOfTwo(a: nat, b: nat)
    requires a <= 9 && b <= 9
    ensures Leading([DigitChar(a), DigitChar(b)], 2) == 10 * a + b
  {
    var frac := [DigitChar(a), DigitChar(b)];
    assert Leading(frac, 0) == 0 && Leading(frac, 1) == a;
  }

  lemma PrintedParts(cents: nat)
    requires cents / 100 < TWO_32
    ensures
      var s, whole := PrintPrice(cents), PrintNat(cents / 100);
      && FindDot(s) == |whole| && |whole| + 1 < |s| && Dotted(s)
      && s[..|whole|] == whole && s[|whole| + 1..] == [DigitChar(cents / 10 % 10), DigitChar(cents % 10)]
  {
    hide FindDot, Whole, PrintNat, Fraction;
    var whole, frac := PrintNat(cents / 100), [DigitChar(cents / 10 % 10), DigitChar(cents % 10)];
    var s := PrintPrice(cents);
    assert s == whole + ("." + frac);
    DotAfterDigits(whole, "." + frac);
    assert s[..|whole|] == whole && s[|whole| + 1..] == frac;
  }

  lemma CentsOfDigits(cents: nat)
    ensures 100 * (cents / 100) + (10 * (cents / 10 % 10) + cents % 10) == cents
  {
    var tens, last := Euclid(cents, 10);
    var whole, first := Euclid(tens, 10);
    ModUnique(cents, 100, whole, 10 * first + last);
  }

  lemma PrintedCents(cents: nat)
    requires cents / 100 < TWO_32
    ensures Dotted(PrintPrice(cents)) && FindDot(PrintPrice(cents)) + 1 < |PrintPrice(cents)|
    ensures ExactCents(PrintPrice(cents)) == cents
  {
    hide FindDot, Whole, ExactCents, Leading, PrintNat, Fraction, PrintPrice, Dotted, DigitChar;
    PrintedParts(cents);
    LeadingOfTwo(cents / 10 % 10, cents % 10);
    var frac := [DigitChar(cents / 10 % 10), DigitChar(cents % 10)];
    CentsOfParts(PrintPrice(cents), cents / 100, frac);
    CentsOfDigits(cents);
  }

  /** Reading a printed price gives it back in 32 bits, whenever its integer part fits in 32 bits. */
  lemma PrintedPriceIsRead(cents: nat)
    requires cents / 100 < TWO_32
    ensures PriceCents(PrintPrice(cents)) == Some(cents % TWO_32)
  {
    hide FindDot, ExactCents, PrintPrice, Dotted, IsDecimal;
    PrintedCents(cents);
  }

  /** The unit of a price depends on its point: 0.57 reads above 1. */
  lemma PriceUnitsMix()
    ensures PriceCents("0.57") == Some(57) && PriceCents("1") == Some(1)
  {
    assert PrintNat(0) == "0" && PrintNat(1) == "1";
    assert PrintPrice(57) == "0.57";
    PrintedPriceIsRead(57);
    hide PriceCents;
    UndottedIsRead(1);
  }

  lemma UndottedIsRead(cents: uint32)
    ensures PriceCents(PrintNat(cents)) == Some(cents)
  {
    DotAfterDigits(PrintNat(cents), "");
    assert PrintNat(cents) + "" == PrintNat(cents);
  }

  /** A price past 32 bits of cents wraps into the quoted range: 42949672.97 reads as one cent. */
  lemma PriceWraps()
    ensures PriceCents(PrintPrice(4294967297)) == Some(1)
  {
    PrintedPriceIsRead(4294967297);
  }

  /** Reading a printed size gives it back. */
  lemma PrintedSizeIsRead(size: uint32)
    ensures SizeUnits(PrintNat(size)) == Some(size)
  {
    DotAfterDigits(PrintNat(size), "");
    assert PrintNat(size) + "" == PrintNat(size);
  }

  // ---------------------------------------------------------------- laws of sizes

  lemma {:induction false} ZerosAreZero(s: string)
    requires AllDigits(s)
    ensures Fraction(s) == 0.0 <==> AllZero(s)
  {
    if s != "" {
      ZerosAreZero(s[1..]);
      assert AllZero(s) <==> s[0] == '0' && AllZero(s[1..]) by {
        if s[0] == '0' && AllZero(s[1..]) {
          assert forall i :: 1 <= i < |s| ==> s[i] == s[1..][i - 1];
        }
      }
    }
  }

  lemma {:induction false} LeadingOfZeros(s: string, k: nat)
    requires AllDigits(s) && k <= |s| && AllZero(s[..k])
    ensures Leading(s, k) == 0
  {
    if k > 0 {
      assert s[..k][k - 1] == s[k - 1] == '0' && s[..k - 1] == s[..k][..k - 1];
      LeadingOfZeros(s, k - 1);
    }
  }

  lemma SmallFractionVanishes(frac: string)
    requires AllDigits(frac) && |frac| > 6 && AllZero(frac[..6]) && !AllZero(frac)
    ensures IsDecimal("0" + ("." + frac)) && SizeUnits("0" + ("." + frac)) == Some(0) && Value("0" + ("." + frac)) > 0.0
  {
    var s := "0" + ("." + frac);
    DotAfterDigits("0", "." + frac);
    assert s[..1] == "0" && s[2..] == frac;
    assert Whole("0") == 0 by {
      assert "0"[..0] == "";
    }
    hide FindDot, Whole, Leading, Fraction;
    LeadingOfZeros(frac, 6);
    MillionthsLookAtSixDigits(0, frac);
    ZerosAreZero(frac);
  }

  /** A size that is not zero reads as zero: a ten-millionth. */
  lemma TinySizeVanishes()
    ensures SizeUnits("0.0000001") == Some(0) && Value("0.0000001") > 0.0
  {
    hide SizeUnits, Value, IsDecimal;
    var frac := "0000001";
    assert frac[6] == '1' && AllDigits(frac) && !AllZero(frac);
    SmallFractionVanishes(frac);
    assert "0.0000001" == "0" + ("." + frac);
  }

  /** An accepted size reads as zero, which deletes a level, exactly when its value is below one
      millionth, zero or not. */
  lemma SizeVanishesBelowAMillionth(s: string)
    requires SizeUnits(s).Some?
    ensures SizeUnits(s) == Some(0) <==> Value(s) < 0.000001
  {
    hide FindDot, Whole, Fraction;
    var dot := FindDot(s);
    if dot == |s| {
      assert s[..dot] == s;
    } else {
      ZerosAreZero(s[dot + 1..]);
      FloorIsZero(Value(s));
    }
  }

  lemma FloorIsZero(v: real)
    requires v >= 0.0
    ensures (1000000.0 * v).Floor == 0 <==> v < 0.000001
  {
  }

  /** A dotted size is accepted exactly when it is an integer, or its millionths fit in 32 bits. */
  lemma SizeAcceptance(s: string)
    requires Dotted(s)
    ensures SizeUnits(s).Some? <==>
              Value(s) == Whole(s[..FindDot(s)]) as real || 1000000.0 * Value(s) < TWO_32 as real
  {
    hide FindDot, Whole, Fraction;
    ZerosAreZero(s[FindDot(s) + 1..]);
  }

  /** A size read as an integer: no point, or nothing but zeros behind it. */
  predicate IntegerSize(s: string) {
    FindDot(s) == |s| || AllZero(s[FindDot(s) + 1..])
  }

  /** The unit of a size is its value's own, or a millionth. */
  lemma SizeByUnit(s: string)
    requires SizeUnits(s).Some?
    ensures Value(s) >= 0.0
    ensures IntegerSize(s) ==> Value(s) == SizeUnits(s).value as real
    ensures !IntegerSize(s) ==> SizeUnits(s).value == (1000000.0 * Value(s)).Floor
  {
    hide FindDot, Whole, Fraction;
    var dot := FindDot(s);
    if dot == |s| {
      assert s[..dot] == s;
    } else {
      ZerosAreZero(s[dot + 1..]);
    }
  }

  /** When two sizes read in the order of their values, exactly: always, unless the smaller is a
      fraction, the larger an integer, and the smaller's millionths exceed it. */
  lemma SizesKeepOrder(s: string, t: string)
    requires SizeUnits(s).Some? && SizeUnits(t).Some? && Value(s) <= Value(t)
    ensures SizeUnits(s).value <= SizeUnits(t).value <==>
              IntegerSize(s) || !IntegerSize(t) || 1000000.0 * Value(s) < Value(t) + 1.0
  {
    SizeByUnit(s);
    SizeByUnit(t);
    hide SizeUnits, IntegerSize, Value;
    FloorsInOrder(1000000.0 * Value(s), 1000000.0 * Value(t));
    if IntegerSize(s) && !IntegerSize(t) {
      FloorsInOrder(SizeUnits(s).value as real, 1000000.0 * Value(t));
    }
  }

  /** The unit depends on the digits: a size of one and a half reads larger than a size of two. */
  lemma SizeUnitsMix()
    ensures SizeUnits("2") == Some(2) && SizeUnits("1.5") == Some(1500000)
  {
    var s := "1.5";
    assert FindDot("2") == 1 && FindDot(s) == 1 by {
      assert s[1] == '.';
    }
    assert s[..1] == "1" && s[2..] == "5" && "2"[..0] == "" && "1"[..0] == "";
    assert Whole("1") == 1 && Whole("2") == 2;
    assert Leading("5", 1) == 5 && Leading("5", 2) == 50 && Leading("5", 4) == 5000 && Leading("5", 6) == 500000;
    MillionthsLookAtSixDigits(1, "5");
    assert !AllZero("5") by {
      assert "5"[0] != '0';
    }
  }
}
