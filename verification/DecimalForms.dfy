/** Which strings are prices and sizes, and what they read as, told of digits and one point. */
module DecimalForms {
  import opened Machine
  import opened Decimal

  /** Digits, a point, digits: the first point is that one. */
  lemma PointAfterDigits(w: string, frac: string)
    requires AllDigits(w)
    ensures
      var s := w + "." + frac;
      FindDot(s) == |w| < |s| && s[..|w|] == w && s[|w| + 1..] == frac
  {
    assert w + "." + frac == w + ("." + frac);
    DotAfterDigits(w, "." + frac);
  }

  // ---------------------------------------------------------------- prices

  /** The value of digits around a point in cents, to the nearest, ties up. */
  function RoundedCents(w: string, frac: string): int
    requires AllDigits(w) && AllDigits(frac)
  {
    (100.0 * (Whole(w) as real + Fraction(frac)) + 0.5).Floor
  }

  lemma DottedParts(w: string, frac: string)
    requires AllDigits(w) && AllDigits(frac)
    ensures Dotted(w + "." + frac) <==> Whole(w) < 0x1_0000_0000
    ensures IsDecimal(w + "." + frac) && Value(w + "." + frac) == Whole(w) as real + Fraction(frac)
  {
    PointAfterDigits(w, frac);
    assert w == "" ==> Whole(w) == 0;
    hide FindDot, Whole, Fraction;
  }

  /** A price with a point: its integer part may be missing and must fit 32 bits, its fraction may not be
      missing; it reads as the rounded cents, in 32 bits. */
  lemma PriceOfParts(w: string, frac: string)
    requires AllDigits(w) && AllDigits(frac)
    ensures
      PriceCents(w + "." + frac) ==
        if Whole(w) < 0x1_0000_0000 && frac != "" then Some(RoundedCents(w, frac) % 0x1_0000_0000) else None
  {
    hide FindDot, Whole, Fraction, Dotted, Value, IsDecimal, AllDigits, ExactCents;
    PointAfterDigits(w, frac);
    DottedParts(w, frac);
    PriceOfDotted(w + "." + frac, |w|);
  }

  lemma PriceOfDotted(s: string, dot: nat)
    requires FindDot(s) == dot < |s|
    ensures PriceCents(s) ==
              if Dotted(s) && dot + 1 < |s| then Some((100.0 * Value(s) + 0.5).Floor % TWO_32) else None
  {
    hide FindDot, Whole, Fraction, Value;
  }

  /** A missing integer part is a zero: such prices are at most a dollar and never refused. */
  lemma LeadingPointPrice(frac: string)
    requires AllDigits(frac) && frac != ""
    ensures PriceCents("." + frac) == PriceCents("0." + frac) == Some((100.0 * Fraction(frac) + 0.5).Floor)
    ensures 0 <= (100.0 * Fraction(frac) + 0.5).Floor <= 100
  {
    hide Fraction, PriceCents, Whole, RoundedCents, AllDigits;
    WholeOfZero();
    NothingBeforePoint("", frac);
    NothingBeforePoint("0", frac);
    ConcatNothing("", frac);
  }

  lemma NothingBeforePoint(w: string, frac: string)
    requires AllDigits(w) && AllDigits(frac) && Whole(w) == 0 && frac != ""
    ensures PriceCents(w + "." + frac) == Some((100.0 * Fraction(frac) + 0.5).Floor)
    ensures 0 <= (100.0 * Fraction(frac) + 0.5).Floor <= 100
  {
    hide Fraction, PriceCents, Whole, AllDigits;
    CentsBelowDollar(w, frac);
    hide RoundedCents;
    PriceOfParts(w, frac);
  }

  lemma WholeOfZero()
    ensures AllDigits("") && Whole("") == 0 && AllDigits("0") && Whole("0") == 0
  {
    assert "0"[..0] == "";
  }

  lemma CentsBelowDollar(w: string, frac: string)
    requires AllDigits(w) && AllDigits(frac) && Whole(w) == 0
    ensures RoundedCents(w, frac) == (100.0 * Fraction(frac) + 0.5).Floor
    ensures 0 <= RoundedCents(w, frac) <= 100
  {
    hide Whole, Fraction;
  }

  /** One point, digits around it. */
  predicate PointAt(s: string, dot: nat) {
    dot < |s| && s[dot] == '.' && AllDigits(s[..dot]) && AllDigits(s[dot + 1..])
  }

  lemma SplitAt(s: string, dot: nat)
    requires dot < |s| && s[dot] == '.'
    ensures s == s[..dot] + "." + s[dot + 1..]
  {
  }

  lemma PointAtIsDot(s: string, dot: nat)
    requires PointAt(s, dot)
    ensures FindDot(s) == dot
  {
    SplitAt(s, dot);
    PointAfterDigits(s[..dot], s[dot + 1..]);
  }

  lemma NoPointAt(s: string)
    requires FindDot(s) == |s|
    ensures forall dot: nat :: !PointAt(s, dot)
    ensures PriceCents(s) == SizeUnits(s) == U32(s)
  {
    forall dot: nat
      ensures !PointAt(s, dot)
    {
      if PointAt(s, dot) {
        PointAtIsDot(s, dot);
      }
    }
  }

  lemma OnlyPoint(s: string)
    requires FindDot(s) < |s|
    ensures !AllDigits(s)
    ensures forall dot: nat :: PointAt(s, dot) ==> dot == FindDot(s)
    ensures PointAt(s, FindDot(s)) ==> s == s[..FindDot(s)] + "." + s[FindDot(s) + 1..]
  {
    var d := FindDot(s);
    SplitAt(s, d);
    assert !IsDigit(s[d]);
    forall dot: nat | PointAt(s, dot)
      ensures dot == d
    {
      PointAtIsDot(s, dot);
    }
  }

  lemma BadPoint(s: string)
    requires FindDot(s) < |s| && !PointAt(s, FindDot(s))
    ensures PriceCents(s) == None && SizeUnits(s) == None
  {
    hide FindDot, Whole, Fraction, ExactCents, Value, AllZero;
    assert !Dotted(s);
  }

  /** The strings that are prices: digits that fit 32 bits, or digits that do or none, a point, and at
      least one digit. */
  lemma PriceAcceptance(s: string)
    ensures
      PriceCents(s).Some? <==>
        || (s != "" && AllDigits(s) && Whole(s) < 0x1_0000_0000)
        || exists dot: nat :: PointAt(s, dot) && Whole(s[..dot]) < 0x1_0000_0000 && dot + 1 < |s|
  {
    var d := FindDot(s);
    hide FindDot, Whole, Fraction, PriceCents, SizeUnits, RoundedCents;
    if d == |s| {
      NoPointAt(s);
    } else {
      OnlyPoint(s);
      if PointAt(s, d) {
        PriceOfParts(s[..d], s[d + 1..]);
      } else {
        BadPoint(s);
      }
    }
  }

  // ---------------------------------------------------------------- sizes

  /** The value of digits around a point in millionths, cut off. */
  function Millionths(w: string, frac: string): int
    requires AllDigits(w) && AllDigits(frac)
  {
    (1000000.0 * (Whole(w) as real + Fraction(frac))).Floor
  }

  lemma SizeOfDotted(s: string, dot: nat)
    requires FindDot(s) == dot < |s|
    ensures !Dotted(s) ==> SizeUnits(s) == None
    ensures Dotted(s) && AllZero(s[dot + 1..]) ==> AllDigits(s[..dot]) && SizeUnits(s) == Some(Whole(s[..dot]))
    ensures
      Dotted(s) && !AllZero(s[dot + 1..]) ==>
        var scaled := (1000000.0 * Value(s)).Floor;
        SizeUnits(s) == if scaled < TWO_32 then Some(scaled) else None
  {
    hide FindDot, Whole, Fraction, Value, AllZero;
  }

  /** A size with a point: either part may be missing; with nothing but zeros behind the point it is the
      integer, else the whole millionths, which must fit 32 bits. */
  lemma SizeOfParts(w: string, frac: string)
    requires AllDigits(w) && AllDigits(frac)
    ensures
      SizeUnits(w + "." + frac) ==
        if Whole(w) >= 0x1_0000_0000 then None
        else if AllZero(frac) then Some(Whole(w))
        else if Millionths(w, frac) < 0x1_0000_0000 then Some(Millionths(w, frac))
        else None
  {
    hide FindDot, Whole, Fraction, Dotted, Value, IsDecimal, AllZero, AllDigits;
    PointAfterDigits(w, frac);
    DottedParts(w, frac);
    MillionthsNotNegative(w, frac);
    SizeOfDotted(w + "." + frac, |w|);
  }

  lemma MillionthsNotNegative(w: string, frac: string)
    requires AllDigits(w) && AllDigits(frac)
    ensures Millionths(w, frac) >= 0 && (Whole(w) == 0 ==> Millionths(w, frac) < 1000000)
  {
    hide Whole, Fraction;
  }

  lemma ConcatNothing(w: string, frac: string)
    ensures "" + "." + frac == "." + frac && "0" + "." + frac == "0." + frac && w + "." + "" == w + "."
    ensures AllZero("")
  {
  }

  /** A missing integer part is a zero; a missing fraction leaves an integer. */
  lemma PointAtTheEnds(w: string, frac: string)
    requires AllDigits(w) && AllDigits(frac)
    ensures SizeUnits("." + frac) == SizeUnits("0." + frac) && SizeUnits("." + frac).Some?
    ensures SizeUnits(w + ".") == if Whole(w) < 0x1_0000_0000 then Some(Whole(w)) else None
    ensures PriceCents(w + ".") == None
  {
    hide Fraction, SizeUnits, PriceCents, Whole, RoundedCents, Millionths, AllDigits;
    WholeOfZero();
    ConcatNothing(w, frac);
    SizeOfParts("", frac);
    SizeOfParts("0", frac);
    SizeOfParts(w, "");
    PriceOfParts(w, "");
    MillionthsNotNegative("", frac);
    SameMillionths("", "0", frac);
  }

  lemma SameMillionths(v: string, w: string, frac: string)
    requires AllDigits(v) && AllDigits(w) && AllDigits(frac) && Whole(v) == Whole(w)
    ensures Millionths(v, frac) == Millionths(w, frac)
  {
  }

  /** The strings that are sizes: digits that fit 32 bits; or one point, digits or none around it, the
      integer in 32 bits, and either only zeros behind the point or millionths in 32 bits. */
  lemma SizeAcceptanceOfStrings(s: string)
    ensures
      SizeUnits(s).Some? <==>
        || (s != "" && AllDigits(s) && Whole(s) < 0x1_0000_0000)
        || exists dot: nat ::
             && PointAt(s, dot) && Whole(s[..dot]) < 0x1_0000_0000
             && (AllZero(s[dot + 1..]) || Millionths(s[..dot], s[dot + 1..]) < 0x1_0000_0000)
  {
    var d := FindDot(s);
    hide FindDot, Whole, Fraction, PriceCents, SizeUnits, Millionths, AllZero;
    if d == |s| {
      NoPointAt(s);
    } else {
      OnlyPoint(s);
      if PointAt(s, d) {
        SizeOfParts(s[..d], s[d + 1..]);
      } else {
        BadPoint(s);
      }
    }
  }

  // ---------------------------------------------------------------- as venues write them

  /** A price and a size without an integer part. */
  lemma LeadingPointIsRead()
    ensures PriceCents(".48") == Some(48) && SizeUnits(".5") == Some(500000)
  {
    hide PriceCents, SizeUnits;
    PrintedForms();
    LeadingPointPrice("48");
    PointAtTheEnds("", "5");
    assert "." + "48" == ".48" && "0." + "48" == "0.48" && "." + "5" == ".5" && "0." + "5" == "0.5";
  }

  lemma PrintedForms()
    ensures PriceCents("0.48") == Some(48) && SizeUnits("0.5") == Some(500000)
  {
  }
}
