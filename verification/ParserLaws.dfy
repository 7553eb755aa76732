/** What the parser's ticks mean for the book. */
module ParserLaws {
  import opened Machine
  import opened OrderBook
  import opened Decimal
  import opened MarketParser

  predicate InRange(ticks: seq<MarketTick>) {
    forall i :: 0 <= i < |ticks| ==> ticks[i].price <= MAX_PRICE
  }

  // ---------------------------------------------------------------- range

  lemma ElementInRange(schema: Schema, v: Json)
    ensures ElementOf(schema, v).Emit? ==> InRange(ElementOf(schema, v).ticks)
  {
    hide PriceCents, SizeUnits, Find;
  }

  lemma {:induction false} ElementsInRange(schema: Schema, items: seq<Json>)
    ensures InRange(Elements(schema, items).ticks)
  {
    hide ElementOf;
    if items != [] {
      ElementInRange(schema, items[0]);
      ElementsInRange(schema, items[1..]);
    }
  }

  lemma MessageInRange(fields: seq<(string, Json)>)
    ensures InRange(Message(fields).ticks)
  {
    hide Elements, InRange, Find;
    assert InRange([]) by {
      NothingInRange();
    }
    FieldInRange(Pairs(true), fields, "bids");
    FieldInRange(Pairs(false), fields, "asks");
    FieldInRange(Objects(true), fields, "bids");
    FieldInRange(Objects(false), fields, "asks");
    FieldInRange(Changes, fields, "price_changes");
    hide Field;
    ThenInRange(Field(Pairs(true), fields, "bids"), Field(Pairs(false), fields, "asks"));
    ThenInRange(Field(Objects(true), fields, "bids"), Field(Objects(false), fields, "asks"));
  }

  lemma NothingInRange()
    ensures InRange([])
  {
  }

  lemma ThenInRange(x: Emitted, y: Emitted)
    requires InRange(x.ticks) && InRange(y.ticks)
    ensures InRange(Then(x, y).ticks)
  {
  }

  lemma FieldInRange(schema: Schema, fields: seq<(string, Json)>, name: string)
    ensures InRange(Field(schema, fields, name).ticks)
  {
    match Find(fields, name)
    case Some(JArray(items)) => ElementsInRange(schema, items);
    case _ =>
  }

  /** Every tick of every document, parsed or failed halfway, has a price the book can hold. */
  lemma {:induction false} DocumentInRange(doc: Json)
    ensures InRange(Document(doc).ticks)
  {
    match doc
    case JObject(fields) => MessageInRange(fields);
    case JArray(items) => BatchInRange(items);
    case _ =>
  }

  lemma {:induction false} BatchInRange(items: seq<Json>)
    ensures InRange(Batch(items))
  {
    if items != [] {
      BatchInRange(items[1..]);
      if items[0].JObject? {
        MessageInRange(items[0].fields);
      }
    }
  }

  // ---------------------------------------------------------------- prices

  /** A dotted price is quoted at its exact value in cents, to the nearest, exactly below the price that
      rounds past the book's range. */
  lemma QuotedPriceIsExact(s: string)
    requires Dotted(s) && FindDot(s) + 1 < |s|
    ensures QuotedPrice(s) == Some(ExactCents(s)) <==> Value(s) < 1.005
    ensures QuotedPrice(s).Some? <==> ExactCents(s) % TWO_32 <= MAX_PRICE
  {
    hide FindDot, Whole, Fraction, Leading, Value;
    CentsOfParts(s, Whole(s[..FindDot(s)]), s[FindDot(s) + 1..]);
    RoundsBelow(100.0 * Value(s), MAX_PRICE + 1);
  }

  /** Prices that are off by whole laps of 32-bit cents are quoted too, as if they were in range. */
  lemma WrappedPriceIsQuoted(p: uint8, laps: nat)
    requires p <= MAX_PRICE && laps < 100
    ensures QuotedPrice(PrintPrice(p + laps * TWO_32)) == Some(p)
  {
    hide PrintPrice, PriceCents;
    PrintedPriceIsRead(p + laps * TWO_32);
  }

  // ---------------------------------------------------------------- failures

  /** A list fails exactly when some element is fatal, and what was emitted before the first fatal one
      stays emitted. */
  lemma {:induction false} ListFailsAtFirstFatal(schema: Schema, items: seq<Json>)
    ensures Elements(schema, items).ok <==> forall i :: 0 <= i < |items| ==> ElementOf(schema, items[i]).Emit?
    ensures forall k :: 0 <= k < |items| && ElementOf(schema, items[k]).Fail? && Elements(schema, items[..k]).ok ==>
              Elements(schema, items) == Emitted(false, Elements(schema, items[..k]).ticks)
  {
    hide ElementOf;
    FailsIfFatal(schema, items);
    forall k | 0 <= k < |items| && ElementOf(schema, items[k]).Fail? && Elements(schema, items[..k]).ok
      ensures Elements(schema, items) == Emitted(false, Elements(schema, items[..k]).ticks)
    {
      assert items == items[..k] + items[k..];
      ElementsSplit(schema, items[..k], items[k..]);
      assert Elements(schema, items[..k]).ticks + [] == Elements(schema, items[..k]).ticks;
    }
  }

  lemma {:induction false} FailsIfFatal(schema: Schema, items: seq<Json>)
    ensures Elements(schema, items).ok <==> forall i :: 0 <= i < |items| ==> ElementOf(schema, items[i]).Emit?
  {
    hide ElementOf;
    if items != [] {
      FailsIfFatal(schema, items[1..]);
      assert forall i :: 1 <= i < |items| ==> items[i] == items[1..][i - 1];
    }
  }

  // ---------------------------------------------------------------- hints

  /** The book after those of a change's ticks that the queue accepted. */
  function ApplyKept(b: Book, ticks: seq<MarketTick>, kept: seq<bool>): Book
    requires |kept| == |ticks|
    decreases |ticks|
  {
    if ticks == [] then b
    else ApplyKept(if kept[0] then Apply(b, ticks[0]) else b, ticks[1..], kept[1..])
  }

  /** Once the accepted ticks of a change are applied, to whatever book, the best bid is at least an
      accepted bid hint and the best ask at most an accepted ask hint. */
  lemma HintsBoundTheTop(b: Book, fields: seq<(string, Json)>, ticks: seq<MarketTick>, kept: seq<bool>)
    requires Change(JObject(fields)) == Emit(ticks) && ticks != [] && |kept| == |ticks|
    ensures
      var b' := ApplyKept(b, ticks, kept);
      var bid, ask := Hint(fields, "best_bid"), Hint(fields, "best_ask");
      && (bid.Some? ==> |ticks| >= 2 && (kept[1] ==> bid.value <= BestBid(b') <= MAX_PRICE))
      && (ask.Some? ==> kept[|ticks| - 1] ==> BestAsk(b') <= ask.value)
  {
    hide Text, Change, Find, BestBid, BestAsk, IsHighest, IsLowest, Apply, Hint;
    ChangeShape(fields, ticks);
    var bid, ask := HintTick(fields, "best_bid", true), HintTick(fields, "best_ask", false);
    HintInRange(fields, "best_bid");
    HintInRange(fields, "best_ask");
    var b1 := if kept[0] then Apply(b, ticks[0]) else b;
    assert ApplyKept(b, ticks, kept) == ApplyKept(b1, bid + ask, kept[1..]);
    HintsApplied(b1, bid, ask, kept[1..]);
  }

  lemma ChangeShape(fields: seq<(string, Json)>, ticks: seq<MarketTick>)
    requires Change(JObject(fields)) == Emit(ticks) && ticks != []
    ensures ticks[1..] == HintTick(fields, "best_bid", true) + HintTick(fields, "best_ask", false)
  {
    hide Text, Level, HintTick;
    var price, size, side := Text(fields, "price").value, Text(fields, "size").value, Text(fields, "side").value;
    LevelIsOne(price, size, side == "BUY");
    TailAfterOne(Level(price, size, side == "BUY").ticks,
                 HintTick(fields, "best_bid", true), HintTick(fields, "best_ask", false));
  }

  lemma TailAfterOne(main: seq<MarketTick>, x: seq<MarketTick>, y: seq<MarketTick>)
    requires |main| == 1
    ensures (main + x + y)[1..] == x + y
  {
  }

  lemma LevelIsOne(price: string, size: string, isBid: bool)
    ensures Level(price, size, isBid).Emit?
    ensures Level(price, size, isBid) != Emit([]) ==> |Level(price, size, isBid).ticks| == 1
  {
  }

  lemma HintInRange(fields: seq<(string, Json)>, name: string)
    ensures Hint(fields, name).Some? ==> 0 < Hint(fields, name).value <= MAX_PRICE
  {
  }

  lemma KeptHints(b: Book, bid: seq<MarketTick>, ask: seq<MarketTick>, kept: seq<bool>)
    requires |bid| <= 1 && |ask| <= 1 && |kept| == |bid + ask|
    ensures
      var b1 := if bid != [] && kept[0] then Apply(b, bid[0]) else b;
      ApplyKept(b, bid + ask, kept) == if ask != [] && kept[|kept| - 1] then Apply(b1, ask[0]) else b1
  {
    hide Apply;
    var b1 := if bid != [] && kept[0] then Apply(b, bid[0]) else b;
    var b2 := if ask != [] && kept[|kept| - 1] then Apply(b1, ask[0]) else b1;
    if bid == [] {
      assert bid + ask == ask;
      if ask != [] {
        assert ask[1..] == [] && ApplyKept(b, ask, kept) == ApplyKept(b2, ask[1..], kept[1..]);
      }
    } else {
      assert (bid + ask)[1..] == ask && ApplyKept(b, bid + ask, kept) == ApplyKept(b1, ask, kept[1..]);
      if ask != [] {
        assert ask[1..] == [] && ApplyKept(b1, ask, kept[1..]) == ApplyKept(b2, ask[1..], kept[1..][1..]);
      }
    }
  }

  lemma BestAfter(b: Book, t: MarketTick)
    requires t.size != 0 && t.price <= MAX_PRICE
    ensures t.isBid ==> t.price <= BestBid(Apply(b, t)) <= MAX_PRICE
    ensures !t.isBid ==> BestAsk(Apply(b, t)) <= t.price && BestBid(Apply(b, t)) == BestBid(b)
  {
    var b' := Apply(b, t);
    assert (if t.isBid then b'.bids[t.price] else b'.asks[t.price]) == t.size;
    assert IsHighest(b'.bids, BestBid(b')) && IsLowest(b'.asks, BestAsk(b'));
  }

  lemma HintsApplied(b: Book, bid: seq<MarketTick>, ask: seq<MarketTick>, kept: seq<bool>)
    requires |bid| <= 1 && |ask| <= 1 && |kept| == |bid + ask|
    requires forall i :: 0 <= i < |bid| ==> bid[i].isBid && bid[i].size == 1 && bid[i].price <= MAX_PRICE
    requires forall i :: 0 <= i < |ask| ==> !ask[i].isBid && ask[i].size == 1 && ask[i].price <= MAX_PRICE
    ensures
      var b' := ApplyKept(b, bid + ask, kept);
      && (bid != [] && kept[0] ==> bid[0].price <= BestBid(b') <= MAX_PRICE)
      && (ask != [] && kept[|kept| - 1] ==> BestAsk(b') <= ask[0].price)
  {
    KeptHints(b, bid, ask, kept);
    hide ApplyKept, Apply, BestBid, BestAsk, IsHighest, IsLowest;
    var b1 := if bid != [] && kept[0] then Apply(b, bid[0]) else b;
    if bid != [] && kept[0] {
      BestAfter(b, bid[0]);
    }
    if ask != [] && kept[|kept| - 1] {
      BestAfter(b1, ask[0]);
    }
  }

  // ---------------------------------------------------------------- round trips

  function LevelJson(t: MarketTick): Json {
    JObject([("price", JString(PrintPrice(t.price))), ("size", JString(PrintNat(t.size)))])
  }

  function PairJson(t: MarketTick): Json {
    JArray([JString(PrintPrice(t.price)), JString(PrintNat(t.size))])
  }

  function ChangeJson(t: MarketTick): Json {
    JObject([("price", JString(PrintPrice(t.price))), ("size", JString(PrintNat(t.size))),
             ("side", JString(if t.isBid then "BUY" else "SELL"))])
  }

  /** A tick as an element of a list of the given schema. */
  function Rendered(schema: Schema, t: MarketTick): Json {
    match schema
    case Pairs(_) => PairJson(t)
    case Objects(_) => LevelJson(t)
    case Changes => ChangeJson(t)
  }

  function RenderedAll(schema: Schema, ticks: seq<MarketTick>): seq<Json> {
    seq(|ticks|, i requires 0 <= i < |ticks| => Rendered(schema, ticks[i]))
  }

  /** The schemas with one list a side name the side outside the list. */
  predicate Fits(schema: Schema, t: MarketTick) {
    t.price <= MAX_PRICE && (!schema.Changes? ==> t.isBid == schema.isBid)
  }

  predicate FitAll(schema: Schema, ticks: seq<MarketTick>) {
    forall i :: 0 <= i < |ticks| ==> Fits(schema, ticks[i])
  }

  lemma PrintedLevelIsRead(t: MarketTick)
    requires t.price <= MAX_PRICE
    ensures Level(PrintPrice(t.price), PrintNat(t.size), t.isBid) == Emit([t])
  {
    hide PriceCents, SizeUnits, PrintPrice;
    PrintedPriceIsRead(t.price);
    PrintedSizeIsRead(t.size);
  }

  lemma RenderedIsRead(schema: Schema, t: MarketTick)
    requires Fits(schema, t)
    ensures ElementOf(schema, Rendered(schema, t)) == Emit([t])
  {
    PrintedLevelIsRead(t);
    hide Level, PrintPrice, PrintNat;
    match schema {
      case Pairs(_) =>
      case Objects(_) => TextOfTwo(PrintPrice(t.price), PrintNat(t.size));
      case Changes =>
        TextOfThree(PrintPrice(t.price), PrintNat(t.size), if t.isBid then "BUY" else "SELL");
        SidesDiffer();
        hide Text;
        assert ChangeJson(t).fields == [("price", JString(PrintPrice(t.price))), ("size", JString(PrintNat(t.size))),
             ("side", JString(if t.isBid then "BUY" else "SELL"))];
    }
  }

  lemma SidesDiffer()
    ensures "BUY" != "SELL"
  {
    assert |"BUY"| == 3 && |"SELL"| == 4;
  }

  lemma TextOfTwo(price: string, size: string)
    ensures
      var fields := [("price", JString(price)), ("size", JString(size))];
      Text(fields, "price") == Some(price) && Text(fields, "size") == Some(size)
  {
    var f0, f1 := ("price", JString(price)), ("size", JString(size));
    assert |"price"| == 5 && |"size"| == 4;
    assert [f0, f1] == [f0] + [f1];
    FindInTail(f0, [f1], "size");
  }

  lemma FindInTail(f: (string, Json), fields: seq<(string, Json)>, name: string)
    requires f.0 != name
    ensures Find([f] + fields, name) == Find(fields, name)
  {
    assert ([f] + fields)[1..] == fields;
  }

  lemma TextOfThree(price: string, size: string, side: string)
    ensures
      var fields := [("price", JString(price)), ("size", JString(size)), ("side", JString(side))];
      && Text(fields, "price") == Some(price) && Text(fields, "size") == Some(size)
      && Text(fields, "side") == Some(side)
      && Hint(fields, "best_bid") == None && Hint(fields, "best_ask") == None
  {
    var f0, f1, f2 := ("price", JString(price)), ("size", JString(size)), ("side", JString(side));
    var fields := [f0, f1, f2];
    assert fields == [f0] + [f1, f2] && [f1, f2] == [f1] + [f2] && [f2] == [f2] + [];
    assert |"price"| == 5 && |"size"| == |"side"| == 4 && |"best_bid"| == |"best_ask"| == 8;
    assert "size"[2] != "side"[2];
    FindInTail(f0, [f1, f2], "size");
    FindInTail(f0, [f1, f2], "side");
    FindInTail(f1, [f2], "side");
    NotFound(f0, f1, f2, "best_bid");
    NotFound(f0, f1, f2, "best_ask");
  }

  lemma NotFound(f0: (string, Json), f1: (string, Json), f2: (string, Json), name: string)
    requires f0.0 != name && f1.0 != name && f2.0 != name
    ensures Find([f0, f1, f2], name) == None
  {
    assert [f0, f1, f2] == [f0] + ([f1] + ([f2] + []));
    FindInTail(f0, [f1] + ([f2] + []), name);
    FindInTail(f1, [f2] + [], name);
    FindInTail(f2, [], name);
  }

  lemma {:induction false} RenderedListIsRead(schema: Schema, ticks: seq<MarketTick>)
    requires FitAll(schema, ticks)
    ensures Elements(schema, RenderedAll(schema, ticks)) == Emitted(true, ticks)
    decreases |ticks|
  {
    hide ElementOf, Rendered, Fits;
    if ticks != [] {
      var all := RenderedAll(schema, ticks);
      assert all[1..] == RenderedAll(schema, ticks[1..]);
      RenderedIsRead(schema, ticks[0]);
      RenderedListIsRead(schema, ticks[1..]);
      assert [ticks[0]] + ticks[1..] == ticks;
    }
  }

  /** A book snapshot, of one venue's schema or the other's. */
  function Snapshot(asObjects: bool, bids: seq<MarketTick>, asks: seq<MarketTick>): Json {
    if asObjects then
      JObject([("event_type", JString("book")),
               ("bids", JArray(RenderedAll(Objects(true), bids))), ("asks", JArray(RenderedAll(Objects(false), asks)))])
    else
      JObject([("bids", JArray(RenderedAll(Pairs(true), bids))), ("asks", JArray(RenderedAll(Pairs(false), asks)))])
  }

  function ChangeMessage(ticks: seq<MarketTick>): Json {
    JObject([("event_type", JString("price_change")), ("price_changes", JArray(RenderedAll(Changes, ticks)))])
  }

  lemma FoundThird(f0: (string, Json), f1: (string, Json), f2: (string, Json))
    requires f0.0 != f1.0 && f0.0 != f2.0 && f1.0 != f2.0
    ensures Find([f0, f1, f2], f0.0) == Some(f0.1)
    ensures Find([f0, f1, f2], f1.0) == Some(f1.1)
    ensures Find([f0, f1, f2], f2.0) == Some(f2.1)
  {
    assert [f0, f1, f2] == [f0] + ([f1] + [f2]);
    FindInTail(f0, [f1] + [f2], f1.0);
    FindInTail(f0, [f1] + [f2], f2.0);
    FindInTail(f1, [f2], f2.0);
  }

  lemma FieldNames()
    ensures "event_type" != "bids" && "event_type" != "asks" && "bids" != "asks"
    ensures "book" != "price_change" && "event_type" != "price_changes"
  {
    assert |"event_type"| == 10 && |"bids"| == |"asks"| == |"book"| == 4;
    assert |"price_change"| == 12 && |"price_changes"| == 13;
    assert "bids"[0] != "asks"[0];
  }

  /** Round trip of snapshots, in both schemas: parsing a rendered snapshot offers exactly its levels,
      bids then asks, in order. */
  lemma SnapshotIsRead(asObjects: bool, bids: seq<MarketTick>, asks: seq<MarketTick>)
    requires FitAll(Objects(true), bids) && FitAll(Objects(false), asks)
    ensures Document(Snapshot(asObjects, bids, asks)) == Emitted(true, bids + asks)
  {
    hide Elements, RenderedAll;
    FieldNames();
    var fields := Snapshot(asObjects, bids, asks).fields;
    if asObjects {
      RenderedListIsRead(Objects(true), bids);
      RenderedListIsRead(Objects(false), asks);
      FoundThird(fields[0], fields[1], fields[2]);
      assert fields == [fields[0], fields[1], fields[2]];
    } else {
      RenderedListIsRead(Pairs(true), bids);
      RenderedListIsRead(Pairs(false), asks);
      assert fields == [fields[0]] + ([fields[1]] + []);
      FindInTail(fields[0], [fields[1]] + [], "asks");
      FindInTail(fields[0], [fields[1]] + [], "event_type");
      FindInTail(fields[1], [], "event_type");
    }
  }

  /** Round trip of deltas: any ticks, sides mixed. */
  lemma ChangesAreRead(ticks: seq<MarketTick>)
    requires FitAll(Changes, ticks)
    ensures Document(ChangeMessage(ticks)) == Emitted(true, ticks)
  {
    hide Elements, RenderedAll;
    FieldNames();
    RenderedListIsRead(Changes, ticks);
    var fields := ChangeMessage(ticks).fields;
    assert fields == [fields[0]] + [fields[1]];
    FindInTail(fields[0], [fields[1]], "price_changes");
  }

  // ---------------------------------------------------------------- snapshots and books

  /** The first `n` levels of a side. */
  function SideTicks(side: Levels, isBid: bool, n: nat): seq<MarketTick>
    requires n <= LEVELS
  {
    seq(n, p requires 0 <= p < n => MarketTick(p, side[p], isBid))
  }

  lemma {:induction false} SideTicksWrite(b: Book, side: Levels, isBid: bool, n: nat)
    requires n <= LEVELS
    ensures
      var b' := ApplyAll(b, SideTicks(side, isBid, n));
      && (isBid ==> b'.asks == b.asks && b'.bids == side[..n] + b.bids[n..])
      && (!isBid ==> b'.bids == b.bids && b'.asks == side[..n] + b.asks[n..])
  {
    hide ApplyAll, SideTicks;
    if n == 0 {
      NoTicks(b, side, isBid);
    } else {
      SideTicksWrite(b, side, isBid, n - 1);
      var t := MarketTick(n - 1, side[n - 1], isBid);
      SideTicksSnoc(side, isBid, n);
      ApplyAllSnoc(b, SideTicks(side, isBid, n - 1), t);
      OneMoreLevel(side, b.bids, n);
      OneMoreLevel(side, b.asks, n);
    }
  }

  lemma NoTicks(b: Book, side: Levels, isBid: bool)
    ensures ApplyAll(b, SideTicks(side, isBid, 0)) == b
    ensures side[..0] + b.bids[0..] == b.bids && side[..0] + b.asks[0..] == b.asks
  {
  }

  lemma SideTicksSnoc(side: Levels, isBid: bool, n: nat)
    requires 0 < n <= LEVELS
    ensures SideTicks(side, isBid, n) == SideTicks(side, isBid, n - 1) + [MarketTick(n - 1, side[n - 1], isBid)]
  {
  }

  lemma OneMoreLevel(x: Levels, y: Levels, n: nat)
    requires 0 < n <= LEVELS
    ensures (x[..n - 1] + y[n - 1..])[n - 1 := x[n - 1]] == x[..n] + y[n..]
  {
  }

  /** A snapshot of every level, parsed and applied to any book, leaves exactly the book it was taken of. */
  lemma FullSnapshotRestoresBook(asObjects: bool, taken: Book, b: Book)
    ensures
      var doc := Snapshot(asObjects, SideTicks(taken.bids, true, LEVELS), SideTicks(taken.asks, false, LEVELS));
      Document(doc).ok && ApplyAll(b, Document(doc).ticks) == taken
  {
    hide Snapshot, Document;
    var bids, asks := SideTicks(taken.bids, true, LEVELS), SideTicks(taken.asks, false, LEVELS);
    SnapshotIsRead(asObjects, bids, asks);
    ApplyAllConcat(b, bids, asks);
    SideTicksWrite(b, taken.bids, true, LEVELS);
    SideTicksWrite(ApplyAll(b, bids), taken.asks, false, LEVELS);
  }
}
