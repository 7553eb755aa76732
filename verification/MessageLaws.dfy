/** What messages yield: batches, hints, and the fate of each element of a list. */
module MessageLaws {
  import opened Machine
  import opened OrderBook
  import opened Decimal
  import opened MarketParser
  import opened ParserLaws

  // ---------------------------------------------------------------- payloads

  /** A payload is read when the parser could be set up, its length is 1 to 65536 bytes and it is a
      document; otherwise it fails and offers nothing. */
  lemma PayloadIsRead(initialized: bool, payload: Payload)
    ensures
      if initialized && 1 <= payload.length <= 65536 && payload.doc.Some? then
        Parsed(initialized, payload) == Document(payload.doc.value)
      else
        Parsed(initialized, payload) == Emitted(false, [])
  {
    hide Document;
  }

  // ---------------------------------------------------------------- batches

  /** A batch is its parts: any message, failed or not, adds what it gives alone, and stops nothing. */
  lemma BatchesConcat(x: seq<Json>, y: seq<Json>)
    ensures Document(JArray(x)).ok
    ensures Document(JArray(x + y)).ticks == Document(JArray(x)).ticks + Document(JArray(y)).ticks
  {
    BatchConcat(x, y);
  }

  lemma {:induction false} BatchConcat(x: seq<Json>, y: seq<Json>)
    ensures Batch(x + y) == Batch(x) + Batch(y)
    decreases |x|
  {
    hide Message;
    if x == [] {
      assert x + y == y;
      assert [] + Batch(y) == Batch(y);
    } else {
      var first := if x[0].JObject? then Message(x[0].fields).ticks else [];
      assert (x + y)[0] == x[0] && (x + y)[1..] == x[1..] + y;
      BatchConcat(x[1..], y);
      assert first + (Batch(x[1..]) + Batch(y)) == (first + Batch(x[1..])) + Batch(y);
    }
  }

  /** A batch of one: a message gives what it gives alone; anything else is passed over. */
  lemma BatchOfOne(v: Json)
    ensures Document(JArray([v])) == Emitted(true, if v.JObject? then Document(v).ticks else [])
  {
    hide Message;
    assert [v][1..] == [] && Batch([]) == [];
    var ticks := if v.JObject? then Document(v).ticks else [];
    assert ticks + [] == ticks;
  }

  /** What may stand in a batch: snapshots, deltas, and what is not an object. */
  datatype Part = SnapshotPart(asObjects: bool, bids: seq<MarketTick>, asks: seq<MarketTick>)
                | DeltaPart(changes: seq<MarketTick>)
                | Noise(json: Json)

  predicate PartOk(p: Part) {
    match p
    case SnapshotPart(_, bids, asks) => FitAll(Pairs(true), bids) && FitAll(Pairs(false), asks)
    case DeltaPart(changes) => FitAll(Changes, changes)
    case Noise(json) => !json.JObject?
  }

  function RenderedPart(p: Part): Json {
    match p
    case SnapshotPart(asObjects, bids, asks) => Snapshot(asObjects, bids, asks)
    case DeltaPart(changes) => ChangeMessage(changes)
    case Noise(json) => json
  }

  function RenderedParts(parts: seq<Part>): seq<Json> {
    if parts == [] then [] else [RenderedPart(parts[0])] + RenderedParts(parts[1..])
  }

  function TicksOf(parts: seq<Part>): seq<MarketTick> {
    if parts == [] then []
    else
      (match parts[0]
       case SnapshotPart(_, bids, asks) => bids + asks
       case DeltaPart(changes) => changes
       case Noise(_) => [])
      + TicksOf(parts[1..])
  }

  lemma RenderedPartIsRead(p: Part)
    requires PartOk(p)
    ensures Document(JArray([RenderedPart(p)])).ticks == TicksOf([p])
  {
    hide Document, Snapshot, ChangeMessage;
    assert [p][1..] == [] && TicksOf([]) == [];
    BatchOfOne(RenderedPart(p));
    match p {
      case SnapshotPart(asObjects, bids, asks) =>
        SnapshotIsRead(asObjects, bids, asks);
        SnapshotIsObject(asObjects, bids, asks);
        assert (bids + asks) + [] == bids + asks;
      case DeltaPart(changes) =>
        ChangesAreRead(changes);
        ChangeIsObject(changes);
        assert changes + [] == changes;
      case Noise(_) =>
    }
  }

  lemma SnapshotIsObject(asObjects: bool, bids: seq<MarketTick>, asks: seq<MarketTick>)
    ensures Snapshot(asObjects, bids, asks).JObject?
  {
  }

  lemma ChangeIsObject(changes: seq<MarketTick>)
    ensures ChangeMessage(changes).JObject?
  {
  }

  /** Round trip of batches: snapshots and deltas in any order, with anything that is not an object
      between them, read back as their ticks. */
  lemma {:induction false} BatchIsRead(parts: seq<Part>)
    requires forall i :: 0 <= i < |parts| ==> PartOk(parts[i])
    ensures Document(JArray(RenderedParts(parts))) == Emitted(true, TicksOf(parts))
    decreases |parts|
  {
    hide PartOk, RenderedPart;
    if parts != [] {
      var rest := parts[1..];
      forall i | 0 <= i < |rest|
        ensures PartOk(rest[i])
      {
        assert rest[i] == parts[i + 1];
      }
      BatchIsRead(rest);
      RenderedPartIsRead(parts[0]);
      BatchesConcat([RenderedPart(parts[0])], RenderedParts(rest));
      FirstPart(parts);
    }
  }

  lemma FirstPart(parts: seq<Part>)
    requires parts != []
    ensures TicksOf(parts) == TicksOf([parts[0]]) + TicksOf(parts[1..])
  {
    assert [parts[0]][1..] == [] && TicksOf([]) == [];
  }

  // ---------------------------------------------------------------- which schema

  /** A field of that name, found first. */
  predicate Has(fields: seq<(string, Json)>, name: string, v: Json) {
    exists i :: 0 <= i < |fields| && fields[i] == (name, v) && forall j :: 0 <= j < i ==> fields[j].0 != name
  }

  lemma {:induction false} HasIsFind(fields: seq<(string, Json)>, name: string, v: Json)
    ensures Has(fields, name, v) <==> Find(fields, name) == Some(v)
    decreases |fields|
  {
    if fields != [] {
      HasIsFind(fields[1..], name, v);
      if fields[0].0 != name {
        HasInTail(fields, name, v);
      } else if fields[0].1 == v {
        assert fields[0] == (name, v);
      }
    }
  }

  lemma HasInTail(fields: seq<(string, Json)>, name: string, v: Json)
    requires fields != [] && fields[0].0 != name
    ensures Has(fields, name, v) <==> Has(fields[1..], name, v)
  {
    var rest := fields[1..];
    if Has(fields, name, v) {
      var i :| 0 <= i < |fields| && fields[i] == (name, v) && forall j :: 0 <= j < i ==> fields[j].0 != name;
      assert rest[i - 1] == (name, v) && forall j :: 0 <= j < i - 1 ==> rest[j] == fields[j + 1];
    }
    if Has(rest, name, v) {
      var i :| 0 <= i < |rest| && rest[i] == (name, v) && forall j :: 0 <= j < i ==> rest[j].0 != name;
      assert fields[i + 1] == (name, v) && forall j :: 1 <= j < i + 1 ==> fields[j] == rest[j - 1];
    }
  }

  /** An event of another kind is accepted and ignored, whatever it holds. */
  lemma OtherEventsAreIgnored(fields: seq<(string, Json)>, event: string)
    requires Has(fields, "event_type", JString(event)) && event != "book" && event != "price_change"
    ensures Document(JObject(fields)) == Emitted(true, [])
  {
    HasIsFind(fields, "event_type", JString(event));
  }

  /** A list that is there but is no list fails the message before anything is offered; one that is not
      there is no failure. */
  lemma ListsThatAreNot(fields: seq<(string, Json)>, v: Json)
    requires Text(fields, "event_type") in {None, Some("book")}
    ensures Has(fields, "bids", v) && !v.JArray? ==> Document(JObject(fields)) == Emitted(false, [])
    ensures Find(fields, "bids") == Find(fields, "asks") == None ==> Document(JObject(fields)) == Emitted(true, [])
  {
    HasIsFind(fields, "bids", v);
  }

  lemma ChangesThatAreNot(fields: seq<(string, Json)>, v: Json)
    requires Has(fields, "event_type", JString("price_change"))
    ensures Has(fields, "price_changes", v) && !v.JArray? ==> Document(JObject(fields)) == Emitted(false, [])
    ensures Find(fields, "price_changes") == None ==> Document(JObject(fields)) == Emitted(true, [])
  {
    HasIsFind(fields, "event_type", JString("price_change"));
    HasIsFind(fields, "price_changes", v);
    assert |"book"| == 4 && |"price_change"| == 12;
  }

  /** An event type that is no string is no event type: the lists are read as pairs. */
  lemma UntypedEventIsPairs(event: Json, bids: seq<MarketTick>, asks: seq<MarketTick>)
    requires !event.JString? && FitAll(Pairs(true), bids) && FitAll(Pairs(false), asks)
    ensures
      Document(JObject([("event_type", event), ("bids", JArray(RenderedAll(Pairs(true), bids))),
                        ("asks", JArray(RenderedAll(Pairs(false), asks)))]))
      == Emitted(true, bids + asks)
  {
    hide Elements, RenderedAll;
    RenderedListIsRead(Pairs(true), bids);
    RenderedListIsRead(Pairs(false), asks);
    FieldNames();
    FoundThird(("event_type", event), ("bids", JArray(RenderedAll(Pairs(true), bids))),
               ("asks", JArray(RenderedAll(Pairs(false), asks))));
  }

  /** What is neither a message nor a batch fails; a message without an event type and without lists is
      empty. */
  lemma PlainDocuments(doc: Json)
    ensures doc.JString? || doc.JOther? ==> Document(doc) == Emitted(false, [])
    ensures doc == JObject([]) ==> Document(doc) == Emitted(true, [])
  {
  }

  /** A message fails at the first element that is not a level: what came before stays, and neither the
      rest of the list nor the other list is read. */
  lemma FailedListKeepsTicks(kept: seq<MarketTick>, rest: seq<Json>, asks: Json)
    requires FitAll(Pairs(true), kept)
    ensures
      Document(JObject([("bids", JArray(RenderedAll(Pairs(true), kept) + [JOther] + rest)), ("asks", asks)]))
      == Emitted(false, kept)
  {
    hide Elements, RenderedAll;
    var bids := RenderedAll(Pairs(true), kept) + [JOther] + rest;
    FailedElements(kept, rest);
    PairFields(JArray(bids), asks);
  }

  lemma FailedElements(kept: seq<MarketTick>, rest: seq<Json>)
    requires FitAll(Pairs(true), kept)
    ensures Elements(Pairs(true), RenderedAll(Pairs(true), kept) + [JOther] + rest) == Emitted(false, kept)
  {
    var read := RenderedAll(Pairs(true), kept);
    assert read + [JOther] + rest == read + ([JOther] + rest);
    assert Elements(Pairs(true), [JOther] + rest) == Emitted(false, []);
    hide Elements, RenderedAll;
    RenderedListIsRead(Pairs(true), kept);
    ElementsSplit(Pairs(true), read, [JOther] + rest);
    assert kept + [] == kept;
  }

  lemma PairFields(bids: Json, asks: Json)
    ensures
      var fields := [("bids", bids), ("asks", asks)];
      Find(fields, "event_type") == None && Find(fields, "bids") == Some(bids)
  {
    var f0, f1 := ("bids", bids), ("asks", asks);
    FieldNames();
    assert [f0, f1] == [f0] + ([f1] + []);
    FindInTail(f0, [f1] + [], "event_type");
    FindInTail(f1, [], "event_type");
  }

  // ---------------------------------------------------------------- which elements

  /** A readable level: a price in range and a size. */
  predicate Reads(price: string, size: string, p: uint8, n: uint32) {
    p <= 100 && PriceCents(price) == Some(p) && SizeUnits(size) == Some(n)
  }

  /** A pair is fatal when it is no list, or too short or too long for the strings it starts with; it
      emits its level when it is two strings that can be read; otherwise it is skipped. */
  lemma PairFate(v: Json, isBid: bool, p: uint8, n: uint32)
    ensures
      ElementOf(Pairs(isBid), v).Fail? <==>
        !(v.JArray? && v.items != []
          && (v.items[0].JString? ==> |v.items| >= 2 && (v.items[1].JString? ==> |v.items| == 2)))
    ensures
      ElementOf(Pairs(isBid), v) == Emit([MarketTick(p, n, isBid)]) <==>
        v.JArray? && |v.items| == 2 && v.items[0].JString? && v.items[1].JString?
        && Reads(v.items[0].text, v.items[1].text, p, n)
  {
    hide PriceCents, SizeUnits;
  }

  /** Two fields hold strings that read as that level. */
  ghost predicate HoldsLevel(fields: seq<(string, Json)>, p: uint8, n: uint32) {
    exists price, size ::
      Has(fields, "price", JString(price)) && Has(fields, "size", JString(size)) && Reads(price, size, p, n)
  }

  lemma TextIsHas(fields: seq<(string, Json)>, name: string, text: string)
    ensures Text(fields, name) == Some(text) <==> Has(fields, name, JString(text))
  {
    HasIsFind(fields, name, JString(text));
  }

  lemma LevelIsHeld(fields: seq<(string, Json)>, isBid: bool, p: uint8, n: uint32)
    ensures HoldsLevel(fields, p, n) <==>
              && Text(fields, "price").Some? && Text(fields, "size").Some?
              && Level(Text(fields, "price").value, Text(fields, "size").value, isBid)
                   == Emit([MarketTick(p, n, isBid)])
  {
    hide Has, Text, PriceCents, SizeUnits;
    forall price: string
      ensures Text(fields, "price") == Some(price) <==> Has(fields, "price", JString(price))
      ensures Text(fields, "size") == Some(price) <==> Has(fields, "size", JString(price))
    {
      TextIsHas(fields, "price", price);
      TextIsHas(fields, "size", price);
    }
    if Text(fields, "price").Some? && Text(fields, "size").Some? {
      assert Has(fields, "price", JString(Text(fields, "price").value));
      assert Has(fields, "size", JString(Text(fields, "size").value));
    }
  }

  /** An object is never fatal, anything else always; it emits its level when its price and size are
      strings that can be read, and is skipped otherwise. */
  lemma ObjectFate(v: Json, isBid: bool, p: uint8, n: uint32)
    ensures ElementOf(Objects(isBid), v).Fail? <==> !v.JObject?
    ensures
      ElementOf(Objects(isBid), v) == Emit([MarketTick(p, n, isBid)]) <==> v.JObject? && HoldsLevel(v.fields, p, n)
  {
    if v.JObject? {
      LevelIsHeld(v.fields, isBid, p, n);
    }
    hide HoldsLevel, Text, Level;
  }

  /** A change is likewise skipped or emits its level first, on the side it names. */
  lemma ChangeFate(v: Json, isBid: bool, p: uint8, n: uint32)
    ensures ElementOf(Changes, v).Fail? <==> !v.JObject?
    ensures
      var e := ElementOf(Changes, v);
      e.Emit? && e.ticks != [] && e.ticks[0] == MarketTick(p, n, isBid)
      <==> v.JObject? && HoldsLevel(v.fields, p, n) && Has(v.fields, "side", JString(if isBid then "BUY" else "SELL"))
  {
    if v.JObject? {
      SidesDiffer();
      LevelIsHeld(v.fields, true, p, n);
      LevelIsHeld(v.fields, false, p, n);
      TextIsHas(v.fields, "side", if isBid then "BUY" else "SELL");
      if Text(v.fields, "price").Some? && Text(v.fields, "size").Some? {
        LevelIsOne(Text(v.fields, "price").value, Text(v.fields, "size").value, true);
        LevelIsOne(Text(v.fields, "price").value, Text(v.fields, "size").value, false);
        LevelSide(Text(v.fields, "price").value, Text(v.fields, "size").value);
      }
    }
    hide HoldsLevel, Text, Level, Has, HintTick;
  }

  lemma LevelSide(price: string, size: string)
    ensures forall isBid :: Level(price, size, isBid).Emit?
    ensures forall isBid, i :: 0 <= i < |Level(price, size, isBid).ticks| ==>
              Level(price, size, isBid).ticks[i].isBid == isBid
  {
    hide PriceCents, SizeUnits;
  }

  // ---------------------------------------------------------------- hints

  /** A change with both hints. */
  function HintedChange(t: MarketTick, bid: uint8, ask: uint8): Json {
    JObject([("price", JString(PrintPrice(t.price))), ("size", JString(PrintNat(t.size))),
             ("side", JString(if t.isBid then "BUY" else "SELL")),
             ("best_bid", JString(PrintPrice(bid))), ("best_ask", JString(PrintPrice(ask)))])
  }

  /** Printed hints are read: each, unless it is zero or out of range, is a level of size one behind the
      change, bid before ask. */
  lemma HintsAreRead(t: MarketTick, bid: uint8, ask: uint8)
    requires t.price <= 100
    ensures
      ElementOf(Changes, HintedChange(t, bid, ask)) ==
        Emit([t] + (if 1 <= bid <= 100 then [MarketTick(bid, 1, true)] else [])
                 + (if 1 <= ask <= 100 then [MarketTick(ask, 1, false)] else []))
  {
    hide PrintPrice, PrintNat, Level, HintTick, Text;
    var side := if t.isBid then "BUY" else "SELL";
    var fields := HintedChange(t, bid, ask).fields;
    HintedFields(PrintPrice(t.price), PrintNat(t.size), side, PrintPrice(bid), PrintPrice(ask));
    PrintedLevelIsRead(t);
    PrintedHint(fields, "best_bid", bid, true);
    PrintedHint(fields, "best_ask", ask, false);
    SidesDiffer();
    assert (side == "BUY") == t.isBid;
  }

  lemma PrintedHint(fields: seq<(string, Json)>, name: string, p: uint8, isBid: bool)
    requires Text(fields, name) == Some(PrintPrice(p))
    ensures HintTick(fields, name, isBid) == if 1 <= p <= 100 then [MarketTick(p, 1, isBid)] else []
  {
    hide PrintPrice, Text, QuotedPrice;
    PrintedQuote(p);
  }

  lemma PrintedQuote(p: uint8)
    ensures QuotedPrice(PrintPrice(p)) == if p <= 100 then Some(p) else None
  {
    hide PrintPrice, PriceCents;
    assert p as int / 100 < TWO_32 && p as int % TWO_32 == p as int;
    PrintedPriceIsRead(p);
  }

  lemma HintedFields(price: string, size: string, side: string, bid: string, ask: string)
    ensures
      var fields := [("price", JString(price)), ("size", JString(size)), ("side", JString(side)),
                     ("best_bid", JString(bid)), ("best_ask", JString(ask))];
      && Text(fields, "price") == Some(price) && Text(fields, "size") == Some(size)
      && Text(fields, "side") == Some(side)
      && Text(fields, "best_bid") == Some(bid) && Text(fields, "best_ask") == Some(ask)
  {
    var f0, f1, f2 := ("price", JString(price)), ("size", JString(size)), ("side", JString(side));
    var f3, f4 := ("best_bid", JString(bid)), ("best_ask", JString(ask));
    HintNames();
    assert [f0, f1, f2, f3, f4] == [f0] + ([f1] + ([f2] + ([f3] + [f4])));
    hide Find;
    FindHead(f0, [f1] + ([f2] + ([f3] + [f4])));
    FindHead(f1, [f2] + ([f3] + [f4]));
    FindHead(f2, [f3] + [f4]);
    FindHead(f3, [f4]);
    FindHead(f4, []);
    assert [f4] + [] == [f4];
    forall name | name in {"size", "side", "best_bid", "best_ask"}
      ensures Find([f0, f1, f2, f3, f4], name) == Find([f1] + ([f2] + ([f3] + [f4])), name)
    {
      FindInTail(f0, [f1] + ([f2] + ([f3] + [f4])), name);
    }
    forall name | name in {"side", "best_bid", "best_ask"}
      ensures Find([f1] + ([f2] + ([f3] + [f4])), name) == Find([f2] + ([f3] + [f4]), name)
    {
      FindInTail(f1, [f2] + ([f3] + [f4]), name);
    }
    forall name | name in {"best_bid", "best_ask"}
      ensures Find([f2] + ([f3] + [f4]), name) == Find([f3] + [f4], name)
    {
      FindInTail(f2, [f3] + [f4], name);
    }
    FindInTail(f3, [f4], "best_ask");
  }

  lemma FindHead(f: (string, Json), fields: seq<(string, Json)>)
    ensures Find([f] + fields, f.0) == Some(f.1)
  {
  }

  lemma HintNames()
    ensures "price" != "size" && "price" != "side" && "size" != "side"
    ensures "price" != "best_bid" && "price" != "best_ask" && "size" != "best_bid" && "size" != "best_ask"
    ensures "side" != "best_bid" && "side" != "best_ask" && "best_bid" != "best_ask"
  {
    assert |"price"| == 5 && |"size"| == |"side"| == 4 && |"best_bid"| == |"best_ask"| == 8;
    assert "size"[2] != "side"[2] && "best_bid"[5] != "best_ask"[5];
  }
}
