/** From messages to ticks: which levels of an abstract JSON message are emitted, skipped or fatal. */
module MarketParser {
  import opened Machine
  import opened OrderBook
  import opened Decimal
  import opened SpscQueue

  datatype Json = JString(text: string) | JArray(items: seq<Json>) | JObject(fields: seq<(string, Json)>) | JOther

  /** The first field of a name. */
  function Find(fields: seq<(string, Json)>, name: string): Option<Json> {
    if fields == [] then None
    else if fields[0].0 == name then Some(fields[0].1)
    else Find(fields[1..], name)
  }

  /** A field that is there and is a string. */
  function Text(fields: seq<(string, Json)>, name: string): Option<string> {
    match Find(fields, name)
    case Some(JString(text)) => Some(text)
    case _ => None
  }

  /** A price within the book's range. */
  function QuotedPrice(text: string): Option<uint8> {
    match PriceCents(text)
    case Some(cents) => if cents <= MAX_PRICE then Some(cents) else None
    case None => None
  }

  /** What one element of a list does: fail the message, or emit some ticks (none when skipped). */
  datatype Element = Fail | Emit(ticks: seq<MarketTick>)

  function Level(price: string, size: string, isBid: bool): Element {
    match (QuotedPrice(price), SizeUnits(size))
    case (Some(p), Some(n)) => Emit([MarketTick(p, n, isBid)])
    case _ => Emit([])
  }

  /** A level as a pair of strings. */
  function PairLevel(v: Json, isBid: bool): Element {
    match v
    case JArray(pair) =>
      if pair == [] then Fail
      else if !pair[0].JString? then Emit([])
      else if |pair| < 2 then Fail
      else if !pair[1].JString? then Emit([])
      else if |pair| > 2 then Fail
      else Level(pair[0].text, pair[1].text, isBid)
    case _ => Fail
  }

  /** A level as an object with a price and a size. */
  function ObjectLevel(v: Json, isBid: bool): Element {
    match v
    case JObject(fields) =>
      (match (Text(fields, "price"), Text(fields, "size"))
       case (Some(price), Some(size)) => Level(price, size, isBid)
       case _ => Emit([]))
    case _ => Fail
  }

  /** A best-price hint: in range and not zero. */
  function Hint(fields: seq<(string, Json)>, name: string): Option<uint8> {
    match Text(fields, name)
    case None => None
    case Some(text) => if QuotedPrice(text) == Some(0) then None else QuotedPrice(text)
  }

  function HintTick(fields: seq<(string, Json)>, name: string, isBid: bool): seq<MarketTick> {
    match Hint(fields, name)
    case None => []
    case Some(p) => [MarketTick(p, 1, isBid)]
  }

  /** A change of one level, followed by its hints as levels of size 1. */
  function Change(v: Json): Element {
    match v
    case JObject(fields) =>
      (match (Text(fields, "price"), Text(fields, "size"), Text(fields, "side"))
       case (Some(price), Some(size), Some(side)) =>
         if side != "BUY" && side != "SELL" then Emit([])
         else
           var main := Level(price, size, side == "BUY");
           if main == Emit([]) then main
           else Emit(main.ticks + HintTick(fields, "best_bid", true) + HintTick(fields, "best_ask", false))
       case _ => Emit([]))
    case _ => Fail
  }

  datatype Schema = Pairs(isBid: bool) | Objects(isBid: bool) | Changes

  function ElementOf(schema: Schema, v: Json): Element {
    match schema
    case Pairs(isBid) => PairLevel(v, isBid)
    case Objects(isBid) => ObjectLevel(v, isBid)
    case Changes => Change(v)
  }

  /** Whether parsing succeeded, and the ticks offered to the queue, success or not. */
  datatype Emitted = Emitted(ok: bool, ticks: seq<MarketTick>)

  /** One list after another; the first failure ends it. */
  function Then(x: Emitted, y: Emitted): Emitted {
    if x.ok then Emitted(y.ok, x.ticks + y.ticks) else x
  }

  function Elements(schema: Schema, items: seq<Json>): Emitted {
    if items == [] then Emitted(true, [])
    else match ElementOf(schema, items[0])
      case Fail => Emitted(false, [])
      case Emit(ticks) => Then(Emitted(true, ticks), Elements(schema, items[1..]))
  }

  /** A list field; it may be missing, but may not be something else. */
  function Field(schema: Schema, fields: seq<(string, Json)>, name: string): Emitted {
    match Find(fields, name)
    case None => Emitted(true, [])
    case Some(JArray(items)) => Elements(schema, items)
    case Some(_) => Emitted(false, [])
  }

  function Message(fields: seq<(string, Json)>): Emitted {
    match Text(fields, "event_type")
    case None => Then(Field(Pairs(true), fields, "bids"), Field(Pairs(false), fields, "asks"))
    case Some(event) =>
      if event == "book" then Then(Field(Objects(true), fields, "bids"), Field(Objects(false), fields, "asks"))
      else if event == "price_change" then Field(Changes, fields, "price_changes")
      else Emitted(true, [])
  }

  /** The ticks of a batch: what is not an object is passed over, a failed message keeps its ticks. */
  function Batch(items: seq<Json>): seq<MarketTick> {
    if items == [] then []
    else (if items[0].JObject? then Message(items[0].fields).ticks else []) + Batch(items[1..])
  }

  function Document(doc: Json): Emitted {
    match doc
    case JObject(fields) => Message(fields)
    case JArray(items) => Emitted(true, Batch(items))
    case _ => Emitted(false, [])
  }

  // ---------------------------------------------------------------- the parser

  lemma {:induction false} ElementsSplit(schema: Schema, x: seq<Json>, y: seq<Json>)
    ensures Elements(schema, x + y) == Then(Elements(schema, x), Elements(schema, y))
    decreases |x|
  {
    hide ElementOf;
    if x == [] {
      assert x + y == y;
      assert [] + Elements(schema, y).ticks == Elements(schema, y).ticks;
    } else {
      assert (x + y)[0] == x[0] && (x + y)[1..] == x[1..] + y;
      ElementsSplit(schema, x[1..], y);
      match ElementOf(schema, x[0]) {
        case Fail =>
        case Emit(ticks) => ThenAssociates(Emitted(true, ticks), Elements(schema, x[1..]), Elements(schema, y));
      }
    }
  }

  lemma ThenAssociates(x: Emitted, y: Emitted, z: Emitted)
    ensures Then(Then(x, y), z) == Then(x, Then(y, z))
  {
    assert (x.ticks + y.ticks) + z.ticks == x.ticks + (y.ticks + z.ticks);
  }

  /** A price that is quoted; what does not parse or is out of range is not. */
  method ParseQuotedPrice(text: string) returns (price: Option<uint8>)
    ensures price == QuotedPrice(text)
  {
    var cents := ParsePriceCents(text);
    if cents == None || cents.value > MAX_PRICE {
      return None;
    }
    return Some(cents.value);
  }

  method ParseLevel(price: string, size: string, isBid: bool) returns (e: Element)
    ensures e == Level(price, size, isBid)
  {
    var p := ParseQuotedPrice(price);
    if p == None {
      return Emit([]);
    }
    var n := ParseSizeU32(size);
    if n == None {
      return Emit([]);
    }
    return Emit([MarketTick(p.value, n.value, isBid)]);
  }

  method ParsePairLevel(v: Json, isBid: bool) returns (e: Element)
    ensures e == PairLevel(v, isBid)
  {
    if !v.JArray? || v.items == [] {
      return Fail;
    }
    if !v.items[0].JString? {
      return Emit([]);
    }
    if |v.items| == 1 {
      return Fail;
    }
    if !v.items[1].JString? {
      return Emit([]);
    }
    if |v.items| != 2 {
      return Fail;
    }
    e := ParseLevel(v.items[0].text, v.items[1].text, isBid);
  }

  method ParseObjectLevel(v: Json, isBid: bool) returns (e: Element)
    ensures e == ObjectLevel(v, isBid)
  {
    if !v.JObject? {
      return Fail;
    }
    var price := Text(v.fields, "price");
    if price == None {
      return Emit([]);
    }
    var size := Text(v.fields, "size");
    if size == None {
      return Emit([]);
    }
    e := ParseLevel(price.value, size.value, isBid);
  }

  method ParseHint(fields: seq<(string, Json)>, name: string, isBid: bool) returns (ticks: seq<MarketTick>)
    ensures ticks == HintTick(fields, name, isBid)
  {
    var text := Text(fields, name);
    if text == None {
      return [];
    }
    var price := ParseQuotedPrice(text.value);
    if price == None || price.value == 0 {
      return [];
    }
    return [MarketTick(price.value, 1, isBid)];
  }

  method ParseChange(v: Json) returns (e: Element)
    ensures e == Change(v)
  {
    if !v.JObject? {
      return Fail;
    }
    var price := Text(v.fields, "price");
    if price == None {
      return Emit([]);
    }
    var size := Text(v.fields, "size");
    if size == None {
      return Emit([]);
    }
    var side := Text(v.fields, "side");
    if side == None {
      return Emit([]);
    }
    var isBid := side.value == "BUY";
    var isAsk := side.value == "SELL";
    if !isBid && !isAsk {
      return Emit([]);
    }
    var main := ParseLevel(price.value, size.value, isBid);
    if main.ticks == [] {
      return main;
    }
    var bestBid := ParseHint(v.fields, "best_bid", true);
    var bestAsk := ParseHint(v.fields, "best_ask", false);
    return Emit(main.ticks + bestBid + bestAsk);
  }

  method ParseElement(schema: Schema, v: Json) returns (e: Element)
    ensures e == ElementOf(schema, v)
  {
    match schema {
      case Pairs(isBid) => e := ParsePairLevel(v, isBid);
      case Objects(isBid) => e := ParseObjectLevel(v, isBid);
      case Changes => e := ParseChange(v);
    }
  }

  method PushTicks(ticks: seq<MarketTick>, queue: SpscQueue<MarketTick>)
    requires queue.Valid()
    modifies queue, queue.buffer
    ensures queue.Valid() && queue.Value() == Offer(queue.size, old(queue.Value()), ticks)
  {
    hide Offer;
    OfferConcat(queue.size, queue.Value(), [], []);
    for i := 0 to |ticks|
      invariant queue.Valid()
      invariant queue.Value() == Offer(queue.size, old(queue.Value()), ticks[..i])
    {
      assert ticks[..i + 1] == ticks[..i] + [ticks[i]];
      OfferConcat(queue.size, old(queue.Value()), ticks[..i], [ticks[i]]);
      OfferOne(queue.size, queue.Value(), ticks[i]);
      var _ := queue.Push(ticks[i]);
    }
    assert ticks[..|ticks|] == ticks;
  }

  /** The list loops of the parser: ticks go to the queue while the list is read, so those before a
      failing element stay there. */
  method ParseElements(schema: Schema, items: seq<Json>, queue: SpscQueue<MarketTick>) returns (ok: bool)
    requires queue.Valid()
    modifies queue, queue.buffer
    ensures queue.Valid() && ok == Elements(schema, items).ok
    ensures queue.Value() == Offer(queue.size, old(queue.Value()), Elements(schema, items).ticks)
  {
    hide ElementOf;
    for i := 0 to |items|
      invariant queue.Valid() && Elements(schema, items[..i]).ok
      invariant queue.Value() == Offer(queue.size, old(queue.Value()), Elements(schema, items[..i]).ticks)
    {
      assert items == items[..i] + items[i..] && items[..i + 1] == items[..i] + [items[i]];
      ElementsSplit(schema, items[..i], items[i..]);
      ElementsSplit(schema, items[..i], [items[i]]);
      var e := ParseElement(schema, items[i]);
      if e.Fail? {
        assert Elements(schema, items[i..]) == Emitted(false, []);
        assert Elements(schema, items[..i]).ticks + [] == Elements(schema, items[..i]).ticks;
        return false;
      }
      assert Elements(schema, [items[i]]).ticks == e.ticks;
      OfferConcat(queue.size, old(queue.Value()), Elements(schema, items[..i]).ticks, e.ticks);
      PushTicks(e.ticks, queue);
    }
    assert items[..|items|] == items;
    return true;
  }

  method ParseField(schema: Schema, fields: seq<(string, Json)>, name: string, queue: SpscQueue<MarketTick>)
    returns (ok: bool)
    requires queue.Valid()
    modifies queue, queue.buffer
    ensures queue.Valid() && ok == Field(schema, fields, name).ok
    ensures queue.Value() == Offer(queue.size, old(queue.Value()), Field(schema, fields, name).ticks)
  {
    var found := Find(fields, name);
    if found == None {
      return true;
    }
    if !found.value.JArray? {
      return false;
    }
    ok := ParseElements(schema, found.value.items, queue);
  }

  method ParseMessage(fields: seq<(string, Json)>, queue: SpscQueue<MarketTick>) returns (ok: bool)
    requires queue.Valid()
    modifies queue, queue.buffer
    ensures queue.Valid() && ok == Message(fields).ok
    ensures queue.Value() == Offer(queue.size, old(queue.Value()), Message(fields).ticks)
  {
    hide Field, Offer, Text;
    OfferConcat(queue.size, queue.Value(), [], []);
    var event := Text(fields, "event_type");
    if event == Some("price_change") {
      ok := ParseField(Changes, fields, "price_changes", queue);
      return;
    }
    if event != None && event != Some("book") {
      return true;
    }
    var bids := if event == None then Pairs(true) else Objects(true);
    var asks := if event == None then Pairs(false) else Objects(false);
    OfferConcat(queue.size, queue.Value(), Field(bids, fields, "bids").ticks, Field(asks, fields, "asks").ticks);
    ghost var x, y := Field(bids, fields, "bids"), Field(asks, fields, "asks");
    assert Message(fields) == Then(x, y);
    ok := ParseField(bids, fields, "bids", queue);
    if !ok {
      return;
    }
    ok := ParseField(asks, fields, "asks", queue);
  }

  lemma {:induction false} BatchSnoc(items: seq<Json>, v: Json)
    ensures Batch(items + [v]) == Batch(items) + if v.JObject? then Message(v.fields).ticks else []
  {
    hide Message;
    var last := if v.JObject? then Message(v.fields).ticks else [];
    if items == [] {
      assert items + [v] == [v] && [v][1..] == [];
      assert last + [] == [] + last;
    } else {
      var first := if items[0].JObject? then Message(items[0].fields).ticks else [];
      assert (items + [v])[0] == items[0] && (items + [v])[1..] == items[1..] + [v];
      BatchSnoc(items[1..], v);
      assert first + (Batch(items[1..]) + last) == (first + Batch(items[1..])) + last;
    }
  }

  /** A message, or a batch of messages, into the queue. */
  method ParseDocument(doc: Json, queue: SpscQueue<MarketTick>) returns (ok: bool)
    requires queue.Valid()
    modifies queue, queue.buffer
    ensures queue.Valid() && ok == Document(doc).ok
    ensures queue.Value() == Offer(queue.size, old(queue.Value()), Document(doc).ticks)
  {
    assert Batch([]) == [];
    hide Offer, Message, Batch;
    OfferConcat(queue.size, queue.Value(), [], []);
    match doc {
      case JObject(fields) =>
        ok := ParseMessage(fields, queue);
      case JArray(items) =>
        for i := 0 to |items|
          invariant queue.Valid()
          invariant queue.Value() == Offer(queue.size, old(queue.Value()), Batch(items[..i]))
        {
          assert items[..i + 1] == items[..i] + [items[i]];
          BatchSnoc(items[..i], items[i]);
          if items[i].JObject? {
            OfferConcat(queue.size, old(queue.Value()), Batch(items[..i]), Message(items[i].fields).ticks);
            var _ := ParseMessage(items[i].fields, queue);
          } else {
            assert Batch(items[..i]) + [] == Batch(items[..i]);
          }
        }
        assert items[..|items|] == items;
        ok := true;
      case _ =>
        ok := false;
    }
  }

  const MAX_PAYLOAD_BYTES: nat := 65536

  /** What arrives: its length, and the document read from it, if it is one. */
  datatype Payload = Payload(length: nat, doc: Option<Json>)

  /** What a parser, initialized or not, makes of a payload. */
  function Parsed(initialized: bool, payload: Payload): Emitted {
    if !initialized || payload.length == 0 || payload.length > MAX_PAYLOAD_BYTES || payload.doc == None then
      Emitted(false, [])
    else
      Document(payload.doc.value)
  }

  /** One payload into the queue: exactly its ticks are offered, in order, whatever becomes of them; in a
      queue nobody pops meanwhile, those that find room are kept. */
  method ParseTick(initialized: bool, payload: Payload, queue: SpscQueue<MarketTick>) returns (ok: bool)
    requires queue.Valid()
    modifies queue, queue.buffer
    ensures queue.Valid() && ok == Parsed(initialized, payload).ok
    ensures queue.Offered == old(queue.Offered) + Parsed(initialized, payload).ticks
    ensures queue.Contents == PushAll(queue.size, old(queue.Contents), Parsed(initialized, payload).ticks)
  {
    if !initialized {
      return false;
    }
    if payload.length == 0 || payload.length > MAX_PAYLOAD_BYTES {
      return false;
    }
    if payload.doc == None {
      return false;
    }
    ok := ParseDocument(payload.doc.value, queue);
  }
}
