/** The whole program as one step system: the parser thread, the tick ring, the strategy thread, the
    event ring of the logger and its worker. From messages to the rows of the file. */
module EndToEnd {
  import opened Machine
  import opened OrderBook
  import opened RingProtocol
  import opened RingHistory
  import opened Decimal
  import opened MarketParser
  import opened Microprice
  import Ring = RingWrapped
  import E = Engine
  import EngineLedger
  import EngineLog
  import PositionManager
  import P = Pipeline
  import L = AsyncLogger
  import ParserLaws

  /** `handed` counts the events logged so far. */
  datatype World = World(front: P.Threads, logger: L.Logger<E.LogEntry>, handed: nat)

  /** A step of the parser thread or the strategy thread at the tick ring, or one at the logger. */
  datatype Turn = Front(action: Action<MarketTick>) | Back(move: L.Move<E.LogEntry>)

  /** The event that names the strategy, logged before the strategy thread starts. */
  const BANNER: E.LogEntry := E.LogEntry('M', 0.0, 0, 0.0)

  function Init(size: size_t, logSize: size_t, fileOpen: bool): World {
    World(P.Init(size), L.Init(logSize, fileOpen), 0)
  }

  /** All there is to log so far. */
  function Script(w: World): seq<E.LogEntry> {
    [BANNER] + w.front.engine.log
  }

  /** Nothing is being logged and nothing is left to log. */
  predicate LogIsQuiet(w: World) {
    w.handed == |Script(w)| && w.logger.ring.prod.PIdle?
  }

  predicate Formed(w: World) {
    Ring.Formed(w.front.ring) && Ring.Formed(w.logger.ring)
  }

  /** The strategy thread logs the events of a tick one by one before it polls again; the logger is
      destroyed once that thread has been joined. */
  predicate Enabled(w: World, t: Turn)
    requires Formed(w)
  {
    match t
    case Front(a) =>
      P.Enabled(w.front, a) && (!L.IsProducer(a) ==> LogIsQuiet(w) && !w.logger.cleared)
    case Back(m) =>
      && L.Enabled(w.logger, m)
      && (Logs(m) ==> w.handed < |Script(w)| && m.action.item == Script(w)[w.handed])
      && (m.Clear? ==> LogIsQuiet(w) && w.front.ring.cons.CIdle?)
  }

  predicate Logs(m: L.Move<E.LogEntry>) {
    m.RingMove? && m.action.PCall?
  }

  function Step(sel: E.Selection, w: World, t: Turn): World
    requires Formed(w) && Enabled(w, t)
  {
    match t
    case Front(a) => w.(front := P.Step(sel, w.front, a))
    case Back(m) => w.(logger := L.Step(w.logger, m), handed := if Logs(m) then w.handed + 1 else w.handed)
  }

  ghost predicate ValidRun(sel: E.Selection, w: World, run: seq<Turn>)
    decreases |run|
  {
    run == [] || (Formed(w) && Enabled(w, run[0]) && ValidRun(sel, Step(sel, w, run[0]), run[1..]))
  }

  ghost function Run(sel: E.Selection, w: World, run: seq<Turn>): World
    requires ValidRun(sel, w, run)
    decreases |run|
  {
    if run == [] then w else Run(sel, Step(sel, w, run[0]), run[1..])
  }

  // ---------------------------------------------------------------- the two halves

  function Fronts(run: seq<Turn>): seq<Action<MarketTick>>
    decreases |run|
  {
    if run == [] then [] else (if run[0].Front? then [run[0].action] else []) + Fronts(run[1..])
  }

  function Backs(run: seq<Turn>): seq<L.Move<E.LogEntry>>
    decreases |run|
  {
    if run == [] then [] else (if run[0].Back? then [run[0].move] else []) + Backs(run[1..])
  }

  /** Each half of the program takes a run of its own. */
  lemma {:induction false} HalvesRun(sel: E.Selection, w: World, run: seq<Turn>)
    requires ValidRun(sel, w, run)
    ensures P.ValidRun(sel, w.front, Fronts(run)) && P.Run(sel, w.front, Fronts(run)) == Run(sel, w, run).front
    ensures L.ValidRun(w.logger, Backs(run)) && L.Run(w.logger, Backs(run)) == Run(sel, w, run).logger
    decreases |run|
  {
    hide P.Step, L.Step, P.Enabled, L.Enabled, Ring.Formed;
    if run != [] {
      HalvesRun(sel, Step(sel, w, run[0]), run[1..]);
      var f, b := Fronts(run[1..]), Backs(run[1..]);
      if run[0].Front? {
        assert ([run[0].action] + f)[1..] == f && [] + b == b;
      } else {
        assert ([run[0].move] + b)[1..] == b && [] + f == f;
      }
    }
  }

  lemma StepLogGrows(sel: E.Selection, s: E.State, tick: MarketTick)
    ensures s.log <= E.Step(sel, s, tick).log
  {
    hide E.Signals, E.Score, E.Order, PositionManager.AddFill, PositionManager.Equity, E.MidPrice;
  }

  lemma ScriptGrows(sel: E.Selection, w: World, t: Turn)
    requires Formed(w) && Enabled(w, t) && w.handed <= |Script(w)|
    ensures Script(w) <= Script(Step(sel, w, t)) && Step(sel, w, t).handed <= |Script(Step(sel, w, t))|
    ensures t.Back? ==> Script(Step(sel, w, t)) == Script(w)
    ensures t.Front? && t.action.CReturn? ==> w.handed == |Script(w)|
  {
    hide E.Step, L.Step, Ring.Step;
    if t.Front? && P.Returning(w.front) {
      StepLogGrows(sel, w.front.engine, w.front.ring.cons.result.value);
    }
  }

  lemma LoggingShows(s: L.Logger<E.LogEntry>, m: L.Move<E.LogEntry>, h: seq<Obs<E.LogEntry>>)
    requires Ring.Formed(s.ring) && L.Enabled(s, m)
    ensures Offered([L.Observe(s, m)] + h) == if Logs(m) then [m.action.item] + Offered(h) else Offered(h)
  {
    assert ([L.Observe(s, m)] + h)[1..] == h;
  }

  lemma SplitScript(script: seq<E.LogEntry>, all: seq<E.LogEntry>, i: nat, j: nat)
    requires script <= all && i < |script| && i < j <= |all|
    ensures all[i..j] == [script[i]] + all[i + 1..j]
  {
  }

  /** What is logged between two states is the script between their counts. */
  lemma {:induction false} LoggedIsScript(sel: E.Selection, w: World, run: seq<Turn>)
    requires ValidRun(sel, w, run) && L.ValidRun(w.logger, Backs(run)) && w.handed <= |Script(w)|
    ensures
      var w' := Run(sel, w, run);
      && w.handed <= w'.handed <= |Script(w')| && Script(w) <= Script(w')
      && Offered(L.History(w.logger, Backs(run))) == Script(w')[w.handed..w'.handed]
    decreases |run|
  {
    hide P.Step, P.Enabled, L.Step, L.Enabled, L.Observe, Ring.Formed, Script, LogIsQuiet, Offered;
    if run == [] {
      NothingLogged(w);
    } else {
      var t, w1, rest := run[0], Step(sel, w, run[0]), run[1..];
      ScriptGrows(sel, w, t);
      HalvesRun(sel, w1, rest);
      LoggedIsScript(sel, w1, rest);
      if t.Back? {
        var b := Backs(rest);
        assert ([t.move] + b)[1..] == b;
        LoggingShows(w.logger, t.move, L.History(w1.logger, b));
        if Logs(t.move) {
          SplitScript(Script(w), Script(Run(sel, w, run)), w.handed, Run(sel, w, run).handed);
        }
      } else {
        assert [] + Backs(rest) == Backs(rest);
      }
    }
  }

  lemma NothingLogged(w: World)
    requires w.handed <= |Script(w)|
    ensures Offered(L.History(w.logger, [])) == Script(w)[w.handed..w.handed]
  {
  }

  /** Once the flag is cleared, everything has been logged. */
  predicate ClearedIsQuiet(w: World) {
    w.handed <= |Script(w)| && (w.logger.cleared ==> LogIsQuiet(w))
  }

  lemma {:induction false} RunKeepsQuiet(sel: E.Selection, w: World, run: seq<Turn>)
    requires ValidRun(sel, w, run) && ClearedIsQuiet(w)
    ensures ClearedIsQuiet(Run(sel, w, run))
    decreases |run|
  {
    if run != [] {
      StepKeepsQuiet(sel, w, run[0]);
      RunKeepsQuiet(sel, Step(sel, w, run[0]), run[1..]);
    }
  }

  lemma StepKeepsQuiet(sel: E.Selection, w: World, t: Turn)
    requires Formed(w) && Enabled(w, t) && ClearedIsQuiet(w)
    ensures ClearedIsQuiet(Step(sel, w, t))
  {
    ScriptGrows(sel, w, t);
    hide E.Step, Ring.Formed;
  }

  /** What the callers of each ring see of a run of the program. */
  ghost function TicksSeen(sel: E.Selection, size: size_t, logSize: size_t, fileOpen: bool, run: seq<Turn>)
    : seq<Obs<MarketTick>>
    requires ValidRun(sel, Init(size, logSize, fileOpen), run)
  {
    HalvesRun(sel, Init(size, logSize, fileOpen), run);
    P.Seen(sel, size, Fronts(run))
  }

  ghost function EventsSeen(sel: E.Selection, size: size_t, logSize: size_t, fileOpen: bool, run: seq<Turn>)
    : seq<Obs<E.LogEntry>>
    requires ValidRun(sel, Init(size, logSize, fileOpen), run)
  {
    HalvesRun(sel, Init(size, logSize, fileOpen), run);
    L.History(L.Init(logSize, fileOpen), Backs(run))
  }

  /** Whatever the interleaving of the four parties, once the logger's worker has returned the file holds
      the banner and the engine's whole log, in order, less the events the event ring refused. */
  lemma FileIsKeptLog(sel: E.Selection, size: size_t, logSize: size_t, fileOpen: bool, run: seq<Turn>)
    requires RingSize(size) && RingSize(logSize) && ValidRun(sel, Init(size, logSize, fileOpen), run)
    requires Run(sel, Init(size, logSize, fileOpen), run).logger.worker.Exited?
    ensures
      var w := Run(sel, Init(size, logSize, fileOpen), run);
      var outcomes := Outcomes(EventsSeen(sel, size, logSize, fileOpen, run));
      && |outcomes| == |Script(w)|
      && w.logger.rows == if fileOpen then Kept(Script(w), outcomes) else []
  {
    var start, w := Init(size, logSize, fileOpen), Run(sel, Init(size, logSize, fileOpen), run);
    HalvesRun(sel, start, run);
    RunKeepsQuiet(sel, start, run);
    L.InitInv<E.LogEntry>(logSize, fileOpen);
    L.RunKeepsInv(start.logger, Backs(run));
    LoggedIsScript(sel, start, run);
    L.ShutdownLosesNothing(logSize, fileOpen, Backs(run));
    L.AcceptedIsKept(logSize, fileOpen, Backs(run));
    assert Script(w)[0..|Script(w)|] == Script(w);
    hide Ring.Inv, Ring.Formed;
  }

  /** From messages to the file: when the parser thread pushes the ticks of its payloads in order, the
      rows are a function of the payloads, of what each ring refused, and of how many ticks the strategy
      thread processed. */
  lemma MessagesToFile(sel: E.Selection, size: size_t, logSize: size_t, initialized: bool, payloads: seq<Payload>,
                       run: seq<Turn>)
    requires RingSize(size) && RingSize(logSize) && ValidRun(sel, Init(size, logSize, true), run)
    requires Run(sel, Init(size, logSize, true), run).logger.worker.Exited?
    requires Offered(TicksSeen(sel, size, logSize, true, run)) <= P.Feed(initialized, payloads)
    ensures
      var w := Run(sel, Init(size, logSize, true), run);
      var ticks := Outcomes(TicksSeen(sel, size, logSize, true, run));
      var events := Outcomes(EventsSeen(sel, size, logSize, true, run));
      && |ticks| <= |P.Feed(initialized, payloads)|
      && 0 <= P.Processed(w.front) <= |Kept(P.Feed(initialized, payloads), ticks)|
      && (var engine := E.Run(sel, E.START, Kept(P.Feed(initialized, payloads), ticks)[..P.Processed(w.front)]);
          && |events| == 1 + |engine.log|
          && w.logger.rows == Kept([BANNER] + engine.log, events))
  {
    HalvesRun(sel, Init(size, logSize, true), run);
    P.MessagesToTrades(sel, size, initialized, payloads, Fronts(run));
    P.EngineFoldsAcceptedTicks(sel, size, Fronts(run));
    FileIsKeptLog(sel, size, logSize, true, run);
    hide E.Run, Ring.Formed, P.Feed;
  }

  /** When no event was refused, the file is the account of the engine: every row behind the banner can
      be recomputed from the trades above it, and they lead to the engine's final position. */
  lemma FileIsAuditable(sel: E.Selection, size: size_t, logSize: size_t, run: seq<Turn>)
    requires RingSize(size) && RingSize(logSize) && ValidRun(sel, Init(size, logSize, true), run)
    requires Run(sel, Init(size, logSize, true), run).logger.worker.Exited?
    requires
      var events := Outcomes(EventsSeen(sel, size, logSize, true, run));
      forall i :: 0 <= i < |events| ==> events[i]
    ensures
      var w := Run(sel, Init(size, logSize, true), run);
      && w.logger.rows == [E.LogEntry('M', 0.0, 0, 0.0)] + w.front.engine.log
      && EngineLog.AllAudited(w.logger.rows[1..])
      && w.front.engine.position == PositionManager.AddFills(PositionManager.FLAT, E.TradesIn(w.logger.rows[1..]))
  {
    var w := Run(sel, Init(size, logSize, true), run);
    HalvesRun(sel, Init(size, logSize, true), run);
    FileIsKeptLog(sel, size, logSize, true, run);
    P.AllKept(Script(w), Outcomes(EventsSeen(sel, size, logSize, true, run)));
    P.EngineFoldsAcceptedTicks(sel, size, Fronts(run));
    EngineLog.LogIsAuditable(sel, w.front.ring.accepted[..P.Processed(w.front)]);
    assert w.logger.rows[1..] == w.front.engine.log;
  }

  /** From quote to fill: a trade against a level that was quoted with a point below 1.005 is made within
      half a cent of the quote. */
  lemma FillNearQuote(sel: E.Selection, ticks: seq<MarketTick>, tick: MarketTick, quote: string)
    requires E.FillsOf(sel, ticks + [tick]) != E.FillsOf(sel, ticks)
    requires IsDecimal(quote) && FindDot(quote) + 1 < |quote| && Value(quote) < 1.005
    ensures
      var found, fills := SignalTop(E.BookAfter(ticks + [tick])), E.FillsOf(sel, ticks + [tick]);
      && found.Some? && fills != []
      && (var f := fills[|fills| - 1];
          var level := if f.size > 0 then found.value.ask else found.value.bid;
          QuotedPrice(quote) == Some(level) ==> -0.005 <= f.price - Value(quote) <= 0.005)
  {
    EngineLedger.FillPrices(sel, ticks, tick);
    SmallQuoteIsDotted(quote);
    ParserLaws.QuotedPriceIsExact(quote);
    PriceIsNear(quote);
    hide E.FillsOf, E.BookAfter, SignalTop, QuotedPrice, Value, ExactCents, FindDot, Dotted;
  }

  lemma SmallQuoteIsDotted(quote: string)
    requires IsDecimal(quote) && FindDot(quote) + 1 < |quote| && Value(quote) < 1.005
    ensures Dotted(quote)
  {
    hide FindDot, Whole, Fraction;
  }
}
