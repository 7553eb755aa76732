/** Linearizability of the ring, whatever the order its effects are put in: which runs have a placement
    of one effect inside every call that a bounded FIFO queue can replay. */
module Linearizability {
  import opened Machine
  import opened RingProtocol
  import opened RingHistory

  /** What the callers see. */
  predicate Visible<T>(o: Obs<T>) {
    o.PushCall? || o.PushReturn? || o.PopCall? || o.PopReturn?
  }

  function Calls<T>(h: seq<Obs<T>>): seq<Obs<T>>
    decreases |h|
  {
    if h == [] then [] else if Visible(h[0]) then [h[0]] + Calls(h[1..]) else Calls(h[1..])
  }

  /** Every call has its effect before it returns, with the outcome it returns, and the effects replay. */
  predicate Legal<T(==)>(cap: nat, q: seq<T>, push: Phase<T, bool>, pop: Phase<(), Option<T>>, h: seq<Obs<T>>) {
    && PushWord(push, h).Some?
    && PopWord(pop, h).Some?
    && FifoReplay(cap, q, h).Some?
  }

  /** A history of the same calls and returns, in the same order, with effects placed anywhere inside
      the calls; a call that has not returned may have had its effect or not. */
  predicate IsPlacement<T(==)>(cap: nat, h: seq<Obs<T>>, calls: seq<Obs<T>>) {
    Calls(h) == calls && Legal(cap, [], Between, Between, h)
  }

  ghost predicate Linearizable<T(!new)>(cap: nat, calls: seq<Obs<T>>) {
    exists h: seq<Obs<T>> :: IsPlacement(cap, h, calls)
  }

  /** The result of the first push to return. */
  function NextPush<T>(c: seq<Obs<T>>): Option<bool>
    decreases |c|
  {
    if c == [] then None else if c[0].PushReturn? then Some(c[0].ok) else NextPush(c[1..])
  }

  function NextPop<T>(c: seq<Obs<T>>): Option<Option<T>>
    decreases |c|
  {
    if c == [] then None else if c[0].PopReturn? then Some(c[0].result) else NextPop(c[1..])
  }

  /** When a refused push is called, the pushes and pops returned so far leave no room; when a pop that
      will find nothing is called, they leave nothing. */
  predicate Justified<T>(cap: nat, pushed: nat, popped: nat, c: seq<Obs<T>>)
    decreases |c|
  {
    c == [] ||
    match c[0]
    case PushCall(_) =>
      (NextPush(c[1..]) == Some(false) ==> pushed >= popped + cap) && Justified(cap, pushed, popped, c[1..])
    case PopCall =>
      (NextPop(c[1..]) == Some(None) ==> pushed <= popped) && Justified(cap, pushed, popped, c[1..])
    case PushReturn(ok) => Justified(cap, if ok then pushed + 1 else pushed, popped, c[1..])
    case PopReturn(result) => Justified(cap, pushed, if result.Some? then popped + 1 else popped, c[1..])
    case _ => Justified(cap, pushed, popped, c[1..])
  }

  // ---------------------------------------------------------------- a placement justifies failures

  lemma {:induction false} NextOfCalls<T>(h: seq<Obs<T>>)
    ensures NextPush(Calls(h)) == NextPush(h) && NextPop(Calls(h)) == NextPop(h)
    decreases |h|
  {
    if h != [] {
      NextOfCalls(h[1..]);
    }
  }

  lemma {:induction false} DecidedPushReturns<T>(ok: bool, h: seq<Obs<T>>)
    requires PushWord(Decided(ok), h).Some?
    ensures NextPush(h) in {None, Some(ok)}
    decreases |h|
  {
    if h != [] && !h[0].PushReturn? {
      DecidedPushReturns(ok, h[1..]);
    }
  }

  lemma {:induction false} DecidedPopReturns<T>(result: Option<T>, h: seq<Obs<T>>)
    requires PopWord(Decided(result), h).Some?
    ensures NextPop(h) in {None, Some(result)}
    decreases |h|
  {
    if h != [] && !h[0].PopReturn? {
      DecidedPopReturns(result, h[1..]);
    }
  }

  /** While a push is pending the queue only shrinks, so one that will be refused was called on a full
      queue. */
  lemma {:induction false} RefusedPushMetFullQueue<T>(cap: nat, q: seq<T>, x: T, pop: Phase<(), Option<T>>,
                                                      h: seq<Obs<T>>)
    requires Legal(cap, q, Called(x), pop, h) && NextPush(h) == Some(false)
    ensures |q| >= cap
    decreases |h|
  {
    var q', pop' := Fifo(cap, q, h[0]).value, PopPhase(pop, h[0]).value;
    if h[0].PushEffect? {
      DecidedPushReturns(h[0].ok, h[1..]);
    } else {
      RefusedPushMetFullQueue(cap, q', x, pop', h[1..]);
    }
  }

  lemma {:induction false} EmptyPopMetEmptyQueue<T>(cap: nat, q: seq<T>, push: Phase<T, bool>, h: seq<Obs<T>>)
    requires Legal(cap, q, push, Called(()), h) && NextPop(h) == Some(None)
    ensures q == []
    decreases |h|
  {
    var q', push' := Fifo(cap, q, h[0]).value, PushPhase(push, h[0]).value;
    if h[0].PopEffect? {
      DecidedPopReturns(h[0].result, h[1..]);
    } else {
      EmptyPopMetEmptyQueue(cap, q', push', h[1..]);
    }
  }

  /** A legal history justifies its failures: the effects are at least the calls returned. */
  lemma {:induction false} LegalIsJustified<T>(cap: nat, q: seq<T>, push: Phase<T, bool>, pop: Phase<(), Option<T>>,
                                               pushed: nat, popped: nat, h: seq<Obs<T>>)
    requires Legal(cap, q, push, pop, h)
    requires pushed + (if push == Decided(true) then 1 else 0)
          == |q| + popped + if pop.Decided? && pop.outcome.Some? then 1 else 0
    ensures Justified(cap, pushed, popped, Calls(h))
    decreases |h|
  {
    if h != [] {
      var o, t := h[0], h[1..];
      var q' := Fifo(cap, q, o).value;
      var push', pop' := PushPhase(push, o).value, PopPhase(pop, o).value;
      var pushed' := if o == PushReturn(true) then pushed + 1 else pushed;
      var popped' := if o.PopReturn? && o.result.Some? then popped + 1 else popped;
      LegalIsJustified(cap, q', push', pop', pushed', popped', t);
      NextOfCalls(t);
      if o.PushCall? && NextPush(t) == Some(false) {
        RefusedPushMetFullQueue(cap, q, o.item, pop, t);
      }
      if o.PopCall? && NextPop(t) == Some(None) {
        EmptyPopMetEmptyQueue(cap, q, push, t);
      }
    }
  }

  // ---------------------------------------------------------------- justified failures have a placement

  function Max(x: int, y: int): int {
    if x < y then y else x
  }

  /** The pushes that succeeded and returned. */
  function Pushed<T>(s: State<T>): int {
    s.w - if s.prod.PDone? && s.prod.ok then 1 else 0
  }

  /** The pops that took something and returned. */
  function Popped<T>(s: State<T>): int {
    s.r - if s.cons.CDone? && s.cons.result.Some? then 1 else 0
  }

  /** The thread that has published but not returned holds the item published last. */
  predicate Remembers<T(==)>(s: State<T>)
    requires |s.accepted| == s.w && s.r <= s.w
  {
    && (s.prod.PDone? && s.prod.ok ==> s.w > 0 && s.prod.item == s.accepted[s.w - 1])
    && (s.cons.CDone? && s.cons.result.Some? ==> s.r > 0 && s.cons.result.value == s.accepted[s.r - 1])
  }

  lemma StepRemembers<T>(s: State<T>, a: Action<T>)
    requires Inv(s) && Enabled(s, a) && Remembers(s)
    ensures Inv(Step(s, a)) && Remembers(Step(s, a))
  {
    StepKeepsInv(s, a);
  }

  /** Every effect as late as the returns allow: at its own return, or at the return of the other
      thread's call that cannot do without it. So many pops have then taken effect... */
  function LatePops<T>(s: State<T>): int {
    Max(Popped(s), Pushed(s) - s.cap)
  }

  /** ... and so many pushes. */
  function LatePushes<T>(s: State<T>): int {
    Max(Pushed(s), Popped(s))
  }

  function LateQueue<T>(s: State<T>): seq<T>
    requires 0 <= LatePops(s) <= LatePushes(s) <= |s.accepted|
  {
    s.accepted[LatePops(s)..LatePushes(s)]
  }

  /** Where the pending push stands when effects are late; a failure takes effect at once. */
  function LatePush<T>(s: State<T>, c: seq<Obs<T>>): Phase<T, bool> {
    if s.prod.PIdle? then Between
    else if NextPush(c) == Some(false) then Decided(false)
    else if s.prod.PDone? && s.prod.ok && LatePushes(s) == s.w then Decided(true)
    else Called(s.prod.item)
  }

  function LatePop<T>(s: State<T>, c: seq<Obs<T>>): Phase<(), Option<T>> {
    if s.cons.CIdle? then Between
    else if NextPop(c) == Some(None) then Decided(None)
    else if s.cons.CDone? && s.cons.result.Some? && LatePops(s) == s.r then Decided(s.cons.result)
    else Called(())
  }

  lemma LateInRange<T>(s: State<T>)
    requires Inv(s) && Remembers(s)
    ensures 0 <= Pushed(s) <= s.w <= Pushed(s) + 1 && 0 <= Popped(s) <= s.r <= Popped(s) + 1
    ensures 0 <= LatePops(s) <= LatePushes(s) <= |s.accepted|
    ensures LatePops(s) <= s.r <= s.w == |s.accepted| && s.w <= s.r + s.cap
  {
    hide Window;
  }

  /** What is left to place, after a step of which only the calls and returns are kept. */
  ghost predicate Placed<T>(s: State<T>, c: seq<Obs<T>>, h: seq<Obs<T>>)
    requires Inv(s) && Remembers(s)
  {
    LateInRange(s);
    Calls(h) == c && Legal(s.cap, LateQueue(s), LatePush(s, c), LatePop(s, c), h)
  }

  lemma Prepend<T>(cap: nat, q: seq<T>, push: Phase<T, bool>, pop: Phase<(), Option<T>>, o: Obs<T>, h: seq<Obs<T>>)
    requires PushPhase(push, o).Some? && PopPhase(pop, o).Some? && Fifo(cap, q, o).Some?
    requires Legal(cap, Fifo(cap, q, o).value, PushPhase(push, o).value, PopPhase(pop, o).value, h)
    ensures Legal(cap, q, push, pop, [o] + h)
    ensures Calls([o] + h) == if Visible(o) then [o] + Calls(h) else Calls(h)
  {
    assert ([o] + h)[1..] == h;
  }

  lemma CountsAfter<T>(s: State<T>, a: Action<T>)
    requires Inv(s) && Enabled(s, a)
    ensures Pushed(Step(s, a)) == Pushed(s) + if Observe(s, a) == PushReturn(true) then 1 else 0
    ensures Popped(Step(s, a)) == Popped(s) + if Observe(s, a).PopReturn? && Observe(s, a).result.Some? then 1 else 0
    ensures Step(s, a).cap == s.cap
    ensures (a.PCall? <==> Observe(s, a).PushCall?) && (a.CCall? <==> Observe(s, a).PopCall?)
  {
    hide Window;
  }

  /** Steps that are neither calls nor returns leave what is to be placed. */
  lemma PlaceHidden<T>(s: State<T>, a: Action<T>, c: seq<Obs<T>>, h: seq<Obs<T>>)
    requires Inv(s) && Remembers(s) && Enabled(s, a) && Inv(Step(s, a)) && Remembers(Step(s, a))
    requires !Visible(Observe(s, a)) && Placed(Step(s, a), c, h)
    requires a.PPublish? ==> NextPush(c) != Some(false)
    requires a.CPublish? ==> NextPop(c) != Some(None)
    ensures Placed(s, c, h)
  {
    LateInRange(s);
    LateInRange(Step(s, a));
    CountsAfter(s, a);
    LateQueueKept(s, a);
    hide RingProtocol.Inv, Legal, Calls, Remembers, NextPush, NextPop, Pushed, Popped, LateQueue;
  }

  lemma LateQueueKept<T>(s: State<T>, a: Action<T>)
    requires Inv(s) && Remembers(s) && Enabled(s, a) && Inv(Step(s, a)) && Remembers(Step(s, a))
    requires !Visible(Observe(s, a))
    ensures 0 <= LatePops(s) <= LatePushes(s) <= |s.accepted|
    ensures 0 <= LatePops(Step(s, a)) <= LatePushes(Step(s, a)) <= |Step(s, a).accepted|
    ensures LateQueue(Step(s, a)) == LateQueue(s)
  {
    LateInRange(s);
    LateInRange(Step(s, a));
    CountsAfter(s, a);
    hide RingProtocol.Inv, Remembers, Pushed, Popped;
  }

  lemma PlacePush<T>(s: State<T>, x: T, c: seq<Obs<T>>, h: seq<Obs<T>>) returns (h': seq<Obs<T>>)
    requires Inv(s) && Remembers(s) && s.prod.PIdle?
    requires Inv(Step(s, PCall(x))) && Remembers(Step(s, PCall(x))) && Placed(Step(s, PCall(x)), c, h)
    requires NextPush(c) == Some(false) ==> Pushed(s) >= Popped(s) + s.cap
    ensures Placed(s, [PushCall(x)] + c, h')
  {
    LateInRange(s);
    h' := h;
    var q, pop := LateQueue(s), LatePop(s, c);
    assert ([PushCall(x)] + c)[1..] == c;
    if NextPush(c) == Some(false) {
      Prepend(s.cap, q, Called(x), pop, PushEffect(x, false), h');
      h' := [PushEffect(x, false)] + h';
    }
    Prepend(s.cap, q, Between, pop, PushCall(x), h');
    h' := [PushCall(x)] + h';
  }

  lemma PlacePop<T>(s: State<T>, c: seq<Obs<T>>, h: seq<Obs<T>>) returns (h': seq<Obs<T>>)
    requires Inv(s) && Remembers(s) && s.cons.CIdle?
    requires Inv(Step(s, CCall)) && Remembers(Step(s, CCall)) && Placed(Step(s, CCall), c, h)
    requires NextPop(c) == Some(None) ==> Pushed(s) <= Popped(s)
    ensures Placed(s, [PopCall] + c, h')
  {
    LateInRange(s);
    h' := h;
    var q, push := LateQueue(s), LatePush(s, c);
    assert ([PopCall] + c)[1..] == c;
    if NextPop(c) == Some(None) {
      Prepend(s.cap, q, push, Called(()), PopEffect(None), h');
      h' := [PopEffect(None)] + h';
    }
    Prepend(s.cap, q, push, Between, PopCall, h');
    h' := [PopCall] + h';
  }

  /** The late queue across the return of a push whose effect is still to come. */
  lemma LatePushReturns<T>(s: State<T>)
    requires Inv(s) && Remembers(s) && s.prod.PDone? && s.prod.ok && LatePushes(s) < s.w
    requires Inv(Step(s, PReturn)) && Remembers(Step(s, PReturn))
    ensures 0 <= LatePops(s) <= LatePushes(s) <= |s.accepted|
    ensures
      var s', q := Step(s, PReturn), LateQueue(s);
      && 0 <= LatePops(s') <= LatePushes(s') <= |s'.accepted|
      && |q| <= s.cap
      && (|q| < s.cap ==> LateQueue(s') == q + [s.prod.item] && LatePops(s') == LatePops(s))
      && (|q| == s.cap ==>
            && q != [] && LateQueue(s') == q[1..] + [s.prod.item]
            && LatePops(s) < s.r == LatePops(s') && s.cons == CDone(Some(q[0])))
  {
    LateInRange(s);
    LateInRange(Step(s, PReturn));
    assert s.cap > 0;
    hide RingProtocol.Inv;
    var p := Pushed(s);
    assert LatePops(s) == s.r ==> p < s.r + s.cap;
    assert |LateQueue(s)| < s.cap <==> p - s.cap < Popped(s);
  }

  lemma LatePopReturns<T>(s: State<T>)
    requires Inv(s) && Remembers(s) && s.cons.CDone? && s.cons.result.Some? && LatePops(s) < s.r
    requires Inv(Step(s, CReturn)) && Remembers(Step(s, CReturn))
    ensures 0 <= LatePops(s) <= LatePushes(s) <= |s.accepted|
    ensures
      var s', q, x := Step(s, CReturn), LateQueue(s), s.cons.result.value;
      && 0 <= LatePops(s') <= LatePushes(s') <= |s'.accepted|
      && (q != [] ==> q[0] == x && LateQueue(s') == q[1..] && LatePushes(s') == LatePushes(s))
      && (q == [] ==>
            && LateQueue(s') == [] && LatePushes(s) < s.w == LatePushes(s')
            && s.prod == PDone(x, true))
  {
    LateInRange(s);
    LateInRange(Step(s, CReturn));
    assert s.cap > 0;
    hide RingProtocol.Inv;
  }

  lemma LateReturnsKeep<T>(s: State<T>, a: Action<T>)
    requires Inv(s) && Remembers(s) && Enabled(s, a) && Inv(Step(s, a)) && Remembers(Step(s, a))
    requires a.PReturn? ==> (s.prod.ok ==> LatePushes(s) == s.w)
    requires a.CReturn? ==> (s.cons.result.Some? ==> LatePops(s) == s.r)
    requires a.PReturn? || a.CReturn? || a.PCall? || a.CCall?
    ensures LatePops(Step(s, a)) == LatePops(s) && LatePushes(Step(s, a)) == LatePushes(s)
  {
    LateInRange(s);
    LateInRange(Step(s, a));
    hide Window;
  }

  /** The return of a push: its effect, if still to come, goes just before; and where that finds the
      late queue full, the effect of the pop that made room goes before both. */
  lemma PlacePushReturn<T>(s: State<T>, c: seq<Obs<T>>, h: seq<Obs<T>>) returns (h': seq<Obs<T>>)
    requires Inv(s) && Remembers(s) && s.prod.PDone?
    requires Inv(Step(s, PReturn)) && Remembers(Step(s, PReturn)) && Placed(Step(s, PReturn), c, h)
    requires s.cons.CDone? ==> NextPop(c) in {None, Some(s.cons.result)}
    ensures Placed(s, [PushReturn(s.prod.ok)] + c, h')
  {
    var s', ok := Step(s, PReturn), s.prod.ok;
    LateInRange(s);
    LateInRange(s');
    var c0 := [PushReturn(ok)] + c;
    assert c0[1..] == c;
    hide RingProtocol.Inv, Remembers, Legal, LatePushes, LatePops;
    assert LatePop(s', c0) == LatePop(s', c);
    var q', pop' := LateQueue(s'), LatePop(s', c);
    Prepend(s.cap, q', Decided(ok), pop', PushReturn(ok), h);
    h' := [PushReturn(ok)] + h;
    if ok && LatePushes(s) < s.w {
      LatePushReturns(s);
      var x, q := s.prod.item, LateQueue(s);
      hide LateQueue, Calls;
      if |q| < s.cap {
        Prepend(s.cap, q, Called(x), pop', PushEffect(x, true), h');
        h' := [PushEffect(x, true)] + h';
      } else {
        Prepend(s.cap, q[1..], Called(x), pop', PushEffect(x, true), h');
        h' := [PushEffect(x, true)] + h';
        Prepend(s.cap, q, Called(x), Called(()), PopEffect(Some(q[0])), h');
        h' := [PopEffect(Some(q[0]))] + h';
      }
    } else {
      LateReturnsKeep(s, PReturn);
    }
  }

  lemma PlacePopReturn<T>(s: State<T>, c: seq<Obs<T>>, h: seq<Obs<T>>) returns (h': seq<Obs<T>>)
    requires Inv(s) && Remembers(s) && s.cons.CDone?
    requires Inv(Step(s, CReturn)) && Remembers(Step(s, CReturn)) && Placed(Step(s, CReturn), c, h)
    requires s.prod.PDone? ==> NextPush(c) in {None, Some(s.prod.ok)}
    ensures Placed(s, [PopReturn(s.cons.result)] + c, h')
  {
    var s', result := Step(s, CReturn), s.cons.result;
    LateInRange(s);
    LateInRange(s');
    var c0 := [PopReturn(result)] + c;
    assert c0[1..] == c;
    hide RingProtocol.Inv, Remembers, Legal, LatePushes, LatePops;
    assert LatePush(s', c0) == LatePush(s', c);
    var q', push' := LateQueue(s'), LatePush(s', c);
    Prepend(s.cap, q', push', Decided(result), PopReturn(result), h);
    h' := [PopReturn(result)] + h;
    if result.Some? && LatePops(s) < s.r {
      LatePopReturns(s);
      var q, x := LateQueue(s), result.value;
      hide LateQueue, Calls;
      if q != [] {
        Prepend(s.cap, q, push', Called(()), PopEffect(result), h');
        h' := [PopEffect(result)] + h';
      } else {
        Prepend(s.cap, [x], push', Called(()), PopEffect(result), h');
        h' := [PopEffect(result)] + h';
        assert q + [x] == [x];
        Prepend(s.cap, q, Called(x), Called(()), PushEffect(x, true), h');
        h' := [PushEffect(x, true)] + h';
      }
    } else {
      LateReturnsKeep(s, CReturn);
    }
  }

  lemma CallsUnfold<T>(s: State<T>, run: seq<Action<T>>)
    requires ValidRun(s, run) && run != []
    ensures
      var o, c := Observe(s, run[0]), Calls(History(Step(s, run[0]), run[1..]));
      Calls(History(s, run)) == if Visible(o) then [o] + c else c
  {
    assert History(s, run)[1..] == History(Step(s, run[0]), run[1..]);
  }

  lemma {:induction false} CallsOfHistory<T>(s: State<T>, run: seq<Action<T>>)
    requires ValidRun(s, run)
    ensures s.prod.PDone? ==> NextPush(Calls(History(s, run))) in {None, Some(s.prod.ok)}
    ensures s.cons.CDone? ==> NextPop(Calls(History(s, run))) in {None, Some(s.cons.result)}
    ensures s.prod.PReady? || s.prod.PConstructed? ==> NextPush(Calls(History(s, run))) in {None, Some(true)}
    ensures s.cons.CReady? || s.cons.CMoved? || s.cons.CDestroyed? ==> NextPop(Calls(History(s, run))) != Some(None)
    decreases |run|
  {
    if run != [] {
      CallsOfHistory(Step(s, run[0]), run[1..]);
      assert History(s, run)[1..] == History(Step(s, run[0]), run[1..]);
      var c := Calls(History(Step(s, run[0]), run[1..]));
      assert ([Observe(s, run[0])] + c)[1..] == c;
    }
  }

  lemma JustifiedAfter<T>(cap: nat, pushed: nat, popped: nat, o: Obs<T>, c: seq<Obs<T>>)
    requires Justified(cap, pushed, popped, if Visible(o) then [o] + c else c)
    ensures Justified(cap, pushed + (if o == PushReturn(true) then 1 else 0),
                      popped + (if o.PopReturn? && o.result.Some? then 1 else 0), c)
    ensures o.PushCall? && NextPush(c) == Some(false) ==> pushed >= popped + cap
    ensures o.PopCall? && NextPop(c) == Some(None) ==> pushed <= popped
  {
    assert ([o] + c)[1..] == c;
  }

  lemma NothingToPlace<T>(s: State<T>)
    requires Inv(s) && Remembers(s)
    ensures Placed(s, [], [])
  {
  }

  lemma PlaceStep<T>(s: State<T>, a: Action<T>, c: seq<Obs<T>>, h: seq<Obs<T>>) returns (h': seq<Obs<T>>)
    requires Inv(s) && Remembers(s) && Enabled(s, a)
    requires Inv(Step(s, a)) && Remembers(Step(s, a)) && Placed(Step(s, a), c, h)
    requires a.PCall? && NextPush(c) == Some(false) ==> Pushed(s) >= Popped(s) + s.cap
    requires a.CCall? && NextPop(c) == Some(None) ==> Pushed(s) <= Popped(s)
    requires Step(s, a).prod.PDone? ==> NextPush(c) in {None, Some(Step(s, a).prod.ok)}
    requires Step(s, a).cons.CDone? ==> NextPop(c) in {None, Some(Step(s, a).cons.result)}
    ensures Placed(s, if Visible(Observe(s, a)) then [Observe(s, a)] + c else c, h')
  {
    hide RingProtocol.Inv, Placed, Remembers, Pushed, Popped, NextPush, NextPop;
    match a
    case PCall(x) => h' := PlacePush(s, x, c, h);
    case CCall => h' := PlacePop(s, c, h);
    case PReturn => h' := PlacePushReturn(s, c, h);
    case CReturn => h' := PlacePopReturn(s, c, h);
    case _ =>
      PlaceHidden(s, a, c, h);
      h' := h;
  }

  /** Justified from here on, given the calls that have returned. */
  ghost predicate JustifiedRun<T>(s: State<T>, run: seq<Action<T>>)
    requires ValidRun(s, run)
  {
    Pushed(s) >= 0 && Popped(s) >= 0 && Justified(s.cap, Pushed(s), Popped(s), Calls(History(s, run)))
  }

  lemma JustifiedNext<T>(s: State<T>, run: seq<Action<T>>)
    requires Inv(s) && Remembers(s) && ValidRun(s, run) && run != [] && JustifiedRun(s, run)
    ensures Inv(Step(s, run[0])) && Remembers(Step(s, run[0])) && JustifiedRun(Step(s, run[0]), run[1..])
    ensures
      var c := Calls(History(Step(s, run[0]), run[1..]));
      && (run[0].PCall? && NextPush(c) == Some(false) ==> Pushed(s) >= Popped(s) + s.cap)
      && (run[0].CCall? && NextPop(c) == Some(None) ==> Pushed(s) <= Popped(s))
      && Calls(History(s, run)) == if Visible(Observe(s, run[0])) then [Observe(s, run[0])] + c else c
  {
    hide RingProtocol.Inv, Remembers, Justified, Pushed, Popped, Calls, History, NextPush, NextPop, Visible;
    hide RingProtocol.Step, RingProtocol.Enabled, Observe, LatePops, LatePushes;
    StepRemembers(s, run[0]);
    LateInRange(Step(s, run[0]));
    CountsAfter(s, run[0]);
    CallsUnfold(s, run);
    JustifiedAfter(s.cap, Pushed(s), Popped(s), Observe(s, run[0]), Calls(History(Step(s, run[0]), run[1..])));
  }

  /** A placement for a run whose failures are justified. */
  lemma {:induction false} PlaceRun<T>(s: State<T>, run: seq<Action<T>>) returns (h: seq<Obs<T>>)
    requires Inv(s) && Remembers(s) && ValidRun(s, run) && JustifiedRun(s, run)
    ensures Placed(s, Calls(History(s, run)), h)
    decreases |run|
  {
    if run == [] {
      NothingToPlace(s);
      h := [];
    } else {
      hide RingProtocol.Inv, Remembers, JustifiedRun, Placed, Pushed, Popped, NextPush, NextPop, Observe, Visible;
      hide RingProtocol.Step, RingProtocol.Enabled, Calls, History;
      JustifiedNext(s, run);
      var a, s' := run[0], Step(s, run[0]);
      h := PlaceRun(s', run[1..]);
      CallsOfHistory(s', run[1..]);
      h := PlaceStep(s, a, Calls(History(s', run[1..])), h);
    }
  }

  /** Which runs are linearizable, exactly: those in which every push that is refused was called when
      the pushes and pops returned so far left no room, and every pop that found nothing when they left
      nothing. */
  lemma LinearizableExactly<T(!new)>(cap: nat, run: seq<Action<T>>)
    requires cap > 0 && ValidRun(Init<T>(cap), run)
    ensures
      var calls := Calls(History(Init<T>(cap), run));
      Linearizable(cap, calls) <==> Justified(cap, 0, 0, calls)
  {
    var s := Init<T>(cap);
    var calls := Calls(History(s, run));
    InitInv<T>(cap);
    if Justified(cap, 0, 0, calls) {
      var h := PlaceRun(s, run);
      assert LateQueue(s) == [];
      assert IsPlacement(cap, h, calls);
    }
    forall h: seq<Obs<T>> | IsPlacement(cap, h, calls)
      ensures Justified(cap, 0, 0, calls)
    {
      LegalIsJustified(cap, [], Between, Between, 0, 0, h);
    }
  }

  // ---------------------------------------------------------------- loads that justify a failure

  /** Every call that fails loads a value of the other index that was current at some moment since the
      call; `r` and `w` are the indices when the pending pop and push were called. */
  ghost predicate FreshFailures<T>(s: State<T>, run: seq<Action<T>>, r: nat, w: nat)
    requires ValidRun(s, run)
    decreases |run|
  {
    run == [] ||
    var a := run[0];
    && (a.PLoadOther? && s.prod.index - a.k == s.cap ==> a.k >= r)
    && (a.CLoadOther? && s.cons.index == a.k ==> a.k >= w)
    && FreshFailures(Step(s, a), run[1..], if a.PCall? then s.r else r, if a.CCall? then s.w else w)
  }

  lemma {:induction false} RefusedPushLoaded<T>(s: State<T>, run: seq<Action<T>>, r: nat, w: nat)
    requires Inv(s) && ValidRun(s, run) && FreshFailures(s, run, r, w)
    requires s.prod.PCalled? || s.prod.PLoadedOwn?
    requires NextPush(Calls(History(s, run))) == Some(false)
    ensures s.w >= r + s.cap
    decreases |run|
  {
    NextOfCalls(History(s, run));
    if run != [] {
      var a, s' := run[0], Step(s, run[0]);
      StepKeepsInv(s, a);
      hide Window;
      assert History(s, run)[1..] == History(s', run[1..]);
      NextOfCalls(History(s', run[1..]));
      if a.PLoadOther? {
        CallsOfHistory(s', run[1..]);
      } else {
        RefusedPushLoaded(s', run[1..], r, if a.CCall? then s.w else w);
      }
    }
  }

  lemma {:induction false} EmptyPopLoaded<T>(s: State<T>, run: seq<Action<T>>, r: nat, w: nat)
    requires Inv(s) && ValidRun(s, run) && FreshFailures(s, run, r, w)
    requires s.cons.CCalled? || s.cons.CLoadedOwn?
    requires NextPop(Calls(History(s, run))) == Some(None)
    ensures s.r >= w
    decreases |run|
  {
    NextOfCalls(History(s, run));
    if run != [] {
      var a, s' := run[0], Step(s, run[0]);
      StepKeepsInv(s, a);
      hide Window;
      assert History(s, run)[1..] == History(s', run[1..]);
      NextOfCalls(History(s', run[1..]));
      if a.CLoadOther? {
        CallsOfHistory(s', run[1..]);
      } else {
        EmptyPopLoaded(s', run[1..], if a.PCall? then s.r else r, w);
      }
    }
  }

  lemma JustifiedBefore<T>(cap: nat, pushed: nat, popped: nat, o: Obs<T>, c: seq<Obs<T>>)
    requires Justified(cap, pushed + (if o == PushReturn(true) then 1 else 0),
                       popped + (if o.PopReturn? && o.result.Some? then 1 else 0), c)
    requires o.PushCall? && NextPush(c) == Some(false) ==> pushed >= popped + cap
    requires o.PopCall? && NextPop(c) == Some(None) ==> pushed <= popped
    ensures Justified(cap, pushed, popped, if Visible(o) then [o] + c else c)
  {
    assert ([o] + c)[1..] == c;
  }

  lemma FreshCalls<T>(s: State<T>, run: seq<Action<T>>, r: nat, w: nat)
    requires Inv(s) && ValidRun(s, run) && FreshFailures(s, run, r, w) && run != []
    ensures
      var o, c := Observe(s, run[0]), Calls(History(Step(s, run[0]), run[1..]));
      && (o.PushCall? && NextPush(c) == Some(false) ==> Pushed(s) >= Popped(s) + s.cap)
      && (o.PopCall? && NextPop(c) == Some(None) ==> Pushed(s) <= Popped(s))
  {
    var a, s' := run[0], Step(s, run[0]);
    StepKeepsInv(s, a);
    var c := Calls(History(s', run[1..]));
    hide Window, History, Calls, NextPush, NextPop;
    if a.PCall? && NextPush(c) == Some(false) {
      RefusedPushLoaded(s', run[1..], s.r, w);
    }
    if a.CCall? && NextPop(c) == Some(None) {
      EmptyPopLoaded(s', run[1..], r, s.w);
    }
  }

  lemma JustifiedEarlier<T>(s: State<T>, run: seq<Action<T>>)
    requires Inv(s) && Remembers(s) && ValidRun(s, run) && run != [] && JustifiedRun(Step(s, run[0]), run[1..])
    requires
      var o, c := Observe(s, run[0]), Calls(History(Step(s, run[0]), run[1..]));
      && (o.PushCall? && NextPush(c) == Some(false) ==> Pushed(s) >= Popped(s) + s.cap)
      && (o.PopCall? && NextPop(c) == Some(None) ==> Pushed(s) <= Popped(s))
    ensures JustifiedRun(s, run)
  {
    hide RingProtocol.Inv, Remembers, Justified, Pushed, Popped, Calls, History, NextPush, NextPop, Visible, Observe;
    LateInRange(s);
    CountsAfter(s, run[0]);
    CallsUnfold(s, run);
    JustifiedBefore(s.cap, Pushed(s), Popped(s), Observe(s, run[0]), Calls(History(Step(s, run[0]), run[1..])));
  }

  lemma {:induction false} FreshIsJustified<T>(s: State<T>, run: seq<Action<T>>, r: nat, w: nat)
    requires Inv(s) && Remembers(s) && ValidRun(s, run) && FreshFailures(s, run, r, w)
    ensures JustifiedRun(s, run)
    decreases |run|
  {
    LateInRange(s);
    if run != [] {
      hide RingProtocol.Inv, Remembers, JustifiedRun, Pushed, Popped, LatePops, LatePushes, Calls, History, Observe;
      hide RingProtocol.Step, RingProtocol.Enabled, NextPush, NextPop;
      var a := run[0];
      StepRemembers(s, a);
      FreshCalls(s, run, r, w);
      FreshIsJustified(Step(s, a), run[1..], if a.PCall? then s.r else r, if a.CCall? then s.w else w);
      JustifiedEarlier(s, run);
    }
  }

  /** A run is linearizable if every call that fails loads an index that was current at some moment
      since the call. */
  lemma FreshIsLinearizable<T(!new)>(cap: nat, run: seq<Action<T>>)
    requires cap > 0 && ValidRun(Init<T>(cap), run) && FreshFailures(Init<T>(cap), run, 0, 0)
    ensures Linearizable(cap, Calls(History(Init<T>(cap), run)))
  {
    InitInv<T>(cap);
    FreshIsJustified(Init<T>(cap), run, 0, 0);
    LinearizableExactly(cap, run);
  }

  // ---------------------------------------------------------------- a run that is not linearizable

  lemma {:induction false} JustifiedLater<T>(s: State<T>, run: seq<Action<T>>, more: seq<Action<T>>)
    requires Inv(s) && Remembers(s) && ValidRun(s, run) && ValidRun(s, run + more) && JustifiedRun(s, run + more)
    ensures ValidRun(Run(s, run), more) && JustifiedRun(Run(s, run), more)
    decreases |run|
  {
    hide RingProtocol.Inv, Remembers, JustifiedRun, RingProtocol.Step, RingProtocol.Enabled;
    if run == [] {
      assert run + more == more;
    } else {
      assert (run + more)[1..] == run[1..] + more;
      JustifiedNext(s, run + more);
      JustifiedLater(Step(s, run[0]), run[1..], more);
    }
  }

  lemma OneStep<T>(s: State<T>, a: Action<T>, run: seq<Action<T>>)
    requires Shape(s) && Enabled(s, a) && ValidRun(Step(s, a), run)
    ensures ValidRun(s, [a] + run) && Run(s, [a] + run) == Run(Step(s, a), run)
    ensures
      var o, c := Observe(s, a), Calls(History(Step(s, a), run));
      Calls(History(s, [a] + run)) == if Visible(o) then [o] + c else c
  {
    assert ([a] + run)[1..] == run;
    assert History(s, [a] + run)[1..] == History(Step(s, a), run);
  }

  /** A completed push of an idle producer that loads the read index from before a completed pop. */
  lemma StaleRefusal<T>(s: State<T>, z: T) returns (run: seq<Action<T>>)
    requires Inv(s) && s.prod.PIdle? && s.cons.CIdle?
    requires s.seenR < s.r && s.w == s.seenR + s.cap
    ensures run == [PCall(z), PLoadOwn, PLoadOther(s.seenR), PReturn]
    ensures ValidRun(s, run) && Run(s, run) == s
    ensures !JustifiedRun(s, run)
  {
    var a1, a2, a3: Action<T>, a4: Action<T> := PCall(z), PLoadOwn, PLoadOther(s.seenR), PReturn;
    var s1 := Step(s, a1);
    var s2 := Step(s1, a2);
    var s3 := Step(s2, a3);
    run := [a1, a2, a3, a4];
    assert [a4] == [a4] + [] && [a3, a4] == [a3] + [a4];
    assert [a2, a3, a4] == [a2] + [a3, a4] && run == [a1] + [a2, a3, a4];
    OneStep(s3, a4, []);
    OneStep(s2, a3, [a4]);
    OneStep(s1, a2, [a3, a4]);
    OneStep(s, a1, [a2, a3, a4]);
    var c := [PushReturn(false)] + Calls(History(s, []));
    assert ([PushCall(z)] + c)[1..] == c;
  }

  lemma {:induction false} RunAppends<T>(s: State<T>, run: seq<Action<T>>, more: seq<Action<T>>)
    requires ValidRun(s, run) && ValidRun(Run(s, run), more)
    ensures ValidRun(s, run + more) && Run(s, run + more) == Run(Run(s, run), more)
    decreases |run|
  {
    hide RingProtocol.Step, RingProtocol.Enabled;
    if run == [] {
      assert run + more == more;
    } else {
      assert (run + more)[1..] == run[1..] + more;
      RunAppends(Step(s, run[0]), run[1..], more);
    }
  }

  /** A reachable run, at capacity two, whose effects no placement makes those of a queue: two pushes
      and a pop return, then a push that still reads the index from before the pop is refused, on a
      ring with room from its call to its return. */
  lemma StalePushFails<T(!new)>(x: T, y: T, z: T) returns (before: seq<Action<T>>, call: seq<Action<T>>)
    ensures call == [PCall(z), PLoadOwn, PLoadOther(0), PReturn]
    ensures ValidRun(Init<T>(2), before) && ValidRun(Init<T>(2), before + call)
    ensures Run(Init<T>(2), before + call) == Run(Init<T>(2), before)
    ensures Inv(Run(Init<T>(2), before)) && Queued(Run(Init<T>(2), before)) == [y]
    ensures !Linearizable(2, Calls(History(Init<T>(2), before + call)))
  {
    var s := Init<T>(2);
    InitInv<T>(2);
    before := PushOne(s, [], x);
    before := PushOne(s, before, y);
    before := PopOne(s, before);
    call := StaleRefusal(Run(s, before), z);
    RunAppends(s, before, call);
    if JustifiedRun(s, before + call) {
      JustifiedLater(s, before, call);
    }
    LinearizableExactly(2, before + call);
  }
}
