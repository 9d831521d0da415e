/**
  The phase logic of the lifecycle engine (`Router.__nextState`, and the
  decision `Router.__run` takes at each phase), as values. The state changes
  the engine makes on a route are in module HashRouter.
 */
module Lifecycle {
  import opened Wrappers

  datatype Phase = Before | On | After

  /** Position of a phase in the order before -> on -> after. */
  function Rank(p: Phase): nat
  {
    match p
    case Before => 0
    case On => 1
    case After => 2
  }

  /** A JavaScript value a handler passes to `task.done`; `Undefined` is also
      what a phase receives when nothing was passed on. */
  datatype JsValue = Undefined | Value(text: string)

  /** Which of `route.before`, `route.on`, `route.after` are present. */
  datatype Handlers = Handlers(before: bool, on: bool, after: bool)

  predicate Has(h: Handlers, p: Phase)
  {
    match p
    case Before => h.before
    case On => h.on
    case After => h.after
  }

  /** `Router.__nextState`: `null` after `after`. */
  function NextState(p: Phase): (r: Option<Phase>)
    ensures r.Some? <==> Rank(p) < 2
    ensures r.Some? ==> Rank(r.value) == Rank(p) + 1
  {
    match p
    case Before => Some(On)
    case On => Some(After)
    case After => None
  }

  /** The phase the engine invokes a handler for, with the `previousResult`
      it records in `route.event`. */
  datatype Invocation = Invocation(state: Phase, previousResult: JsValue)

  /** `Router.__run(route, state, previousResult)` up to the point where it
      hands control to a handler: the phase whose handler is called, or `None`
      when it runs off the end. A phase without a handler moves on WITHOUT a
      result (line 123), so a skip turns `previousResult` into `Undefined`. */
  function FirstHandled(h: Handlers, state: Phase, previousResult: JsValue): Option<Invocation>
    decreases 2 - Rank(state)
  {
    if Has(h, state) then Some(Invocation(state, previousResult))
    else match NextState(state)
      case None => None
      case Some(next) => FirstHandled(h, next, Undefined)
  }

  /** The phase chosen is the first one, from `state` on, that has a handler;
      it receives the incoming result only when no phase was skipped. When
      there is none, no phase from `state` on has a handler. */
  lemma {:induction false} FirstHandledSpec(h: Handlers, state: Phase, previousResult: JsValue)
    ensures match FirstHandled(h, state, previousResult)
      case None => forall p: Phase :: Rank(p) >= Rank(state) ==> !Has(h, p)
      case Some(inv) =>
        && Rank(inv.state) >= Rank(state)
        && Has(h, inv.state)
        && (forall p: Phase :: Rank(state) <= Rank(p) < Rank(inv.state) ==> !Has(h, p))
        && inv.previousResult == (if inv.state == state then previousResult else Undefined)
    decreases 2 - Rank(state)
  {
    if !Has(h, state) {
      match NextState(state)
      case None =>
        assert forall p: Phase :: Rank(p) >= Rank(state) ==> p == state;
      case Some(next) =>
        FirstHandledSpec(h, next, Undefined);
        assert forall p: Phase :: Rank(p) >= Rank(state) ==> p == state || Rank(p) >= Rank(next);
    }
  }

  lemma FirstHandledPhase(h: Handlers, state: Phase, previousResult: JsValue)
    ensures var first := FirstHandled(h, state, previousResult);
      first.Some? ==> Has(h, first.value.state) && Rank(first.value.state) >= Rank(state)
  {
    FirstHandledSpec(h, state, previousResult);
  }

  /** The invocations of one run when every invoked handler calls `done`
      once, the k-th of them with `results[k]`; the run stalls when the
      results run out (a handler that never calls `done`). */
  function Chain(h: Handlers, state: Phase, previousResult: JsValue, results: seq<JsValue>): seq<Invocation>
    decreases 2 - Rank(state)
  {
    FirstHandledSpec(h, state, previousResult);
    match FirstHandled(h, state, previousResult)
    case None => []
    case Some(inv) =>
      [inv] + match NextState(inv.state)
        case None => []
        case Some(next) =>
          if results == [] then [] else Chain(h, next, results[0], results[1..])
  }

  /** `Router.run` starts at `before` with no result. */
  function RunChain(h: Handlers, results: seq<JsValue>): seq<Invocation>
  {
    Chain(h, Before, Undefined, results)
  }

  /** A run makes at most one invocation per phase from `state` on, and at
      most one more than the results it is given. */
  lemma {:induction false} ChainLength(h: Handlers, state: Phase, previousResult: JsValue, results: seq<JsValue>)
    ensures var c := Chain(h, state, previousResult, results);
      |c| <= 3 - Rank(state) && |c| <= |results| + 1
    decreases 2 - Rank(state)
  {
    FirstHandledSpec(h, state, previousResult);
    match FirstHandled(h, state, previousResult)
    case None =>
    case Some(inv) =>
      match NextState(inv.state)
      case None =>
      case Some(next) =>
        if results != [] {
          ChainLength(h, next, results[0], results[1..]);
        }
  }

  /** Every invocation is of a phase that has a handler, from `state` on, and
      the phases strictly increase. */
  lemma {:induction false} ChainPhases(h: Handlers, state: Phase, previousResult: JsValue, results: seq<JsValue>)
    ensures var c := Chain(h, state, previousResult, results);
      && (forall i :: 0 <= i < |c| ==> Has(h, c[i].state) && Rank(c[i].state) >= Rank(state))
      && (forall i :: 0 <= i < |c| - 1 ==> Rank(c[i].state) < Rank(c[i + 1].state))
    decreases 2 - Rank(state)
  {
    FirstHandledPhase(h, state, previousResult);
    match FirstHandled(h, state, previousResult)
    case None =>
    case Some(inv) =>
      match NextState(inv.state)
      case None =>
      case Some(next) =>
        if results != [] {
          var c := Chain(h, state, previousResult, results);
          var rest := Chain(h, next, results[0], results[1..]);
          ChainPhases(h, next, results[0], results[1..]);
          assert c == [inv] + rest;
          assert Rank(next) == Rank(inv.state) + 1;
          forall i | 1 <= i < |c|
            ensures c[i] == rest[i - 1]
            ensures Has(h, c[i].state) && Rank(c[i].state) > Rank(inv.state)
          {
          }
        }
  }

  /** An invocation receives the previous handler's result exactly when it
      directly follows that phase; after a skipped phase it receives
      `Undefined`. */
  lemma {:induction false} ChainResults(h: Handlers, state: Phase, previousResult: JsValue, results: seq<JsValue>)
    ensures var c := Chain(h, state, previousResult, results);
      forall i :: 0 <= i < |c| - 1 ==>
        c[i + 1].previousResult == (if NextState(c[i].state) == Some(c[i + 1].state) then results[i] else Undefined)
    decreases 2 - Rank(state)
  {
    ChainLength(h, state, previousResult, results);
    FirstHandledSpec(h, state, previousResult);
    match FirstHandled(h, state, previousResult)
    case None =>
    case Some(inv) =>
      match NextState(inv.state)
      case None =>
      case Some(next) =>
        if results != [] {
          var c := Chain(h, state, previousResult, results);
          var rest := Chain(h, next, results[0], results[1..]);
          ChainResults(h, next, results[0], results[1..]);
          assert c == [inv] + rest;
          if rest != [] {
            FirstHandledSpec(h, next, results[0]);
          }
          forall i | 1 <= i < |c| - 1
            ensures c[i + 1].previousResult ==
              (if NextState(c[i].state) == Some(c[i + 1].state) then results[i] else Undefined)
          {
            assert c[i] == rest[i - 1] && c[i + 1] == rest[i];
          }
        }
  }

  /** Phases are visited strictly in the order before -> on -> after, each
      only if it has a handler. An invocation receives the previous handler's
      result exactly when it directly follows that phase; after a skipped phase
      it receives `Undefined`. */
  lemma ChainOrdered(h: Handlers, state: Phase, previousResult: JsValue, results: seq<JsValue>)
    ensures var c := Chain(h, state, previousResult, results);
      && |c| <= 3 - Rank(state)
      && |c| <= |results| + 1
      && (forall i :: 0 <= i < |c| ==> Has(h, c[i].state) && Rank(c[i].state) >= Rank(state))
      && (forall i :: 0 <= i < |c| - 1 ==> Rank(c[i].state) < Rank(c[i + 1].state))
      && (forall i :: 0 <= i < |c| - 1 ==>
            c[i + 1].previousResult == (if NextState(c[i].state) == Some(c[i + 1].state) then results[i] else Undefined))
  {
    ChainLength(h, state, previousResult, results);
    ChainPhases(h, state, previousResult, results);
    ChainResults(h, state, previousResult, results);
  }

  /** With all three handlers present, each handler is called in turn and
      receives what the previous one passed to `done`. */
  lemma AllHandlersChain(r0: JsValue, r1: JsValue, rest: seq<JsValue>)
    ensures RunChain(Handlers(true, true, true), [r0, r1] + rest) ==
      [Invocation(Before, Undefined), Invocation(On, r0), Invocation(After, r1)]
  {
    var results := [r0, r1] + rest;
    assert results[1..] == [r1] + rest;
    assert ([r1] + rest)[1..] == rest;
  }

  /** Without an `on` handler, `after` does NOT receive `before`'s result:
      the skip passes `undefined`. */
  lemma SkippedPhaseDropsResult(r0: JsValue, rest: seq<JsValue>)
    ensures RunChain(Handlers(true, false, true), [r0] + rest) ==
      [Invocation(Before, Undefined), Invocation(After, Undefined)]
  {
    var results := [r0] + rest;
    assert FirstHandled(Handlers(true, false, true), On, r0) == Some(Invocation(After, Undefined));
  }
}
