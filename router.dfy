/**
  The global `Router` object: its ordered route registry (`add`, `findRoute`),
  `matchRoute`, the dispatch decision of `__listener`, and the lifecycle
  engine (`run`, `__run`, `Router.task`). Routes are objects: a match writes
  `params`, `url` and `query` onto the registered route, and the engine
  writes `event` and `task` onto it.

  What the source hands to foreign code (the change and not-found callbacks,
  the phase handlers, the write to `window.location.hash`) is recorded in the
  ghost `trace` instead.
 */
module HashRouter {
  import opened Wrappers
  import opened HashParser
  import opened Query
  import opened Matcher
  import opened Lifecycle

  /** `route.params`, `route.url` and `route.query`, written together on a match. */
  datatype MatchData = MatchData(params: map<string, string>, url: string, query: map<string, string>)

  /** `route.event`. */
  datatype Event = Event(previousResult: JsValue, state: Phase)

  /** A route definition. Its path and handlers are never changed by the router. */
  class Route {
    const path: string
    const handlers: Handlers
    var lastMatch: Option<MatchData>
    var event: Option<Event>
    var task: Option<Task>

    constructor (path: string, handlers: Handlers)
      ensures this.path == path && this.handlers == handlers
      ensures lastMatch == None && event == None && task == None
    {
      this.path := path;
      this.handlers := handlers;
      lastMatch := None;
      event := None;
      task := None;
    }

    /** Lines 203-205: the match result is written onto the route. */
    method Record(data: MatchData)
      modifies this`lastMatch
      ensures lastMatch == Some(data)
    {
      lastMatch := Some(data);
    }
  }

  /** The object `new Router.task(...)` builds in `__run`: its callback
      captures the route and the phase it was made for. */
  datatype Task = Task(route: Route, state: Phase)

  /** What the router hands to code outside it. */
  datatype Effect =
    | RouteChanged(route: Route)                    // `__eventOnChange(route)`
    | PhaseInvoked(route: Route, inv: Invocation)   // `route[state]()`
    | RouteNotFound(tokens: seq<string>)            // `__eventOnNotFound(tokens)`
    | HashRewritten(hash: string)                   // `window.location.hash = ...`

  /** What `add` does: `return false` for a falsy path; the `ReferenceError`
      that line 160 throws (it reads the undeclared `ruote`) for a duplicate
      path without overwrite; otherwise `undefined`. */
  datatype AddOutcome = MissingPath | AlreadyMapped | Replaced(index: nat) | Appended

  /** What `matchRoute` does: throw (from `decodeURIComponent`), return `null`,
      or return the registered route. */
  datatype MatchOutcome = Threw | NoMatch | Matched(route: Route)

  /** What `__listener` does with a hash. */
  datatype DispatchOutcome = DispatchThrew | NotFound(tokens: seq<string>) | Dispatched(route: Route)

  function PathsOf(routes: seq<Route>): (paths: seq<string>)
    ensures |paths| == |routes|
    ensures forall i :: 0 <= i < |routes| ==> paths[i] == routes[i].path
  {
    if routes == [] then [] else [routes[0].path] + PathsOf(routes[1..])
  }

  /** The index of the first route with exactly `path`. */
  function PathIndex(routes: seq<Route>, path: string): (r: Option<nat>)
    ensures r.None? <==> forall i :: 0 <= i < |routes| ==> routes[i].path != path
    ensures r.Some? ==>
      r.value < |routes| && routes[r.value].path == path &&
      forall i :: 0 <= i < r.value ==> routes[i].path != path
  {
    if routes == [] then None
    else if routes[0].path == path then Some(0)
    else match PathIndex(routes[1..], path)
      case None => None
      case Some(i) => Some(i + 1)
  }

  /** The first route with exactly `path`, if any. */
  function Lookup(routes: seq<Route>, path: string): Option<Route>
  {
    match PathIndex(routes, path)
    case None => None
    case Some(i) => Some(routes[i])
  }

  /** Every registered path is non-empty and registered once. */
  predicate UniquePaths(routes: seq<Route>)
  {
    && (forall i :: 0 <= i < |routes| ==> routes[i].path != "")
    && (forall i, j :: 0 <= i < j < |routes| ==> routes[i].path != routes[j].path)
  }

  /** `Router.add(route, overwrite)` on the registry `routes`: the outcome
      and the registry afterwards. */
  function AddSpec(routes: seq<Route>, route: Route, overwrite: bool): (AddOutcome, seq<Route>)
  {
    if route.path == "" then (MissingPath, routes)
    else match PathIndex(routes, route.path)
      case Some(i) => if overwrite then (Replaced(i), routes[i := route]) else (AlreadyMapped, routes)
      case None => (Appended, routes + [route])
  }

  /** `add` fails on an empty path, and on a registered path without
      overwrite, leaving the registry unchanged; with overwrite it replaces the
      first route with that path in place, keeping length and order;
      otherwise it appends. */
  lemma AddOutcomes(routes: seq<Route>, route: Route, overwrite: bool)
    ensures var (outcome, after) := AddSpec(routes, route, overwrite);
      && (outcome == MissingPath <==> route.path == "")
      && (outcome == AlreadyMapped <==> route.path != "" && !overwrite && route.path in PathsOf(routes))
      && (outcome == Appended <==> route.path != "" && route.path !in PathsOf(routes))
      && (outcome == MissingPath || outcome == AlreadyMapped ==> after == routes)
      && (outcome == Appended ==> after == routes + [route])
      && (outcome.Replaced? ==>
            && overwrite
            && PathIndex(routes, route.path) == Some(outcome.index)
            && |after| == |routes| && after[outcome.index] == route
            && (forall j :: 0 <= j < |routes| && j != outcome.index ==> after[j] == routes[j]))
  {
    var paths := PathsOf(routes);
    if route.path in paths {
      var k :| 0 <= k < |paths| && paths[k] == route.path;
      assert routes[k].path == route.path;
    }
  }

  /** After a successful `add`, `findRoute(route.path)` yields the new route;
      after any `add`, the lookup of every other path is unaffected. */
  lemma AddThenLookup(routes: seq<Route>, route: Route, overwrite: bool)
    ensures var (outcome, after) := AddSpec(routes, route, overwrite);
      && (outcome.Replaced? || outcome == Appended ==> Lookup(after, route.path) == Some(route))
      && (forall p :: p != route.path ==> Lookup(after, p) == Lookup(routes, p))
  {
    var (outcome, after) := AddSpec(routes, route, overwrite);
    if outcome == Appended {
      assert forall i :: 0 <= i < |routes| ==> after[i] == routes[i];
      assert after[|routes|] == route;
      assert PathIndex(after, route.path) == Some(|routes|);
    } else if outcome.Replaced? {
      assert PathIndex(routes, route.path) == Some(outcome.index);
      assert after == routes[outcome.index := route];
      assert forall j :: 0 <= j < outcome.index ==> after[j] == routes[j];
      assert after[outcome.index].path == route.path;
      assert PathIndex(after, route.path) == Some(outcome.index);
    }
    forall p | p != route.path
      ensures Lookup(after, p) == Lookup(routes, p)
    {
      LookupUnaffected(routes, after, route.path, p);
    }
  }

  lemma LookupUnaffected(routes: seq<Route>, after: seq<Route>, changed: string, p: string)
    requires p != changed
    requires |routes| <= |after|
    requires forall i :: 0 <= i < |routes| ==> after[i] == routes[i] || (after[i].path == changed && routes[i].path == changed)
    requires forall i :: |routes| <= i < |after| ==> after[i].path == changed
    ensures Lookup(after, p) == Lookup(routes, p)
  {
    var a, b := PathIndex(after, p), PathIndex(routes, p);
    if a.Some? && b.Some? {
      assert a.value == b.value;
    }
  }

  /** Every successful `add` keeps the registry's paths non-empty and distinct. */
  lemma AddKeepsPathsUnique(routes: seq<Route>, route: Route, overwrite: bool)
    requires UniquePaths(routes)
    ensures UniquePaths(AddSpec(routes, route, overwrite).1)
  {
    var (outcome, after) := AddSpec(routes, route, overwrite);
    if outcome.Replaced? {
      assert forall j :: 0 <= j < |after| ==> after[j].path == routes[j].path;
    }
  }

  /** The effects of `__run` when it hands control to a handler. */
  function Entered(route: Route, inv: Option<Invocation>): seq<Effect>
  {
    match inv
    case None => []
    case Some(i) => [PhaseInvoked(route, i)]
  }

  /** The write-back `__cleanHash` does for a hash that needs normalising. */
  function Rewrites(parts: CleanHashResult): seq<Effect>
  {
    if parts.rewritten then [HashRewritten(parts.hash)] else []
  }

  /** `__listener`'s policy: an empty hash and `#` mean `#/`. */
  function ListenerHash(hash: string): string
  {
    if hash == "" || hash == "#" then "#/" else hash
  }

  /** The computing part of `matchRoute` (lines 174-201): parse the query
      of `parts`, and when that does not throw, scan `paths` against its path
      part. */
  method Resolve(paths: seq<string>, parts: CleanHashResult, decode: Decoder)
    returns (query: Option<map<string, string>>, found: Option<nat>, params: map<string, string>)
    ensures query == ParseQuery(parts.hashQueryArray, decode)
    ensures query.Some? ==> found == Scan(paths, parts.hashParams).found
    ensures query.Some? && found.Some? ==> found.value < |paths| && params == Scan(paths, parts.hashParams).state.params
  {
    query := ParseQueryLoop(parts.hashQueryArray, decode);
    if query.None? {
      return query, None, map[];
    }
    var tester;
    found, tester, params := ScanRoutes(paths, parts.hashParams);
  }

  class Router {
    var routes: seq<Route>
    ghost var trace: seq<Effect>

    constructor ()
      ensures routes == [] && trace == []
    {
      routes := [];
      trace := [];
    }

    /** `Router.add(route, overwrite)`; `overwrite` is `overwrite === true`. */
    method Add(route: Route, overwrite: bool) returns (outcome: AddOutcome)
      modifies this`routes
      ensures (outcome, routes) == AddSpec(old(routes), route, overwrite)
      ensures UniquePaths(old(routes)) ==> UniquePaths(routes)
    {
      if UniquePaths(routes) {
        AddKeepsPathsUnique(routes, route, overwrite);
      }
      if route.path == "" {
        return MissingPath;
      }
      var isAlreadyMapped := false;
      var i := 0;
      while i < |routes|
        invariant 0 <= i <= |routes|
        invariant routes == old(routes) && !isAlreadyMapped
        invariant forall j :: 0 <= j < i ==> routes[j].path != route.path
      {
        if routes[i].path == route.path {
          isAlreadyMapped := true;
          if overwrite {
            routes := routes[i := route];
            return Replaced(i);
          }
          break;
        }
        i := i + 1;
      }
      if isAlreadyMapped {
        return AlreadyMapped;
      }
      routes := routes + [route];
      return Appended;
    }

    /** `Router.findRoute(path)`: the first registered route whose path is
        exactly `path` (no pattern matching), or `undefined`. */
    method FindRoute(path: string) returns (found: Option<Route>)
      ensures found.None? <==> path !in PathsOf(routes)
      ensures found.Some? ==> PathIndex(routes, path).Some? && found.value == routes[PathIndex(routes, path).value]
    {
      var i := 0;
      while i < |routes|
        invariant 0 <= i <= |routes|
        invariant forall j :: 0 <= j < i ==> routes[j].path != path
      {
        if routes[i].path == path {
          return Some(routes[i]);
        }
        i := i + 1;
      }
      return None;
    }

    /** `Router.matchRoute(hash)`: parse the hash, parse its query (which may
        throw), scan the routes, and on a match write `params`, `url` (the
        hash as given) and `query` onto the matching route. */
    method MatchRoute(hash: string, decode: Decoder) returns (outcome: MatchOutcome)
      modifies this`trace, routes
      ensures routes == old(routes)
      ensures trace == old(trace) + Rewrites(CleanHash(hash))
      ensures var parts := CleanHash(hash);
        var query := ParseQuery(parts.hashQueryArray, decode);
        var scan := Scan(PathsOf(routes), parts.hashParams);
        && (outcome.Threw? <==> query.None?)
        && (outcome.NoMatch? <==> query.Some? && scan.found.None?)
        && (outcome.Matched? ==>
              && query.Some? && scan.found.Some?
              && outcome.route == routes[scan.found.value]
              && outcome.route.lastMatch == Some(MatchData(scan.state.params, hash, query.value)))
      ensures forall r :: r in routes && !(outcome.Matched? && r == outcome.route) ==> unchanged(r)
      ensures forall r :: r in routes ==> r.event == old(r.event) && r.task == old(r.task)
    {
      var registered := routes;
      var parts := CleanHash(hash);
      var query, found, params := Resolve(PathsOf(registered), parts, decode);
      trace := trace + Rewrites(parts);
      if query.None? {
        return Threw;
      }
      if found.None? {
        return NoMatch;
      }
      var route := registered[found.value];
      route.Record(MatchData(params, hash, query.value));
      return Matched(route);
    }

    /** `Router.__run(route, state, previousResult)`: skip phases without a
        handler; at the first phase with one, record `event` and a task
        for that phase on the route and call the handler. */
    method RunPhase(route: Route, state: Phase, previousResult: JsValue)
      modifies this`trace, route`event, route`task
      ensures match FirstHandled(route.handlers, state, previousResult)
        case None =>
          trace == old(trace) && route.event == old(route.event) && route.task == old(route.task)
        case Some(inv) =>
          && trace == old(trace) + [PhaseInvoked(route, inv)]
          && route.event == Some(Event(inv.previousResult, inv.state))
          && route.task == Some(Task(route, inv.state))
      decreases 2 - Rank(state)
    {
      if Has(route.handlers, state) {
        route.event := Some(Event(previousResult, state));
        route.task := Some(Task(route, state));
        trace := trace + [PhaseInvoked(route, Invocation(state, previousResult))];
      } else {
        var nextState := NextState(state);
        if nextState.Some? {
          RunPhase(route, nextState.value, Undefined);
        }
      }
    }

    /** `task.done(result)`: run the phase after the task's own, passing
        `result` on. Nothing stops a task from being completed twice, or
        after a later task has been issued: each call starts that phase again. */
    method Done(task: Task, result: JsValue)
      modifies this`trace, task.route`event, task.route`task
      ensures match NextState(task.state)
        case None =>
          trace == old(trace) && task.route.event == old(task.route.event) && task.route.task == old(task.route.task)
        case Some(next) =>
          match FirstHandled(task.route.handlers, next, result)
          case None =>
            trace == old(trace) && task.route.event == old(task.route.event) && task.route.task == old(task.route.task)
          case Some(inv) =>
            && trace == old(trace) + [PhaseInvoked(task.route, inv)]
            && task.route.event == Some(Event(inv.previousResult, inv.state))
            && task.route.task == Some(Task(task.route, inv.state))
    {
      var nextState := NextState(task.state);
      if nextState.Some? {
        RunPhase(task.route, nextState.value, result);
      }
    }

    /** `Router.run(route)`: notify the change callback, then start at `before`. */
    method Run(route: Route)
      modifies this`trace, route`event, route`task
      ensures var first := FirstHandled(route.handlers, Before, Undefined);
        && trace == old(trace) + [RouteChanged(route)] + Entered(route, first)
        && (first.None? ==> route.event == old(route.event) && route.task == old(route.task))
        && (first.Some? ==>
              route.event == Some(Event(first.value.previousResult, first.value.state)) &&
              route.task == Some(Task(route, first.value.state)))
    {
      trace := trace + [RouteChanged(route)];
      RunPhase(route, Before, Undefined);
    }

    /** `Router.__listener(hash)` once `init` has installed the callbacks:
        match the hash (an empty hash or `#` standing for `#/`); on a match run
        the route, otherwise hand the hash's tokens to the not-found callback. */
    method Listener(hash: string, decode: Decoder) returns (outcome: DispatchOutcome)
      modifies this`trace, routes
      ensures routes == old(routes)
      ensures var h := ListenerHash(hash);
        var parts := CleanHash(h);
        var query := ParseQuery(parts.hashQueryArray, decode);
        var scan := Scan(PathsOf(routes), parts.hashParams);
        && (outcome.DispatchThrew? <==> query.None?)
        && (outcome.DispatchThrew? ==> trace == old(trace) + Rewrites(parts))
        && (outcome.NotFound? <==> query.Some? && scan.found.None?)
        && (outcome.NotFound? ==>
              outcome.tokens == HashToArray(h) &&
              trace == old(trace) + Rewrites(parts) + [RouteNotFound(outcome.tokens)])
        && (outcome.Dispatched? ==>
              && query.Some? && scan.found.Some?
              && outcome.route == routes[scan.found.value]
              && outcome.route.lastMatch == Some(MatchData(scan.state.params, h, query.value))
              && trace == old(trace) + Rewrites(parts) + [RouteChanged(outcome.route)]
                 + Entered(outcome.route, FirstHandled(outcome.route.handlers, Before, Undefined)))
      ensures outcome.Dispatched? ==>
        var route := outcome.route;
        var first := FirstHandled(route.handlers, Before, Undefined);
        && (first.None? ==> route.event == old(route.event) && route.task == old(route.task))
        && (first.Some? ==>
              route.event == Some(Event(first.value.previousResult, first.value.state)) &&
              route.task == Some(Task(route, first.value.state)))
      ensures forall r :: r in routes && !(outcome.Dispatched? && r == outcome.route) ==> unchanged(r)
    {
      var h := ListenerHash(hash);
      var matched := MatchRoute(h, decode);
      match matched
      case Threw =>
        return DispatchThrew;
      case NoMatch =>
        var tokens := HashToArray(h);
        trace := trace + [RouteNotFound(tokens)];
        return NotFound(tokens);
      case Matched(route) =>
        Run(route);
        return Dispatched(route);
    }
  }

  /** A route with all three handlers, run and then completed phase by phase;
      completing the first task a second time starts `on` again. */
  method LifecycleWalkthrough(r0: JsValue, r1: JsValue, r2: JsValue)
  {
    var router := new Router();
    var route := new Route("#/home", Handlers(true, true, true));
    router.Run(route);
    assert router.trace == [RouteChanged(route), PhaseInvoked(route, Invocation(Before, Undefined))];
    var first := route.task.value;
    router.Done(first, r0);
    assert route.event == Some(Event(r0, On));
    router.Done(route.task.value, r1);
    assert route.event == Some(Event(r1, After));
    router.Done(route.task.value, r2);
    assert route.event == Some(Event(r1, After));
    router.Done(first, r2);
    assert route.event == Some(Event(r2, On));
    assert router.trace == [RouteChanged(route),
                            PhaseInvoked(route, Invocation(Before, Undefined)),
                            PhaseInvoked(route, Invocation(On, r0)),
                            PhaseInvoked(route, Invocation(After, r1)),
                            PhaseInvoked(route, Invocation(On, r2))];
  }
}
