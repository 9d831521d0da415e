# hash-router in Dafny

A model of `src/hash-router.js` (hash-router v1.1), a browser router held in
one global `Router` object. The router:

- splits a location hash into its path part and its query string, and
  normalises trailing slashes (`__cleanHash`);
- parses the query string;
- matches the path part against an ordered registry of route patterns such
  as `#/user/:id` (`matchRoute`), and manages that registry with `add` and
  `findRoute`;
- drives a small continuation-based lifecycle in which a route's `before`,
  `on` and `after` handlers run in turn. Each handler calls
  `this.task.done(result)` to let the next one start (`run`, `__run`,
  `__nextState`, `Router.task`).

`__listener` ties these together when the hash changes.

Modules, one per part of the router:

- `Strings`: the JavaScript string operations the router relies on, over
  `seq<char>`. These are `indexOf`, `split` on one character, `join`,
  `replace` of the first occurrence of a plain string, and
  `replace(/\/+$/, '')`.
- `HashParser`: `__cleanHash` and `__hashToArray`, as functions.
- `Query`: the query-string loop of `matchRoute`. `decodeURIComponent` is a
  parameter; `None` stands for the `URIError` it throws.
- `Matcher`: the route scan of `matchRoute`. It has a reference definition
  (`Scan`, `StateAfter`) and the two nested loops proved against it
  (`ScanRoutes`).
- `MatcherCases`: worked cases of the scan. Each is stated for all literal
  segments, parameter names and values that meet its own conditions. In the
  matching cases (`OneParamAttempt`, `OneParamRouteMatches`) the value's first
  character must not occur in the literal segment, because `replace` acts on
  the first occurrence of the value's text. `ReplaceHitsLiteral` shows what
  happens when it does.
- `Lifecycle`: `__nextState`, and the phase that `__run` chooses, as values.
  `Chain` is the sequence of handler invocations of a whole run.
- `HashRouter`: the `Route` objects that the router writes onto, and the
  `Router` class with `Add`, `FindRoute`, `MatchRoute`, `RunPhase` (`__run`),
  `Done` (`task.done`), `Run` and `Listener`.

The code hands some work to code outside it: the change and not-found
callbacks, the phase handlers, and the write to `window.location.hash`. Each
such hand-off is recorded in a ghost `trace` of effects.

Behaviour of the code a reader may not expect, which the model follows:

- Matching uses the unstripped path part. `hashParams` keeps its trailing
  `/` (line 72 is never reassigned); only the returned `hash` is
  normalised. So `#/foo/` is matched against the routes as `#/foo/`, and the
  normalised hash is only written back to the address.
- Parameters leak between attempts. `params` is created once per call (line
  176), so bindings made while trying an earlier dynamic route stay in the
  params of the route that finally matches (`Matcher.TryRouteParams`).
- A static route is compared against the `tester` that the last dynamic
  attempt left (line 194 resets it only for dynamic routes), so it can be
  shadowed (`MatcherCases.StaticRouteShadowed`).
- A phase without a handler passes `undefined` on, not the previous result
  (line 123; `Lifecycle.SkippedPhaseDropsResult`).
- A duplicate path without `overwrite === true` is not ignored, as the
  comment at line 142 says. Instead it throws, because line 160 reads the
  undeclared `ruote`. The registry is left unchanged
  (`AddOutcome.AlreadyMapped`).
- `replace` substitutes the first occurrence of a hash segment's text, not
  the segment at its position. So `#/a42/:id` does not match `#/a42/42`
  (`MatcherCases.ReplaceHitsLiteral`).

## Model

| member | source | states |
|---|---|---|
| Strings.ReplaceFirst | src/hash-router.js:198 | defines `tester.replace(slice, pattern)` for a plain-string pattern; `IndexOfSub`, `ReplaceFirstAt` and `ReplaceFirstKeepsCount` state its properties |
| HashParser.CleanHash | src/hash-router.js:67-86 | defines `__cleanHash`; `CleanHashSplits`, `CleanHashRewritesTrailingSlash`, `CleanHashOfClean` and `CleanHashRewriteIsStable` state its properties |
| HashParser.HashToArray | src/hash-router.js:105-108 | defines `__hashToArray`; `HashToArrayRoundTrip` and `DefaultHashTokens` state its properties |
| Query.ParseFrom | src/hash-router.js:180-187 | defines the query loop from piece `k` on; `ParseFromThrows`, `ParseFromKeys`, `ParseFromKeeps` and `ParseFromLast` state its properties |
| Query.ParseQuery | src/hash-router.js:179-187 | defines query parsing; `ParseQuerySpec` states its properties and `ParseQueryLoop` is proved equal to it |
| Matcher.BindFrom | src/hash-router.js:195-200 | defines the inner binding loop; `BindFromBindsLast`, `BindFromKeys`, `BindFromKeeps` and `BindKeepsSlashes` state its properties |
| Matcher.TryRoute | src/hash-router.js:192-201 | defines one attempt at a route; `TryRouteParams` states its properties |
| Matcher.Scan | src/hash-router.js:190-209 | defines the route scan; `ScanFindsFirstMatch`, `ScanStatic`, `MatchKeepsSegmentCount` state its properties and `ScanRoutes` is proved equal to it |
| Matcher.StateAfter | src/hash-router.js:190-201 | the reference definition of the state after the first `n` attempts, used by `ScanFindsFirstMatch` and `StateAfterKeepsSlashes` |
| Lifecycle.FirstHandled | src/hash-router.js:110-125 | defines the phase `__run` invokes; `FirstHandledSpec` and `FirstHandledPhase` state its properties |
| Lifecycle.Chain | src/hash-router.js:110-125 | defines the invocations of a whole run; `ChainLength`, `ChainPhases` and `ChainResults` state its properties |
| HashRouter.AddSpec | src/hash-router.js:143-164 | defines `add`'s outcome and new registry; `AddOutcomes`, `AddThenLookup` and `AddKeepsPathsUnique` state its properties, and `Router.Add` is proved equal to it |
| HashRouter.Lookup | src/hash-router.js:166-170 | defines `findRoute` through `PathIndex`; `LookupUnaffected` and `AddThenLookup` state its properties |
| HashRouter.ListenerHash | src/hash-router.js:88-90 | defines the hash `__listener` matches: `#/` for `""` and `#`, and the hash itself otherwise |
| Strings.IndexOf | src/hash-router.js:69 | `hash.indexOf('?')` is never below -1; it is -1 exactly when there is no `?`, and otherwise the first index of one |
| Strings.Split | src/hash-router.js:74 | `split` on one character yields one piece more than there are separators, and no piece contains the separator |
| Strings.SplitJoin | src/hash-router.js:74 | joining the pieces of a split with the same separator gives the text back |
| Strings.SplitNone | src/hash-router.js:106 | a text without the separator splits into itself alone |
| Strings.SplitCons | src/hash-router.js:182 | the text before the first separator is the first piece, and the rest is the split of the text after it |
| Strings.SplitAtFirst | src/hash-router.js:182-184 | the first piece of a split is the text before the first separator, and the other pieces are the split of the text after it |
| Strings.IndexOfSub | src/hash-router.js:198 | the index `replace` works at is the first occurrence of the pattern from the start index on, or -1 when there is none |
| Strings.ReplaceFirstAt | src/hash-router.js:198 | when the pattern's first character does not occur before an occurrence, `replace` substitutes that occurrence |
| Strings.ReplaceFirstKeepsCount | src/hash-router.js:198 | replacing a text free of `/` by another such text keeps the number of `/` in `tester` |
| Strings.StripTrailing | src/hash-router.js:76 | `replace(/\/+$/, '')` gives a prefix that does not end in `/`, and everything removed is `/` |
| HashParser.PathAndQuery | src/hash-router.js:69-73 | the path part has no `?`; with a `?` the hash is path + `?` + query; without one the path is the hash and the query is empty |
| HashParser.QueryArrayJoins | src/hash-router.js:74 | the query array is empty exactly when the query is, and joins back to the query with `&` |
| HashParser.CleanHashSplits | src/hash-router.js:67-75 | `__cleanHash` splits at the first `?`; its query array is `[]` for an empty query and joins back to the query otherwise; no piece contains `&` |
| HashParser.CleanHashOfJoined | src/hash-router.js:72-73 | a `?`-free path followed by `?query` (or by nothing for an empty query) parses back into that path and that query |
| HashParser.CleanHashRewritesTrailingSlash | src/hash-router.js:76-85 | the hash is rewritten exactly when `hashParams` ends in `/`; otherwise the hash is returned as given |
| HashParser.CleanHashOfClean | src/hash-router.js:67-85 | a `?`-free path without trailing `/` plus a query parses into exactly those parts and is not rewritten |
| HashParser.CleanHashRewriteIsStable | src/hash-router.js:76-85 | the rewritten hash is exactly `hashParams` less its trailing `/` (all removed characters are `/`), followed by `?query` only when the query is non-empty; parsing it again gives the same query and asks for no further rewrite |
| HashParser.FirstTokenIsHash | src/hash-router.js:106-107 | the first `/`-token is `#` exactly when the hash is `#` or starts with `#/` |
| HashParser.HashToArrayRoundTrip | src/hash-router.js:105-108 | the tokens are `/`-free; there is one per `/`, plus one unless the hash is `#` or starts with `#/`; `#` gives `[]`; `#/` + the joined tokens is the hash when it starts with `#/`, and otherwise the joined tokens are the hash |
| HashParser.DefaultHashTokens | src/hash-router.js:88-90 | the hash `#/` that `__listener` uses for `""` and `#` has the tokens `[""]` (lines 106-107) |
| Query.KeyAndValueText | src/hash-router.js:182-184 | the key is the text before the first `=`, and the raw value is the text between the first and the second `=` (empty when there is none) |
| Query.ParseFromStep | src/hash-router.js:183-184 | one piece either throws, or binds its non-empty key to its value, or is skipped |
| Query.ParseFromThrows | src/hash-router.js:180-187 | the loop from piece `k` on throws exactly when some keyed piece from `k` on fails to decode |
| Query.ParseFromKeys | src/hash-router.js:180-187 | the keys after the loop are the keys before it plus the non-empty keys of the pieces |
| Query.ParseFromKeeps | src/hash-router.js:183-184 | a binding that no later piece overwrites survives the loop |
| Query.ParseFromLast | src/hash-router.js:180-187 | each key is bound to the value of the last piece that has that key |
| Query.ParseQuerySpec | src/hash-router.js:179-187 | query parsing throws exactly when some keyed piece fails to decode; otherwise the keys are exactly the non-empty piece keys and the last duplicate wins |
| Query.ParseQueryLoop | src/hash-router.js:179-187 | the `for (q ...)` loop computes `ParseQuery`: `None` when a decode throws, else the query object |
| Matcher.ScanFrom | src/hash-router.js:190-208 | a route found by the scan is at or after the start index, and its path equals the final `tester` |
| Matcher.ScanFromFirstMatch | src/hash-router.js:190-209 | from a prefix of routes none of which matches, the scan finds the first route that matches when tried after all earlier ones, or reports that none does |
| Matcher.ScanFindsFirstMatch | src/hash-router.js:190-209 | `matchRoute` returns the first route, in registration order, that matches when tried after its predecessors, and its path equals `tester`; `null` means no route matches |
| Matcher.StaticStateAfter | src/hash-router.js:192-201 | with only static routes, `tester` and `params` never change |
| Matcher.ScanStatic | src/hash-router.js:190-209 | with only static routes, a route matches exactly when its path equals `hashParams`, and the scan returns the first such route or none when `hashParams` is not registered |
| Matcher.BindKeepsSlashes | src/hash-router.js:195-200 | the binding loop keeps the number of `/` in `tester` |
| Matcher.StateAfterKeepsSlashes | src/hash-router.js:190-201 | after any number of attempts `tester` has as many `/` as `hashParams` |
| Matcher.MatchKeepsSegmentCount | src/hash-router.js:190-209 | the matching route has exactly as many `/`-segments as `hashParams` |
| Matcher.BindFromBindsLast | src/hash-router.js:195-200 | each `:name` slice with a hash slice at its position binds `name` to that slice; for a repeated name, the last one wins |
| Matcher.BindFromKeys | src/hash-router.js:195-200 | the names bound after the loop are those bound before plus those of the binding slices |
| Matcher.BindFromKeeps | src/hash-router.js:176 | a binding already in `params` that the loop does not overwrite survives it |
| Matcher.BindFromKeepsKey | src/hash-router.js:176 | the same, for one name |
| Matcher.TryRouteParams | src/hash-router.js:192-201 | a static attempt changes nothing; a dynamic one binds its `:name` slices (last wins) and keeps every earlier binding it does not overwrite, so `params` leaks across routes |
| Matcher.IsDynamicSearch | src/hash-router.js:192 | a route is treated as dynamic exactly when `route.path.search(/:/) > 0`, i.e. it has a `:` and the first one is not at index 0 |
| Matcher.BindSlices | src/hash-router.js:194-200 | the inner loop resets `tester` to `hashParams` and computes `BindFrom` over the route's slices: the final `tester` and `params` |
| Matcher.ScanRoutes | src/hash-router.js:174-209 | the nested loops return the scan's result: the index of the matching route, and the final `tester` and `params` |
| MatcherCases.OneParamAttempt | src/hash-router.js:192-201 | trying `#/lit/:name` against `#/lit/v` binds `name` to `v` on top of earlier bindings and turns `tester` into the pattern |
| MatcherCases.OneParamRouteMatches | src/hash-router.js:190-207 | when `lit`, `name` and `v` contain no `/`, `lit` has no `:`, and `v` is non-empty and starts with a character that is not `#` or `/` and does not occur in `lit`: `#/lit/:name` registered first matches `#/lit/v` with `params` = {name: v}, whatever is registered after it (e.g. `#/user/:id` and `#/user/42` give `id = '42'`) |
| MatcherCases.ReplaceHitsLiteral | src/hash-router.js:190-202 | when the value `v` also occurs inside the literal segment `a + v + b` (with no `/` or `:` in that segment, no `/` in `name`, `v` non-empty and not starting with `#`, and `v`'s first character not in `a`): `#/lit/:name` does not match `#/lit/v`; `tester` ends as `#/` + `a` + `:` + `name` + `b` + `/` + `v`, with `name` bound to `v` (e.g. `#/a42/:id` against `#/a42/42` leaves `#/a:id/42`) |
| MatcherCases.ShadowingAttempt | src/hash-router.js:192-201 | a failed attempt of `#/:name/tail` on `#/v` leaves `tester` = `#/:name` and binds `name` to `v` |
| MatcherCases.StaticRouteShadowed | src/hash-router.js:190-209 | the static route `#/v` matches `#/v` on its own, but not after the dynamic route `#/:name/tail`: the scan then fails with `name` bound to `v` |
| Lifecycle.NextState | src/hash-router.js:126-130 | `__nextState` is null exactly after `after`; otherwise it is the next phase in the order before, on, after |
| Lifecycle.FirstHandledSpec | src/hash-router.js:110-125 | `__run` invokes the first phase from `state` on that has a handler, and passes the incoming result only when no phase was skipped; with no such phase it invokes nothing |
| Lifecycle.FirstHandledPhase | src/hash-router.js:111 | the invoked phase has a handler and is not before `state` |
| Lifecycle.ChainLength | src/hash-router.js:110-125 | a run makes at most one invocation per remaining phase, and at most one more than the number of `done` calls |
| Lifecycle.ChainPhases | src/hash-router.js:110-125 | every invoked phase has a handler, and the phases strictly increase before, on, after |
| Lifecycle.ChainResults | src/hash-router.js:112-114 | an invocation receives the previous handler's `done` result exactly when it directly follows that phase, and `undefined` after a skip |
| Lifecycle.ChainOrdered | src/hash-router.js:110-140 | the three properties above together, for a run from any phase |
| Lifecycle.AllHandlersChain | src/hash-router.js:137-140 | with all three handlers, `before` gets `undefined`, `on` gets `before`'s result and `after` gets `on`'s |
| Lifecycle.SkippedPhaseDropsResult | src/hash-router.js:121-124 | without `on`, `after` receives `undefined`, not `before`'s result |
| HashRouter.PathIndex | src/hash-router.js:166-169 | the index of the first route with exactly that path, or none when no route has it |
| HashRouter.AddOutcomes | src/hash-router.js:143-164 | `add` fails on an empty path, and on a registered path without overwrite, leaving the registry unchanged; with overwrite it replaces the first such route in place, keeping length and order; otherwise it appends |
| HashRouter.AddThenLookup | src/hash-router.js:143-170 | after a successful `add`, looking up the route's path yields the new route, and the lookup of every other path is unaffected |
| HashRouter.LookupUnaffected | src/hash-router.js:166-169 | changing only routes with one path leaves the lookup of every other path unchanged |
| HashRouter.AddKeepsPathsUnique | src/hash-router.js:143-164 | `add` keeps the registered paths non-empty and distinct |
| HashRouter.Resolve | src/hash-router.js:174-201 | parses the query (which may throw) and, if it does not, scans the routes against the path part |
| HashRouter.Route.Record | src/hash-router.js:203-205 | a match writes `params`, `url` and `query` onto the route |
| HashRouter.Router.Add | src/hash-router.js:143-164 | the loop with `break` computes `AddSpec`'s outcome and new registry, and keeps the paths unique |
| HashRouter.Router.FindRoute | src/hash-router.js:166-170 | `findRoute` returns `undefined` exactly when no route has the path, and otherwise the first route that has it |
| HashRouter.Router.MatchRoute | src/hash-router.js:172-210 | throws exactly when query parsing throws; returns `null` exactly when the scan finds nothing; otherwise returns the registered route the scan found, with `params`, `url` (the hash as given) and `query` written onto it and on no other route; the hash rewrite is recorded |
| HashRouter.Router.RunPhase | src/hash-router.js:110-125 | `__run` records `event` and a task for the first phase with a handler and invokes it, or does nothing when there is none |
| HashRouter.LifecycleWalkthrough | src/hash-router.js:216-224 | a route with all three handlers runs `before`, then `on` and `after` as each task is completed; completing the first, stale task again runs `on` again, because `done` has no one-shot guard |
| HashRouter.Router.Done | src/hash-router.js:112-115 | `task.done(result)` starts the phase after the task's own with `result`, each time it is called |
| HashRouter.Router.Run | src/hash-router.js:137-140 | `run` fires the change callback, then starts at `before` with no result |
| HashRouter.Router.Listener | src/hash-router.js:87-100 | an empty hash or `#` means `#/`; a throw propagates; no match hands the hash's tokens to the not-found callback; a match writes `params`, `url` and `query` onto the route and runs it, setting its `event` and `task` for the first handled phase; every other route, and every route when nothing is dispatched, is unchanged |

## Left out

- Browser input and output are not modelled: `init`, `__bindHashChange`, `navigate`, and the `window.onhashchange` and `window.location.hash` writes in `__cleanHash` (lines 44-66, 78-82, 102-104). The rewrite is returned as the `rewritten` flag and recorded as a `HashRewritten` effect. The `hashchange` event that the write fires later is not modelled.
- `console.error` diagnostics (lines 50, 93, 146, 160) are modelled only as outcomes.
- `decodeURIComponent` is a parameter of type `string -> Option<string>` rather than an implementation of percent-decoding.
- Phase handlers and the change and not-found callbacks are foreign code. The model records when they are called and with what, and treats a handler as present or absent.
- When `done` is called is up to the handler, so the asynchronous timing is not modelled. `Done` may be called at any time, any number of times.
- HashRouter.Router.Listener: covers only the state after `init`, where `__eventOnNotFound` is always a function. The branch at lines 92-94 (no not-found callback) cannot run then.
- Strings.ReplaceFirst: does not model the `$&`, `$1` and similar patterns that JavaScript's `replace` expands in the replacement text, so a pattern segment containing `$` is treated literally.
- The query object and `params` (lines 176 and 197) are maps from string keys. JavaScript object peculiarities are not modelled. For example, assigning a string to a `__proto__` key is ignored in JavaScript, but the model binds it, whether the key comes from the query or from a route such as `#/:__proto__`.
- Paths are strings. `add`'s falsy-path test (`!route.path`) is modelled as the empty-string test; non-string paths are not modelled.
- Loop counters `i`, `q` and `x` are implicit globals in the source. This does not matter here: no foreign code runs inside those loops.
- The model does not depend on `Router.routes` being exported (line 212) or on `module.exports` (line 225).
