/**
  The route scan of `Router.matchRoute`. The routes are tried in registration
  order against one working string `tester` and one `params` object, both of
  which survive from one attempt to the next:
  - a route is dynamic when its first `:` is at an index greater than 0;
  - a dynamic attempt resets `tester` to `hashParams`, then for every pattern
    segment `:name` whose position exists in the hash binds `name` to the hash
    segment there and replaces the FIRST occurrence of that segment's text in
    `tester` by the pattern segment;
  - a static attempt leaves `tester` as the previous attempt left it;
  - the first route whose path equals `tester` matches.
 */
module Matcher {
  import opened Wrappers
  import opened Strings

  /** The two variables the scan carries across routes. */
  datatype ScanState = ScanState(tester: string, params: map<string, string>)

  /** Where the scan stopped (the index of the matching route, if any) and its
      variables at that point. */
  datatype ScanResult = ScanResult(found: Option<nat>, state: ScanState)

  /** `route.path.search(/:/) > 0`: the path contains a `:`, and its first
      `:` is not at index 0 (see `IsDynamicSearch`). */
  predicate IsDynamic(path: string)
  {
    ':' in path && path[0] != ':'
  }

  /** `IsDynamic` is exactly the test `search(/:/) > 0`: the first `:` is
      found at an index greater than 0. */
  lemma IsDynamicSearch(path: string)
    ensures IsDynamic(path) <==> IndexOf(path, ':') > 0
  {
    if ':' in path && IndexOf(path, ':') == 0 {
      assert path[0] == ':';
    }
  }

  /** `routeSlices[x].charAt(0) === ":"`. */
  predicate IsParamSlice(slice: string)
  {
    |slice| > 0 && slice[0] == ':'
  }

  /** `routeSlices[x].replace(/:/, '')` for a slice that starts with `:`. */
  function NameOf(slice: string): string
  {
    if IsParamSlice(slice) then slice[1..] else slice
  }

  /** Pattern slice `x` takes part in the binding: it is `:name` and the hash
      has a slice at the same position. */
  predicate Binds(routeSlices: seq<string>, testerSlices: seq<string>, x: int)
  {
    0 <= x < |routeSlices| && x < |testerSlices| && IsParamSlice(routeSlices[x])
  }

  /** The inner `for (x = ...)` loop, from slice `x` on. */
  function BindFrom(routeSlices: seq<string>, testerSlices: seq<string>, x: nat, st: ScanState): ScanState
    decreases |routeSlices| - x
  {
    if x >= |routeSlices| then st
    else if Binds(routeSlices, testerSlices, x) then
      BindFrom(routeSlices, testerSlices, x + 1,
        ScanState(ReplaceFirst(st.tester, testerSlices[x], routeSlices[x]),
                  st.params[NameOf(routeSlices[x]) := testerSlices[x]]))
    else BindFrom(routeSlices, testerSlices, x + 1, st)
  }

  /** One attempt at route `path` (lines 192-201): what it leaves in `tester`
      and `params`. */
  function TryRoute(path: string, hashParams: string, st: ScanState): ScanState
  {
    if IsDynamic(path) then
      BindFrom(Split(path, '/'), Split(hashParams, '/'), 0, ScanState(hashParams, st.params))
    else st
  }

  /** The state the scan starts from (lines 175-176). */
  function Initial(hashParams: string): ScanState
  {
    ScanState(hashParams, map[])
  }

  /** The outer `for (i = ...)` loop, from route `i` on. */
  function ScanFrom(paths: seq<string>, hashParams: string, i: nat, st: ScanState): (r: ScanResult)
    requires i <= |paths|
    ensures r.found.Some? ==> i <= r.found.value < |paths| && paths[r.found.value] == r.state.tester
    decreases |paths| - i
  {
    if i == |paths| then ScanResult(None, st)
    else
      var st' := TryRoute(paths[i], hashParams, st);
      if paths[i] == st'.tester then ScanResult(Some(i), st')
      else ScanFrom(paths, hashParams, i + 1, st')
  }

  /** The whole route scan of `matchRoute` over the registered paths. */
  function Scan(paths: seq<string>, hashParams: string): ScanResult
  {
    ScanFrom(paths, hashParams, 0, Initial(hashParams))
  }

  // A reference description of the scan: the state after trying the first
  // `n` routes one after the other, and which routes would match.

  function StateAfter(paths: seq<string>, hashParams: string, n: nat): ScanState
    requires n <= |paths|
  {
    if n == 0 then Initial(hashParams)
    else TryRoute(paths[n - 1], hashParams, StateAfter(paths, hashParams, n - 1))
  }

  /** Route `j` would match when it is tried after routes `0..j`. */
  predicate MatchesAt(paths: seq<string>, hashParams: string, j: int)
  {
    0 <= j < |paths| && paths[j] == StateAfter(paths, hashParams, j + 1).tester
  }

  lemma {:induction false} ScanFromFirstMatch(paths: seq<string>, hashParams: string, i: nat)
    requires i <= |paths|
    requires forall j :: 0 <= j < i ==> !MatchesAt(paths, hashParams, j)
    ensures var r := ScanFrom(paths, hashParams, i, StateAfter(paths, hashParams, i));
      && (r.found.None? ==> forall j :: 0 <= j < |paths| ==> !MatchesAt(paths, hashParams, j))
      && (r.found.Some? ==>
            && MatchesAt(paths, hashParams, r.found.value)
            && (forall j :: 0 <= j < r.found.value ==> !MatchesAt(paths, hashParams, j))
            && r.state == StateAfter(paths, hashParams, r.found.value + 1))
    decreases |paths| - i
  {
    if i < |paths| {
      ScanFromStep(paths, hashParams, i);
      if !MatchesAt(paths, hashParams, i) {
        ScanFromFirstMatch(paths, hashParams, i + 1);
      }
    }
  }

  /** One step of the scan from the state the earlier attempts reached. */
  lemma ScanFromStep(paths: seq<string>, hashParams: string, i: nat)
    requires i < |paths|
    ensures var st := StateAfter(paths, hashParams, i);
      && (MatchesAt(paths, hashParams, i) ==>
            ScanFrom(paths, hashParams, i, st) == ScanResult(Some(i), StateAfter(paths, hashParams, i + 1)))
      && (!MatchesAt(paths, hashParams, i) ==>
            ScanFrom(paths, hashParams, i, st) == ScanFrom(paths, hashParams, i + 1, StateAfter(paths, hashParams, i + 1)))
  {
  }

  /** The scan stops at the FIRST route, in registration order, that matches
      when tried after all the routes before it; the matching route's path
      equals the final `tester`. When it finds none, no route matches. */
  lemma ScanFindsFirstMatch(paths: seq<string>, hashParams: string)
    ensures var r := Scan(paths, hashParams);
      && (r.found.None? ==> forall j :: 0 <= j < |paths| ==> !MatchesAt(paths, hashParams, j))
      && (r.found.Some? ==>
            && r.found.value < |paths|
            && paths[r.found.value] == r.state.tester
            && MatchesAt(paths, hashParams, r.found.value)
            && (forall j :: 0 <= j < r.found.value ==> !MatchesAt(paths, hashParams, j)))
  {
    ScanFromFirstMatch(paths, hashParams, 0);
  }

  lemma {:induction false} StaticStateAfter(paths: seq<string>, hashParams: string, n: nat)
    requires n <= |paths|
    requires forall j :: 0 <= j < |paths| ==> !IsDynamic(paths[j])
    ensures StateAfter(paths, hashParams, n) == Initial(hashParams)
  {
    if n > 0 {
      StaticStateAfter(paths, hashParams, n - 1);
    }
  }

  /** With no dynamic route registered, `tester` never changes, so a route
      matches exactly when its path equals `hashParams`, and the scan returns
      the first such route. */
  lemma ScanStatic(paths: seq<string>, hashParams: string)
    requires forall j :: 0 <= j < |paths| ==> !IsDynamic(paths[j])
    ensures forall j :: 0 <= j < |paths| ==> (MatchesAt(paths, hashParams, j) <==> paths[j] == hashParams)
    ensures var r := Scan(paths, hashParams);
      && (r.found.None? <==> hashParams !in paths)
      && (r.found.Some? ==> paths[r.found.value] == hashParams &&
                            forall j :: 0 <= j < r.found.value ==> paths[j] != hashParams)
  {
    forall j | 0 <= j < |paths|
      ensures MatchesAt(paths, hashParams, j) <==> paths[j] == hashParams
    {
      StaticStateAfter(paths, hashParams, j + 1);
    }
    ScanFindsFirstMatch(paths, hashParams);
  }

  lemma {:induction false} BindKeepsSlashes(routeSlices: seq<string>, testerSlices: seq<string>, x: nat, st: ScanState)
    requires forall k :: 0 <= k < |routeSlices| ==> '/' !in routeSlices[k]
    requires forall k :: 0 <= k < |testerSlices| ==> '/' !in testerSlices[k]
    ensures Count('/', BindFrom(routeSlices, testerSlices, x, st).tester) == Count('/', st.tester)
    decreases |routeSlices| - x
  {
    if x < |routeSlices| {
      if Binds(routeSlices, testerSlices, x) {
        ReplaceFirstKeepsCount('/', st.tester, testerSlices[x], routeSlices[x]);
        BindKeepsSlashes(routeSlices, testerSlices, x + 1,
          ScanState(ReplaceFirst(st.tester, testerSlices[x], routeSlices[x]),
                    st.params[NameOf(routeSlices[x]) := testerSlices[x]]));
      } else {
        BindKeepsSlashes(routeSlices, testerSlices, x + 1, st);
      }
    }
  }

  lemma {:induction false} StateAfterKeepsSlashes(paths: seq<string>, hashParams: string, n: nat)
    requires n <= |paths|
    ensures Count('/', StateAfter(paths, hashParams, n).tester) == Count('/', hashParams)
  {
    if n > 0 {
      StateAfterKeepsSlashes(paths, hashParams, n - 1);
      var path := paths[n - 1];
      if IsDynamic(path) {
        BindKeepsSlashes(Split(path, '/'), Split(hashParams, '/'), 0, ScanState(hashParams, StateAfter(paths, hashParams, n - 1).params));
      }
    }
  }

  /** Substitution only exchanges `/`-free texts, so `tester` always has as
      many `/`-segments as `hashParams`; hence the matching route, dynamic or
      not, has exactly as many segments as `hashParams`. */
  lemma MatchKeepsSegmentCount(paths: seq<string>, hashParams: string)
    ensures var r := Scan(paths, hashParams);
      r.found.Some? ==> |Split(paths[r.found.value], '/')| == |Split(hashParams, '/')|
  {
    ScanFindsFirstMatch(paths, hashParams);
    var r := Scan(paths, hashParams);
    if r.found.Some? {
      StateAfterKeepsSlashes(paths, hashParams, r.found.value + 1);
    }
  }

  /** No later slice of the pattern, from `x` on, binds the same name. */
  predicate LastBinding(routeSlices: seq<string>, testerSlices: seq<string>, x: int)
  {
    Binds(routeSlices, testerSlices, x) &&
    forall y :: x < y < |routeSlices| && Binds(routeSlices, testerSlices, y) ==>
      NameOf(routeSlices[y]) != NameOf(routeSlices[x])
  }

  lemma {:induction false} BindFromBindsLast(routeSlices: seq<string>, testerSlices: seq<string>, x: nat, st: ScanState)
    ensures var p := BindFrom(routeSlices, testerSlices, x, st).params;
      forall y :: x <= y && LastBinding(routeSlices, testerSlices, y) ==>
        NameOf(routeSlices[y]) in p && p[NameOf(routeSlices[y])] == testerSlices[y]
    decreases |routeSlices| - x
  {
    if x < |routeSlices| {
      if Binds(routeSlices, testerSlices, x) {
        var st' := ScanState(ReplaceFirst(st.tester, testerSlices[x], routeSlices[x]),
                             st.params[NameOf(routeSlices[x]) := testerSlices[x]]);
        var p := BindFrom(routeSlices, testerSlices, x, st).params;
        assert p == BindFrom(routeSlices, testerSlices, x + 1, st').params;
        forall y | x <= y && LastBinding(routeSlices, testerSlices, y)
          ensures NameOf(routeSlices[y]) in p && p[NameOf(routeSlices[y])] == testerSlices[y]
        {
          if y == x {
            BindFromKeepsKey(routeSlices, testerSlices, x + 1, st', NameOf(routeSlices[x]));
          } else {
            BindFromBindsLast(routeSlices, testerSlices, x + 1, st');
          }
        }
      } else {
        BindFromBindsLast(routeSlices, testerSlices, x + 1, st);
      }
    }
  }

  lemma {:induction false} BindFromKeys(routeSlices: seq<string>, testerSlices: seq<string>, x: nat, st: ScanState)
    ensures var p := BindFrom(routeSlices, testerSlices, x, st).params;
      forall key :: key in p <==>
        key in st.params || exists y :: x <= y && Binds(routeSlices, testerSlices, y) && NameOf(routeSlices[y]) == key
    decreases |routeSlices| - x
  {
    if x < |routeSlices| {
      if Binds(routeSlices, testerSlices, x) {
        var st' := ScanState(ReplaceFirst(st.tester, testerSlices[x], routeSlices[x]),
                             st.params[NameOf(routeSlices[x]) := testerSlices[x]]);
        BindFromKeys(routeSlices, testerSlices, x + 1, st');
        var p := BindFrom(routeSlices, testerSlices, x, st).params;
        forall key
          ensures key in p <==>
            key in st.params || exists y :: x <= y && Binds(routeSlices, testerSlices, y) && NameOf(routeSlices[y]) == key
        {
          assert p == BindFrom(routeSlices, testerSlices, x + 1, st').params;
          if key == NameOf(routeSlices[x]) {
            assert key in st'.params;
            assert Binds(routeSlices, testerSlices, x) && NameOf(routeSlices[x]) == key;
          } else {
            assert key in st'.params <==> key in st.params;
            if exists y :: x <= y && Binds(routeSlices, testerSlices, y) && NameOf(routeSlices[y]) == key {
              var y :| x <= y && Binds(routeSlices, testerSlices, y) && NameOf(routeSlices[y]) == key;
              assert x + 1 <= y;
            }
            if exists y :: x + 1 <= y && Binds(routeSlices, testerSlices, y) && NameOf(routeSlices[y]) == key {
              var y :| x + 1 <= y && Binds(routeSlices, testerSlices, y) && NameOf(routeSlices[y]) == key;
              assert x <= y;
            }
          }
        }
      } else {
        BindFromKeys(routeSlices, testerSlices, x + 1, st);
      }
    }
  }

  lemma {:induction false} BindFromKeeps(routeSlices: seq<string>, testerSlices: seq<string>, x: nat, st: ScanState)
    ensures var p := BindFrom(routeSlices, testerSlices, x, st).params;
      forall key :: (key in st.params &&
        forall y :: x <= y && Binds(routeSlices, testerSlices, y) ==> NameOf(routeSlices[y]) != key) ==>
        key in p && p[key] == st.params[key]
    decreases |routeSlices| - x
  {
    if x < |routeSlices| {
      if Binds(routeSlices, testerSlices, x) {
        var st' := ScanState(ReplaceFirst(st.tester, testerSlices[x], routeSlices[x]),
                             st.params[NameOf(routeSlices[x]) := testerSlices[x]]);
        BindFromKeeps(routeSlices, testerSlices, x + 1, st');
        var p := BindFrom(routeSlices, testerSlices, x, st).params;
        forall key | key in st.params &&
          (forall y :: x <= y && Binds(routeSlices, testerSlices, y) ==> NameOf(routeSlices[y]) != key)
          ensures key in p && p[key] == st.params[key]
        {
          assert NameOf(routeSlices[x]) != key;
        }
      } else {
        BindFromKeeps(routeSlices, testerSlices, x + 1, st);
      }
    }
  }

  /** `BindFromKeeps` for one key. */
  lemma BindFromKeepsKey(routeSlices: seq<string>, testerSlices: seq<string>, x: nat, st: ScanState, key: string)
    requires key in st.params
    requires forall y :: x <= y && Binds(routeSlices, testerSlices, y) ==> NameOf(routeSlices[y]) != key
    ensures var p := BindFrom(routeSlices, testerSlices, x, st).params;
      key in p && p[key] == st.params[key]
  {
    BindFromKeeps(routeSlices, testerSlices, x, st);
  }

  /** A dynamic attempt binds each `:name` slice that has a hash slice at its
      position to that hash slice (the last such slice wins for a repeated
      name), and keeps every binding left by earlier attempts that it does not
      overwrite: `params` leaks from route to route. A static attempt changes
      nothing. */
  lemma TryRouteParams(path: string, hashParams: string, st: ScanState)
    ensures !IsDynamic(path) ==> TryRoute(path, hashParams, st) == st
    ensures IsDynamic(path) ==>
      var rs := Split(path, '/');
      var ts := Split(hashParams, '/');
      var p := TryRoute(path, hashParams, st).params;
      && (forall y :: LastBinding(rs, ts, y) ==> NameOf(rs[y]) in p && p[NameOf(rs[y])] == ts[y])
      && (forall key :: key in p <==> key in st.params || exists y :: Binds(rs, ts, y) && NameOf(rs[y]) == key)
      && (forall key :: (key in st.params && forall y :: Binds(rs, ts, y) ==> NameOf(rs[y]) != key) ==>
            p[key] == st.params[key])
  {
    if IsDynamic(path) {
      var rs, ts := Split(path, '/'), Split(hashParams, '/');
      var st0 := ScanState(hashParams, st.params);
      assert TryRoute(path, hashParams, st) == BindFrom(rs, ts, 0, st0);
      BindFromBindsLast(rs, ts, 0, st0);
      BindFromKeys(rs, ts, 0, st0);
      BindFromKeeps(rs, ts, 0, st0);
    }
  }

  /** The inner `for (x = ...)` loop of lines 195-200 over the slices of one
      dynamic route, starting from `tester = hashParams`. */
  method BindSlices(routeSlices: seq<string>, testerSlices: seq<string>, hashParams: string, params0: map<string, string>)
    returns (tester: string, params: map<string, string>)
    ensures ScanState(tester, params) == BindFrom(routeSlices, testerSlices, 0, ScanState(hashParams, params0))
  {
    tester, params := hashParams, params0;
    var x := 0;
    while x < |routeSlices|
      invariant 0 <= x <= |routeSlices|
      invariant BindFrom(routeSlices, testerSlices, x, ScanState(tester, params)) ==
        BindFrom(routeSlices, testerSlices, 0, ScanState(hashParams, params0))
    {
      if x < |testerSlices| && IsParamSlice(routeSlices[x]) {
        params := params[NameOf(routeSlices[x]) := testerSlices[x]];
        tester := ReplaceFirst(tester, testerSlices[x], routeSlices[x]);
      }
      x := x + 1;
    }
  }

  /** The two loops of lines 190-209 over the registered paths. */
  method ScanRoutes(paths: seq<string>, hashParams: string) returns (found: Option<nat>, tester: string, params: map<string, string>)
    ensures ScanResult(found, ScanState(tester, params)) == Scan(paths, hashParams)
  {
    var testerSlices := Split(hashParams, '/');
    tester := hashParams;
    params := map[];
    var i := 0;
    while i < |paths|
      invariant 0 <= i <= |paths|
      invariant ScanFrom(paths, hashParams, i, ScanState(tester, params)) == Scan(paths, hashParams)
    {
      var path := paths[i];
      ghost var before := ScanState(tester, params);
      if IsDynamic(path) {
        tester, params := BindSlices(Split(path, '/'), testerSlices, hashParams, params);
      }
      assert ScanState(tester, params) == TryRoute(path, hashParams, before);
      if path == tester {
        return Some(i), tester, params;
      }
      i := i + 1;
    }
    return None, tester, params;
  }
}
