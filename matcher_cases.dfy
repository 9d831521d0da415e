/**
  Worked cases of the route scan, each stated for all literal segments,
  parameter names and values that meet its own conditions. In the matching
  cases (`OneParamAttempt`, `OneParamRouteMatches`) none of them contains `/`,
  and the value's first character is neither `#` nor `/` and does not occur
  in the literal segment. `#/user/:id` against `#/user/42` is one instance of
  `OneParamRouteMatches`. That last condition matters: `replace` substitutes
  the first occurrence of the hash segment's text, not the segment at its
  position, and `ReplaceHitsLiteral` shows a value that also occurs inside
  the literal segment defeating the match.
 */
module MatcherCases {
  import opened Wrappers
  import opened Strings
  import opened Matcher

  lemma SplitHash(lit: string, last: string)
    requires '/' !in lit && '/' !in last
    ensures Split("#/" + lit + "/" + last, '/') == ["#", lit, last]
  {
    assert "#/" + lit + "/" + last == "#" + ['/'] + (lit + ['/'] + last);
    assert '/' !in "#";
    SplitCons("#", lit + ['/'] + last, '/');
    SplitCons(lit, last, '/');
    SplitAtFirst(last, '/');
  }

  lemma ReplaceSuffix(prefix: string, v: string, rep: string)
    requires v != [] && v[0] !in prefix
    ensures ReplaceFirst(prefix + v, v, rep) == prefix + rep
  {
    ReplaceAfter(prefix, v, [], rep);
    assert prefix + v + [] == prefix + v && prefix + rep + [] == prefix + rep;
  }

  /** The inner loop over three pattern slices of which only the last is
      `:name`, against three hash slices. */
  lemma BindThirdOfThree(rs: seq<string>, ts: seq<string>, name: string, v: string, st: ScanState)
    requires |rs| == 3 && |ts| == 3
    requires !IsParamSlice(rs[0]) && !IsParamSlice(rs[1]) && rs[2] == ":" + name && ts[2] == v
    ensures BindFrom(rs, ts, 0, st) == ScanState(ReplaceFirst(st.tester, v, ":" + name), st.params[name := v])
  {
    var st' := ScanState(ReplaceFirst(st.tester, v, ":" + name), st.params[name := v]);
    assert NameOf(rs[2]) == name;
    assert !Binds(rs, ts, 0) && !Binds(rs, ts, 1) && Binds(rs, ts, 2);
    assert BindFrom(rs, ts, 0, st) == BindFrom(rs, ts, 1, st);
    assert BindFrom(rs, ts, 1, st) == BindFrom(rs, ts, 2, st);
    assert BindFrom(rs, ts, 2, st) == BindFrom(rs, ts, 3, st');
  }

  /** The inner loop over three pattern slices of which only the second is
      `:name`, against two hash slices. */
  lemma BindSecondOfThree(rs: seq<string>, ts: seq<string>, name: string, v: string, st: ScanState)
    requires |rs| == 3 && |ts| == 2
    requires !IsParamSlice(rs[0]) && rs[1] == ":" + name && ts[1] == v
    ensures BindFrom(rs, ts, 0, st) == ScanState(ReplaceFirst(st.tester, v, ":" + name), st.params[name := v])
  {
    var st' := ScanState(ReplaceFirst(st.tester, v, ":" + name), st.params[name := v]);
    assert NameOf(rs[1]) == name;
    assert !Binds(rs, ts, 0) && Binds(rs, ts, 1) && !Binds(rs, ts, 2);
    assert BindFrom(rs, ts, 0, st) == BindFrom(rs, ts, 1, st);
    assert BindFrom(rs, ts, 1, st) == BindFrom(rs, ts, 2, st');
    assert BindFrom(rs, ts, 2, st') == BindFrom(rs, ts, 3, st');
  }

  lemma OneParamSlices(lit: string, name: string, v: string)
    requires '/' !in lit && '/' !in name && '/' !in v && ':' !in lit
    ensures var path := "#/" + lit + "/:" + name;
      && Split(path, '/') == ["#", lit, ":" + name]
      && Split("#/" + lit + "/" + v, '/') == ["#", lit, v]
      && IsDynamic(path)
  {
    var path := "#/" + lit + "/:" + name;
    assert path == "#/" + lit + "/" + (":" + name);
    SplitHash(lit, v);
    SplitHash(lit, ":" + name);
    assert path[0] == '#' && path[|path| - |name| - 1] == ':';
  }

  /** Trying `#/lit/:name` against `#/lit/v` binds `name` to `v` (on top of
      whatever `params` already holds) and turns `tester` into the pattern. */
  lemma OneParamAttempt(lit: string, name: string, v: string, st: ScanState)
    requires '/' !in lit && '/' !in name && '/' !in v && ':' !in lit
    requires v != [] && v[0] != '#' && v[0] != '/' && v[0] !in lit
    ensures var path := "#/" + lit + "/:" + name;
      var hashParams := "#/" + lit + "/" + v;
      IsDynamic(path) && TryRoute(path, hashParams, st) == ScanState(path, st.params[name := v])
  {
    var path := "#/" + lit + "/:" + name;
    var hashParams := "#/" + lit + "/" + v;
    var prefix := "#/" + lit + "/";
    assert path == prefix + (":" + name);
    assert hashParams == prefix + v;
    OneParamSlices(lit, name, v);
    PrefixFree(lit, v);
    ReplaceSuffix(prefix, v, ":" + name);
    LastSliceAttempt(path, hashParams, name, v, st);
  }

  lemma PrefixFree(lit: string, v: string)
    requires v != [] && v[0] != '#' && v[0] != '/' && v[0] !in lit
    ensures v[0] !in "#/" + lit + "/"
  {
  }

  /** A dynamic attempt whose only parameter slice is the last of three,
      and whose replacement turns the hash into the pattern. */
  lemma LastSliceAttempt(path: string, hashParams: string, name: string, v: string, st: ScanState)
    requires IsDynamic(path)
    requires |Split(path, '/')| == 3 && |Split(hashParams, '/')| == 3
    requires !IsParamSlice(Split(path, '/')[0]) && !IsParamSlice(Split(path, '/')[1])
    requires Split(path, '/')[2] == ":" + name && Split(hashParams, '/')[2] == v
    requires ReplaceFirst(hashParams, v, ":" + name) == path
    ensures TryRoute(path, hashParams, st) == ScanState(path, st.params[name := v])
  {
    BindThirdOfThree(Split(path, '/'), Split(hashParams, '/'), name, v, ScanState(hashParams, st.params));
  }

  /** `#/lit/:name` registered first matches `#/lit/v` with `params` binding
      `name` to `v`, whatever is registered after it (for instance
      `#/item/new` after `#/item/:id`): registration order, not specificity,
      decides. */
  lemma OneParamRouteMatches(lit: string, name: string, v: string, later: seq<string>)
    requires '/' !in lit && '/' !in name && '/' !in v && ':' !in lit
    requires v != [] && v[0] != '#' && v[0] != '/' && v[0] !in lit
    ensures var path := "#/" + lit + "/:" + name;
      Scan([path] + later, "#/" + lit + "/" + v) == ScanResult(Some(0), ScanState(path, map[name := v]))
  {
    var path := "#/" + lit + "/:" + name;
    OneParamAttempt(lit, name, v, Initial("#/" + lit + "/" + v));
    assert ([path] + later)[0] == path;
  }

  /** A failed dynamic attempt leaves its substitutions in `tester`, and a
      static route tried next is compared with that, not with the hash: the
      static route `#/v`, registered after `#/:name/tail`, is never matched by
      the hash `#/v` although its path equals it. */
  lemma StaticRouteShadowed(name: string, tail: string, v: string)
    requires '/' !in name && '/' !in tail && '/' !in v && ':' !in v
    requires v != [] && v[0] != '#'
    ensures var dynamic := "#/:" + name + "/" + tail;
      var plain := "#/" + v;
      && Scan([plain], plain).found == Some(0)
      && Scan([dynamic, plain], plain) == ScanResult(None, ScanState("#/:" + name, map[name := v]))
  {
    var dynamic := "#/:" + name + "/" + tail;
    var plain := "#/" + v;
    assert !IsDynamic(plain) by {
      assert ':' !in plain;
    }
    ScanStatic([plain], plain);
    var st1 := ScanState("#/:" + name, map[name := v]);
    assert TryRoute(dynamic, plain, Initial(plain)) == st1 by {
      ShadowingAttempt(name, tail, v);
    }
    assert dynamic != st1.tester by {
      assert |dynamic| > |st1.tester|;
    }
    assert plain != st1.tester by {
      assert plain[2] == v[0] && st1.tester[2] == ':';
    }
    var paths := [dynamic, plain];
    assert ScanFrom(paths, plain, 0, Initial(plain)) == ScanFrom(paths, plain, 1, st1);
    assert TryRoute(plain, plain, st1) == st1;
    assert ScanFrom(paths, plain, 1, st1) == ScanFrom(paths, plain, 2, st1);
  }

  lemma PatternSlices(name: string, tail: string)
    requires '/' !in name && '/' !in tail
    ensures Split("#/:" + name + "/" + tail, '/') == ["#", ":" + name, tail]
  {
    assert "#/:" + name + "/" + tail == "#/" + (":" + name) + "/" + tail;
    SplitHash(":" + name, tail);
  }

  lemma PatternIsDynamic(name: string, tail: string)
    ensures IsDynamic("#/:" + name + "/" + tail)
  {
    assert ("#/:" + name + "/" + tail)[2] == ':';
  }

  lemma HashSlices(v: string)
    requires '/' !in v
    ensures Split("#/" + v, '/') == ["#", v]
  {
    assert "#/" + v == "#" + ['/'] + v;
    SplitCons("#", v, '/');
    SplitNone(v, '/');
  }

  /** A dynamic attempt whose only parameter slice is the second of three,
      against a hash of two slices. */
  lemma SecondSliceAttempt(path: string, hashParams: string, name: string, v: string, st: ScanState)
    requires IsDynamic(path)
    requires |Split(path, '/')| == 3 && |Split(hashParams, '/')| == 2
    requires !IsParamSlice(Split(path, '/')[0])
    requires Split(path, '/')[1] == ":" + name && Split(hashParams, '/')[1] == v
    ensures TryRoute(path, hashParams, st) ==
      ScanState(ReplaceFirst(hashParams, v, ":" + name), st.params[name := v])
  {
    BindSecondOfThree(Split(path, '/'), Split(hashParams, '/'), name, v, ScanState(hashParams, st.params));
  }

  lemma FirstSegmentReplaced(name: string, v: string)
    requires v != [] && v[0] != '#' && v[0] != '/'
    ensures ReplaceFirst("#/" + v, v, ":" + name) == "#/:" + name
  {
    ReplaceSuffix("#/", v, ":" + name);
  }

  lemma ShadowingAttempt(name: string, tail: string, v: string)
    requires '/' !in name && '/' !in tail && '/' !in v
    requires v != [] && v[0] != '#'
    ensures TryRoute("#/:" + name + "/" + tail, "#/" + v, Initial("#/" + v)) == ScanState("#/:" + name, map[name := v])
  {
    var dynamic := "#/:" + name + "/" + tail;
    var plain := "#/" + v;
    PatternSlices(name, tail);
    HashSlices(v);
    PatternIsDynamic(name, tail);
    SecondSliceAttempt(dynamic, plain, name, v, Initial(plain));
    FirstSegmentReplaced(name, v);
  }

  /** A single route whose attempt leaves a `tester` other than its path
      does not match. */
  lemma SingleRouteFails(path: string, hashParams: string, st: ScanState)
    requires TryRoute(path, hashParams, Initial(hashParams)) == st && path != st.tester
    ensures Scan([path], hashParams) == ScanResult(None, st)
  {
    assert ScanFrom([path], hashParams, 1, st) == ScanResult(None, st);
  }

  lemma ReplaceAfter(prefix: string, v: string, rest: string, rep: string)
    requires v != [] && v[0] !in prefix
    ensures ReplaceFirst(prefix + v + rest, v, rep) == prefix + rep + rest
  {
    var s := prefix + v + rest;
    assert OccursAt(s, v, |prefix|) by { assert s[|prefix|..|prefix| + |v|] == v; }
    assert s[..|prefix|] == prefix;
    ReplaceFirstAt(s, v, rep, |prefix|);
    assert s[|prefix| + |v|..] == rest;
  }

  lemma HashPrefixFree(a: string, v: string)
    requires v != [] && v[0] != '#' && v[0] != '/' && v[0] !in a
    ensures v[0] !in "#/" + a
  {
  }

  lemma RegroupHash(x: string, a: string, v: string, b: string, y: string)
    ensures x + (a + v + b) + y + v == (x + a) + v + (b + y + v)
  {
  }

  lemma RegroupTester(x: string, a: string, c: string, n: string, b: string, y: string, v: string)
    ensures (x + a) + (c + n) + (b + y + v) == x + a + c + n + b + y + v
  {
  }

  /** The replacement for `:name` lands on the copy of `v` inside the literal
      segment `a + v + b`, which comes first. */
  lemma ReplaceInLiteral(a: string, v: string, b: string, name: string)
    requires v != [] && v[0] != '#' && v[0] != '/' && v[0] !in a
    ensures ReplaceFirst("#/" + (a + v + b) + "/" + v, v, ":" + name) == "#/" + a + ":" + name + b + "/" + v
  {
    HashPrefixFree(a, v);
    ReplaceAfter("#/" + a, v, b + "/" + v, ":" + name);
    RegroupHash("#/", a, v, b, "/");
    RegroupTester("#/", a, ":", name, b, "/", v);
  }

  /** `replace` substitutes the first occurrence of the hash segment's text,
      not the segment at its position (line 198): when the value `v` also
      occurs inside the literal segment, `#/lit/:name` does not match
      `#/lit/v`, although `name` is bound to `v`. For instance `#/a42/:id`
      against `#/a42/42` leaves `tester` at `#/a:id/42`. */
  lemma ReplaceHitsLiteral(a: string, v: string, b: string, name: string)
    requires '/' !in a + v + b && '/' !in name && ':' !in a + v + b
    requires v != [] && v[0] != '#' && v[0] !in a
    ensures var lit := a + v + b;
      Scan(["#/" + lit + "/:" + name], "#/" + lit + "/" + v) ==
        ScanResult(None, ScanState("#/" + a + ":" + name + b + "/" + v, map[name := v]))
  {
    var lit := a + v + b;
    var path := "#/" + lit + "/:" + name;
    var hashParams := "#/" + lit + "/" + v;
    var tester := "#/" + a + ":" + name + b + "/" + v;
    assert v[0] in a + v + b;
    OneParamSlices(lit, name, v);
    ReplaceInLiteral(a, v, b, name);
    var st := ScanState(tester, map[name := v]);
    assert TryRoute(path, hashParams, Initial(hashParams)) == st by {
      BindThirdOfThree(Split(path, '/'), Split(hashParams, '/'), name, v, Initial(hashParams));
    }
    assert path != tester by {
      assert path[2 + |a|] == v[0] && tester[2 + |a|] == ':';
    }
    SingleRouteFails(path, hashParams, st);
  }
}
