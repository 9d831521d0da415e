/**
  The JavaScript string operations the router relies on, over `seq<char>`:
  `indexOf` of a character and of a substring, `split` on a one-character
  separator, `join`, `replace` of the first occurrence of a plain string, and
  the regular-expression replace that strips trailing separators.
 */
module Strings {

  /** Number of occurrences of `c` in `s`. */
  function Count(c: char, s: string): (n: nat)
    ensures n <= |s|
    ensures n == 0 <==> c !in s
  {
    if s == [] then 0 else (if s[0] == c then 1 else 0) + Count(c, s[1..])
  }

  lemma {:induction false} CountAppend(c: char, a: string, b: string)
    ensures Count(c, a + b) == Count(c, a) + Count(c, b)
  {
    if a == [] {
      assert a + b == b;
    } else {
      assert (a + b)[1..] == a[1..] + b;
      CountAppend(c, a[1..], b);
    }
  }

  /** `s.indexOf(c)`: the first index of `c` in `s`, or -1. */
  function IndexOf(s: string, c: char): (r: int)
    ensures -1 <= r < |s|
    ensures r == -1 <==> c !in s
    ensures r >= 0 ==> s[r] == c && c !in s[..r]
  {
    if s == [] then -1
    else if s[0] == c then 0
    else
      var k := IndexOf(s[1..], c);
      assert k >= 0 ==> s[..k + 1] == [s[0]] + s[1..][..k];
      if k < 0 then -1 else k + 1
  }

  /** `s.split(c)` for a one-character separator `c`: never empty, `"".split(c)` is `[""]`. */
  function Split(s: string, c: char): (r: seq<string>)
    ensures |r| == Count(c, s) + 1
    ensures forall i :: 0 <= i < |r| ==> c !in r[i]
  {
    if s == [] then [""]
    else if s[0] == c then [""] + Split(s[1..], c)
    else
      var rest := Split(s[1..], c);
      [[s[0]] + rest[0]] + rest[1..]
  }

  /** `parts.join(c)`. */
  function Join(parts: seq<string>, c: char): string
  {
    if parts == [] then ""
    else if |parts| == 1 then parts[0]
    else parts[0] + [c] + Join(parts[1..], c)
  }

  lemma JoinConsHead(x: char, parts: seq<string>, c: char)
    requires parts != []
    ensures Join([[x] + parts[0]] + parts[1..], c) == [x] + Join(parts, c)
  {
    var p := [[x] + parts[0]] + parts[1..];
    assert p[1..] == parts[1..];
  }

  /** Splitting and joining again on the same separator gives back the input. */
  lemma {:induction false} SplitJoin(s: string, c: char)
    ensures Join(Split(s, c), c) == s
  {
    if s != [] {
      var rest := Split(s[1..], c);
      SplitJoin(s[1..], c);
      if s[0] == c {
        assert ([""] + rest)[1..] == rest;
      } else {
        JoinConsHead(s[0], rest, c);
      }
    }
  }

  /** A text without the separator splits into itself. */
  lemma {:induction false} SplitNone(s: string, c: char)
    requires c !in s
    ensures Split(s, c) == [s]
  {
    if s != [] {
      SplitNone(s[1..], c);
      assert [s[0]] + s[1..] == s;
    }
  }

  /** A character other than the separator joins the first piece. */
  lemma SplitConsHead(x: char, t: string, c: char)
    requires x != c
    ensures Split([x] + t, c) == [[x] + Split(t, c)[0]] + Split(t, c)[1..]
  {
    assert ([x] + t)[1..] == t;
  }

  /** Splitting a text at a first separator: the text before it is the first
      piece, and the rest is the split of the text after it. */
  lemma {:induction false} SplitCons(a: string, b: string, c: char)
    requires c !in a
    ensures Split(a + [c] + b, c) == [a] + Split(b, c)
  {
    if a == [] {
      assert a + [c] + b == [c] + b && ([c] + b)[1..] == b;
    } else {
      var t := a[1..] + [c] + b;
      SplitCons(a[1..], b, c);
      SplitConsHead(a[0], t, c);
      assert a + [c] + b == [a[0]] + t by {
        assert a == [a[0]] + a[1..];
      }
      assert [a[0]] + a[1..] == a;
    }
  }

  /** The first piece of a split is the text before the first separator; the
      remaining pieces are the split of the text after it. */
  lemma SplitAtFirst(s: string, c: char)
    ensures IndexOf(s, c) < 0 ==> Split(s, c) == [s]
    ensures IndexOf(s, c) >= 0 ==>
      Split(s, c)[0] == s[..IndexOf(s, c)] && Split(s, c)[1..] == Split(s[IndexOf(s, c) + 1..], c)
  {
    var k := IndexOf(s, c);
    if k < 0 {
      SplitNone(s, c);
    } else {
      SplitAt(s, c, k);
    }
  }

  /** Splitting at a separator at `k` with none before it. */
  lemma SplitAt(s: string, c: char, k: nat)
    requires k < |s| && s[k] == c && c !in s[..k]
    ensures Split(s, c) == [s[..k]] + Split(s[k + 1..], c)
  {
    var a, b := s[..k], s[k + 1..];
    assert s == a + [c] + b;
    SplitCons(a, b, c);
  }

  lemma {:induction false} IndexOfAppend(a: string, b: string, c: char)
    requires c !in a
    ensures IndexOf(a + b, c) == if c in b then |a| + IndexOf(b, c) else -1
  {
    if a == [] {
      assert a + b == b;
    } else {
      assert (a + b)[1..] == a[1..] + b;
      IndexOfAppend(a[1..], b, c);
    }
  }

  /** `pat` occurs in `s` starting at index `k`. */
  predicate OccursAt(s: string, pat: string, k: int)
  {
    0 <= k && k + |pat| <= |s| && s[k..k + |pat|] == pat
  }

  /** `s.indexOf(pat, from)`: the first index at or after `from` where `pat` occurs, or -1. */
  function IndexOfSub(s: string, pat: string, from: nat): (r: int)
    ensures r == -1 || (from <= r && OccursAt(s, pat, r))
    ensures forall k :: from <= k && (r == -1 || k < r) ==> !OccursAt(s, pat, k)
    decreases |s| - from
  {
    if from + |pat| > |s| then -1
    else if OccursAt(s, pat, from) then from
    else IndexOfSub(s, pat, from + 1)
  }

  /** `s.replace(pat, rep)` with a plain-string pattern: only the first
      occurrence is replaced; an empty pattern inserts `rep` at the front. */
  function ReplaceFirst(s: string, pat: string, rep: string): string
  {
    var k := IndexOfSub(s, pat, 0);
    if k < 0 then s else s[..k] + rep + s[k + |pat|..]
  }

  /** When `pat` occurs at `k` and its first character does not occur
      before `k`, the first occurrence is the one at `k`. */
  lemma ReplaceFirstAt(s: string, pat: string, rep: string, k: nat)
    requires pat != [] && OccursAt(s, pat, k) && pat[0] !in s[..k]
    ensures ReplaceFirst(s, pat, rep) == s[..k] + rep + s[k + |pat|..]
  {
    forall j | 0 <= j < k
      ensures !OccursAt(s, pat, j)
    {
      assert s[..k][j] == s[j];
    }
    assert IndexOfSub(s, pat, 0) == k;
  }

  /** Replacing a text free of `c` by another text free of `c` keeps the number of `c`s. */
  lemma ReplaceFirstKeepsCount(c: char, s: string, pat: string, rep: string)
    requires c !in pat && c !in rep
    ensures Count(c, ReplaceFirst(s, pat, rep)) == Count(c, s)
  {
    var k := IndexOfSub(s, pat, 0);
    if k >= 0 {
      assert s == s[..k] + pat + s[k + |pat|..];
      CountAppend(c, s[..k] + pat, s[k + |pat|..]);
      CountAppend(c, s[..k], pat);
      CountAppend(c, s[..k] + rep, s[k + |pat|..]);
      CountAppend(c, s[..k], rep);
    }
  }

  /** `s.replace(/c+$/, '')`: `s` with every trailing `c` removed. */
  function StripTrailing(s: string, c: char): (r: string)
    ensures r <= s
    ensures r == [] || r[|r| - 1] != c
    ensures forall i :: |r| <= i < |s| ==> s[i] == c
  {
    if s != [] && s[|s| - 1] == c then StripTrailing(s[..|s| - 1], c) else s
  }
}
