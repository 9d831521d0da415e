/**
  Splitting a location hash into its path part and its query part
  (`Router.__cleanHash`), the trailing-slash normalisation that goes with it,
  and the token list handed to the not-found callback (`Router.__hashToArray`).
 */
module HashParser {
  import opened Strings

  /** The record `__cleanHash` returns. `rewritten` says whether the source
      would write `hash` back to `window.location.hash`. */
  datatype CleanHashResult = CleanHashResult(
    hash: string,
    hashParams: string,
    hashQuery: string,
    hashQueryArray: seq<string>,
    rewritten: bool)

  /** `query` preceded by `?`, or nothing when `query` is empty. */
  function QuerySuffix(query: string): string
  {
    if query != "" then "?" + query else ""
  }

  /** The text before the first `?`, or the whole hash when there is none. */
  function PathPart(hash: string): string
  {
    var q := IndexOf(hash, '?');
    if q >= 0 then hash[..q] else hash
  }

  /** The text after the first `?`, or `""` when there is none. */
  function QueryPart(hash: string): string
  {
    var q := IndexOf(hash, '?');
    if q >= 0 then hash[q + 1..] else ""
  }

  /** `hashQuery ? hashQuery.split('&') : []`. */
  function QueryArray(hashQuery: string): seq<string>
  {
    if hashQuery != "" then Split(hashQuery, '&') else []
  }

  /** `Router.__cleanHash(hash)`. Only `hash` is normalised: `hashParams` keeps
      its trailing slashes. */
  function CleanHash(hash: string): CleanHashResult
  {
    var hashParams := PathPart(hash);
    var hashQuery := QueryPart(hash);
    var cleaned := StripTrailing(hashParams, '/');
    if hashParams != cleaned then
      CleanHashResult(cleaned + QuerySuffix(hashQuery), hashParams, hashQuery, QueryArray(hashQuery), true)
    else
      CleanHashResult(hash, hashParams, hashQuery, QueryArray(hashQuery), false)
  }

  lemma PathAndQuery(hash: string)
    ensures '?' !in PathPart(hash)
    ensures '?' in hash ==> hash == PathPart(hash) + "?" + QueryPart(hash)
    ensures '?' !in hash ==> PathPart(hash) == hash && QueryPart(hash) == ""
  {
    var q := IndexOf(hash, '?');
    if q >= 0 {
      assert hash == hash[..q] + "?" + hash[q + 1..];
    }
  }

  lemma QueryArrayJoins(hashQuery: string)
    ensures QueryArray(hashQuery) == [] <==> hashQuery == ""
    ensures hashQuery != "" ==> Join(QueryArray(hashQuery), '&') == hashQuery
    ensures forall i :: 0 <= i < |QueryArray(hashQuery)| ==> '&' !in QueryArray(hashQuery)[i]
  {
    if hashQuery != "" {
      SplitJoin(hashQuery, '&');
    }
  }

  /** `hashParams` is the text before the first `?` and `hashQuery` the text
      after it; the query array is empty exactly when the query is, and joins
      back to it otherwise. */
  lemma CleanHashSplits(hash: string)
    ensures var r := CleanHash(hash);
      && '?' !in r.hashParams
      && ('?' in hash ==> hash == r.hashParams + "?" + r.hashQuery)
      && ('?' !in hash ==> r.hashParams == hash && r.hashQuery == "")
      && (r.hashQueryArray == [] <==> r.hashQuery == "")
      && (r.hashQuery != "" ==> Join(r.hashQueryArray, '&') == r.hashQuery)
      && (forall i :: 0 <= i < |r.hashQueryArray| ==> '&' !in r.hashQueryArray[i])
  {
    PathAndQuery(hash);
    QueryArrayJoins(QueryPart(hash));
  }

  /** A `?`-free path followed by the suffix of a query parses back into that
      path and that query. */
  lemma CleanHashOfJoined(path: string, query: string)
    requires '?' !in path
    ensures PathPart(path + QuerySuffix(query)) == path
    ensures QueryPart(path + QuerySuffix(query)) == query
  {
    if query != "" {
      JoinedAtMark(path, query);
    } else {
      assert path + QuerySuffix(query) == path;
    }
  }

  /** In `path + "?" + query` the first `?` is the one after `path`. */
  lemma JoinedAtMark(path: string, query: string)
    requires '?' !in path && query != ""
    ensures var h := path + QuerySuffix(query);
      && IndexOf(h, '?') == |path|
      && h[..|path|] == path && h[|path| + 1..] == query
  {
    var suffix := QuerySuffix(query);
    assert suffix == ['?'] + query;
    IndexOfAppend(path, suffix, '?');
    assert IndexOf(suffix, '?') == 0;
    var h := path + suffix;
    assert h[..|path|] == path;
    assert h[|path| + 1..] == suffix[1..];
  }

  /** The hash is rewritten exactly when its path part ends in `/`; otherwise
      it is returned as given. */
  lemma CleanHashRewritesTrailingSlash(hash: string)
    ensures var r := CleanHash(hash);
      && (r.rewritten <==> r.hashParams != [] && r.hashParams[|r.hashParams| - 1] == '/')
      && (!r.rewritten ==> r.hash == hash)
  {
    var p := PathPart(hash);
    var cleaned := StripTrailing(p, '/');
    if p != [] && p[|p| - 1] == '/' {
      assert cleaned != p;
    }
  }

  /** A hash made of a `?`-free path without trailing `/` and a query is
      parsed back into exactly that path and query, and is not rewritten. */
  lemma CleanHashOfClean(path: string, query: string)
    requires '?' !in path
    requires path == [] || path[|path| - 1] != '/'
    ensures var h := path + QuerySuffix(query);
      CleanHash(h) == CleanHashResult(h, path, query, QueryArray(query), false)
  {
    CleanHashOfJoined(path, query);
  }

  /** A rewritten hash has the same query as the input, and its path part is
      `hashParams` without its trailing slashes; parsing it again asks for no
      further rewrite. */
  lemma CleanHashRewriteIsStable(hash: string)
    requires CleanHash(hash).rewritten
    ensures var r := CleanHash(hash);
      var again := CleanHash(r.hash);
      && again.hashParams < r.hashParams
      && (again.hashParams == [] || again.hashParams[|again.hashParams| - 1] != '/')
      && (forall i :: |again.hashParams| <= i < |r.hashParams| ==> r.hashParams[i] == '/')
      && again.hashQuery == r.hashQuery
      && r.hash == again.hashParams + QuerySuffix(r.hashQuery)
      && !again.rewritten
  {
    var p := PathPart(hash);
    var q := QueryPart(hash);
    var cleaned := StripTrailing(p, '/');
    assert '?' !in cleaned by {
      PathAndQuery(hash);
      assert forall i :: 0 <= i < |cleaned| ==> cleaned[i] == p[i];
    }
    RewrittenHash(hash);
    CleanHashOfClean(cleaned, q);
  }

  /** The hash a rewrite produces: the stripped path part and the same query. */
  lemma RewrittenHash(hash: string)
    requires CleanHash(hash).rewritten
    ensures var r := CleanHash(hash);
      && r.hash == StripTrailing(PathPart(hash), '/') + QuerySuffix(QueryPart(hash))
      && r.hashParams == PathPart(hash) && r.hashQuery == QueryPart(hash)
  {
  }

  /** `Router.__hashToArray(hash)`: the `/`-split of `hash`, with the first
      token dropped when it is exactly `#`. */
  function HashToArray(hash: string): seq<string>
  {
    var tokens := Split(hash, '/');
    if |tokens| > 0 && tokens[0] == "#" then tokens[1..] else tokens
  }

  /** The first `/`-token is `#` exactly when the hash is `#` or starts with `#/`. */
  lemma FirstTokenIsHash(hash: string)
    ensures Split(hash, '/')[0] == "#" <==> hash == "#" || (|hash| >= 2 && hash[..2] == "#/")
  {
    var k := IndexOf(hash, '/');
    if k < 0 {
      SplitNone(hash, '/');
      NoSlashNoPrefix(hash);
    } else {
      SplitAtFirst(hash, '/');
      FirstTokenBeforeSlash(hash, k);
    }
  }

  lemma NoSlashNoPrefix(hash: string)
    requires '/' !in hash
    ensures !(|hash| >= 2 && hash[..2] == "#/")
  {
    assert |hash| >= 2 ==> hash[1] in hash;
  }

  lemma FirstTokenBeforeSlash(hash: string, k: nat)
    requires k < |hash| && hash[k] == '/' && '/' !in hash[..k]
    ensures hash != "#"
    ensures hash[..k] == "#" <==> |hash| >= 2 && hash[..2] == "#/"
  {
    assert forall i :: 0 <= i < k ==> hash[..k][i] == hash[i];
    if |hash| >= 2 && hash[..2] == "#/" {
      assert hash[0] == '#' && hash[1] == '/';
    }
    if hash[..k] == "#" {
      assert hash[..2] == hash[..k] + [hash[k]];
    }
  }

  /** The tokens are `/`-free, there is one per `/` (one more when the hash
      does not start with `#/`, none for `#`), and they join back to the hash,
      less a leading `#/`. */
  lemma HashToArrayRoundTrip(hash: string)
    ensures var r := HashToArray(hash);
      && (forall i :: 0 <= i < |r| ==> '/' !in r[i])
      && |r| == Count('/', hash) + (if hash == "#" || (|hash| >= 2 && hash[..2] == "#/") then 0 else 1)
      && (hash == "#" ==> r == [])
      && (|hash| >= 2 && hash[..2] == "#/" ==> "#/" + Join(r, '/') == hash)
      && (hash != "#" && !(|hash| >= 2 && hash[..2] == "#/") ==> Join(r, '/') == hash)
  {
    FirstTokenIsHash(hash);
    if hash == "#" {
      SplitNone(hash, '/');
    } else if |hash| >= 2 && hash[..2] == "#/" {
      var rest := hash[2..];
      assert hash == "#" + ['/'] + rest;
      SplitCons("#", rest, '/');
      SplitJoin(rest, '/');
    } else {
      SplitJoin(hash, '/');
    }
  }

  /** The hash `__listener` substitutes for `""` and `#` has one empty token. */
  lemma DefaultHashTokens()
    ensures HashToArray("#/") == [""]
  {
    HashToArrayRoundTrip("#/");
  }
}
