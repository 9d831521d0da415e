/**
  Query-string parsing inside `Router.matchRoute`: every `&`-separated piece
  is split on each `=`; the first part is the key, the second part (decoded)
  the value. `decodeURIComponent` is a parameter here: `None` stands for the
  `URIError` it throws on a malformed escape, which aborts the whole match.
 */
module Query {
  import opened Wrappers
  import opened Strings

  /** `decodeURIComponent`: the decoded text, or `None` when it throws. */
  type Decoder = string -> Option<string>

  /** `keyValue[0]`: the text before the first `=`. */
  function KeyOf(piece: string): string
  {
    Split(piece, '=')[0]
  }

  /** `keyValue[1]`, with a missing second part read as `""`. */
  function RawValueOf(piece: string): string
  {
    var kv := Split(piece, '=');
    if |kv| >= 2 then kv[1] else ""
  }

  /** `keyValue[1] ? decodeURIComponent(keyValue[1]) : ''`. */
  function ValueOf(piece: string, decode: Decoder): Option<string>
  {
    var raw := RawValueOf(piece);
    if raw == "" then Some("") else decode(raw)
  }

  /** The key is the text before the first `=`, and the raw value the text
      between the first and the second `=`. */
  lemma KeyAndValueText(piece: string)
    ensures '=' !in KeyOf(piece) && '=' !in RawValueOf(piece)
    ensures IndexOf(piece, '=') < 0 ==> KeyOf(piece) == piece && RawValueOf(piece) == ""
    ensures IndexOf(piece, '=') >= 0 ==>
      var k := IndexOf(piece, '=');
      var rest := piece[k + 1..];
      && KeyOf(piece) == piece[..k]
      && RawValueOf(piece) == (if '=' in rest then rest[..IndexOf(rest, '=')] else rest)
  {
    SplitAtFirst(piece, '=');
    var k := IndexOf(piece, '=');
    if k >= 0 {
      SplitAtFirst(piece[k + 1..], '=');
    }
  }

  /** The `for (q = ...)` loop from piece `k` on, with `acc` the pieces
      `0..k` have produced; `None` when a decode throws. */
  function ParseFrom(pieces: seq<string>, decode: Decoder, k: nat, acc: map<string, string>): Option<map<string, string>>
    requires k <= |pieces|
    decreases |pieces| - k
  {
    if k == |pieces| then Some(acc)
    else
      var key := KeyOf(pieces[k]);
      if key == "" then ParseFrom(pieces, decode, k + 1, acc)
      else
        match ValueOf(pieces[k], decode)
        case None => None
        case Some(v) => ParseFrom(pieces, decode, k + 1, acc[key := v])
  }

  /** The query object `matchRoute` builds from `hashQueryArray`. */
  function ParseQuery(pieces: seq<string>, decode: Decoder): Option<map<string, string>>
  {
    ParseFrom(pieces, decode, 0, map[])
  }

  /** Piece `j` carries a non-empty key. */
  predicate Keyed(pieces: seq<string>, j: int)
  {
    0 <= j < |pieces| && KeyOf(pieces[j]) != ""
  }

  /** Piece `j` carries the non-empty key `key`. */
  predicate BindsKey(pieces: seq<string>, j: int, key: string)
  {
    Keyed(pieces, j) && KeyOf(pieces[j]) == key
  }

  /** Piece `j` carries a key, and decoding its value throws. */
  predicate Throws(pieces: seq<string>, decode: Decoder, j: int)
  {
    Keyed(pieces, j) && ValueOf(pieces[j], decode).None?
  }

  /** Piece `j` is the last one with its key. */
  predicate LastWithKey(pieces: seq<string>, j: int)
  {
    Keyed(pieces, j) && forall j' :: j < j' < |pieces| ==> !BindsKey(pieces, j', KeyOf(pieces[j]))
  }

  /** The accumulator after piece `k`, when piece `k` does not throw. */
  function Step(pieces: seq<string>, decode: Decoder, k: nat, acc: map<string, string>): map<string, string>
    requires k < |pieces| && !Throws(pieces, decode, k)
  {
    var key := KeyOf(pieces[k]);
    if key == "" then acc else acc[key := ValueOf(pieces[k], decode).value]
  }

  lemma ParseFromStep(pieces: seq<string>, decode: Decoder, k: nat, acc: map<string, string>)
    requires k < |pieces|
    ensures Throws(pieces, decode, k) ==> ParseFrom(pieces, decode, k, acc) == None
    ensures !Throws(pieces, decode, k) ==>
      ParseFrom(pieces, decode, k, acc) == ParseFrom(pieces, decode, k + 1, Step(pieces, decode, k, acc))
  {
  }

  lemma ThrowsShift(pieces: seq<string>, decode: Decoder, k: nat)
    requires !Throws(pieces, decode, k)
    ensures (exists j :: k <= j && Throws(pieces, decode, j)) <==> (exists j :: k + 1 <= j && Throws(pieces, decode, j))
  {
    if exists j :: k <= j && Throws(pieces, decode, j) {
      var j :| k <= j && Throws(pieces, decode, j);
      assert k + 1 <= j;
    }
  }

  lemma BindsKeyShift(pieces: seq<string>, k: nat, key: string)
    requires !BindsKey(pieces, k, key)
    ensures (exists j :: k <= j && BindsKey(pieces, j, key)) <==> (exists j :: k + 1 <= j && BindsKey(pieces, j, key))
  {
    if exists j :: k <= j && BindsKey(pieces, j, key) {
      var j :| k <= j && BindsKey(pieces, j, key);
      assert k + 1 <= j;
    }
  }

  lemma {:induction false} ParseFromThrows(pieces: seq<string>, decode: Decoder, k: nat, acc: map<string, string>)
    requires k <= |pieces|
    ensures ParseFrom(pieces, decode, k, acc).None? <==> exists j :: k <= j && Throws(pieces, decode, j)
    decreases |pieces| - k
  {
    if k < |pieces| {
      ParseFromStep(pieces, decode, k, acc);
      if !Throws(pieces, decode, k) {
        ParseFromThrows(pieces, decode, k + 1, Step(pieces, decode, k, acc));
        ThrowsShift(pieces, decode, k);
      }
    }
  }

  /** The keys of the result are those of `acc` and those of the keyed
      pieces from `k` on. */
  lemma {:induction false} ParseFromKeys(pieces: seq<string>, decode: Decoder, k: nat, acc: map<string, string>)
    requires k <= |pieces|
    requires ParseFrom(pieces, decode, k, acc).Some?
    ensures var m := ParseFrom(pieces, decode, k, acc).value;
      forall key :: key in m <==> key in acc || exists j :: k <= j && BindsKey(pieces, j, key)
    decreases |pieces| - k
  {
    if k < |pieces| {
      ParseFromStep(pieces, decode, k, acc);
      var acc' := Step(pieces, decode, k, acc);
      ParseFromKeys(pieces, decode, k + 1, acc');
      forall key | !BindsKey(pieces, k, key)
        ensures (exists j :: k <= j && BindsKey(pieces, j, key)) <==> (exists j :: k + 1 <= j && BindsKey(pieces, j, key))
        ensures key in acc' <==> key in acc
      {
        BindsKeyShift(pieces, k, key);
      }
    }
  }

  /** A binding of `acc` that no piece from `k` on overwrites survives. */
  lemma {:induction false} ParseFromKeeps(pieces: seq<string>, decode: Decoder, k: nat, acc: map<string, string>, key: string)
    requires k <= |pieces|
    requires ParseFrom(pieces, decode, k, acc).Some?
    requires key in acc
    requires forall j :: k <= j ==> !BindsKey(pieces, j, key)
    ensures var m := ParseFrom(pieces, decode, k, acc).value;
      key in m && m[key] == acc[key]
    decreases |pieces| - k
  {
    if k < |pieces| {
      ParseFromStep(pieces, decode, k, acc);
      assert !BindsKey(pieces, k, key);
      ParseFromKeeps(pieces, decode, k + 1, Step(pieces, decode, k, acc), key);
    }
  }

  /** The last piece with a key, from `k` on, decides that key's value. */
  lemma {:induction false} ParseFromLast(pieces: seq<string>, decode: Decoder, k: nat, acc: map<string, string>)
    requires k <= |pieces|
    requires ParseFrom(pieces, decode, k, acc).Some?
    ensures var m := ParseFrom(pieces, decode, k, acc).value;
      forall j :: k <= j && LastWithKey(pieces, j) ==>
        KeyOf(pieces[j]) in m && Some(m[KeyOf(pieces[j])]) == ValueOf(pieces[j], decode)
    decreases |pieces| - k
  {
    if k < |pieces| {
      ParseFromStep(pieces, decode, k, acc);
      var acc' := Step(pieces, decode, k, acc);
      var m := ParseFrom(pieces, decode, k, acc).value;
      forall j | k <= j && LastWithKey(pieces, j)
        ensures KeyOf(pieces[j]) in m && Some(m[KeyOf(pieces[j])]) == ValueOf(pieces[j], decode)
      {
        if j == k {
          ParseFromKeeps(pieces, decode, k + 1, acc', KeyOf(pieces[k]));
        } else {
          ParseFromLast(pieces, decode, k + 1, acc');
        }
      }
    }
  }

  /** Query parsing throws exactly when some keyed piece's value fails to
      decode. Otherwise the keys are exactly the non-empty keys of the pieces,
      and each is bound to the value of the LAST piece with that key: a later
      duplicate overwrites an earlier one. Pieces with an empty key are
      skipped. */
  lemma ParseQuerySpec(pieces: seq<string>, decode: Decoder)
    ensures ParseQuery(pieces, decode).None? <==> exists j :: Throws(pieces, decode, j)
    ensures ParseQuery(pieces, decode).Some? ==>
      var m := ParseQuery(pieces, decode).value;
      && (forall key :: key in m <==> exists j :: BindsKey(pieces, j, key))
      && (forall j :: LastWithKey(pieces, j) ==>
            KeyOf(pieces[j]) in m && Some(m[KeyOf(pieces[j])]) == ValueOf(pieces[j], decode))
  {
    ParseFromThrows(pieces, decode, 0, map[]);
    if ParseQuery(pieces, decode).Some? {
      ParseFromKeys(pieces, decode, 0, map[]);
      ParseFromLast(pieces, decode, 0, map[]);
    }
  }

  /** The loop of the source, lines 180-187: `query` gains one binding per
      keyed piece, in order. */
  method ParseQueryLoop(pieces: seq<string>, decode: Decoder) returns (query: Option<map<string, string>>)
    ensures query == ParseQuery(pieces, decode)
  {
    var acc: map<string, string> := map[];
    var q := 0;
    while q < |pieces|
      invariant 0 <= q <= |pieces|
      invariant ParseFrom(pieces, decode, q, acc) == ParseQuery(pieces, decode)
    {
      var keyValue := Split(pieces[q], '=');
      if |keyValue| >= 1 && keyValue[0] != "" {
        if |keyValue| >= 2 && keyValue[1] != "" {
          var decoded := decode(keyValue[1]);
          if decoded.None? {
            return None;
          }
          acc := acc[keyValue[0] := decoded.value];
        } else {
          acc := acc[keyValue[0] := ""];
        }
      }
      q := q + 1;
    }
    return Some(acc);
  }
}
