/** The canonical query string of AWS request signing, on byte strings: characters below 256. */
module AwsQuery {
  import opened Sorting
  import opened StringOrder

  /** A Go string: bytes. */
  predicate IsBytes(s: string) { forall i :: 0 <= i < |s| ==> s[i] as int < 256 }

  type Query = map<string, seq<string>>

  predicate ByteQuery(q: Query) {
    forall k :: k in q ==> IsBytes(k) && forall i :: 0 <= i < |q[k]| ==> IsBytes(q[k][i])
  }

  datatype Option<T> = None | Some(value: T)

  predicate Unreserved(c: char) {
    'A' <= c <= 'Z' || 'a' <= c <= 'z' || '0' <= c <= '9' || c == '-' || c == '.' || c == '_' || c == '~'
  }

  function HexDigit(n: nat): char
    requires n < 16
  {
    if n < 10 then ('0' as int + n) as char else ('A' as int + (n - 10)) as char
  }

  function EncodeChar(c: char, encodeSlash: bool): string
    requires c as int < 256
  {
    if Unreserved(c) || (c == '/' && !encodeSlash) then [c]
    else ['%', HexDigit(c as int / 16), HexDigit(c as int % 16)]
  }

  function Encoded(s: string, encodeSlash: bool): string
    requires IsBytes(s)
  {
    if s == "" then "" else EncodeChar(s[0], encodeSlash) + Encoded(s[1..], encodeSlash)
  }

  lemma {:induction false} EncodedConcat(a: string, b: string, encodeSlash: bool)
    requires IsBytes(a) && IsBytes(b)
    ensures Encoded(a + b, encodeSlash) == Encoded(a, encodeSlash) + Encoded(b, encodeSlash)
  {
    if a == "" {
      assert a + b == b;
    } else {
      assert (a + b)[1..] == a[1..] + b;
      EncodedConcat(a[1..], b, encodeSlash);
    }
  }

  method UriEncode(s: string, encodeSlash: bool) returns (r: string)
    requires IsBytes(s)
    ensures r == Encoded(s, encodeSlash)
  {
    r := "";
    for i := 0 to |s|
      invariant r == Encoded(s[..i], encodeSlash)
    {
      var c := s[i];
      assert s[..i + 1] == s[..i] + [c];
      EncodedConcat(s[..i], [c], encodeSlash);
      assert Encoded([c], encodeSlash) == EncodeChar(c, encodeSlash) + Encoded([c][1..], encodeSlash);
      if 'A' <= c <= 'Z' || 'a' <= c <= 'z' || '0' <= c <= '9' || c == '-' || c == '.' || c == '_' || c == '~'
         || (c == '/' && !encodeSlash) {
        r := r + [c];
        continue;
      }
      r := r + ['%', HexDigit(c as int / 16), HexDigit(c as int % 16)];
    }
    assert s[..|s|] == s;
  }

  // ---- the query string --------------------------------------------------------------------------------

  datatype Pair = Pair(key: string, value: string)

  predicate BytePairs(pairs: seq<Pair>) { forall i :: 0 <= i < |pairs| ==> IsBytes(pairs[i].key) && IsBytes(pairs[i].value) }

  function Part(p: Pair): string
    requires IsBytes(p.key) && IsBytes(p.value)
  { Encoded(p.key, true) + "=" + Encoded(p.value, true) }

  function Parts(pairs: seq<Pair>): seq<string>
    requires BytePairs(pairs)
  { seq(|pairs|, i requires 0 <= i < |pairs| => Part(pairs[i])) }

  function Join(parts: seq<string>): string {
    if parts == [] then ""
    else if |parts| == 1 then parts[0]
    else parts[0] + "&" + Join(parts[1..])
  }

  function PairsOf(key: string, values: seq<string>): seq<Pair> {
    seq(|values|, i requires 0 <= i < |values| => Pair(key, values[i]))
  }

  /** The pairs of the first n keys, each key's values in their own order. */
  function Pairs(keys: seq<string>, q: Query, n: nat): (r: seq<Pair>)
    requires ByteQuery(q) && KeysIn(keys, q) && n <= |keys|
    ensures BytePairs(r)
  {
    if n == 0 then [] else Pairs(keys, q, n - 1) + PairsOf(keys[n - 1], q[keys[n - 1]])
  }

  ghost predicate KeysIn(keys: seq<string>, q: Query) { forall i :: 0 <= i < |keys| ==> keys[i] in q }

  /** The query's keys in ascending order; there is only one such list. */
  ghost predicate SortedKeys(keys: seq<string>, q: Query) {
    Ascending(StrLess, keys) && KeysIn(keys, q) && forall k :: k in q ==> k in keys
  }

  ghost function QueryString(keys: seq<string>, q: Query): string
    requires ByteQuery(q) && KeysIn(keys, q)
  {
    Join(Parts(Pairs(keys, q, |keys|)))
  }

  /** The query string for the keys in that order. */
  ghost predicate Encodes(r: string, q: Query)
    requires ByteQuery(q)
  {
    exists keys: seq<string> :: SortedKeys(keys, q) && r == QueryString(keys, q)
  }

  /** One key's parts, in the order of its values. */
  method EncodeValues(key: string, values: seq<string>) returns (parts: seq<string>)
    requires IsBytes(key) && forall i :: 0 <= i < |values| ==> IsBytes(values[i])
    ensures parts == Parts(PairsOf(key, values))
  {
    parts := [];
    var ek := UriEncode(key, true);
    for i := 0 to |values|
      invariant |parts| == i && forall k :: 0 <= k < i ==> parts[k] == Part(Pair(key, values[k]))
    {
      var ev := UriEncode(values[i], true);
      parts := parts + [ek + "=" + ev];
    }
  }

  lemma PartsConcat(a: seq<Pair>, b: seq<Pair>)
    requires BytePairs(a) && BytePairs(b)
    ensures Parts(a + b) == Parts(a) + Parts(b)
  {
  }

  method EncodeKeys(keys: seq<string>, q: Query) returns (parts: seq<string>)
    requires ByteQuery(q) && KeysIn(keys, q)
    ensures parts == Parts(Pairs(keys, q, |keys|))
  {
    parts := [];
    for n := 0 to |keys|
      invariant parts == Parts(Pairs(keys, q, n))
    {
      var more := EncodeValues(keys[n], q[keys[n]]);
      PartsConcat(Pairs(keys, q, n), PairsOf(keys[n], q[keys[n]]));
      parts := parts + more;
    }
  }

  method EncodeAWSQuery(q: Query) returns (r: string)
    requires ByteQuery(q)
    ensures Encodes(r, q)
  {
    var keys := ListKeys(q);
    var parts := EncodeKeys(keys, q);
    r := Join(parts);
    assert r == QueryString(keys, q);
  }

  /** Collects the keys in whatever order the map yields them, and sorts them. */
  method ListKeys(q: Query) returns (keys: seq<string>)
    ensures SortedKeys(keys, q)
  {
    keys := [];
    var pending := q.Keys;
    while pending != {}
      invariant pending <= q.Keys && NoDuplicates(keys)
      invariant forall i :: 0 <= i < |keys| ==> keys[i] in q && keys[i] !in pending
      invariant forall k :: k in q && k !in pending ==> k in keys
    {
      var k: string :| k in pending;
      keys := keys + [k];
      pending := pending - {k};
    }
    StrLessIsOrder();
    SortAscending(StrLess, keys);
    SortMembers(StrLess, keys);
    keys := SortBy(StrLess, keys);
    assert forall i :: 0 <= i < |keys| ==> keys[i] in keys;
  }
}
