/** The query string can be read back: decoding recovers every key and value. */
module AwsQueryDecode {
  import opened Sorting
  import opened StringOrder
  import opened AwsQuery

  predicate IsHex(c: char) { '0' <= c <= '9' || 'A' <= c <= 'F' }

  function HexValue(c: char): nat
    requires IsHex(c)
    ensures HexValue(c) < 16
  {
    if c <= '9' then c as int - '0' as int else c as int - 'A' as int + 10
  }

  /** Reads unreserved characters and uppercase escapes, and nothing else. */
  function PctDecode(s: string): Option<string> {
    if s == "" then Some("")
    else if s[0] == '%' then
      if |s| < 3 || !IsHex(s[1]) || !IsHex(s[2]) then None
      else
        var rest := PctDecode(s[3..]);
        if rest == None then None else Some([(HexValue(s[1]) * 16 + HexValue(s[2])) as char] + rest.value)
    else if !Unreserved(s[0]) then None
    else
      var rest := PctDecode(s[1..]);
      if rest == None then None else Some([s[0]] + rest.value)
  }

  /** What precedes the first c, and what follows it. */
  function Before(s: string, c: char): string { if s == "" || s[0] == c then "" else [s[0]] + Before(s[1..], c) }

  function Behind(s: string, c: char): string {
    if s == "" then "" else if s[0] == c then s[1..] else Behind(s[1..], c)
  }

  lemma {:induction false} BehindShorter(s: string, c: char)
    requires s != ""
    ensures |Behind(s, c)| < |s|
  {
    if s[0] != c && s[1..] != "" { BehindShorter(s[1..], c); }
  }

  /** The parts between the separators of a string that is not empty. */
  function Split(s: string): seq<string>
    decreases |s|
  {
    if '&' !in s then [s]
    else
      BehindShorter(s, '&');
      [Before(s, '&')] + Split(Behind(s, '&'))
  }

  function DecodePart(part: string): Option<Pair> {
    if '=' !in part then None
    else
      var k, v := PctDecode(Before(part, '=')), PctDecode(Behind(part, '='));
      if k == None || v == None then None else Some(Pair(k.value, v.value))
  }

  function DecodeParts(parts: seq<string>): Option<seq<Pair>> {
    if parts == [] then Some([])
    else
      var init, last := DecodeParts(parts[..|parts| - 1]), DecodePart(parts[|parts| - 1]);
      if init == None || last == None then None else Some(init.value + [last.value])
  }

  /** Collects the values of each key in order. */
  function Collect(pairs: seq<Pair>): Query {
    if pairs == [] then map[]
    else
      var init, last := Collect(pairs[..|pairs| - 1]), pairs[|pairs| - 1];
      init[last.key := (if last.key in init then init[last.key] else []) + [last.value]]
  }

  function DecodeQuery(s: string): Option<Query> {
    if s == "" then Some(map[])
    else
      var pairs := DecodeParts(Split(s));
      if pairs == None then None else Some(Collect(pairs.value))
  }

  // ---- escapes -------------------------------------------------------------------------------------------

  lemma HexRoundTrip(n: nat)
    requires n < 16
    ensures IsHex(HexDigit(n)) && HexValue(HexDigit(n)) == n
  {
  }

  lemma DecodeChar(c: char, rest: string)
    requires c as int < 256
    ensures PctDecode(EncodeChar(c, true) + rest) ==
            match PctDecode(rest) { case None => None case Some(r) => Some([c] + r) }
  {
    var n, e := c as int, EncodeChar(c, true);
    HexRoundTrip(n / 16);
    HexRoundTrip(n % 16);
    assert (e + rest)[|e|..] == rest;
    assert n / 16 * 16 + n % 16 == n;
  }

  lemma {:induction false} PctRoundTrip(s: string)
    requires IsBytes(s)
    ensures PctDecode(Encoded(s, true)) == Some(s)
  {
    if s != "" {
      PctRoundTrip(s[1..]);
      DecodeChar(s[0], Encoded(s[1..], true));
      assert s == [s[0]] + s[1..];
    }
  }

  // ---- parts ---------------------------------------------------------------------------------------------

  lemma {:induction false} SplitAtFirst(a: string, c: char, b: string)
    requires c !in a
    ensures Before(a + [c] + b, c) == a && Behind(a + [c] + b, c) == b
  {
    var s := a + [c] + b;
    if a == "" {
      assert s[1..] == b;
    } else {
      assert s[1..] == a[1..] + [c] + b;
      SplitAtFirst(a[1..], c, b);
    }
  }

  lemma {:induction false} EncodedClean(s: string, c: char)
    requires IsBytes(s) && c in Encoded(s, true)
    ensures Unreserved(c) || c == '%'
  {
    var n := s[0] as int;
    HexRoundTrip(n / 16);
    HexRoundTrip(n % 16);
    if c !in EncodeChar(s[0], true) { EncodedClean(s[1..], c); }
  }

  lemma PartRoundTrip(p: Pair)
    requires IsBytes(p.key) && IsBytes(p.value)
    ensures DecodePart(Part(p)) == Some(p)
  {
    var k, v := Encoded(p.key, true), Encoded(p.value, true);
    if '=' in k { EncodedClean(p.key, '='); }
    PctRoundTrip(p.key);
    PctRoundTrip(p.value);
    SplitAtFirst(k, '=', v);
    assert Part(p) == k + ['='] + v;
    assert Part(p)[|k|] == '=';
  }

  lemma PartClean(p: Pair, c: char)
    requires IsBytes(p.key) && IsBytes(p.value)
    ensures Part(p) != ""
    ensures c in Part(p) ==> Unreserved(c) || c == '%' || c == '='
  {
    assert Part(p)[|Encoded(p.key, true)|] == '=';
    if c in Encoded(p.key, true) { EncodedClean(p.key, c); }
    if c in Encoded(p.value, true) { EncodedClean(p.value, c); }
  }

  lemma {:induction false} SplitJoin(parts: seq<string>)
    requires parts != [] && forall i :: 0 <= i < |parts| ==> '&' !in parts[i]
    ensures Split(Join(parts)) == parts
  {
    if |parts| > 1 {
      SplitJoin(parts[1..]);
      SplitAtFirst(parts[0], '&', Join(parts[1..]));
      var s := parts[0] + "&" + Join(parts[1..]);
      assert s == parts[0] + ['&'] + Join(parts[1..]);
      assert s[|parts[0]|] == '&';
    }
  }

  lemma PartsClean(pairs: seq<Pair>)
    requires BytePairs(pairs)
    ensures forall i :: 0 <= i < |pairs| ==> '&' !in Parts(pairs)[i] && Parts(pairs)[i] != ""
  {
    forall i | 0 <= i < |pairs|
      ensures '&' !in Parts(pairs)[i] && Parts(pairs)[i] != ""
    {
      PartClean(pairs[i], '&');
    }
  }

  lemma DecodeNext(init: seq<string>, part: string, pairs: seq<Pair>, p: Pair)
    requires DecodeParts(init) == Some(pairs) && DecodePart(part) == Some(p)
    ensures DecodeParts(init + [part]) == Some(pairs + [p])
  {
    assert (init + [part])[..|init|] == init;
  }

  lemma {:induction false} PartsRoundTrip(pairs: seq<Pair>)
    requires BytePairs(pairs)
    ensures DecodeParts(Parts(pairs)) == Some(pairs)
  {
    if pairs != [] {
      var init, last := pairs[..|pairs| - 1], pairs[|pairs| - 1];
      assert init + [last] == pairs;
      PartsRoundTrip(init);
      NextRoundTrip(init, last);
    }
  }

  lemma NextRoundTrip(init: seq<Pair>, last: Pair)
    requires BytePairs(init) && IsBytes(last.key) && IsBytes(last.value) && DecodeParts(Parts(init)) == Some(init)
    ensures BytePairs(init + [last]) && DecodeParts(Parts(init + [last])) == Some(init + [last])
  {
    PartsNext(init, last);
    PartRoundTrip(last);
    DecodeNext(Parts(init), Part(last), init, last);
  }

  lemma PartsNext(init: seq<Pair>, last: Pair)
    requires BytePairs(init) && IsBytes(last.key) && IsBytes(last.value)
    ensures BytePairs(init + [last]) && Parts(init + [last]) == Parts(init) + [Part(last)]
  {
  }

  lemma {:induction false} JoinNonEmpty(parts: seq<string>)
    requires parts != [] && forall i :: 0 <= i < |parts| ==> parts[i] != ""
    ensures Join(parts) != ""
  {
  }

  // ---- the whole query -------------------------------------------------------------------------------------

  function Appended(m: Query, key: string, values: seq<string>): Query {
    if values == [] then m else m[key := (if key in m then m[key] else []) + values]
  }

  lemma AppendedTwice(m: Query, key: string, init: seq<string>, last: string)
    ensures Appended(Appended(m, key, init), key, [last]) == Appended(m, key, init + [last])
  {
    var base := if key in m then m[key] else [];
    assert base + init + [last] == base + (init + [last]);
    assert init == [] ==> init + [last] == [last];
  }

  lemma {:induction false} CollectValues(before: seq<Pair>, key: string, values: seq<string>)
    ensures Collect(before + PairsOf(key, values)) == Appended(Collect(before), key, values)
  {
    if values == [] {
      assert before + PairsOf(key, values) == before;
    } else {
      var init, last := values[..|values| - 1], values[|values| - 1];
      CollectValues(before, key, init);
      AppendedTwice(Collect(before), key, init, last);
      assert init + [last] == values;
      var all := before + PairsOf(key, values);
      assert all[..|all| - 1] == before + PairsOf(key, init) && all[|all| - 1] == Pair(key, last);
    }
  }

  /** The query without the keys that have no values. */
  function NonEmpty(q: Query): Query { map k | k in q && q[k] != [] :: q[k] }

  /** The part of the query that the first n keys carry. */
  ghost function Carried(keys: seq<string>, q: Query, n: nat): Query
    requires n <= |keys|
  {
    map k | k in q && k in keys[..n] && q[k] != [] :: q[k]
  }

  lemma CarriedNext(keys: seq<string>, q: Query, n: nat)
    requires n < |keys| && KeysIn(keys, q) && NoDuplicates(keys)
    ensures keys[n] !in Carried(keys, q, n)
    ensures Carried(keys, q, n + 1)
            == if q[keys[n]] == [] then Carried(keys, q, n) else Carried(keys, q, n)[keys[n] := q[keys[n]]]
  {
    assert keys[..n + 1] == keys[..n] + [keys[n]];
    assert keys[n] !in keys[..n];
  }

  lemma {:induction false} CollectPairs(keys: seq<string>, q: Query, n: nat)
    requires ByteQuery(q) && KeysIn(keys, q) && n <= |keys| && NoDuplicates(keys)
    ensures Collect(Pairs(keys, q, n)) == Carried(keys, q, n)
  {
    if n > 0 {
      CollectPairs(keys, q, n - 1);
      CarriedNext(keys, q, n - 1);
      CollectNext(Pairs(keys, q, n - 1), Pairs(keys, q, n), keys[n - 1], q[keys[n - 1]]);
    }
  }

  lemma CollectNext(before: seq<Pair>, all: seq<Pair>, key: string, values: seq<string>)
    requires all == before + PairsOf(key, values) && key !in Collect(before)
    ensures Collect(all) == if values == [] then Collect(before) else Collect(before)[key := values]
  {
    CollectValues(before, key, values);
    assert [] + values == values;
  }

  lemma AscendingNoDuplicates(keys: seq<string>)
    requires Ascending(StrLess, keys)
    ensures NoDuplicates(keys)
  {
    StrLessIsOrder();
  }

  lemma StringRoundTrip(keys: seq<string>, q: Query)
    requires ByteQuery(q) && SortedKeys(keys, q)
    ensures DecodeQuery(QueryString(keys, q)) == Some(Collect(Pairs(keys, q, |keys|)))
  {
    var pairs := Pairs(keys, q, |keys|);
    PartsRoundTrip(pairs);
    PartsClean(pairs);
    if pairs != [] {
      JoinNonEmpty(Parts(pairs));
      SplitJoin(Parts(pairs));
    }
  }

  /** Decoding the query string recovers every key that has values, with its values in order. */
  lemma QueryRoundTrip(q: Query, r: string)
    requires ByteQuery(q) && Encodes(r, q)
    ensures DecodeQuery(r) == Some(NonEmpty(q))
  {
    var keys: seq<string> :| SortedKeys(keys, q) && r == QueryString(keys, q);
    AscendingNoDuplicates(keys);
    CollectPairs(keys, q, |keys|);
    StringRoundTrip(keys, q);
    CarriedAll(keys, q);
  }

  lemma CarriedAll(keys: seq<string>, q: Query)
    requires SortedKeys(keys, q)
    ensures Carried(keys, q, |keys|) == NonEmpty(q)
  {
    assert keys[..|keys|] == keys;
  }

  predicate AllHaveValues(q: Query) { forall k :: k in q ==> q[k] != [] }

  /** Two queries have one string exactly when they differ at most in keys without values, so the encoding
      is injective on queries whose keys all have values. */
  lemma EncodingInjective(q1: Query, q2: Query, r1: string, r2: string)
    requires ByteQuery(q1) && ByteQuery(q2) && Encodes(r1, q1) && Encodes(r2, q2)
    ensures r1 == r2 <==> NonEmpty(q1) == NonEmpty(q2)
    ensures AllHaveValues(q1) && AllHaveValues(q2) ==> (r1 == r2 <==> q1 == q2)
  {
    QueryRoundTrip(q1, r1);
    QueryRoundTrip(q2, r2);
    if NonEmpty(q1) == NonEmpty(q2) {
      EmptyKeysVanish(q1, r1);
      EmptyKeysVanish(q2, r2);
      EncodingUnique(NonEmpty(q1), r1, r2);
    }
    NonEmptyIsAll(q1);
    NonEmptyIsAll(q2);
  }

  lemma NonEmptyIsAll(q: Query)
    ensures AllHaveValues(q) ==> NonEmpty(q) == q
  {
  }

  /** Keys without values leave no trace. */
  lemma EmptyKeysVanish(q: Query, r: string)
    requires ByteQuery(q) && Encodes(r, q)
    ensures ByteQuery(NonEmpty(q)) && Encodes(r, NonEmpty(q))
  {
    var keys: seq<string> :| SortedKeys(keys, q) && r == QueryString(keys, q);
    var kept := WithoutEmpty(keys, q, |keys|);
    assert keys[..|keys|] == keys;
    KeptSorted(keys, q, |keys|);
    forall i | 0 <= i < |keys| && q[keys[i]] != [] ensures keys[i] in kept {
      KeptAll(keys, q, |keys|, i);
    }
    KeptIn(keys, q, |keys|);
    KeptPairs(keys, q, |keys|);
    assert SortedKeys(kept, NonEmpty(q));
    assert r == QueryString(kept, NonEmpty(q));
  }

  ghost function WithoutEmpty(keys: seq<string>, q: Query, n: nat): seq<string>
    requires KeysIn(keys, q) && n <= |keys|
  {
    if n == 0 then [] else WithoutEmpty(keys, q, n - 1) + if q[keys[n - 1]] == [] then [] else [keys[n - 1]]
  }

  lemma {:induction false} KeptSorted(keys: seq<string>, q: Query, n: nat)
    requires KeysIn(keys, q) && n <= |keys| && Ascending(StrLess, keys)
    ensures var kept := WithoutEmpty(keys, q, n);
            Ascending(StrLess, kept) && forall k :: k in kept ==> k in keys[..n]
  {
    if n > 0 {
      KeptSorted(keys, q, n - 1);
      assert keys[..n] == keys[..n - 1] + [keys[n - 1]];
      KeptBelow(keys, WithoutEmpty(keys, q, n - 1), n - 1);
    }
  }

  lemma {:induction false} KeptAll(keys: seq<string>, q: Query, n: nat, i: nat)
    requires KeysIn(keys, q) && i < n <= |keys| && q[keys[i]] != []
    ensures keys[i] in WithoutEmpty(keys, q, n)
  {
    if i < n - 1 { KeptAll(keys, q, n - 1, i); }
  }

  lemma {:induction false} KeptIn(keys: seq<string>, q: Query, n: nat)
    requires KeysIn(keys, q) && n <= |keys|
    ensures KeysIn(WithoutEmpty(keys, q, n), NonEmpty(q))
  {
    if n > 0 { KeptIn(keys, q, n - 1); }
  }

  lemma KeptBelow(keys: seq<string>, kept: seq<string>, n: nat)
    requires n < |keys| && Ascending(StrLess, keys) && forall k :: k in kept ==> k in keys[..n]
    ensures forall i :: 0 <= i < |kept| ==> StrLess(kept[i], keys[n])
  {
    forall i | 0 <= i < |kept|
      ensures StrLess(kept[i], keys[n])
    {
      assert kept[i] in kept;
      var j :| 0 <= j < n && keys[..n][j] == kept[i];
      assert keys[j] == kept[i];
    }
  }

  lemma {:induction false} KeptPairs(keys: seq<string>, q: Query, n: nat)
    requires ByteQuery(q) && KeysIn(keys, q) && n <= |keys|
    ensures ByteQuery(NonEmpty(q)) && KeysIn(WithoutEmpty(keys, q, n), NonEmpty(q))
    ensures Pairs(WithoutEmpty(keys, q, n), NonEmpty(q), |WithoutEmpty(keys, q, n)|) == Pairs(keys, q, n)
  {
    KeptIn(keys, q, n);
    if n > 0 {
      KeptPairs(keys, q, n - 1);
      var init, key := WithoutEmpty(keys, q, n - 1), keys[n - 1];
      if q[key] == [] {
        assert WithoutEmpty(keys, q, n) == init && PairsOf(key, q[key]) == [];
      } else {
        LastPairs(init, key, NonEmpty(q));
      }
    }
  }

  lemma LastPairs(keys: seq<string>, key: string, q: Query)
    requires ByteQuery(q) && KeysIn(keys + [key], q)
    ensures key in q && KeysIn(keys, q)
    ensures Pairs(keys + [key], q, |keys| + 1) == Pairs(keys, q, |keys|) + PairsOf(key, q[key])
  {
    PairsPrefix(keys, key, q, |keys|);
    assert (keys + [key])[|keys|] == key;
  }

  lemma {:induction false} PairsPrefix(keys: seq<string>, key: string, q: Query, n: nat)
    requires ByteQuery(q) && KeysIn(keys + [key], q) && n <= |keys|
    ensures KeysIn(keys, q) && Pairs(keys + [key], q, n) == Pairs(keys, q, n)
  {
    assert forall i :: 0 <= i < |keys| ==> (keys + [key])[i] == keys[i];
    if n > 0 { PairsPrefix(keys, key, q, n - 1); }
  }

  /** The order in which the map yields its keys does not show. */
  lemma EncodingUnique(q: Query, r1: string, r2: string)
    requires ByteQuery(q) && Encodes(r1, q) && Encodes(r2, q)
    ensures r1 == r2
  {
    var a: seq<string> :| SortedKeys(a, q) && r1 == QueryString(a, q);
    var b: seq<string> :| SortedKeys(b, q) && r2 == QueryString(b, q);
    StrLessIsOrder();
    AscendingUnique(StrLess, a, b);
  }

  /** Every '%' starts an escape of two uppercase hexadecimal digits; all else is unreserved, '=' or '&'. */
  predicate WellEscaped(r: string) {
    r == "" ||
    (if r[0] == '%' then |r| >= 3 && IsHex(r[1]) && IsHex(r[2]) && WellEscaped(r[3..])
     else (Unreserved(r[0]) || r[0] == '=' || r[0] == '&') && WellEscaped(r[1..]))
  }

  lemma {:induction false} WellEscapedConcat(a: string, b: string)
    requires WellEscaped(a) && WellEscaped(b)
    ensures WellEscaped(a + b)
    decreases |a|
  {
    if a == "" {
      assert a + b == b;
    } else if a[0] == '%' {
      assert (a + b)[3..] == a[3..] + b;
      WellEscapedConcat(a[3..], b);
    } else {
      assert (a + b)[1..] == a[1..] + b;
      WellEscapedConcat(a[1..], b);
    }
  }

  lemma {:induction false} EncodedWellEscaped(s: string)
    requires IsBytes(s)
    ensures WellEscaped(Encoded(s, true))
  {
    if s != "" {
      EncodedWellEscaped(s[1..]);
      CharWellEscaped(s[0]);
      WellEscapedConcat(EncodeChar(s[0], true), Encoded(s[1..], true));
    }
  }

  lemma CharWellEscaped(c: char)
    requires c as int < 256
    ensures WellEscaped(EncodeChar(c, true))
  {
    var e := EncodeChar(c, true);
    if e[0] == '%' {
      HexRoundTrip(c as int / 16);
      HexRoundTrip(c as int % 16);
      assert e[3..] == "";
    } else {
      assert e[1..] == "";
    }
  }

  lemma PartWellEscaped(p: Pair)
    requires IsBytes(p.key) && IsBytes(p.value)
    ensures WellEscaped(Part(p))
  {
    EncodedWellEscaped(p.key);
    EncodedWellEscaped(p.value);
    var eq := "=";
    assert eq[1..] == "" && WellEscaped(eq);
    WellEscapedConcat(Encoded(p.key, true), eq);
    WellEscapedConcat(Encoded(p.key, true) + eq, Encoded(p.value, true));
  }

  lemma {:induction false} JoinWellEscaped(parts: seq<string>)
    requires forall i :: 0 <= i < |parts| ==> WellEscaped(parts[i])
    ensures WellEscaped(Join(parts))
  {
    var amp := "&";
    assert amp[1..] == "" && WellEscaped(amp);
    if |parts| > 1 {
      JoinWellEscaped(parts[1..]);
      WellEscapedConcat(parts[0], amp);
      WellEscapedConcat(parts[0] + amp, Join(parts[1..]));
    }
  }

  /** The string holds unreserved characters, '=', '&' and complete uppercase escapes only. */
  lemma EncodingCharacters(q: Query, r: string)
    requires ByteQuery(q) && Encodes(r, q)
    ensures WellEscaped(r)
  {
    var keys: seq<string> :| SortedKeys(keys, q) && r == QueryString(keys, q);
    var pairs := Pairs(keys, q, |keys|);
    forall i | 0 <= i < |pairs| ensures WellEscaped(Parts(pairs)[i]) {
      PartWellEscaped(pairs[i]);
    }
    JoinWellEscaped(Parts(pairs));
  }
}
