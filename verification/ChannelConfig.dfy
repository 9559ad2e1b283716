/** The secrets of an alert channel: what a reader of the configuration is shown, and what an update that
    leaves the secrets out keeps.

  JSON texts are their values; a text that is blank, malformed or not an object reads as the empty object. */
module ChannelConfig {

  datatype Json =
    | Null | Bool(b: bool) | Number(text: string) | Text(s: string)
    | Array(items: seq<Json>) | Object(fields: map<string, Json>)

  datatype Option<T> = None | Some(value: T)

  /** A stored text: blank or malformed, or a JSON value. */
  datatype Doc = Unreadable | Value(json: Json)

  type Config = map<string, Json>

  const SECRETS: seq<string> := ["hmac_secret", "password", "secret"]
  const AUTH: seq<string> := ["Authorization", "authorization"]

  function Fields(v: Json): Config { if v.Object? then v.fields else map[] }

  function ParseObject(doc: Doc): Config { if doc.Value? then Fields(doc.json) else map[] }

  function Get(c: Config, k: string): Option<Json> { if k in c then Some(c[k]) else None }

  predicate Empty(v: Option<Json>) { v == None || v == Some(Null) || v == Some(Text("")) }

  predicate HasNonSecret(c: Config) { exists k :: k in c && k !in SECRETS }

  // ---- what the functions compute -------------------------------------------------------------------------

  function Without(c: Config, keys: seq<string>): Config { map k | k in c && k !in keys :: c[k] }

  function Redacted(c: Config): Config {
    var shown := Without(c, SECRETS);
    if "headers" in c then shown["headers" := Object(Without(Fields(c["headers"]), AUTH))] else shown
  }

  /** The old values of the given keys that are there and that update leaves empty. */
  function Recovered(keys: seq<string>, past: Config, update: Config): Config {
    map k | k in past && k in keys && !Empty(Get(past, k)) && Empty(Get(update, k)) :: past[k]
  }

  function MergedHeaders(oldH: Option<Json>, newH: Json): Json {
    if Empty(Some(newH)) then (if Empty(oldH) then Object(map[]) else oldH.value)
    else
      var past := if oldH.Some? then Fields(oldH.value) else map[];
      Object(Fields(newH) + Recovered(AUTH, past, Fields(newH)))
  }

  function Merged(past: Config, update: Config): Config {
    var base := if HasNonSecret(update) then update else past + update;
    var kept := base + Recovered(SECRETS, past, base);
    if "headers" in kept then kept["headers" := MergedHeaders(Get(past, "headers"), kept["headers"])]
    else if "headers" in past then kept["headers" := past["headers"]]
    else kept
  }

  // ---- the code -------------------------------------------------------------------------------------------

  method HasNonSecretChannelKey(c: Config) returns (r: bool)
    ensures r == HasNonSecret(c)
  {
    var keys := c.Keys;
    while keys != {}
      invariant keys <= c.Keys
      invariant forall k :: k in c && k !in keys ==> k in SECRETS
      decreases |keys|
    {
      var k :| k in keys;
      if k !in SECRETS {
        return true;
      }
      keys := keys - {k};
    }
    return false;
  }

  method RedactChannelConfig(raw: Doc) returns (r: Config)
    ensures r == Redacted(ParseObject(raw))
  {
    var obj := ParseObject(raw);
    r := obj - {"hmac_secret"};
    r := r - {"password"};
    r := r - {"secret"};
    assert r == Without(obj, SECRETS);
    if "headers" in r {
      var hm := Fields(r["headers"]);
      hm := hm - {"Authorization"};
      hm := hm - {"authorization"};
      assert hm == Without(Fields(obj["headers"]), AUTH);
      r := r["headers" := Object(hm)];
    }
  }

  lemma RefillStep(done: seq<string>, k: string, past: Config, update: Config)
    requires k !in done
    ensures
      var r := update + Recovered(done, past, update);
      Empty(Get(r, k)) == Empty(Get(update, k)) &&
      update + Recovered(done + [k], past, update) ==
        if Empty(Get(update, k)) && k in past && !Empty(Some(past[k])) then r[k := past[k]] else r
  {
    var a, b := Recovered(done, past, update), Recovered(done + [k], past, update);
    if Empty(Get(update, k)) && k in past && !Empty(Some(past[k])) {
      assert b == a[k := past[k]];
    } else {
      assert b == a;
    }
  }

  lemma CopyStep(keys: set<string>, k: string, past: Config, update: Config)
    requires k in keys && keys <= past.Keys
    ensures k in CopiedBut(keys, past, update) <==> k in update
    ensures CopiedBut(keys - {k}, past, update) ==
            if k in update then CopiedBut(keys, past, update) else CopiedBut(keys, past, update)[k := past[k]]
  {
  }

  lemma CopyEnds(past: Config, update: Config)
    ensures CopiedBut(past.Keys, past, update) == update && CopiedBut({}, past, update) == past + update
  {
    assert past - {} == past;
  }

  /** update with the entries of past it has no key for, except the keys still to do. */
  function CopiedBut(keys: set<string>, past: Config, update: Config): Config { (past - keys) + update }

  /** Fills the keys that update leaves empty from past, one by one. */
  method Refill(keys: seq<string>, past: Config, update: Config) returns (r: Config)
    requires forall i, j :: 0 <= i < j < |keys| ==> keys[i] != keys[j]
    ensures r == update + Recovered(keys, past, update)
  {
    r := update;
    for i := 0 to |keys|
      invariant r == update + Recovered(keys[..i], past, update)
    {
      var k := keys[i];
      assert keys[..i + 1] == keys[..i] + [k] && k !in keys[..i];
      RefillStep(keys[..i], k, past, update);
      if Empty(Get(r, k)) {
        if k in past && !Empty(Some(past[k])) {
          r := r[k := past[k]];
        }
      }
    }
    assert keys[..|keys|] == keys;
  }

  method MergeAuthHeader(oldH: Option<Json>, newH: Json) returns (r: Json)
    ensures r == MergedHeaders(oldH, newH)
  {
    if Empty(Some(newH)) {
      if !Empty(oldH) {
        return oldH.value;
      }
      return Object(map[]);
    }
    var past := if oldH.Some? then Fields(oldH.value) else map[];
    var merged := Refill(AUTH, past, Fields(newH));
    return Object(merged);
  }

  /** Copies the entries of past that update has no key for. */
  method CopyMissing(past: Config, update: Config) returns (r: Config)
    ensures r == past + update
  {
    r := update;
    var keys := past.Keys;
    CopyEnds(past, update);
    while keys != {}
      invariant keys <= past.Keys && r == CopiedBut(keys, past, update)
      decreases |keys|
    {
      var k :| k in keys;
      CopyStep(keys, k, past, update);
      if k !in r {
        r := r[k := past[k]];
      }
      keys := keys - {k};
    }
  }

  method MergeChannelConfig(oldDoc: Doc, newDoc: Doc) returns (r: Config)
    ensures r == Merged(ParseObject(oldDoc), ParseObject(newDoc))
  {
    var past := ParseObject(oldDoc);
    r := ParseObject(newDoc);
    var nonSecret := HasNonSecretChannelKey(r);
    if !nonSecret {
      r := CopyMissing(past, r);
    }
    r := Refill(SECRETS, past, r);
    if "headers" !in r {
      if "headers" in past {
        r := r["headers" := past["headers"]];
      }
    } else {
      var h := MergeAuthHeader(Get(past, "headers"), r["headers"]);
      r := r["headers" := h];
    }
  }
}
