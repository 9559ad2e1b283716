/** What redaction hides and shows, and what merging brings back. */
module ChannelLaws {
  import opened ChannelConfig

  // ---- redaction ------------------------------------------------------------------------------------------

  /** Two configurations that differ in secrets and Authorization headers only. */
  ghost predicate SamePublic(a: Config, b: Config) {
    (forall k :: (k in a || k in b) && k !in SECRETS && k != "headers" ==> Get(a, k) == Get(b, k)) &&
    ("headers" in a <==> "headers" in b) &&
    ("headers" in a ==> forall h :: h in Fields(a["headers"]).Keys + Fields(b["headers"]).Keys && h !in AUTH ==>
       Get(Fields(a["headers"]), h) == Get(Fields(b["headers"]), h))
  }

  /** What is shown holds no secret and depends on none, and shows everything else. */
  lemma RedactionIsExact(a: Config, b: Config)
    ensures forall k :: k in SECRETS ==> k !in Redacted(a)
    ensures "headers" in Redacted(a) ==> forall h :: h in AUTH ==> h !in Fields(Redacted(a)["headers"])
    ensures SamePublic(a, b) <==> Redacted(a) == Redacted(b)
  {
    if SamePublic(a, b) {
      assert Without(a, SECRETS).Keys - {"headers"} == Without(b, SECRETS).Keys - {"headers"} by {
        assert forall k :: k in a && k !in SECRETS && k != "headers" ==> Get(a, k) == Get(b, k);
        assert forall k :: k in b && k !in SECRETS && k != "headers" ==> Get(a, k) == Get(b, k);
      }
      if "headers" in a {
        SameShownHeaders(Fields(a["headers"]), Fields(b["headers"]));
      }
      forall k | k in Redacted(a) || k in Redacted(b)
        ensures k in Redacted(a) && k in Redacted(b) && Redacted(a)[k] == Redacted(b)[k]
      {
        if k != "headers" {
          assert k in a || k in b;
          assert Get(a, k) == Get(b, k);
        }
      }
      assert Redacted(a) == Redacted(b);
    }
    if Redacted(a) == Redacted(b) {
      forall k | (k in a || k in b) && k !in SECRETS && k != "headers" ensures Get(a, k) == Get(b, k) {
        assert Get(Redacted(a), k) == Get(a, k);
        assert Get(Redacted(b), k) == Get(b, k);
      }
      assert "headers" in Redacted(a) <==> "headers" in a;
      assert "headers" in Redacted(b) <==> "headers" in b;
      if "headers" in a {
        var x, y := Fields(a["headers"]), Fields(b["headers"]);
        assert Redacted(a)["headers"] == Redacted(b)["headers"];
        assert Without(x, AUTH) == Without(y, AUTH);
        forall h | h in x.Keys + y.Keys && h !in AUTH ensures Get(x, h) == Get(y, h) {
          assert Get(Without(x, AUTH), h) == Get(x, h);
          assert Get(Without(y, AUTH), h) == Get(y, h);
        }
      }
    }
  }

  lemma SameShownHeaders(x: Config, y: Config)
    requires forall h :: h in x.Keys + y.Keys && h !in AUTH ==> Get(x, h) == Get(y, h)
    ensures Without(x, AUTH) == Without(y, AUTH)
  {
    forall h | h in Without(x, AUTH) || h in Without(y, AUTH)
      ensures h in Without(x, AUTH) && h in Without(y, AUTH) && Without(x, AUTH)[h] == Without(y, AUTH)[h]
    {
      assert h in x.Keys + y.Keys;
      assert Get(x, h) == Get(y, h);
    }
  }

  // ---- merging --------------------------------------------------------------------------------------------

  /** A secret an update leaves empty keeps its old value, if that was not empty; otherwise the update's value
      is taken, and one it does not mention stays only if it mentions no key but secrets. */
  lemma SecretsOfMerge(past: Config, update: Config, k: string)
    requires k in SECRETS
    ensures Get(Merged(past, update), k) ==
            if Empty(Get(update, k)) && !Empty(Get(past, k)) then Get(past, k)
            else if k in update || HasNonSecret(update) then Get(update, k)
            else Get(past, k)
  {
  }

  /** Every other key but the headers is the update's alone, unless the update mentions no key but secrets. */
  lemma PlainKeysOfMerge(past: Config, update: Config, k: string)
    requires k !in SECRETS && k != "headers"
    ensures Get(Merged(past, update), k) == if HasNonSecret(update) then Get(update, k) else Get(past, k)
  {
  }

  /** Headers are kept when the update has none. When it has some, they replace the old ones, except that an
      Authorization header it leaves empty keeps its old value; empty headers bring all the old ones back. */
  lemma HeadersOfMerge(past: Config, update: Config)
    requires "headers" in update
    ensures Get(Merged(past, update), "headers") == Some(MergedHeaders(Get(past, "headers"), update["headers"]))
    ensures !Empty(Get(update, "headers")) ==> forall h ::
      var shown, stored := Fields(update["headers"]), if "headers" in past then Fields(past["headers"]) else map[];
      Get(Fields(Merged(past, update)["headers"]), h) ==
      if h in AUTH && Empty(Get(shown, h)) && !Empty(Get(stored, h)) then Get(stored, h) else Get(shown, h)
    ensures Empty(Get(update, "headers")) && !Empty(Get(past, "headers")) ==>
      Get(Merged(past, update), "headers") == Get(past, "headers")
  {
  }

  predicate OnlySecrets(c: Config) { forall k :: k in c ==> k in SECRETS }

  predicate NoneEmpty(c: Config, keys: seq<string>) { forall k :: k in c && k in keys ==> !Empty(Get(c, k)) }

  /** Nothing in the configuration gets lost when it is read and written back: no empty secret beside other
      keys, headers that are an object, and no empty Authorization header. */
  predicate Restorable(c: Config) {
    (OnlySecrets(c) || NoneEmpty(c, SECRETS)) &&
    ("headers" in c ==> (c["headers"].Object? && NoneEmpty(c["headers"].fields, AUTH)))
  }

  /** Reading and writing back restores every secret and Authorization header that is not empty, and every
      other key. */
  lemma WriteBackRestores(c: Config, k: string)
    ensures k in SECRETS && !Empty(Get(c, k)) ==> Get(Merged(c, Redacted(c)), k) == Get(c, k)
    ensures k !in SECRETS && k != "headers" ==> Get(Merged(c, Redacted(c)), k) == Get(c, k)
    ensures Merged(c, Redacted(c)).Keys <= c.Keys
  {
    var r := Redacted(c);
    if k in SECRETS {
      SecretsOfMerge(c, r, k);
    } else if k != "headers" {
      PlainKeysOfMerge(c, r, k);
      assert k in c ==> k in r;
    }
  }

  lemma HeadersWriteBack(c: Config)
    requires "headers" in c
    ensures "headers" in Merged(c, Redacted(c))
    ensures
      var stored, back := Fields(c["headers"]), Merged(c, Redacted(c))["headers"];
      back == Object(map h | h in stored && (h !in AUTH || !Empty(Get(stored, h))) :: stored[h])
  {
    var r := Redacted(c);
    HeadersOfMerge(c, r);
    assert r["headers"] == Object(Without(Fields(c["headers"]), AUTH));
    AuthRecovered(Fields(c["headers"]));
  }

  lemma AuthRecovered(stored: Config)
    ensures Without(stored, AUTH) + Recovered(AUTH, stored, Without(stored, AUTH)) ==
            map h | h in stored && (h !in AUTH || !Empty(Get(stored, h))) :: stored[h]
  {
  }

  /** A secret is lost only if it is empty and not all keys are secrets. */
  lemma SecretsWriteBack(c: Config, k: string)
    requires k in SECRETS
    ensures Get(Merged(c, Redacted(c)), k) == if Empty(Get(c, k)) && !OnlySecrets(c) then None else Get(c, k)
  {
    var r := Redacted(c);
    if !OnlySecrets(c) {
      var key :| key in c && key !in SECRETS;
      assert key in r;
    }
    SecretsOfMerge(c, r, k);
  }

  lemma RestorableComesBack(c: Config)
    requires Restorable(c)
    ensures Merged(c, Redacted(c)) == c
  {
    var m := Merged(c, Redacted(c));
    forall k ensures Get(m, k) == Get(c, k) {
      if k in SECRETS {
        SecretsWriteBack(c, k);
      } else {
        WriteBackRestores(c, k);
        if k == "headers" && k in c {
          HeadersWriteBack(c);
          var stored := Fields(c["headers"]);
          assert stored == map h | h in stored && (h !in AUTH || !Empty(Get(stored, h))) :: stored[h];
        }
      }
    }
    SameEntries(m, c);
  }

  lemma LossShows(c: Config)
    requires Merged(c, Redacted(c)) == c
    ensures Restorable(c)
  {
    forall k | k in c && k in SECRETS ensures OnlySecrets(c) || !Empty(Get(c, k)) {
      SecretsWriteBack(c, k);
    }
    if "headers" in c {
      HeadersWriteBack(c);
      var stored := Fields(c["headers"]);
      assert stored == map h | h in stored && (h !in AUTH || !Empty(Get(stored, h))) :: stored[h];
    }
  }

  /** So writing back what was read changes nothing exactly when the configuration is restorable. */
  lemma WriteBackIsIdentity(c: Config)
    ensures Merged(c, Redacted(c)) == c <==> Restorable(c)
  {
    if Restorable(c) {
      RestorableComesBack(c);
    } else if Merged(c, Redacted(c)) == c {
      LossShows(c);
    }
  }

  lemma SameEntries(a: Config, b: Config)
    ensures (forall k :: Get(a, k) == Get(b, k)) ==> a == b
  {
    if forall k :: Get(a, k) == Get(b, k) {
      assert forall k :: k in a ==> Get(a, k) == Get(b, k);
      assert forall k :: k in b ==> Get(a, k) == Get(b, k);
    }
  }

  // ---- runs of updates ------------------------------------------------------------------------------------

  function AfterUpdates(c: Config, updates: seq<Config>): Config {
    if updates == [] then c else Merged(AfterUpdates(c, updates[..|updates| - 1]), updates[|updates| - 1])
  }

  /** The last value that is not empty, in the configuration or an update. */
  function LastSupplied(c: Config, updates: seq<Config>, k: string): Option<Json> {
    if updates == [] then (if Empty(Get(c, k)) then None else Get(c, k))
    else
      var u := updates[|updates| - 1];
      if !Empty(Get(u, k)) then Get(u, k) else LastSupplied(c, updates[..|updates| - 1], k)
  }

  /** Over any run of updates a secret is the last value anyone supplied: no update can clear it, and showing
      the configuration in between and sending it back changes nothing. */
  lemma {:induction false} SecretIsLastSupplied(c: Config, updates: seq<Config>, k: string)
    requires k in SECRETS
    ensures LastSupplied(c, updates, k) ==
            if Empty(Get(AfterUpdates(c, updates), k)) then None else Get(AfterUpdates(c, updates), k)
  {
    if updates != [] {
      var init, u := updates[..|updates| - 1], updates[|updates| - 1];
      SecretIsLastSupplied(c, init, k);
      SecretsOfMerge(AfterUpdates(c, init), u, k);
    }
  }

  /** Sending the same update twice is sending it once. */
  lemma MergeIsIdempotent(past: Config, update: Config)
    ensures Merged(Merged(past, update), update) == Merged(past, update)
  {
    var m := Merged(past, update);
    var mm := Merged(m, update);
    forall k ensures Get(mm, k) == Get(m, k) {
      if k in SECRETS {
        SecretsOfMerge(past, update, k);
        SecretsOfMerge(m, update, k);
      } else if k != "headers" {
        PlainKeysOfMerge(past, update, k);
        PlainKeysOfMerge(m, update, k);
      } else {
        HeadersTwice(past, update);
      }
    }
    SameEntries(mm, m);
  }

  lemma MergedHeadersTwice(oldH: Option<Json>, newH: Json)
    ensures MergedHeaders(Some(MergedHeaders(oldH, newH)), newH) == MergedHeaders(oldH, newH)
  {
    if !Empty(Some(newH)) {
      var past, f := if oldH.Some? then Fields(oldH.value) else map[], Fields(newH);
      var r := f + Recovered(AUTH, past, f);
      assert Recovered(AUTH, r, f) == Recovered(AUTH, past, f);
    }
  }

  lemma OwnHeaders(h: Json)
    ensures MergedHeaders(Some(h), h) == Object(Fields(h))
  {
    if !Empty(Some(h)) {
      assert Fields(h) + Recovered(AUTH, Fields(h), Fields(h)) == Fields(h);
    }
  }

  lemma HeadersTwice(past: Config, update: Config)
    ensures Get(Merged(Merged(past, update), update), "headers") == Get(Merged(past, update), "headers")
  {
    var m := Merged(past, update);
    if "headers" in update {
      HeadersOfMerge(past, update);
      HeadersOfMerge(m, update);
      MergedHeadersTwice(Get(past, "headers"), update["headers"]);
    } else if "headers" in past && !HasNonSecret(update) {
      OwnHeaders(past["headers"]);
      assert m["headers"] == Object(Fields(past["headers"]));
      OwnHeaders(m["headers"]);
    }
  }
}
