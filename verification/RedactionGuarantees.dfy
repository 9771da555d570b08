/**
 Exactly when a second redaction pass changes nothing: for strings, metadata trees of any depth,
 whole events, and for the configuration as a whole.
 */
module RedactionGuarantees {
  import opened Text
  import opened Redaction
  import RedactionHash

  // ---- Redacting a string twice ----

  /** Strategy `s'` leaves every result of `s` alone. */
  predicate Absorbs(s: Strategy, s': Strategy) {
    match s
    case Mask => s'.Mask? || s'.Unrecognised? || s'.Partial?
    case Unrecognised => s'.Mask? || s'.Unrecognised? || s'.Partial?
    case Partial => s'.Partial?
    case Remove => s'.Remove?
    case HashOf => false
  }

  lemma Twice(value: string, s: Strategy, s': Strategy)
    requires Absorbs(s, s')
    ensures RedactString(RedactString(value, s), s') == RedactString(value, s)
  {
  }

  lemma NotTwice(s: Strategy, s': Strategy) returns (value: string)
    requires !Absorbs(s, s')
    ensures RedactString(RedactString(value, s), s') != RedactString(value, s)
  {
    value := "e";
    match s
    case HashOf =>
      if s'.HashOf? {
        RedactionHash.HashTwiceDiffers(value);
      }
    case Partial =>
      value := "eeeeeeeee";
      assert RedactString(value, s)[0] == 'e';
      assert |RedactString(value, s)| == 9;
    case Remove =>
      assert REDACTED[4] == 'a';
    case Mask =>
    case Unrecognised =>
  }

  lemma AbsorbsIff(s: Strategy, s': Strategy)
    ensures Absorbs(s, s') <==> forall value :: RedactString(RedactString(value, s), s') == RedactString(value, s)
  {
    if Absorbs(s, s') {
      forall value ensures RedactString(RedactString(value, s), s') == RedactString(value, s) {
        Twice(value, s, s');
      }
    } else {
      var value := NotTwice(s, s');
    }
  }

  // ---- Redacting an event twice ----

  /**
   Where redacting a value makes detection change its mind about it, the strategy that then takes
   over leaves it alone.
   */
  predicate FlipsHarmlessly(cfg: Config, s: Strategy, value: string) {
    var detected, ruled := RedactString(value, cfg.fallback), RedactString(value, s);
    && (SensitiveValue(cfg, value) && !SensitiveValue(cfg, detected) ==> RedactString(detected, s) == detected)
    && (!SensitiveValue(cfg, value) && SensitiveValue(cfg, ruled) ==> RedactString(ruled, cfg.fallback) == ruled)
  }

  /** A strategy that a field name can select does not hash and lives with detection. */
  ghost predicate Fits(cfg: Config, s: Strategy) {
    !s.HashOf? && (cfg.autoDetect ==> forall value :: FlipsHarmlessly(cfg, s, value))
  }

  ghost predicate Settled(cfg: Config) {
    !cfg.fallback.HashOf?
    && forall key :: !SensitiveName(key) && FirstRule(cfg.rules, key).Some? ==>
        Fits(cfg, FirstRule(cfg.rules, key).value)
  }

  /** Strategies that absorb each other fit whatever the patterns detect. */
  lemma AbsorbingFits(cfg: Config, s: Strategy)
    requires Absorbs(s, cfg.fallback) && Absorbs(cfg.fallback, s)
    ensures Fits(cfg, s)
  {
    forall value ensures FlipsHarmlessly(cfg, s, value) {
      Twice(value, s, cfg.fallback);
      Twice(value, cfg.fallback, s);
    }
  }

  lemma {:induction false} FirstRuleOneOf(rules: seq<Rule>, name: string)
    ensures FirstRule(rules, name).Some? ==>
              exists i :: 0 <= i < |rules| && rules[i].strategy == FirstRule(rules, name).value
  {
    if rules != [] {
      FirstRuleOneOf(rules[1..], name);
      if FirstRule(rules, name).Some? && !MatchesNames(name, rules[0].fieldNames) {
        var i :| 0 <= i < |rules[1..]| && rules[1..][i].strategy == FirstRule(rules, name).value;
        assert rules[i + 1].strategy == FirstRule(rules, name).value;
      }
    }
  }

  /**
   In particular a configuration is settled when its default and all its rules mask, or all show
   parts, or all remove.
   */
  lemma UniformSettled(cfg: Config)
    requires !cfg.fallback.HashOf?
    requires forall i :: 0 <= i < |cfg.rules| ==>
               Absorbs(cfg.rules[i].strategy, cfg.fallback) && Absorbs(cfg.fallback, cfg.rules[i].strategy)
    ensures Settled(cfg)
  {
    forall key | FirstRule(cfg.rules, key).Some? ensures Fits(cfg, FirstRule(cfg.rules, key).value) {
      FirstRuleOneOf(cfg.rules, key);
      AbsorbingFits(cfg, FirstRule(cfg.rules, key).value);
    }
  }

  /** Every value that has no JSON form and is replaced is replaced by removal. */
  predicate CleanField(cfg: Config, key: string, v: Meta)
    decreases v, 1
  {
    match v
    case Object(_) => Clean(cfg, v)
    case Other(None) => ByName(cfg, key).Some? ==> ByName(cfg, key).value.Remove?
    case _ => true
  }

  predicate Clean(cfg: Config, v: Meta)
    requires v.Object?
    decreases v, 0
  {
    forall key :: key in v.fields ==> CleanField(cfg, key, v.fields[key])
  }

  lemma PairTwice(cfg: Config, key: string, value: string)
    requires Settled(cfg)
    ensures RedactPair(cfg, key, RedactPair(cfg, key, value)) == RedactPair(cfg, key, value)
  {
    Twice(value, cfg.fallback, cfg.fallback);
    if !SensitiveName(key) && FirstRule(cfg.rules, key).Some? {
      var s := FirstRule(cfg.rules, key).value;
      assert Fits(cfg, s);
      Twice(value, s, s);
      assert cfg.autoDetect ==> FlipsHarmlessly(cfg, s, value);
    }
  }

  /** A harmful flip shows in a string map. */
  lemma FlipFails(cfg: Config, key: string, s: Strategy, value: string)
    requires cfg.autoDetect && !SensitiveName(key) && FirstRule(cfg.rules, key) == Some(s)
    requires !FlipsHarmlessly(cfg, s, value)
    ensures RedactPair(cfg, key, RedactPair(cfg, key, value)) != RedactPair(cfg, key, value)
  {
  }

  lemma PairsTwice(cfg: Config, m: map<string, string>)
    requires Settled(cfg)
    ensures RedactPairs(cfg, RedactPairs(cfg, m)) == RedactPairs(cfg, m)
  {
    forall k | k in m ensures RedactPair(cfg, k, RedactPair(cfg, k, m[k])) == RedactPair(cfg, k, m[k]) {
      PairTwice(cfg, k, m[k]);
    }
  }

  lemma RemovedStays(s: Strategy)
    ensures RedactString(REDACTED, s) == REDACTED <==> s.Remove?
  {
    assert REDACTED[4] == 'a';
  }

  lemma {:induction false} FieldTwice(cfg: Config, key: string, v: Meta)
    requires Settled(cfg)
    ensures RedactField(cfg, key, RedactField(cfg, key, v)) == RedactField(cfg, key, v) <==> CleanField(cfg, key, v)
    decreases v, 1
  {
    match v
    case Object(_) =>
      ObjectTwice(cfg, v);
    case Pairs(m) =>
      PairsTwice(cfg, m);
    case Other(None) =>
      if ByName(cfg, key).Some? {
        RemovedStays(ByName(cfg, key).value);
      }
    case Other(Some(j)) =>
      NamedTwice(cfg, key, j);
    case Str(a) =>
      NamedTwice(cfg, key, a);
      Twice(a, cfg.fallback, cfg.fallback);
  }

  lemma NamedTwice(cfg: Config, key: string, value: string)
    requires Settled(cfg)
    ensures ByName(cfg, key).Some? ==>
              var s := ByName(cfg, key).value;
              RedactString(RedactString(value, s), s) == RedactString(value, s)
  {
  }

  /**
   Under a settled configuration, a second pass over metadata of any depth changes nothing
   exactly when every replaced value without a JSON form is replaced by removal.
   */
  lemma {:induction false} ObjectTwice(cfg: Config, v: Meta)
    requires v.Object? && Settled(cfg)
    ensures RedactObject(cfg, RedactObject(cfg, v)) == RedactObject(cfg, v) <==> Clean(cfg, v)
    decreases v, 0
  {
    var once := RedactObject(cfg, v);
    var again := RedactObject(cfg, once);
    forall key | key in v.fields
      ensures again.fields[key] == once.fields[key] <==> CleanField(cfg, key, v.fields[key])
    {
      FieldTwice(cfg, key, v.fields[key]);
    }
    assert again.fields.Keys == once.fields.Keys == v.fields.Keys;
    assert (forall key :: key in v.fields ==> again.fields[key] == once.fields[key]) ==> again.fields == once.fields;
  }

  lemma HashedFieldFails(cfg: Config, key: string, a: string)
    requires ByName(cfg, key) == Some(HashOf) && a == "e"
    ensures RedactField(cfg, key, RedactField(cfg, key, Str(a))) != RedactField(cfg, key, Str(a))
  {
    RedactionHash.HashTwiceDiffers(a);
  }

  lemma OneFieldFails(cfg: Config, key: string, a: string)
    requires ByName(cfg, key) == Some(HashOf) && a == "e"
    ensures
      var v := Object(map[key := Str(a)]);
      RedactObject(cfg, RedactObject(cfg, v)) != RedactObject(cfg, v)
  {
    HashedFieldFails(cfg, key, a);
    var once := RedactField(cfg, key, Str(a));
    var again := RedactField(cfg, key, once);
    OneField(cfg, key, Str(a));
    OneField(cfg, key, once);
    assert map[key := again][key] != map[key := once][key];
  }

  lemma OneField(cfg: Config, key: string, x: Meta)
    ensures RedactObject(cfg, Object(map[key := x])) == Object(map[key := RedactField(cfg, key, x)])
  {
  }

  lemma OnePair(cfg: Config, key: string, value: string)
    ensures RedactPairs(cfg, map[key := value]) == map[key := RedactPair(cfg, key, value)]
  {
  }

  /** String maps are redacted entry by entry under any name. */
  lemma PairsField(cfg: Config, key: string, m: map<string, string>)
    ensures RedactField(cfg, key, Pairs(m)) == Pairs(RedactPairs(cfg, m))
  {
  }

  lemma NestedPairFails(cfg: Config, outer: string, key: string, value: string)
    requires RedactPair(cfg, key, RedactPair(cfg, key, value)) != RedactPair(cfg, key, value)
    ensures
      var v := Object(map[outer := Pairs(map[key := value])]);
      RedactObject(cfg, RedactObject(cfg, v)) != RedactObject(cfg, v)
  {
    var once := RedactPair(cfg, key, value);
    var again := RedactPair(cfg, key, once);
    OneField(cfg, outer, Pairs(map[key := value]));
    OneField(cfg, outer, Pairs(map[key := once]));
    PairsField(cfg, outer, map[key := value]);
    PairsField(cfg, outer, map[key := once]);
    OnePair(cfg, key, value);
    OnePair(cfg, key, once);
    assert map[key := again][key] != map[key := once][key];
    assert map[outer := Pairs(map[key := again])][outer] != map[outer := Pairs(map[key := once])][outer];
  }

  /** A configuration that is not settled fails on some clean tree of plain strings. */
  lemma UnsettledFails(cfg: Config) returns (v: Meta)
    requires !Settled(cfg)
    ensures v.Object? && Clean(cfg, v)
    ensures RedactObject(cfg, RedactObject(cfg, v)) != RedactObject(cfg, v)
  {
    var a := "e";
    if cfg.fallback.HashOf? {
      KeyIsSensitive();
      v := Object(map["key" := Str(a)]);
      OneFieldFails(cfg, "key", a);
    } else {
      var key :| !SensitiveName(key) && FirstRule(cfg.rules, key).Some? && !Fits(cfg, FirstRule(cfg.rules, key).value);
      var s := FirstRule(cfg.rules, key).value;
      if s.HashOf? {
        v := Object(map[key := Str(a)]);
        OneFieldFails(cfg, key, a);
      } else {
        var value :| !FlipsHarmlessly(cfg, s, value);
        v := Object(map[key := Pairs(map[key := value])]);
        FlipFails(cfg, key, s, value);
        NestedPairFails(cfg, key, key, value);
      }
    }
  }

  ghost predicate StableOnClean(cfg: Config) {
    forall v: Meta :: v.Object? && Clean(cfg, v) ==> RedactObject(cfg, RedactObject(cfg, v)) == RedactObject(cfg, v)
  }

  /** Redaction is stable on every clean tree if and only if the configuration is settled. */
  lemma StableIff(cfg: Config)
    ensures StableOnClean(cfg) <==> Settled(cfg)
  {
    if Settled(cfg) {
      forall v: Meta | v.Object? && Clean(cfg, v)
        ensures RedactObject(cfg, RedactObject(cfg, v)) == RedactObject(cfg, v)
      {
        ObjectTwice(cfg, v);
      }
    } else {
      var v := UnsettledFails(cfg);
    }
  }

  lemma KeyIsSensitive()
    ensures SensitiveName("key")
  {
    assert Lower("key") == "key";
    assert SENSITIVE[5] == "key" && Contains("key", "key");
    assert Contains(Lower("key"), SENSITIVE[5]);
  }

  // ---- Whole events ----

  /** The parts of an event that redaction looks at. */
  datatype Event = Event(
    headers: Option<map<string, string>>,
    metadata: Option<map<string, Meta>>,
    token: Option<string>,
    messageId: string)

  function RedactEvent(cfg: Config, e: Event): Event {
    if !cfg.enabled then e
    else Event(
      if e.headers.None? then None else Some(RedactPairs(cfg, e.headers.value)),
      if e.metadata.None? then None else Some(RedactObject(cfg, Object(e.metadata.value)).fields),
      if e.token.None? then None else Some(RedactString(e.token.value, Partial)),
      if Detected(cfg, e.messageId) then RedactString(e.messageId, cfg.fallback) else e.messageId)
  }

  /** Redacting an event again changes nothing iff its metadata is clean. */
  lemma EventTwice(cfg: Config, e: Event)
    requires cfg.enabled && Settled(cfg)
    ensures (RedactEvent(cfg, RedactEvent(cfg, e)) == RedactEvent(cfg, e)) <==>
      (e.metadata.Some? ==> Clean(cfg, Object(e.metadata.value)))
  {
    if e.headers.Some? {
      PairsTwice(cfg, e.headers.value);
    }
    if e.metadata.Some? {
      var v := Object(e.metadata.value);
      ObjectTwice(cfg, v);
      assert Object(RedactObject(cfg, v).fields) == RedactObject(cfg, v);
      var w := RedactObject(cfg, RedactObject(cfg, v));
      assert w == RedactObject(cfg, v) <==> w.fields == RedactObject(cfg, v).fields;
    }
    if e.token.Some? {
      Twice(e.token.value, Partial, Partial);
    }
    Twice(e.messageId, cfg.fallback, cfg.fallback);
  }
}
