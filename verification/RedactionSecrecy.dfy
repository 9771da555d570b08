/**
 What redaction hides and what it keeps: two events that differ only inside their secrets come
 out equal exactly under the hiding strategies, names and lengths stay, and the default rules
 never decide anything.
 */
module RedactionSecrecy {
  import opened Text
  import opened Redaction
  import RedactionGuarantees
  import RedactionHash

  // ---- Two runs ----

  /** The string that a value is redacted as, when it is redacted as one. */
  function Spelling(v: Meta): Option<string> {
    match v
    case Str(a) => Some(a)
    case Other(json) => json
    case _ => None
  }

  /** Both are redacted as strings of one length, or both have no string form. */
  predicate AlikeSecret(v: Meta, w: Meta)
    decreases v, 1
  {
    match v
    case Object(_) => w.Object? && AlikeObject(v, w)
    case Pairs(m) => w.Pairs? && AlikePairs(m, w.pairs)
    case _ =>
      !w.Object? && !w.Pairs?
      && Spelling(v).Some? == Spelling(w).Some?
      && (Spelling(v).Some? ==> |Spelling(v).value| == |Spelling(w).value|)
  }

  /** Equal, except inside secrets below. */
  predicate AlikePublic(v: Meta, w: Meta)
    decreases v, 1
  {
    match v
    case Object(_) => w.Object? && AlikeObject(v, w)
    case Pairs(m) => w.Pairs? && AlikePairs(m, w.pairs)
    case _ => v == w
  }

  predicate AlikePairs(m: map<string, string>, n: map<string, string>) {
    m.Keys == n.Keys
    && forall k :: k in m ==> if SensitiveName(k) then |m[k]| == |n[k]| else m[k] == n[k]
  }

  predicate AlikeObject(v: Meta, w: Meta)
    requires v.Object? && w.Object?
    decreases v, 0
  {
    v.fields.Keys == w.fields.Keys
    && forall k :: k in v.fields ==>
      if SensitiveName(k) then AlikeSecret(v.fields[k], w.fields[k]) else AlikePublic(v.fields[k], w.fields[k])
  }

  /** The result of a hiding strategy depends on the length only. */
  predicate Hides(s: Strategy) { s.Mask? || s.Unrecognised? || s.Remove? }

  lemma HiddenAlike(a: string, b: string, s: Strategy)
    requires Hides(s) && |a| == |b|
    ensures RedactString(a, s) == RedactString(b, s)
  {
  }

  lemma PairsAlike(cfg: Config, m: map<string, string>, n: map<string, string>)
    requires Hides(cfg.fallback) && AlikePairs(m, n)
    ensures RedactPairs(cfg, m) == RedactPairs(cfg, n)
  {
  }

  lemma {:induction false} SecretsAlike(cfg: Config, v: Meta, w: Meta)
    requires Hides(cfg.fallback) && AlikeSecret(v, w)
    ensures RedactValue(cfg, v, cfg.fallback) == RedactValue(cfg, w, cfg.fallback)
    decreases v, 1
  {
    match v
    case Object(_) => ObjectsAlike(cfg, v, w);
    case Pairs(m) => PairsAlike(cfg, m, w.pairs);
    case _ =>
      if Spelling(v).Some? {
        HiddenAlike(Spelling(v).value, Spelling(w).value, cfg.fallback);
      }
  }

  lemma {:induction false} PublicAlike(cfg: Config, key: string, v: Meta, w: Meta)
    requires Hides(cfg.fallback) && AlikePublic(v, w)
    ensures RedactField(cfg, key, v) == RedactField(cfg, key, w)
    decreases v, 1
  {
    match v
    case Object(_) => ObjectsAlike(cfg, v, w);
    case Pairs(m) => PairsAlike(cfg, m, w.pairs);
    case _ =>
  }

  /** Metadata that differs only in equally long secrets, at any depth, redacts to equal metadata. */
  lemma {:induction false} ObjectsAlike(cfg: Config, v: Meta, w: Meta)
    requires v.Object? && w.Object?
    requires Hides(cfg.fallback) && AlikeObject(v, w)
    ensures RedactObject(cfg, v) == RedactObject(cfg, w)
    decreases v, 0
  {
    forall k | k in v.fields ensures RedactField(cfg, k, v.fields[k]) == RedactField(cfg, k, w.fields[k]) {
      if SensitiveName(k) {
        SecretsAlike(cfg, v.fields[k], w.fields[k]);
      } else {
        PublicAlike(cfg, k, v.fields[k], w.fields[k]);
      }
    }
    assert RedactObject(cfg, v).fields == RedactObject(cfg, w).fields;
  }

  ghost predicate Secret(cfg: Config) {
    forall v: Meta, w: Meta :: v.Object? && w.Object? && AlikeObject(v, w) ==>
        RedactObject(cfg, v) == RedactObject(cfg, w)
  }

  lemma RevealingPair(s: Strategy) returns (a: string, b: string)
    requires !Hides(s)
    ensures |a| == |b| && RedactString(a, s) != RedactString(b, s)
  {
    a, b := "aaaaaaaaa", "baaaaaaaa";
    if s.HashOf? {
      RedactionHash.HashRedactionSeparates(a, b, 0);
    } else {
      assert RedactString(a, s)[0] == 'a' && RedactString(b, s)[0] == 'b';
    }
  }

  lemma OneSecret(cfg: Config, key: string, a: string)
    requires SensitiveName(key)
    ensures RedactObject(cfg, Object(map[key := Str(a)])) == Object(map[key := Str(RedactString(a, cfg.fallback))])
  {
    assert RedactField(cfg, key, Str(a)) == Str(RedactString(a, cfg.fallback));
  }

  lemma OneSecretAlike(key: string, a: string, b: string)
    requires SensitiveName(key) && |a| == |b|
    ensures AlikeObject(Object(map[key := Str(a)]), Object(map[key := Str(b)]))
  {
  }

  lemma Reveals(cfg: Config, key: string)
    requires SensitiveName(key) && !Hides(cfg.fallback)
    ensures !Secret(cfg)
  {
    var a, b := RevealingPair(cfg.fallback);
    OneSecretAlike(key, a, b);
    OneSecret(cfg, key, a);
    OneSecret(cfg, key, b);
    var m, n := map[key := Str(RedactString(a, cfg.fallback))], map[key := Str(RedactString(b, cfg.fallback))];
    assert m[key] != n[key];
  }

  /** Secrets never influence the output beyond their length iff the default strategy hides. */
  lemma SecretIff(cfg: Config)
    ensures Secret(cfg) <==> Hides(cfg.fallback)
  {
    if Hides(cfg.fallback) {
      forall v: Meta, w: Meta | v.Object? && w.Object? && AlikeObject(v, w)
        ensures RedactObject(cfg, v) == RedactObject(cfg, w)
      {
        ObjectsAlike(cfg, v, w);
      }
    } else {
      RedactionGuarantees.KeyIsSensitive();
      Reveals(cfg, "key");
    }
  }

  /** The partial strategy reveals the length and, beyond eight bytes, the outer four on each side. */
  lemma PartialRevealsIff(a: string, b: string)
    ensures RedactString(a, Partial) == RedactString(b, Partial) <==>
      |a| == |b| && (|a| > 8 ==> a[..4] == b[..4] && a[|a| - 4..] == b[|b| - 4..])
  {
    var r, r' := RedactString(a, Partial), RedactString(b, Partial);
    assert |r| == |a| && |r'| == |b|;
    if |a| == |b| && |a| > 8 {
      assert r[..4] == a[..4] && r'[..4] == b[..4];
      assert r[|a| - 4..] == a[|a| - 4..] && r'[|a| - 4..] == b[|b| - 4..];
    } else if |a| == |b| {
      assert r == Stars(|a|) && r' == Stars(|a|);
    }
  }

  // ---- Outline ----

  predicate KeepsLength(s: Strategy) { s.Mask? || s.Unrecognised? || s.Partial? }

  /** Same nesting and names and, when `exact`, every string as long as what it replaces. */
  predicate Outline(v: Meta, w: Meta, exact: bool)
    decreases v
  {
    match v
    case Object(fields) =>
      w.Object? && w.fields.Keys == fields.Keys
      && forall k :: k in fields ==> Outline(fields[k], w.fields[k], exact)
    case Pairs(m) =>
      w.Pairs? && w.pairs.Keys == m.Keys
      && (exact ==> forall k :: k in m ==> |w.pairs[k]| == |m[k]|)
    case Str(a) => w.Str? && (exact ==> |w.text| == |a|)
    case Other(json) => w == v || (w.Str? && (exact && json.Some? ==> |w.text| == |json.value|))
  }

  predicate LengthsKept(cfg: Config) {
    KeepsLength(cfg.fallback) && forall i :: 0 <= i < |cfg.rules| ==> KeepsLength(cfg.rules[i].strategy)
  }

  lemma PairKeepsLength(cfg: Config, key: string, value: string)
    requires LengthsKept(cfg)
    ensures |RedactPair(cfg, key, value)| == |value|
  {
    RedactionGuarantees.FirstRuleOneOf(cfg.rules, key);
  }

  lemma {:induction false} FieldOutline(cfg: Config, key: string, v: Meta)
    ensures Outline(v, RedactField(cfg, key, v), LengthsKept(cfg))
    decreases v, 1
  {
    RedactionGuarantees.FirstRuleOneOf(cfg.rules, key);
    match v
    case Object(_) =>
      ObjectOutline(cfg, v);
    case Pairs(m) =>
      if LengthsKept(cfg) {
        forall k | k in m ensures |RedactPair(cfg, k, m[k])| == |m[k]| {
          PairKeepsLength(cfg, k, m[k]);
        }
      }
    case Str(_) =>
    case Other(_) =>
  }

  /** Redaction keeps the outline of metadata, lengths included if every strategy keeps lengths. */
  lemma {:induction false} ObjectOutline(cfg: Config, v: Meta)
    requires v.Object?
    ensures Outline(v, RedactObject(cfg, v), LengthsKept(cfg))
    decreases v, 0
  {
    forall k | k in v.fields ensures Outline(v.fields[k], RedactField(cfg, k, v.fields[k]), LengthsKept(cfg)) {
      FieldOutline(cfg, k, v.fields[k]);
    }
  }

  // ---- The default rules ----

  const MASKED_NAMES := ["password", "passwd", "pwd"]
  const TOKEN_NAMES := ["token", "*_token", "api_key", "apikey", "secret"]
  const CARD_NAMES := ["credit_card", "card_number", "cvv"]

  const DEFAULT_RULES := [Rule(MASKED_NAMES, Mask), Rule(TOKEN_NAMES, Partial), Rule(CARD_NAMES, Partial)]

  function DefaultConfig(email: string -> bool, card: string -> bool, jwt: string -> bool): Config {
    Config(true, true, Mask, DEFAULT_RULES, email, card, jwt)
  }

  lemma {:induction false} GlobLiteral(p: string, s: string)
    requires '*' !in p && Glob(p, s)
    ensures p == s
  {
    if p != "" {
      GlobLiteral(p[1..], s[1..]);
      assert p == [p[0]] + p[1..] && s == [s[0]] + s[1..];
    }
  }

  lemma {:induction false} GlobSuffix(p: string, s: string)
    requires '*' !in p && Glob(['*'] + p, s)
    ensures Contains(s, p)
    decreases |s|
  {
    var q := ['*'] + p;
    assert q[1..] == p;
    if Glob(p, s) {
      GlobLiteral(p, s);
    } else {
      GlobSuffix(p, s[1..]);
    }
  }

  lemma {:induction false} ContainsTail(s: string, c: char, p: string)
    requires Contains(s, [c] + p)
    ensures Contains(s, p)
    decreases |s|
  {
    if [c] + p <= s {
      assert s[1..][..|p|] == ([c] + p)[1..] == p;
      assert p <= s[1..];
    } else {
      ContainsTail(s[1..], c, p);
    }
  }

  lemma StarTokenIsSensitive(name: string)
    requires MatchesName(name, "*_token")
    ensures SensitiveName(name)
  {
    var p := "_token";
    assert Lower("*_token") == ['*'] + p;
    GlobSuffix(p, Lower(name));
    assert p == ['_'] + "token";
    ContainsTail(Lower(name), '_', "token");
    assert SENSITIVE[4] == "token";
  }

  /** A plain pattern from the sensitive list. */
  predicate Listed(p: string) { p in SENSITIVE && Lower(p) == p && '*' !in p }

  lemma ListedIsSensitive(name: string, p: string)
    requires Listed(p) && MatchesName(name, p)
    ensures SensitiveName(name)
  {
  }

  predicate AllListed(patterns: seq<string>) {
    forall j :: 0 <= j < |patterns| ==> Listed(patterns[j]) || patterns[j] == "*_token"
  }

  lemma RuleIsSensitive(name: string, patterns: seq<string>)
    requires AllListed(patterns) && MatchesNames(name, patterns)
    ensures SensitiveName(name)
  {
    var j :| 0 <= j < |patterns| && MatchesName(name, patterns[j]);
    if patterns[j] == "*_token" {
      StarTokenIsSensitive(name);
    } else {
      ListedIsSensitive(name, patterns[j]);
    }
  }

  lemma MaskedNamesListed()
    ensures AllListed(MASKED_NAMES)
  {
    assert SENSITIVE[0] == "password" && SENSITIVE[1] == "passwd" && SENSITIVE[2] == "pwd";
  }

  lemma TokenNamesListed()
    ensures AllListed(TOKEN_NAMES)
  {
    assert SENSITIVE[4] == "token" && SENSITIVE[6] == "api_key" && SENSITIVE[7] == "apikey" && SENSITIVE[3] == "secret";
  }

  lemma CardNamesListed()
    ensures AllListed(CARD_NAMES)
  {
    assert SENSITIVE[12] == "credit_card" && SENSITIVE[14] == "card_number" && SENSITIVE[15] == "cvv";
  }

  /** Every field the default rules name is sensitive by name already: the rules never decide. */
  lemma DefaultRulesNeverDecide(name: string)
    ensures FirstRule(DEFAULT_RULES, name).Some? ==> SensitiveName(name)
  {
    if FirstRule(DEFAULT_RULES, name).Some? {
      var r := FirstRuleMatches(DEFAULT_RULES, name);
      MaskedNamesListed();
      TokenNamesListed();
      CardNamesListed();
      RuleIsSensitive(name, DEFAULT_RULES[r].fieldNames);
    }
  }

  lemma {:induction false} FirstRuleMatches(rules: seq<Rule>, name: string) returns (i: nat)
    requires FirstRule(rules, name).Some?
    ensures i < |rules| && MatchesNames(name, rules[i].fieldNames)
  {
    if MatchesNames(name, rules[0].fieldNames) {
      i := 0;
    } else {
      i := FirstRuleMatches(rules[1..], name);
      i := i + 1;
    }
  }

  /** So the default configuration is settled although it mixes masking and partial rules. */
  lemma DefaultIsSettled(email: string -> bool, card: string -> bool, jwt: string -> bool)
    ensures RedactionGuarantees.Settled(DefaultConfig(email, card, jwt))
  {
    forall key | !SensitiveName(key) ensures FirstRule(DEFAULT_RULES, key).None? {
      DefaultRulesNeverDecide(key);
    }
  }

  /** Redacting an event again under the defaults changes nothing iff its metadata is clean. */
  lemma DefaultIsStable(
    email: string -> bool, card: string -> bool, jwt: string -> bool, e: RedactionGuarantees.Event)
    ensures
      var cfg := DefaultConfig(email, card, jwt);
      var once := RedactionGuarantees.RedactEvent(cfg, e);
      RedactionGuarantees.RedactEvent(cfg, once) == once <==>
      (e.metadata.Some? ==> RedactionGuarantees.Clean(cfg, Object(e.metadata.value)))
  {
    DefaultIsSettled(email, card, jwt);
    RedactionGuarantees.EventTwice(DefaultConfig(email, card, jwt), e);
  }
}
