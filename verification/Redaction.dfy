/**
 Redaction of audit events: which strings of an event are replaced, and by what. The regular
 expressions for e-mail addresses, card numbers and JSON web tokens are predicates of the
 configuration; field-name matching and every replacement are modelled in full.
 */
module Redaction {
  import opened Text
  import Fnv

  datatype Strategy = Mask | HashOf | Remove | Partial | Unrecognised

  datatype Rule = Rule(fieldNames: seq<string>, strategy: Strategy)

  datatype Config = Config(
    enabled: bool,
    autoDetect: bool,
    fallback: Strategy,
    rules: seq<Rule>,
    email: string -> bool,
    card: string -> bool,
    jwt: string -> bool)

  /** A metadata value. `Other` is any further type, with its JSON form when it has one. */
  datatype Meta =
    | Str(text: string)
    | Object(fields: map<string, Meta>)
    | Pairs(pairs: map<string, string>)
    | Other(json: Option<string>)

  const REDACTED := "<redacted>"

  // ---- Strings ----

  function Stars(n: nat): (s: string)
    ensures |s| == n && forall i :: 0 <= i < n ==> s[i] == '*'
  {
    seq(n, i => '*')
  }

  function Bytes(s: string): seq<Fnv.Byte> {
    seq(|s|, i requires 0 <= i < |s| => Fnv.Bits(s[i] as int, 8))
  }

  function HexDigit(d: int): char
    requires 0 <= d < 16
  {
    "0123456789abcdef"[d]
  }

  /** `n` lower-case hexadecimal digits. */
  function Hex(w: nat, n: nat): (s: string)
    ensures |s| == n
    decreases n, w
  {
    if n == 0 then "" else Hex(w / 16, n - 1) + [HexDigit(w % 16)]
  }

  function HashText(w: Fnv.Word): (s: string)
    ensures |s| == 15 && s[4] == 'h'
  {
    "<hash-" + Hex(Fnv.Value(w), 8) + ">"
  }

  function RedactString(value: string, s: Strategy): string {
    if value == "" then value
    else match s
      case Mask => Stars(|value|)
      case HashOf => HashText(Fnv.Hash(Bytes(value)))
      case Remove => REDACTED
      case Partial =>
        if |value| <= 8 then Stars(|value|)
        else value[..4] + Stars(|value| - 8) + value[|value| - 4..]
      case Unrecognised => Stars(|value|)
  }

  // ---- Field names ----

  const SENSITIVE: seq<string> := [
    "password", "passwd", "pwd", "secret", "token", "key", "api_key", "apikey",
    "access_token", "refresh_token", "auth_token", "authorization",
    "credit_card", "creditcard", "card_number", "cvv", "ssn",
    "private_key", "privatekey", "credentials", "credential"]

  predicate Contains(s: string, sub: string) {
    sub <= s || (s != "" && Contains(s[1..], sub))
  }

  predicate SensitiveName(name: string) {
    exists i :: 0 <= i < |SENSITIVE| && Contains(Lower(name), SENSITIVE[i])
  }

  /** Wildcard match: a star stands for any run of bytes without a newline. */
  predicate Glob(p: string, s: string)
    decreases |p| + |s|
  {
    if p == "" then s == ""
    else if p[0] == '*' then Glob(p[1..], s) || (s != "" && s[0] != '\n' && Glob(p, s[1..]))
    else s != "" && s[0] == p[0] && Glob(p[1..], s[1..])
  }

  predicate MatchesName(name: string, pattern: string) {
    if '*' in Lower(pattern) then Glob(Lower(pattern), Lower(name))
    else Contains(Lower(name), Lower(pattern))
  }

  predicate MatchesNames(name: string, patterns: seq<string>) {
    exists i :: 0 <= i < |patterns| && MatchesName(name, patterns[i])
  }

  /** The strategy of the first rule that names the field. */
  function FirstRule(rules: seq<Rule>, name: string): Option<Strategy> {
    if rules == [] then None
    else if MatchesNames(name, rules[0].fieldNames) then Some(rules[0].strategy)
    else FirstRule(rules[1..], name)
  }

  /** The strategy a field is given by its name alone. */
  function ByName(cfg: Config, name: string): Option<Strategy> {
    if SensitiveName(name) then Some(cfg.fallback) else FirstRule(cfg.rules, name)
  }

  // ---- Values ----

  predicate SensitiveValue(cfg: Config, value: string) {
    !cfg.email(value) && (cfg.card(value) || cfg.jwt(value) || (|value| > 32 && ' ' !in value))
  }

  predicate Detected(cfg: Config, value: string) { cfg.autoDetect && SensitiveValue(cfg, value) }

  /** One entry of a string map: detection comes before the rules. */
  function RedactPair(cfg: Config, key: string, value: string): string {
    if SensitiveName(key) || Detected(cfg, value) then RedactString(value, cfg.fallback)
    else match FirstRule(cfg.rules, key)
      case Some(s) => RedactString(value, s)
      case None => value
  }

  function RedactPairs(cfg: Config, m: map<string, string>): map<string, string> {
    map k | k in m :: RedactPair(cfg, k, m[k])
  }

  /** One entry of a metadata object: the rules come before detection. */
  function RedactField(cfg: Config, key: string, v: Meta): Meta
    decreases v, 2
  {
    match ByName(cfg, key)
    case Some(s) => RedactValue(cfg, v, s)
    case None => RedactUnnamed(cfg, v)
  }

  /** Nested maps are redacted entry by entry whatever their own name; the rest as a string. */
  function RedactValue(cfg: Config, v: Meta, s: Strategy): Meta
    decreases v, 1
  {
    match v
    case Str(a) => Str(RedactString(a, s))
    case Object(_) => RedactObject(cfg, v)
    case Pairs(m) => Pairs(RedactPairs(cfg, m))
    case Other(Some(j)) => Str(RedactString(j, s))
    case Other(None) => Str(REDACTED)
  }

  function RedactUnnamed(cfg: Config, v: Meta): Meta
    decreases v, 1
  {
    match v
    case Str(a) => if Detected(cfg, a) then Str(RedactString(a, cfg.fallback)) else v
    case Object(_) => RedactObject(cfg, v)
    case Pairs(m) => Pairs(RedactPairs(cfg, m))
    case Other(_) => v
  }

  function RedactObject(cfg: Config, v: Meta): Meta
    requires v.Object?
    decreases v, 0
  {
    Object(map k | k in v.fields :: RedactField(cfg, k, v.fields[k]))
  }

  // ---- The loops ----

  method IsSensitiveFieldName(name: string) returns (sensitive: bool)
    ensures sensitive == SensitiveName(name)
  {
    var lower := Lower(name);
    sensitive := false;
    for i := 0 to |SENSITIVE|
      invariant sensitive == exists j :: 0 <= j < i && Contains(lower, SENSITIVE[j])
    {
      if Contains(lower, SENSITIVE[i]) {
        sensitive := true;
      }
    }
  }

  method MatchesFieldName(name: string, patterns: seq<string>) returns (matched: bool)
    ensures matched == MatchesNames(name, patterns)
  {
    matched := false;
    for i := 0 to |patterns|
      invariant matched == exists j :: 0 <= j < i && MatchesName(name, patterns[j])
    {
      if MatchesName(name, patterns[i]) {
        matched := true;
      }
    }
  }

  /** The search through the rules, stopping at the first match. */
  method FindRule(rules: seq<Rule>, name: string) returns (found: Option<Strategy>)
    ensures found == FirstRule(rules, name)
  {
    var i := 0;
    found := None;
    while i < |rules| && found == None
      invariant 0 <= i <= |rules|
      invariant found == None ==> FirstRule(rules, name) == FirstRule(rules[i..], name)
      invariant found != None ==> found == FirstRule(rules, name)
      decreases |rules| - i, found == None
    {
      var matched := MatchesFieldName(name, rules[i].fieldNames);
      assert rules[i..][1..] == rules[i + 1..];
      if matched {
        found := Some(rules[i].strategy);
      } else {
        i := i + 1;
      }
    }
  }

  method RedactMap(cfg: Config, m: map<string, string>) returns (r: map<string, string>)
    ensures r == RedactPairs(cfg, m)
  {
    r := map[];
    var rest := m.Keys;
    while rest != {}
      invariant rest <= m.Keys && r.Keys == m.Keys - rest
      invariant forall k :: k in r ==> r[k] == RedactPair(cfg, k, m[k])
    {
      var k :| k in rest;
      rest := rest - {k};
      var value := m[k];
      var sensitive := IsSensitiveFieldName(k);
      if sensitive || (cfg.autoDetect && SensitiveValue(cfg, value)) {
        value := RedactString(value, cfg.fallback);
      } else {
        var rule := FindRule(cfg.rules, k);
        if rule.Some? {
          value := RedactString(value, rule.value);
        }
      }
      r := r[k := value];
    }
  }

  method RedactMetadata(cfg: Config, v: Meta) returns (r: Meta)
    requires v.Object?
    ensures r == RedactObject(cfg, v)
    decreases v, 2
  {
    var fields := map[];
    var rest := v.fields.Keys;
    while rest != {}
      invariant rest <= v.fields.Keys && fields.Keys == v.fields.Keys - rest
      invariant forall k :: k in fields ==> fields[k] == RedactField(cfg, k, v.fields[k])
    {
      var k :| k in rest;
      rest := rest - {k};
      var field := RedactEntry(cfg, k, v.fields[k]);
      fields := fields[k := field];
    }
    r := Object(fields);
  }

  method RedactEntry(cfg: Config, key: string, v: Meta) returns (r: Meta)
    ensures r == RedactField(cfg, key, v)
    decreases v, 3
  {
    var sensitive := IsSensitiveFieldName(key);
    var rule := Some(cfg.fallback);
    if !sensitive {
      rule := FindRule(cfg.rules, key);
    }
    match v
    case Object(_) =>
      r := RedactMetadata(cfg, v);
    case Pairs(m) =>
      var pairs := RedactMap(cfg, m);
      r := Pairs(pairs);
    case Str(a) =>
      if rule.Some? {
        r := Str(RedactString(a, rule.value));
      } else if cfg.autoDetect && SensitiveValue(cfg, a) {
        r := Str(RedactString(a, cfg.fallback));
      } else {
        r := v;
      }
    case Other(json) =>
      if rule.None? {
        r := v;
      } else if json.Some? {
        r := Str(RedactString(json.value, rule.value));
      } else {
        r := Str(REDACTED);
      }
  }
}
