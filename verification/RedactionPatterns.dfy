/**
 The three patterns that value detection uses, and what they make of the stability of redaction:
 with them the exact condition is one on the strategies alone.
 */
module RedactionPatterns {
  import opened Text
  import opened Redaction
  import opened RedactionGuarantees

  // ---- The patterns ----

  predicate Digit(c: char) { '0' <= c <= '9' }

  predicate Letter(c: char) { 'a' <= c <= 'z' || 'A' <= c <= 'Z' }

  predicate Alphanumeric(c: char) { Letter(c) || Digit(c) }

  predicate Domain(c: char) { Alphanumeric(c) || c in ".-" }

  /** A dot and two letters. */
  predicate TopLevelAt(s: string, d: nat) {
    d + 2 < |s| && s[d] == '.' && Letter(s[d + 1]) && Letter(s[d + 2])
  }

  predicate AllDomain(s: string) { forall k :: 0 <= k < |s| ==> Domain(s[k]) }

  /** An at-sign after a character of the local part. */
  predicate MailboxAt(s: string, a: nat) {
    0 < a < |s| && s[a] == '@' && (Alphanumeric(s[a - 1]) || s[a - 1] in "._%+-")
  }

  /** Some part of the value is an e-mail address. */
  predicate Email(s: string) {
    exists a, d :: 0 <= a < |s| && a < d < |s| && MailboxAt(s, a) && TopLevelAt(s, d) && a + 1 < d &&
        AllDomain(s[a + 1..d])
  }

  predicate Separator(c: char) { c in "\t\n\r -" || c as int == 12 }

  predicate InWord(c: char) { Alphanumeric(c) || c == '_' }

  /** `groups` groups of four digits from `i` on, one separator allowed between two, then a boundary. */
  predicate GroupsFrom(s: string, i: nat, groups: nat)
    requires i <= |s|
    decreases groups
  {
    if groups == 0 then i == |s| || !InWord(s[i])
    else
      && i + 4 <= |s| && Digit(s[i]) && Digit(s[i + 1]) && Digit(s[i + 2]) && Digit(s[i + 3])
      && GroupsFrom(s, if groups > 1 && i + 4 < |s| && Separator(s[i + 4]) then i + 5 else i + 4, groups - 1)
  }

  predicate BoundaryBefore(s: string, i: nat) { i == 0 || i > |s| || !InWord(s[i - 1]) }

  /** Some part of the value is a card number. */
  predicate Card(s: string) {
    exists i :: 0 <= i < |s| && BoundaryBefore(s, i) && GroupsFrom(s, i, 4)
  }

  /** The end of a run of token characters. */
  function TokenEnd(s: string, i: nat): (j: nat)
    requires i <= |s|
    ensures i <= j <= |s|
    decreases |s| - i
  {
    if i < |s| && (Alphanumeric(s[i]) || s[i] in "_-") then TokenEnd(s, i + 1) else i
  }

  /** A header or payload part of a token: "eyJ", token characters and a dot; where it ends. */
  function PartEnd(s: string, i: nat): (end: Option<nat>)
    requires i <= |s|
    ensures end.Some? ==> i < end.value <= |s| && s[end.value - 1] == '.'
  {
    if i + 3 <= |s| && s[i..i + 3] == "eyJ" then
      var j := TokenEnd(s, i + 3);
      if j < |s| && s[j] == '.' then Some(j + 1) else None
    else None
  }

  predicate TokenFrom(s: string, i: nat)
    requires i <= |s|
  {
    PartEnd(s, i).Some? && PartEnd(s, PartEnd(s, i).value).Some?
  }

  /** Some part of the value is a JSON web token. */
  predicate Jwt(s: string) { exists i :: 0 <= i <= |s| && TokenFrom(s, i) }

  /** A configuration with these patterns. */
  ghost predicate Standard(cfg: Config) {
    forall s :: cfg.email(s) == Email(s) && cfg.card(s) == Card(s) && cfg.jwt(s) == Jwt(s)
  }

  // ---- Values the patterns say nothing about ----

  lemma NoAtNoEmail(s: string)
    requires '@' !in s
    ensures !Email(s)
  {
  }

  lemma NoDotNoToken(s: string)
    requires '.' !in s
    ensures !Jwt(s)
  {
  }

  lemma NoDigitNoCard(s: string)
    requires forall c :: c in s ==> !Digit(c)
    ensures !Card(s)
  {
  }

  /** Without dot, at-sign and digits only a long value without a space is detected. */
  lemma PlainValue(cfg: Config, s: string)
    requires Standard(cfg) && '@' !in s && '.' !in s && !Card(s)
    ensures SensitiveValue(cfg, s) <==> |s| > 32 && ' ' !in s
  {
    NoAtNoEmail(s);
    NoDotNoToken(s);
  }

  // ---- Two telling values ----

  /** Detected, and no longer detected once starred, shown in part or removed. */
  predicate Fades(cfg: Config, v: string) {
    && 9 <= |v| && v[0] != '*' && SensitiveValue(cfg, v)
    && !SensitiveValue(cfg, Stars(|v|)) && !SensitiveValue(cfg, RedactString(v, Partial))
    && !SensitiveValue(cfg, REDACTED)
  }

  /** Not detected until it is shown in part. */
  predicate Emerges(cfg: Config, v: string) {
    9 <= |v| && v[0] != '*' && !SensitiveValue(cfg, v) && SensitiveValue(cfg, RedactString(v, Partial))
  }

  const CARD := "4111111111111111"

  const SPACED := "aaaa                         aaaa"

  lemma SixteenDigitsAreCard(s: string)
    requires |s| == 16 && forall i :: 0 <= i < 16 ==> Digit(s[i])
    ensures Card(s)
  {
    assert GroupsFrom(s, 16, 0);
    assert GroupsFrom(s, 12, 1);
    assert GroupsFrom(s, 8, 2);
    assert GroupsFrom(s, 4, 3);
    assert BoundaryBefore(s, 0) && GroupsFrom(s, 0, 4);
  }

  lemma CardDetected(cfg: Config)
    requires Standard(cfg)
    ensures SensitiveValue(cfg, CARD)
  {
    SixteenDigitsAreCard(CARD);
    NoAtNoEmail(CARD);
  }

  lemma ShortStarsUndetected(cfg: Config, n: nat)
    requires Standard(cfg) && n <= 32
    ensures !SensitiveValue(cfg, Stars(n))
  {
    NoDigitNoCard(Stars(n));
    PlainValue(cfg, Stars(n));
  }

  lemma RemovedUndetected(cfg: Config)
    requires Standard(cfg)
    ensures !SensitiveValue(cfg, REDACTED)
  {
    NoDigitNoCard(REDACTED);
    PlainValue(cfg, REDACTED);
  }

  lemma CardFades(cfg: Config)
    requires Standard(cfg)
    ensures Fades(cfg, CARD)
  {
    CardDetected(cfg);
    ShortStarsUndetected(cfg, 16);
    RemovedUndetected(cfg);
    PartialCardIsNone();
    PlainValue(cfg, RedactString(CARD, Partial));
  }

  lemma {:induction false} GroupsLong(s: string, i: nat, groups: nat)
    requires i <= |s| && GroupsFrom(s, i, groups)
    ensures i + 4 * groups <= |s|
    decreases groups
  {
    if groups > 0 {
      GroupsLong(s, if groups > 1 && i + 4 < |s| && Separator(s[i + 4]) then i + 5 else i + 4, groups - 1);
    }
  }

  lemma PartialCardIsNone()
    ensures !Card(RedactString(CARD, Partial)) && '@' !in RedactString(CARD, Partial)
    ensures '.' !in RedactString(CARD, Partial)
  {
    var p := RedactString(CARD, Partial);
    assert |p| == 16 && p[4] == '*';
    forall i | 0 <= i < |p| && GroupsFrom(p, i, 4) ensures i == 0 {
      GroupsLong(p, i, 4);
    }
    assert !GroupsFrom(p, 4, 3);
    assert !GroupsFrom(p, 0, 4);
  }

  lemma SpacedEmerges(cfg: Config)
    requires Standard(cfg)
    ensures Emerges(cfg, SPACED)
  {
    var p := RedactString(SPACED, Partial);
    assert |SPACED| == 33 && SPACED[4] == ' ';
    NoDigitNoCard(SPACED);
    PlainValue(cfg, SPACED);
    assert p == "aaaa" + Stars(25) + "aaaa";
    NoDigitNoCard(p);
    PlainValue(cfg, p);
  }

  // ---- Stability by strategies ----

  lemma FadingHarm(cfg: Config, s: Strategy, v: string)
    requires Fades(cfg, v) && !cfg.fallback.HashOf? && !s.HashOf? && !Absorbs(cfg.fallback, s)
    ensures !FlipsHarmlessly(cfg, s, v)
  {
    var p := RedactString(v, Partial);
    assert p[0] != '*' && p[4] == '*' && Stars(|v|)[4] == '*' && REDACTED[4] == 'a';
  }

  lemma EmergingHarm(cfg: Config, s: Strategy, v: string)
    requires Emerges(cfg, v) && s.Partial? && (cfg.fallback.Mask? || cfg.fallback.Unrecognised?)
    ensures !FlipsHarmlessly(cfg, s, v)
  {
    assert RedactString(v, Partial)[0] != '*';
  }

  /** With the program's patterns, a rule's strategy fits detection iff it and the default absorb each other. */
  lemma FitsIff(cfg: Config, s: Strategy)
    requires Standard(cfg) && cfg.autoDetect && !cfg.fallback.HashOf?
    ensures Fits(cfg, s) <==> Absorbs(s, cfg.fallback) && Absorbs(cfg.fallback, s)
  {
    if Absorbs(s, cfg.fallback) && Absorbs(cfg.fallback, s) {
      AbsorbingFits(cfg, s);
    } else if !s.HashOf? {
      if !Absorbs(cfg.fallback, s) {
        CardFades(cfg);
        FadingHarm(cfg, s, CARD);
      } else {
        SpacedEmerges(cfg);
        EmergingHarm(cfg, s, SPACED);
      }
    }
  }

  /** No field name selects hashing and, with detection on, default and rules absorb each other. */
  ghost predicate Compatible(cfg: Config) {
    && !cfg.fallback.HashOf?
    && forall key :: !SensitiveName(key) && FirstRule(cfg.rules, key).Some? ==>
         var s := FirstRule(cfg.rules, key).value;
         !s.HashOf? && (cfg.autoDetect ==> Absorbs(s, cfg.fallback) && Absorbs(cfg.fallback, s))
  }

  /** With the program's patterns, redaction is stable on every clean tree iff the strategies are compatible. */
  lemma StableByStrategiesIff(cfg: Config)
    requires Standard(cfg)
    ensures StableOnClean(cfg) <==> Compatible(cfg)
  {
    StableIff(cfg);
    if !cfg.fallback.HashOf? && cfg.autoDetect {
      forall s ensures Fits(cfg, s) <==> Absorbs(s, cfg.fallback) && Absorbs(cfg.fallback, s) {
        FitsIff(cfg, s);
      }
    }
  }
}
