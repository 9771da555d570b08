/**
 Authentication contexts printed into message headers and parsed back. The token uses the Bearer
 form of section 2.1 of RFC 6750. The rendered creation time is written; what the parser makes of
 it is not part of this model.
 */
module AuthHeaders {
  import opened Text

  const NONE := "none"
  const JWT := "jwt"
  const APIKEY := "apikey"
  const CERTIFICATE := "certificate"

  datatype Credentials = Credentials(
    kind: string,
    token: string,
    apiKey: string,
    certificate: bool,
    userId: string,
    scopes: seq<string>,
    metadata: map<string, string>)

  datatype Context = Context(
    credentials: Option<Credentials>,
    timestamp: string,
    messageId: string,
    correlationId: string)

  type Headers = map<string, string>

  /** What the parser reads back, or a rejection. */
  datatype Parsed = Rejected | Accepted(credentials: Credentials, messageId: string, correlationId: string)

  predicate Valid(c: Credentials) {
    c.kind == NONE
    || (c.kind == JWT && c.token != "")
    || (c.kind == APIKEY && c.apiKey != "")
    || (c.kind == CERTIFICATE && c.certificate)
  }

  // ---- Printing ----

  const TYPE := "x-auth-type"
  const USER := "x-auth-user-id"
  const TIMESTAMP := "x-auth-timestamp"
  const MESSAGE := "x-auth-message-id"
  const CORRELATION := "x-auth-correlation-id"
  const AUTHORIZATION := "authorization"
  const API_KEY := "x-api-key"
  const SCOPES := "x-auth-scopes"
  const META := "x-auth-meta-"
  const BEARER := "Bearer "

  function With(h: Headers, present: bool, name: string, value: string): Headers {
    if present then h[name := value] else h
  }

  /** The headers with fixed names. */
  function Fixed(ctx: Context, c: Credentials): Headers {
    var h := map[TYPE := c.kind][USER := c.userId][TIMESTAMP := ctx.timestamp][MESSAGE := ctx.messageId];
    var h := With(h, ctx.correlationId != "", CORRELATION, ctx.correlationId);
    var h := With(h, c.kind == JWT, AUTHORIZATION, BEARER + c.token);
    var h := With(h, c.kind == APIKEY, API_KEY, c.apiKey);
    With(h, c.scopes != [], SCOPES, Join(c.scopes, ','))
  }

  function MetaKeys(m: map<string, string>): (keys: set<string>)
    ensures forall x :: x in keys <==> META <= x && x[|META|..] in m
  {
    var keys := set k | k in m :: META + k;
    assert forall k :: META <= META + k && (META + k)[|META|..] == k;
    assert forall x :: META <= x ==> x == META + x[|META|..];
    keys
  }

  function MetaHeaders(m: map<string, string>): Headers {
    map x | x in MetaKeys(m) :: m[x[|META|..]]
  }

  function Print(ctx: Context): Headers {
    if ctx.credentials.None? then map[]
    else Fixed(ctx, ctx.credentials.value) + MetaHeaders(ctx.credentials.value.metadata)
  }

  method ToHeaders(ctx: Context) returns (h: Headers)
    ensures h == Print(ctx)
  {
    h := map[];
    if ctx.credentials.Some? {
      var c := ctx.credentials.value;
      h := map[TYPE := c.kind];
      h := h[USER := c.userId];
      h := h[TIMESTAMP := ctx.timestamp];
      h := h[MESSAGE := ctx.messageId];
      if ctx.correlationId != "" {
        h := h[CORRELATION := ctx.correlationId];
      }
      if c.kind == JWT {
        h := h[AUTHORIZATION := BEARER + c.token];
      } else if c.kind == APIKEY {
        h := h[API_KEY := c.apiKey];
      }
      if |c.scopes| > 0 {
        h := h[SCOPES := Join(c.scopes, ',')];
      }
      assert h == Fixed(ctx, c);
      h := AddMetadata(h, c.metadata);
    }
  }

  method AddMetadata(h: Headers, m: map<string, string>) returns (h': Headers)
    ensures h' == h + MetaHeaders(m)
  {
    h' := h;
    var rest := m.Keys;
    ghost var done: map<string, string> := map[];
    MetaHeadersEmpty();
    assert h + map[] == h;
    while rest != {}
      invariant rest <= m.Keys && done.Keys == m.Keys - rest
      invariant forall k :: k in done ==> done[k] == m[k]
      invariant h' == h + MetaHeaders(done)
    {
      var k :| k in rest;
      MetaHeadersAdd(done, k, m[k]);
      UpdateOfSum(h, MetaHeaders(done), META + k, m[k]);
      done := done[k := m[k]];
      h' := h'[META + k := m[k]];
      rest := rest - {k};
    }
    assert done == m;
  }

  lemma UpdateOfSum(a: Headers, b: Headers, name: string, value: string)
    ensures (a + b)[name := value] == a + b[name := value]
  {
  }

  lemma MetaHeadersEmpty()
    ensures MetaHeaders(map[]) == map[]
  {
  }

  lemma MetaHeadersAdd(m: map<string, string>, k: string, v: string)
    ensures MetaHeaders(m[k := v]) == MetaHeaders(m)[META + k := v]
  {
  }

  lemma MetaNamesDiffer(j: string, k: string)
    ensures META + j == META + k <==> j == k
  {
    assert (META + j)[|META|..] == j && (META + k)[|META|..] == k;
  }

  // ---- Parsing ----

  function Get(h: Headers, name: string): string { if name in h then h[name] else "" }

  /** A header name that belongs to metadata, without its prefix. */
  function MetaNames(h: Headers): (names: set<string>)
    ensures forall k :: k in names <==> META + k in h
  {
    var names := set x | x in h && META <= x :: x[|META|..];
    assert forall k :: META + k in h ==> (META + k)[|META|..] == k && META <= META + k;
    assert forall x :: x in h && META <= x ==> x == META + x[|META|..];
    names
  }

  function Metadata(h: Headers): map<string, string> {
    map k | k in MetaNames(h) :: h[META + k]
  }

  function BearerToken(value: string): string {
    if BEARER <= value then value[|BEARER|..] else ""
  }

  function Read(h: Headers): Credentials {
    var kind := Get(h, TYPE);
    Credentials(
      kind,
      if kind == JWT then BearerToken(Get(h, AUTHORIZATION)) else "",
      if kind == APIKEY then Get(h, API_KEY) else "",
      false,
      Get(h, USER),
      if Get(h, SCOPES) == "" then [] else Split(Get(h, SCOPES), ','),
      Metadata(h))
  }

  function Parse(h: Headers): Parsed {
    if Get(h, TYPE) == "" then
      Accepted(Credentials(NONE, "", "", false, "", [], map[]), Get(h, MESSAGE), "")
    else if Valid(Read(h)) then Accepted(Read(h), Get(h, MESSAGE), Get(h, CORRELATION))
    else Rejected
  }

  method FromHeaders(h: Headers) returns (p: Parsed)
    ensures p == Parse(h)
  {
    var kind := Get(h, TYPE);
    if kind == "" {
      return Accepted(Credentials(NONE, "", "", false, "", [], map[]), Get(h, MESSAGE), "");
    }
    var c := Credentials(kind, "", "", false, Get(h, USER), [], map[]);
    if Get(h, SCOPES) != "" {
      c := c.(scopes := Split(Get(h, SCOPES), ','));
    }
    if kind == JWT {
      var value := Get(h, AUTHORIZATION);
      if value != "" && BEARER <= value {
        c := c.(token := TrimPrefix(value, BEARER));
      }
    } else if kind == APIKEY {
      c := c.(apiKey := Get(h, API_KEY));
    }
    var metadata := CollectMetadata(h);
    c := c.(metadata := metadata);
    assert c == Read(h);
    p := if Valid(c) then Accepted(c, Get(h, MESSAGE), Get(h, CORRELATION)) else Rejected;
  }

  method CollectMetadata(h: Headers) returns (m: map<string, string>)
    ensures m == Metadata(h)
  {
    m := map[];
    var rest := h.Keys;
    while rest != {}
      invariant rest <= h.Keys
      invariant forall k :: k in m <==> META + k in h && META + k !in rest
      invariant forall k :: k in m ==> m[k] == h[META + k]
    {
      var x :| x in rest;
      rest := rest - {x};
      if META <= x {
        var key := TrimPrefix(x, META);
        assert x == META + key;
        forall k ensures META + k == x <==> k == key {
          MetaNamesDiffer(k, key);
        }
        m := m[key := h[x]];
      } else {
        assert forall k :: META <= META + k;
      }
    }
  }

  // ---- Round trip ----

  /** No fixed header is a metadata header. */
  lemma FixedNotMeta(m: map<string, string>)
    ensures forall x :: x in {TYPE, USER, TIMESTAMP, MESSAGE, CORRELATION, AUTHORIZATION, API_KEY, SCOPES} ==>
        x !in MetaHeaders(m)
  {
    assert TYPE[7] != META[7] && USER[7] != META[7] && TIMESTAMP[7] != META[7] && MESSAGE[9] != META[9];
    assert CORRELATION[7] != META[7] && AUTHORIZATION[0] != META[0] && API_KEY[3] != META[3] && SCOPES[7] != META[7];
  }

  lemma FixedNames(ctx: Context, c: Credentials)
    ensures forall k :: META + k !in Fixed(ctx, c)
  {
    assert TYPE[7] != META[7] && USER[7] != META[7] && TIMESTAMP[7] != META[7] && MESSAGE[9] != META[9];
    assert CORRELATION[7] != META[7] && AUTHORIZATION[0] != META[0] && API_KEY[3] != META[3] && SCOPES[7] != META[7];
    forall k ensures META + k !in Fixed(ctx, c) {
      var x := META + k;
      assert x[7] == META[7] && x[9] == META[9] && x[0] == META[0] && x[3] == META[3];
    }
  }

  /** Metadata headers come back as the metadata, whatever its keys. */
  lemma MetadataRecovered(ctx: Context, c: Credentials)
    requires ctx.credentials == Some(c)
    ensures Metadata(Print(ctx)) == c.metadata
  {
    FixedNames(ctx, c);
    var h := Print(ctx);
    forall k ensures META + k in h <==> k in c.metadata {
      assert (META + k)[|META|..] == k;
    }
    forall k | k in c.metadata ensures h[META + k] == c.metadata[k] {
      assert (META + k)[|META|..] == k;
      assert META + k in MetaHeaders(c.metadata);
    }
  }

  lemma FixedValues(ctx: Context, c: Credentials)
    ensures
      var h := Fixed(ctx, c);
      && Get(h, TYPE) == c.kind
      && Get(h, USER) == c.userId
      && Get(h, MESSAGE) == ctx.messageId
      && Get(h, CORRELATION) == ctx.correlationId
      && (c.kind == JWT ==> Get(h, AUTHORIZATION) == BEARER + c.token)
      && (c.kind == APIKEY ==> Get(h, API_KEY) == c.apiKey)
      && Get(h, SCOPES) == Join(c.scopes, ',')
  {
  }

  lemma PrintedValues(ctx: Context, c: Credentials)
    requires ctx.credentials == Some(c)
    ensures
      forall x :: x in {TYPE, USER, TIMESTAMP, MESSAGE, CORRELATION, AUTHORIZATION, API_KEY, SCOPES} ==>
        Get(Print(ctx), x) == Get(Fixed(ctx, c), x)
  {
    FixedNotMeta(c.metadata);
  }

  // ---- Scopes ----

  function ReadScopes(value: string): seq<string> { if value == "" then [] else Split(value, ',') }

  /** Scopes that survive the comma-separated header. */
  predicate Printable(scopes: seq<string>) {
    scopes == [] || (Free(scopes, ',') && scopes != [""])
  }

  lemma JoinEmpty(scopes: seq<string>)
    requires scopes != []
    ensures Join(scopes, ',') == "" <==> scopes == [""]
  {
  }

  lemma ScopesRecoveredIff(scopes: seq<string>)
    ensures ReadScopes(Join(scopes, ',')) == scopes <==> Printable(scopes)
  {
    if scopes != [] {
      JoinEmpty(scopes);
      SplitPartsFree(Join(scopes, ','), ',');
      if Free(scopes, ',') {
        SplitUndoesJoin(scopes, ',');
      }
    }
  }

  // ---- The round trip ----

  /** What is read from printed headers, field by field; an unused secret is not carried. */
  lemma ReadPrinted(ctx: Context, c: Credentials)
    requires ctx.credentials == Some(c)
    ensures Read(Print(ctx)) == Credentials(
      c.kind,
      if c.kind == JWT then c.token else "",
      if c.kind == APIKEY then c.apiKey else "",
      false,
      c.userId,
      ReadScopes(Join(c.scopes, ',')),
      c.metadata)
  {
    FixedValues(ctx, c);
    PrintedValues(ctx, c);
    MetadataRecovered(ctx, c);
    assert (BEARER + c.token)[|BEARER|..] == c.token;
  }

  /** Printed headers are refused exactly for certificates and for credentials that are not valid. */
  lemma AcceptedIff(ctx: Context, c: Credentials)
    requires ctx.credentials == Some(c)
    ensures Parse(Print(ctx)).Accepted? <==> c.kind == "" || (Valid(c) && c.kind != CERTIFICATE)
  {
    FixedValues(ctx, c);
    PrintedValues(ctx, c);
    ReadPrinted(ctx, c);
  }

  /**
   Parsing the printed headers of valid token or API-key credentials recovers the type, the user,
   the active secret, the metadata and both identifiers, and the scopes iff they are printable.
   */
  lemma RoundTrip(ctx: Context, c: Credentials)
    requires ctx.credentials == Some(c) && Valid(c) && (c.kind == JWT || c.kind == APIKEY)
    ensures Parse(Print(ctx)).Accepted?
    ensures
      var p := Parse(Print(ctx));
      && p.messageId == ctx.messageId && p.correlationId == ctx.correlationId
      && p.credentials == Credentials(
           c.kind,
           if c.kind == JWT then c.token else "",
           if c.kind == APIKEY then c.apiKey else "",
           false,
           c.userId,
           p.credentials.scopes,
           c.metadata)
      && (p.credentials.scopes == c.scopes <==> Printable(c.scopes))
  {
    FixedValues(ctx, c);
    PrintedValues(ctx, c);
    ReadPrinted(ctx, c);
    ScopesRecoveredIff(c.scopes);
  }

  /** Scopes read from a header are printable, so they survive any further trip. */
  lemma ReadScopesPrintable(value: string)
    ensures Printable(ReadScopes(value)) && ReadScopes(Join(ReadScopes(value), ',')) == ReadScopes(value)
  {
    if value != "" {
      SplitPartsFree(value, ',');
      JoinUndoesSplit(value, ',');
    }
    ScopesRecoveredIff(ReadScopes(value));
  }

  /** Whatever headers were accepted, printing the result and parsing again gives the same result. */
  lemma ReparseStable(h: Headers, timestamp: string)
    requires Parse(h).Accepted?
    ensures
      var p := Parse(h);
      Parse(Print(Context(Some(p.credentials), timestamp, p.messageId, p.correlationId))) == p
  {
    var p := Parse(h);
    var c := p.credentials;
    var ctx := Context(Some(c), timestamp, p.messageId, p.correlationId);
    FixedValues(ctx, c);
    PrintedValues(ctx, c);
    ReadPrinted(ctx, c);
    ReadScopesPrintable(Get(h, SCOPES));
    ReadScopesPrintable("");
  }
}
