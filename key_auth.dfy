/**
 * How the cache server turns an `Authorization` header into a tenant: the
 * pattern `^Bearer\s+(sc-[A-Za-z0-9_-]+)$`, then the second `-`-separated
 * part of the token.
 */
module KeyAuth {
  import opened Basics
  import opened TextOps
  import ApiKeys

  /** The `HTTPException` the server raises: a status code and a detail. */
  datatype AuthError = AuthError(status: nat, detail: string)

  const Unauthorized: nat := 401
  const MissingKey: string := "Missing or invalid API key"
  const MalformedKey: string := "Malformed API key"
  const Scheme: string := "Bearer"

  /** The token group `sc-[A-Za-z0-9_-]+`; the class is the tenant character
      class of the key generator. */
  predicate IsKeyToken(tok: string)
  {
    |tok| >= 4 && tok[..3] == ApiKeys.KeyPrefix
    && forall i :: 3 <= i < |tok| ==> ApiKeys.IsTenantChar(tok[i])
  }

  predicate AllSpaces(s: string)
  {
    forall i :: 0 <= i < |s| ==> IsSpace(s[i])
  }

  /** The length of the leading run of whitespace (`\s`). */
  function SpaceRun(s: string): (n: nat)
    ensures n <= |s| && AllSpaces(s[..n])
    ensures n < |s| ==> !IsSpace(s[n])
  {
    if s == [] || !IsSpace(s[0]) then 0
    else
      var n := 1 + SpaceRun(s[1..]);
      assert s[..n] == [s[0]] + s[1..][..n - 1];
      n
  }

  /** `API_KEY_REGEX.match(header)`, answering the captured token. `$` also
      matches in front of a final newline, so one trailing `\n` is dropped. */
  function MatchBearer(header: string): (r: Option<string>)
    ensures r.Some? ==> IsKeyToken(r.value)
    ensures r.Some? ==> |header| >= |Scheme| && header[..|Scheme|] == Scheme
  {
    if |header| < |Scheme| || header[..|Scheme|] != Scheme then None
    else
      var body := AfterScheme(header);
      var n := SpaceRun(body);
      if n >= 1 && IsKeyToken(body[n..]) then Some(body[n..]) else None
  }

  /** What follows `Bearer`, without one final newline. */
  function AfterScheme(header: string): string
    requires |header| >= |Scheme|
  {
    if EndsWithNewline(header) then header[|Scheme|..|header| - 1] else header[|Scheme|..]
  }

  predicate EndsWithNewline(header: string)
  {
    |header| > |Scheme| && header[|header| - 1] == '\n'
  }

  function Newline(nl: bool): string { if nl then "\n" else "" }

  lemma {:induction false} SpaceRunOfPrefix(ws: string, t: string)
    requires AllSpaces(ws)
    requires t == [] || !IsSpace(t[0])
    ensures SpaceRun(ws + t) == |ws|
  {
    if ws != [] {
      assert (ws + t)[1..] == ws[1..] + t;
      SpaceRunOfPrefix(ws[1..], t);
    } else {
      assert ws + t == t;
    }
  }

  lemma AfterSchemeOf(ws: string, tok: string, nl: bool)
    requires tok != [] && tok[|tok| - 1] != '\n'
    ensures var h := Scheme + ws + tok + Newline(nl);
      |h| >= |Scheme| && h[..|Scheme|] == Scheme && AfterScheme(h) == ws + tok
  {
    var h := Scheme + ws + tok + Newline(nl);
    assert h[..|Scheme|] == Scheme;
    if nl {
      assert h[|Scheme|..|h| - 1] == ws + tok;
    } else {
      assert h[|h| - 1] == tok[|tok| - 1];
      assert h[|Scheme|..] == ws + tok;
    }
  }

  /** Every header `Bearer`, whitespace, a token and possibly one newline
      matches, capturing the token. */
  lemma HeaderMatches(ws: string, tok: string, nl: bool)
    requires ws != [] && AllSpaces(ws) && IsKeyToken(tok)
    ensures MatchBearer(Scheme + ws + tok + Newline(nl)) == Some(tok)
  {
    assert tok[0] == 's';
    assert ApiKeys.IsTenantChar(tok[|tok| - 1]);
    AfterSchemeOf(ws, tok, nl);
    SpaceRunOfPrefix(ws, tok);
    assert (ws + tok)[|ws|..] == tok;
  }

  /** A header that starts with `Bearer` is `Bearer`, what follows it, and the
      final newline if there is one. */
  lemma SchemeAndRest(header: string)
    requires |header| >= |Scheme| && header[..|Scheme|] == Scheme
    ensures header == Scheme + AfterScheme(header) + Newline(EndsWithNewline(header))
  {
    if EndsWithNewline(header) {
      var init := header[..|header| - 1];
      assert header == init + [header[|header| - 1]];
      assert init == header[..|Scheme|] + AfterScheme(header);
    } else {
      assert header == header[..|Scheme|] + AfterScheme(header);
    }
  }

  /** Conversely every matching header has that form: returns the whitespace
      and whether a newline follows the token. */
  lemma MatchHasShape(header: string, tok: string) returns (ws: string, nl: bool)
    requires MatchBearer(header) == Some(tok)
    ensures ws != [] && AllSpaces(ws) && IsKeyToken(tok)
    ensures header == Scheme + ws + tok + Newline(nl)
  {
    nl := EndsWithNewline(header);
    var body := AfterScheme(header);
    var n := SpaceRun(body);
    assert tok == body[n..];
    ws := body[..n];
    assert body == ws + tok;
    SchemeAndRest(header);
    assert header == Scheme + (ws + tok) + Newline(nl);
  }

  /** `get_tenant_from_key`, given the header (empty when absent). */
  function TenantFromHeader(header: string): (r: Result<string, AuthError>)
    ensures r.Err? ==> r.error.status == Unauthorized
  {
    match MatchBearer(header)
    case None => Err(AuthError(Unauthorized, MissingKey))
    case Some(tok) =>
      var parts := Split(tok, '-');
      if |parts| < 3 then Err(AuthError(Unauthorized, MalformedKey)) else Ok(parts[1])
  }

  /** For a key that the generator's `validate_api_key` accepts, the server
      derives the same tenant as `extract_tenant`. */
  lemma ServerAgreesWithExtractTenant(ws: string, key: string, nl: bool)
    requires ws != [] && AllSpaces(ws) && ApiKeys.ValidateApiKey(key)
    requires forall i :: 0 <= i < |key| ==> ApiKeys.IsTenantChar(key[i])
    ensures TenantFromHeader(Scheme + ws + key + Newline(nl)) == Ok(ApiKeys.ExtractTenant(key).value)
  {
    var t, rest := ApiKeys.ValidKeyHasTenant(key);
    HeaderMatches(ws, key, nl);
  }

  /** A freshly generated key, sent as `Bearer <key>`, authenticates as its
      tenant whenever that tenant contains no `-`. */
  lemma GeneratedKeyAuthenticates(tenant: string, length: int, autoTenant: bool, tenantRandom: string, randomPart: string)
    requires ApiKeys.TenantDraw(tenantRandom) && ApiKeys.KeyDraw(length, randomPart)
    requires ApiKeys.GenerateApiKey(tenant, length, autoTenant, tenantRandom, randomPart).Ok?
    requires '-' !in ApiKeys.GenerateApiKey(tenant, length, autoTenant, tenantRandom, randomPart).value.1
    ensures var (key, t) := ApiKeys.GenerateApiKey(tenant, length, autoTenant, tenantRandom, randomPart).value;
      TenantFromHeader("Bearer " + key) == Ok(t)
  {
    var (key, t) := ApiKeys.GenerateApiKey(tenant, length, autoTenant, tenantRandom, randomPart).value;
    ApiKeys.GeneratedKeyRoundTrip(tenant, length, autoTenant, tenantRandom, randomPart);
    ApiKeys.GeneratedKeyChars(tenant, length, autoTenant, tenantRandom, randomPart);
    assert "Bearer " + key == Scheme + " " + key + Newline(false);
    ServerAgreesWithExtractTenant(" ", key, false);
  }

  /** A well-formed token with a single `-` (`sc-abc`) is rejected as malformed. */
  lemma OneDashTokenIsMalformed(ws: string, tok: string)
    requires ws != [] && AllSpaces(ws) && IsKeyToken(tok) && '-' !in tok[3..]
    ensures TenantFromHeader(Scheme + ws + tok) == Err(AuthError(Unauthorized, MalformedKey))
  {
    HeaderMatches(ws, tok, false);
    assert Scheme + ws + tok + Newline(false) == Scheme + ws + tok;
    TokenWithoutSecondDash(tok);
  }

  lemma TokenWithoutSecondDash(tok: string)
    requires IsKeyToken(tok) && '-' !in tok[3..]
    ensures |Split(tok, '-')| == 2
  {
    assert tok == "sc" + ['-'] + tok[3..];
    SplitFirstPart("sc", '-', tok[3..]);
    SplitWithoutSep(tok[3..], '-');
  }

  /** Unlike `validate_api_key`, the server accepts an empty tenant part:
      every well-formed token `sc--{rest}` (`sc--x`, say), after any run of
      whitespace and with or without a final newline, authenticates as the
      tenant `""`, and no such token is a valid key. */
  lemma EmptyTenantPartAccepted(ws: string, rest: string, nl: bool)
    requires ws != [] && AllSpaces(ws) && IsKeyToken("sc--" + rest)
    ensures TenantFromHeader(Scheme + ws + ("sc--" + rest) + Newline(nl)) == Ok("")
    ensures !ApiKeys.ValidateApiKey("sc--" + rest)
  {
    HeaderMatches(ws, "sc--" + rest, nl);
    EmptyTenantSplit(rest);
  }

  /** `sc--{rest}` splits on `-` into at least three parts, the second empty. */
  lemma EmptyTenantSplit(rest: string)
    ensures |Split("sc--" + rest, '-')| >= 3 && Split("sc--" + rest, '-')[1] == []
  {
    assert "sc--" + rest == "sc" + ['-'] + ([] + ['-'] + rest);
    SplitFirstPart("sc", '-', [] + ['-'] + rest);
    SplitFirstPart([], '-', rest);
  }

  /** A header without the `Bearer` scheme is refused with 401. */
  lemma NoSchemeIsUnauthorized(header: string)
    requires |header| < |Scheme| || header[..|Scheme|] != Scheme
    ensures TenantFromHeader(header) == Err(AuthError(Unauthorized, MissingKey))
  {
  }
}
