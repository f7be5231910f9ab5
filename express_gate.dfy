/**
 * The Express middleware of the SDK: the 32-bit rolling hash that names a
 * cached completion, and the decision whether a request is answered from the
 * cache or passed on to `next()`.
 */
module ExpressGate {
  import opened Basics
  import opened Numerals
  import opened Prompts

  const Two31: int := 0x8000_0000
  const Two32: int := 0x1_0000_0000

  /** ECMAScript's ToInt32: the value modulo 2^32, read as a signed 32-bit
      integer. */
  function ToInt32(x: int): (r: int)
    ensures -Two31 <= r < Two31
    ensures (x - r) % Two32 == 0
  {
    var m := x % Two32;
    if m >= Two31 then m - Two32 else m
  }

  /** Values that differ by a multiple of 2^32 have the same ToInt32. */
  lemma ToInt32Congruent(a: int, b: int, k: int)
    requires a - b == k * Two32
    ensures ToInt32(a) == ToInt32(b)
  {
    assert a % Two32 == b % Two32;
  }

  /** A 32-bit value is its own ToInt32. */
  lemma ToInt32OfInt32(x: int)
    requires -Two31 <= x < Two31
    ensures ToInt32(x) == x
  {
  }

  /** `str.charCodeAt(i)` ranges over the UTF-16 code units of the string: a
      character beyond the Basic Multilingual Plane is a surrogate pair. */
  function Utf16(s: string): (units: seq<int>)
    ensures forall i :: 0 <= i < |units| ==> 0 <= units[i] < 0x1_0000
  {
    if s == [] then []
    else
      var c := s[0] as int;
      var head := if c < 0x1_0000 then [c]
                  else [0xD800 + (c - 0x1_0000) / 0x400, 0xDC00 + (c - 0x1_0000) % 0x400];
      head + Utf16(s[1..])
  }

  /** One iteration of the loop of `hashCode`: `((hash << 5) - hash) + char`,
      then `hash & hash`; `<<` and `&` read their operands as 32-bit integers. */
  function Step(h: int, c: int): int
  {
    ToInt32(ToInt32(h * 32) - h + c)
  }

  /** The accumulator after the loop has read `units`. */
  function HashAcc(units: seq<int>): (h: int)
    ensures -Two31 <= h < Two31
  {
    if units == [] then 0 else Step(HashAcc(units[..|units| - 1]), units[|units| - 1])
  }

  /** The polynomial hash `sum of u[i] * 31^(n-1-i)` in exact arithmetic. */
  function Poly(units: seq<int>): int
  {
    if units == [] then 0 else 31 * Poly(units[..|units| - 1]) + units[|units| - 1]
  }

  /** The shift-and-subtract step is `31 * h + c` modulo 2^32. */
  lemma StepIsTimes31(h: int, c: int)
    ensures Step(h, c) == ToInt32(31 * h + c)
  {
    var s := ToInt32(h * 32);
    var k := (h * 32 - s) / Two32;
    assert h * 32 - s == k * Two32;
    ToInt32Congruent(s - h + c, 31 * h + c, -k);
  }

  /** The accumulator is the polynomial hash reduced to a signed 32-bit
      integer. */
  lemma {:induction false} HashAccIsPoly(units: seq<int>)
    ensures HashAcc(units) == ToInt32(Poly(units))
  {
    if units != [] {
      var init, c := units[..|units| - 1], units[|units| - 1];
      HashAccIsPoly(init);
      var p := Poly(init);
      var h := ToInt32(p);
      StepIsTimes31(HashAcc(init), c);
      var k := (p - h) / Two32;
      assert p - h == k * Two32;
      assert (31 * p + c) - (31 * h + c) == (31 * k) * Two32;
      ToInt32Congruent(31 * p + c, 31 * h + c, 31 * k);
    }
  }

  function Abs(x: int): nat { if x < 0 then -x else x }

  /** `hashCode(str)`: `Math.abs(hash).toString(36)`. */
  function HashString(s: string): (r: string)
    ensures r != [] && forall i :: 0 <= i < |r| ==> IsBaseDigit(r[i], 36)
  {
    ToBase(Abs(HashAcc(Utf16(s))), 36)
  }

  /** The loop of `hashCode`, over the UTF-16 code units of `str`. */
  method HashCode(str: string) returns (r: string)
    ensures r == HashString(str)
  {
    var units := Utf16(str);
    var hash := 0;
    var i := 0;
    while i < |units|
      invariant 0 <= i <= |units|
      invariant hash == HashAcc(units[..i])
    {
      var unit := units[i];
      hash := ToInt32(hash * 32) - hash + unit;
      hash := ToInt32(hash);
      i := i + 1;
      assert units[..i][..i - 1] == units[..i - 1];
    }
    assert units[..i] == units;
    r := ToBase(Abs(hash), 36);
  }

  /** The hash of the empty prompt is `"0"`. */
  lemma HashOfEmpty()
    ensures HashString("") == "0"
  {
  }

  /** The hash is a base-36 numeral of a value of at most 2^31: it reads back
      as the magnitude of the polynomial hash reduced to 32 bits. */
  lemma HashReadsBack(s: string)
    ensures FromBase(HashString(s), 36) == Abs(ToInt32(Poly(Utf16(s))))
    ensures FromBase(HashString(s), 36) <= Two31
  {
    HashAccIsPoly(Utf16(s));
    FromToBase(Abs(HashAcc(Utf16(s))), 36);
  }

  /** The options of `semanticCacheMiddleware`; an option that is not given
      is `None`, and only then does its default apply. */
  datatype Options = Options(apiKey: string, baseUrl: Option<string>, cachePaths: Option<seq<string>>)

  /** The middleware as configured. */
  datatype Middleware = Middleware(apiKey: string, baseUrl: string, cachePaths: seq<string>)

  const DefaultBaseUrl: string := "https://api.semantis.ai"
  const DefaultCachePaths: seq<string> := ["/v1/chat/completions"]
  const DefaultModel: string := "gpt-4o-mini"
  const MissingApiKey: string :=
    "API key is required. Provide it in options or set SEMANTIS_API_KEY environment variable."

  /** The `baseUrl` option, else a non-empty `SEMANTIS_API_URL`, else the
      default. */
  function BaseUrlOf(options: Options, envBaseUrl: string): string
  {
    if options.baseUrl.Some? then options.baseUrl.value
    else if envBaseUrl != [] then envBaseUrl else DefaultBaseUrl
  }

  function CachePathsOf(options: Options): seq<string>
  {
    if options.cachePaths.Some? then options.cachePaths.value else DefaultCachePaths
  }

  /** `semanticCacheMiddleware(options)` as written, where `envBaseUrl` is
      `process.env.SEMANTIS_API_URL` and `envApiKey` is
      `process.env.SEMANTIS_API_KEY` (each empty when unset). The missing key
      is refused before the fallback `apiKey || process.env.SEMANTIS_API_KEY`
      is reached, so the client always gets the option's key. */
  function CreateMiddleware(options: Options, envBaseUrl: string, envApiKey: string): (r: Result<Middleware, string>)
    ensures r.Err? <==> options.apiKey == []
    ensures r.Err? ==> r.error == MissingApiKey
    ensures r.Ok? ==> r.value.apiKey == options.apiKey
    ensures r.Ok? && options.cachePaths.Some? ==> r.value.cachePaths == options.cachePaths.value
    ensures r.Ok? && options.cachePaths.None? ==> r.value.cachePaths == DefaultCachePaths
    ensures r.Ok? && options.baseUrl.Some? ==> r.value.baseUrl == options.baseUrl.value
    ensures r.Ok? && options.baseUrl.None? && envBaseUrl != [] ==> r.value.baseUrl == envBaseUrl
    ensures r.Ok? && options.baseUrl.None? && envBaseUrl == [] ==> r.value.baseUrl == DefaultBaseUrl
  {
    if options.apiKey == [] then Err(MissingApiKey)
    else
      var key := if options.apiKey != [] then options.apiKey else envApiKey;
      Ok(Middleware(key, BaseUrlOf(options, envBaseUrl), CachePathsOf(options)))
  }

  /** As written, `SEMANTIS_API_KEY` is never used: without the option the
      middleware is refused even when the variable is set, although the error
      message tells the user to set it. */
  lemma EnvApiKeyIgnored(options: Options, envBaseUrl: string, envApiKey: string)
    requires options.apiKey == [] && envApiKey != []
    ensures CreateMiddleware(options, envBaseUrl, envApiKey) == Err(MissingApiKey)
  {
  }

  /** The evident intent: the option's key, else `SEMANTIS_API_KEY`, refusing
      only when both are missing. */
  function CreateMiddlewareWithEnvKey(options: Options, envBaseUrl: string, envApiKey: string)
    : (r: Result<Middleware, string>)
    ensures r.Err? <==> options.apiKey == [] && envApiKey == []
    ensures r.Err? ==> r.error == MissingApiKey
    ensures r.Ok? ==> r.value.apiKey == (if options.apiKey != [] then options.apiKey else envApiKey)
  {
    var key := if options.apiKey != [] then options.apiKey else envApiKey;
    if key == [] then Err(MissingApiKey)
    else Ok(Middleware(key, BaseUrlOf(options, envBaseUrl), CachePathsOf(options)))
  }

  /** The corrected construction agrees with the written one whenever the
      option is given, and otherwise uses the environment's key. */
  lemma EnvKeyFallback(options: Options, envBaseUrl: string, envApiKey: string)
    ensures options.apiKey != [] ==>
      CreateMiddlewareWithEnvKey(options, envBaseUrl, envApiKey) == CreateMiddleware(options, envBaseUrl, envApiKey)
    ensures options.apiKey == [] && envApiKey != [] ==>
      CreateMiddlewareWithEnvKey(options, envBaseUrl, envApiKey)
        == Ok(Middleware(envApiKey, BaseUrlOf(options, envBaseUrl), CachePathsOf(options)))
  {
  }

  /** The JSON body of a request; a missing or falsy `messages` is empty and a
      missing or empty `model` is `""`. */
  datatype Body = Body(messages: seq<Message>, model: string)

  /** An incoming request; `body` is `None` when there is none, which makes
      `req.body.messages` throw. */
  datatype Request = Request(path: string, verb: string, body: Option<Body>)

  function Last<T>(s: seq<T>): T
    requires s != []
  {
    s[|s| - 1]
  }

  function ModelOf(b: Body): string
  {
    if b.model != [] then b.model else DefaultModel
  }

  /** The gating of the middleware: `Some((prompt, model))` when the cache is
      asked, `None` when the request goes straight to `next()`. */
  function Gate(mw: Middleware, req: Request): Option<(string, string)>
  {
    if req.path !in mw.cachePaths || req.verb != "POST" || req.body.None? then None
    else
      var body := req.body.value;
      var users := UserContents(body.messages);
      if body.messages == [] || users == [] || Last(users) == [] then None
      else Some((Last(users), ModelOf(body)))
  }

  lemma {:induction false} NoUserContents(messages: seq<Message>)
    ensures UserContents(messages) == [] <==> forall k :: 0 <= k < |messages| ==> messages[k].role != "user"
  {
    if messages != [] {
      NoUserContents(messages[1..]);
      assert forall k :: 1 <= k < |messages| ==> messages[k] == messages[1..][k - 1];
    }
  }

  /** The prompt is the content of the last `user` message: returns its
      position. */
  lemma {:induction false} LastUserMessage(messages: seq<Message>) returns (j: int)
    requires UserContents(messages) != []
    ensures 0 <= j < |messages| && messages[j].role == "user"
    ensures Last(UserContents(messages)) == messages[j].content
    ensures forall k :: j < k < |messages| ==> messages[k].role != "user"
  {
    var init, m := messages[..|messages| - 1], messages[|messages| - 1];
    assert messages == init + [m];
    UserContentsAppend(init, [m]);
    assert UserContents([m]) == (if m.role == "user" then [m.content] else []);
    if m.role == "user" {
      j := |messages| - 1;
    } else {
      j := LastUserMessage(init);
      assert messages[j] == init[j];
    }
  }

  /** `j` is the position of the last `user` message. */
  predicate IsLastUser(messages: seq<Message>, j: int)
  {
    && 0 <= j < |messages| && messages[j].role == "user"
    && forall k :: j < k < |messages| ==> messages[k].role != "user"
  }

  /** The last `user` message is unique. */
  lemma LastUserUnique(messages: seq<Message>, i: int, j: int)
    requires IsLastUser(messages, i) && IsLastUser(messages, j)
    ensures i == j
  {
  }

  /** The request reaches the cache exactly when its path is one of the cache
      paths, it is a POST with a body, and its last `user` message has
      non-empty content; the prompt is that content and the model is the
      body's, `gpt-4o-mini` when it has none. */
  lemma GateIff(mw: Middleware, req: Request)
    ensures Gate(mw, req).Some? <==>
      && req.path in mw.cachePaths && req.verb == "POST" && req.body.Some?
      && exists j :: IsLastUser(req.body.value.messages, j) && req.body.value.messages[j].content != []
    ensures Gate(mw, req).Some? ==>
      && (exists j :: IsLastUser(req.body.value.messages, j)
                      && Gate(mw, req).value.0 == req.body.value.messages[j].content)
      && Gate(mw, req).value.1 == (if req.body.value.model != [] then req.body.value.model else "gpt-4o-mini")
  {
    if req.path in mw.cachePaths && req.verb == "POST" && req.body.Some? {
      var ms := req.body.value.messages;
      NoUserContents(ms);
      if UserContents(ms) != [] {
        var j := LastUserMessage(ms);
        assert IsLastUser(ms, j);
        forall i | IsLastUser(ms, i) ensures i == j {
          LastUserUnique(ms, i, j);
        }
      }
    }
  }

  /** What `cache.query` answers; `None` when it throws. */
  datatype CacheReply = CacheReply(cacheHit: string, answer: string, similarity: real, latencyMs: real)

  /** The OpenAI-shaped response built on a hit (the constant fields left out). */
  datatype CachedResponse = CachedResponse(
    id: string,
    created: int,
    model: string,
    content: string,
    hit: string,
    similarity: real,
    latencyMs: real)

  datatype Outcome = Next | Json(response: CachedResponse)

  const CachedIdPrefix: string := "chatcmpl-cached-"

  predicate IsHit(cacheHit: string)
  {
    cacheHit == "exact" || cacheHit == "semantic"
  }

  /** The middleware function for one request, with `query` for the cache
      client and `nowMs` for `Date.now()`. */
  function Handle(mw: Middleware, req: Request, query: (string, string) -> Option<CacheReply>, nowMs: nat)
    : (out: Outcome)
    ensures out.Json? ==> Gate(mw, req).Some?
  {
    match Gate(mw, req)
    case None => Next
    case Some((prompt, model)) =>
      var reply := query(prompt, model);
      if reply.Some? && IsHit(reply.value.cacheHit) then
        Json(CachedResponse(CachedIdPrefix + HashString(prompt), nowMs / 1000, model,
                            reply.value.answer, reply.value.cacheHit, reply.value.similarity,
                            reply.value.latencyMs))
      else Next
  }

  /** A cached response is sent exactly when the request passes the gate and
      the cache reports an exact or semantic hit; it carries the cached answer,
      the hit kind, the model (default `gpt-4o-mini`) and an id derived from
      the prompt's hash. Anything else, including an error, calls `next()`. */
  lemma HandleIff(mw: Middleware, req: Request, query: (string, string) -> Option<CacheReply>, nowMs: nat)
    ensures var out := Handle(mw, req, query, nowMs);
      out.Json? <==> (Gate(mw, req).Some?
        && query(Gate(mw, req).value.0, Gate(mw, req).value.1).Some?
        && IsHit(query(Gate(mw, req).value.0, Gate(mw, req).value.1).value.cacheHit))
    ensures var out := Handle(mw, req, query, nowMs);
      out.Json? ==>
        var (prompt, model) := Gate(mw, req).value;
        var reply := query(prompt, model).value;
        && out.response.id == CachedIdPrefix + HashString(prompt)
        && out.response.content == reply.answer
        && out.response.hit == reply.cacheHit
        && out.response.model == model
        && out.response.created * 1000 <= nowMs < (out.response.created + 1) * 1000
  {
  }
}
