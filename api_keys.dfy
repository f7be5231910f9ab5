/**
 * API keys of the form `sc-{tenant}-{random}`: generation (with the random
 * draws passed in), format validation and tenant extraction.
 */
module ApiKeys {
  import opened Basics
  import opened TextOps

  const KeyPrefix: string := "sc-"
  const AutoTenantPrefix: string := "usr_"
  const TenantRequired: string := "Tenant identifier is required (or set auto_tenant=True)"
  const BadTenantName: string := "Tenant name can only contain alphanumeric characters, dashes, and underscores"
  const InvalidKeyFormat: string := "Invalid API key format"

  /** `c.isalnum() or c in ['-', '_']`. */
  predicate IsTenantChar(c: char)
  {
    IsAlnum(c) || c == '-' || c == '_'
  }

  predicate ValidTenantName(t: string)
  {
    forall i :: 0 <= i < |t| ==> IsTenantChar(t[i])
  }

  /** A character of `string.ascii_lowercase + string.digits`. */
  predicate IsLowerAlnum(c: char)
  {
    'a' <= c <= 'z' || IsDigit(c)
  }

  /** Eight draws from `string.ascii_lowercase + string.digits`, the random
      suffix of an automatic tenant. */
  predicate TenantDraw(s: string)
  {
    |s| == 8 && forall i :: 0 <= i < 8 ==> IsLowerAlnum(s[i])
  }

  predicate AllAlnum(s: string)
  {
    forall i :: 0 <= i < |s| ==> IsAlnum(s[i])
  }

  /** The random part of a key: `length` draws (none when `length <= 0`) from
      the ASCII letters and digits. */
  predicate KeyDraw(length: int, s: string)
  {
    |s| == (if length > 0 then length else 0) && AllAlnum(s)
  }

  /** `[r[i:i+8] for i in range(0, len(r), 8)]`: consecutive blocks of eight,
      the last one possibly shorter. */
  function Chunks(r: string): (cs: seq<string>)
    requires |r| > 0
    ensures 8 * (|cs| - 1) < |r| <= 8 * |cs|
    ensures forall i :: 0 <= i < |cs| - 1 ==> |cs[i]| == 8
    ensures 1 <= |cs[|cs| - 1]| <= 8
    decreases |r|
  {
    if |r| <= 8 then [r] else [r[..8]] + Chunks(r[8..])
  }

  function Min(a: int, b: int): int { if a <= b then a else b }

  lemma SliceOfSlice(r: string, k: nat, a: nat, b: nat)
    requires k <= |r| && a <= b <= |r| - k
    ensures r[k..][a..b] == r[k + a..k + b]
  {
    var x, y := r[k..][a..b], r[k + a..k + b];
    assert |x| == |y|;
    forall j | 0 <= j < |x| ensures x[j] == y[j] { }
  }

  /** Block `i` is the slice `r[8i : 8i + 8]`. */
  lemma {:induction false} ChunkIsSlice(r: string, i: nat)
    requires |r| > 0 && i < |Chunks(r)|
    ensures 8 * i < |r| && Chunks(r)[i] == r[8 * i .. Min(8 * i + 8, |r|)]
    decreases i
  {
    if i > 0 {
      assert |r| > 8;
      var tail := r[8..];
      assert Chunks(r) == [r[..8]] + Chunks(tail);
      ChunkIsSlice(tail, i - 1);
      var a := 8 * (i - 1);
      var b := Min(a + 8, |tail|);
      assert Chunks(r)[i] == tail[a..b];
      SliceOfSlice(r, 8, a, b);
      assert 8 + a == 8 * i && 8 + b == Min(8 * i + 8, |r|);
    }
  }

  /** Concatenating the blocks gives the random part back. */
  lemma {:induction false} ChunksConcat(r: string)
    requires |r| > 0
    ensures Concat(Chunks(r)) == r
    decreases |r|
  {
    if |r| > 8 {
      ChunksConcat(r[8..]);
      assert Chunks(r)[1..] == Chunks(r[8..]);
      assert r == r[..8] + r[8..];
    } else {
      assert Concat([r][1..]) == [];
    }
  }

  /** The blocks of an alphanumeric string are alphanumeric. */
  lemma {:induction false} ChunksAlnum(r: string)
    requires |r| > 0 && AllAlnum(r)
    ensures forall k :: 0 <= k < |Chunks(r)| ==> AllAlnum(Chunks(r)[k])
    decreases |r|
  {
    if |r| > 8 {
      ChunksAlnum(r[8..]);
      var cs := Chunks(r);
      assert AllAlnum(cs[0]);
      assert forall k :: 1 <= k < |cs| ==> cs[k] == Chunks(r[8..])[k - 1];
    }
  }

  /** The random part as it appears in the key: verbatim up to 24 characters,
      otherwise its blocks of eight joined by `-`. */
  function FormatRandom(length: int, r: string): string
    requires length > 24 ==> |r| > 0
  {
    if length > 24 then Join(Chunks(r), "-") else r
  }

  /** `generate_api_key(tenant, length, auto_tenant)`, where `tenantRandom` holds
      the eight draws for an automatic tenant and `randomPart` the `length`
      draws for the key; the empty tenant stands for `None`. */
  function GenerateApiKey(tenant: string, length: int, autoTenant: bool, tenantRandom: string, randomPart: string)
    : (r: Result<(string, string), string>)
    requires TenantDraw(tenantRandom) && KeyDraw(length, randomPart)
    ensures r.Ok? ==> r.value.1 != [] && ValidTenantName(r.value.1)
  {
    if tenant == [] && !autoTenant then Err(TenantRequired)
    else
      var t := if tenant == [] then AutoTenantPrefix + tenantRandom else tenant;
      if !ValidTenantName(t) then Err(BadTenantName)
      else Ok((KeyPrefix + t + "-" + FormatRandom(length, randomPart), t))
  }

  /** Which tenant is used and when generation fails: a missing tenant without
      `auto_tenant`, or a tenant with a character other than alphanumerics,
      `-` and `_`; an automatic tenant is `usr_` and the eight draws. */
  lemma GenerateApiKeyOutcomes(tenant: string, length: int, autoTenant: bool, tenantRandom: string, randomPart: string)
    requires TenantDraw(tenantRandom) && KeyDraw(length, randomPart)
    ensures var r := GenerateApiKey(tenant, length, autoTenant, tenantRandom, randomPart);
      && (tenant == [] && !autoTenant ==> r == Err(TenantRequired))
      && (tenant == [] && autoTenant ==> r.Ok? && r.value.1 == AutoTenantPrefix + tenantRandom)
      && (tenant != [] ==> (r.Ok? <==> ValidTenantName(tenant)))
      && (tenant != [] && r.Ok? ==> r.value.1 == tenant)
      && (tenant != [] && r.Err? ==> r.error == BadTenantName)
  {
  }

  /** Above 24 characters the `-`-separated blocks of the formatted random part
      are its blocks of eight, which together give it back. */
  lemma FormattedBlocks(r: string)
    requires |r| > 0
    requires AllAlnum(r)
    ensures Split(Join(Chunks(r), "-"), '-') == Chunks(r)
    ensures Concat(Chunks(r)) == r
  {
    var cs := Chunks(r);
    ChunksAlnum(r);
    forall i | 0 <= i < |cs| ensures '-' !in cs[i] {
      assert AllAlnum(cs[i]);
    }
    SplitJoin(cs, '-');
    ChunksConcat(r);
  }

  lemma {:induction false} JoinKeepsTenantChars(parts: seq<string>)
    requires forall k :: 0 <= k < |parts| ==> ValidTenantName(parts[k])
    ensures ValidTenantName(Join(parts, "-"))
  {
    if |parts| > 1 {
      JoinKeepsTenantChars(parts[1..]);
      assert ValidTenantName(parts[0]);
    }
  }

  /** A generated key consists of alphanumerics, `-` and `_` only. */
  lemma GeneratedKeyChars(tenant: string, length: int, autoTenant: bool, tenantRandom: string, randomPart: string)
    requires TenantDraw(tenantRandom) && KeyDraw(length, randomPart)
    requires GenerateApiKey(tenant, length, autoTenant, tenantRandom, randomPart).Ok?
    ensures ValidTenantName(GenerateApiKey(tenant, length, autoTenant, tenantRandom, randomPart).value.0)
  {
    if length > 24 {
      var cs := Chunks(randomPart);
      ChunksAlnum(randomPart);
      forall k | 0 <= k < |cs| ensures ValidTenantName(cs[k]) {
        assert AllAlnum(cs[k]);
      }
      JoinKeepsTenantChars(cs);
    }
  }

  /** The layout of a generated key: `sc-`, the tenant, `-`, then the random
      part, verbatim when `length <= 24`, otherwise as blocks that split on `-`
      into the blocks of eight of the random part. */
  lemma GeneratedKeyLayout(tenant: string, length: int, autoTenant: bool, tenantRandom: string, randomPart: string)
    returns (tail: string)
    requires TenantDraw(tenantRandom) && KeyDraw(length, randomPart)
    requires GenerateApiKey(tenant, length, autoTenant, tenantRandom, randomPart).Ok?
    ensures var r := GenerateApiKey(tenant, length, autoTenant, tenantRandom, randomPart);
      r.value.0 == KeyPrefix + r.value.1 + "-" + tail
    ensures length <= 24 ==> tail == randomPart
    ensures length > 24 ==> Split(tail, '-') == Chunks(randomPart) && Concat(Split(tail, '-')) == randomPart
  {
    tail := FormatRandom(length, randomPart);
    if length > 24 {
      FormattedBlocks(randomPart);
    }
  }

  /** `validate_api_key`. */
  function ValidateApiKey(key: string): (ok: bool)
    ensures ok ==> |key| >= 3 && key[..3] == KeyPrefix
  {
    if |key| < 3 || key[..3] != KeyPrefix then false
    else
      var parts := Split(key, '-');
      if |parts| < 3 then false
      else parts[1] != [] && ValidTenantName(parts[1])
  }

  /** `extract_tenant`: the second `-`-separated part of a valid key. */
  function ExtractTenant(key: string): (r: Result<string, string>)
    ensures r.Err? <==> !ValidateApiKey(key)
    ensures r.Err? ==> r.error == InvalidKeyFormat
  {
    if !ValidateApiKey(key) then Err(InvalidKeyFormat) else Ok(Split(key, '-')[1])
  }

  /** Every key `sc-{t}-{rest}` with a non-empty tenant `t` of valid characters
      and without `-` is valid, whatever `rest` is, and its tenant is `t`. */
  lemma {:induction false} KeyOfTenantIsValid(t: string, rest: string)
    requires t != [] && '-' !in t && ValidTenantName(t)
    ensures ValidateApiKey(KeyPrefix + t + "-" + rest)
    ensures ExtractTenant(KeyPrefix + t + "-" + rest) == Ok(t)
  {
    var key := KeyPrefix + t + "-" + rest;
    assert key == "sc" + ['-'] + (t + ['-'] + rest);
    SplitFirstPart("sc", '-', t + ['-'] + rest);
    SplitFirstPart(t, '-', rest);
    assert key[..3] == KeyPrefix;
  }

  /** Conversely, a valid key has that form: returns its tenant and the rest. */
  lemma {:induction false} ValidKeyHasTenant(key: string) returns (t: string, rest: string)
    requires ValidateApiKey(key)
    ensures key == KeyPrefix + t + "-" + rest
    ensures t != [] && '-' !in t && ValidTenantName(t)
    ensures ExtractTenant(key) == Ok(t)
  {
    var body := key[3..];
    assert key == "sc" + ['-'] + body;
    SplitFirstPart("sc", '-', body);
    var tail := Split(body, '-');
    assert Split(key, '-') == ["sc"] + tail;
    t := tail[0];
    assert |tail| >= 2 && Split(key, '-')[1] == t;
    rest := TenantAndRest(body);
    assert key == KeyPrefix + body;
  }

  /** A string that splits on `-` into two or more parts is its first part,
      `-` and the remainder: returns the remainder. */
  lemma TenantAndRest(body: string) returns (rest: string)
    requires |Split(body, '-')| >= 2
    ensures body == Split(body, '-')[0] + "-" + rest
    ensures '-' !in Split(body, '-')[0]
  {
    SplitHead(body, '-');
    var t := Split(body, '-')[0];
    rest := body[|t| + 1..];
    assert body == body[..|t|] + [body[|t|]] + rest;
  }

  /** Round trip: a key generated for a tenant without `-` is valid and
      `extract_tenant` gives the tenant back. */
  lemma GeneratedKeyRoundTrip(tenant: string, length: int, autoTenant: bool, tenantRandom: string, randomPart: string)
    requires TenantDraw(tenantRandom) && KeyDraw(length, randomPart)
    requires GenerateApiKey(tenant, length, autoTenant, tenantRandom, randomPart).Ok?
    requires '-' !in GenerateApiKey(tenant, length, autoTenant, tenantRandom, randomPart).value.1
    ensures var (key, t) := GenerateApiKey(tenant, length, autoTenant, tenantRandom, randomPart).value;
      ValidateApiKey(key) && ExtractTenant(key) == Ok(t)
  {
    var (key, t) := GenerateApiKey(tenant, length, autoTenant, tenantRandom, randomPart).value;
    KeyOfTenantIsValid(t, FormatRandom(length, randomPart));
  }

  /** The round trip fails for tenants with `-`: a tenant `company-abc` yields
      a key whose extracted tenant is `company`. */
  lemma DashedTenantIsTruncated(head: string, tail: string, length: int, tenantRandom: string, randomPart: string)
    requires TenantDraw(tenantRandom) && KeyDraw(length, randomPart)
    requires head != [] && '-' !in head && ValidTenantName(head + "-" + tail)
    ensures var r := GenerateApiKey(head + "-" + tail, length, false, tenantRandom, randomPart);
      r.Ok? && ExtractTenant(r.value.0) == Ok(head) != Ok(head + "-" + tail)
  {
    var tenant := head + "-" + tail;
    var key := KeyPrefix + tenant + "-" + FormatRandom(length, randomPart);
    assert ValidTenantName(head) by {
      forall i | 0 <= i < |head| ensures IsTenantChar(head[i]) {
        assert head[i] == tenant[i];
      }
    }
    assert key == KeyPrefix + head + "-" + (tail + "-" + FormatRandom(length, randomPart));
    KeyOfTenantIsValid(head, tail + "-" + FormatRandom(length, randomPart));
  }

  /** A tenant that starts with `-` passes generation but its key is invalid. */
  lemma LeadingDashTenantKeyIsInvalid(tail: string, length: int, tenantRandom: string, randomPart: string)
    requires TenantDraw(tenantRandom) && KeyDraw(length, randomPart)
    requires ValidTenantName("-" + tail)
    ensures var r := GenerateApiKey("-" + tail, length, false, tenantRandom, randomPart);
      r.Ok? && !ValidateApiKey(r.value.0)
  {
    var key := KeyPrefix + ("-" + tail) + "-" + FormatRandom(length, randomPart);
    assert key == "sc" + ['-'] + ([] + ['-'] + (tail + "-" + FormatRandom(length, randomPart)));
    SplitFirstPart("sc", '-', [] + ['-'] + (tail + "-" + FormatRandom(length, randomPart)));
    SplitFirstPart([], '-', tail + "-" + FormatRandom(length, randomPart));
  }

  /** `generate_multiple_keys`: `count` keys, each from its own draws; without a
      base tenant every key gets its own automatic tenant. */
  method GenerateMultipleKeys(tenant: string, count: int, length: int, autoTenant: bool,
                              tenantRandoms: seq<string>, randomParts: seq<string>)
    returns (r: Result<seq<(string, string)>, string>)
    requires count <= |tenantRandoms| && count <= |randomParts|
    requires forall k :: 0 <= k < |tenantRandoms| ==> TenantDraw(tenantRandoms[k])
    requires forall k :: 0 <= k < |randomParts| ==> KeyDraw(length, randomParts[k])
    ensures r.Err? <==> count > 0 && tenant != [] && !ValidTenantName(tenant)
    ensures r.Err? ==> r.error == BadTenantName
    ensures r.Ok? ==> |r.value| == (if count > 0 then count else 0)
    ensures r.Ok? ==> forall k :: 0 <= k < |r.value| ==>
      Ok(r.value[k]) == GenerateApiKey(tenant, length, autoTenant || tenant == [], tenantRandoms[k], randomParts[k])
    ensures r.Ok? && tenant != [] ==> forall k :: 0 <= k < |r.value| ==> r.value[k].1 == tenant
  {
    var keys: seq<(string, string)> := [];
    var baseTenant := tenant;
    var i := 0;
    while i < count
      invariant 0 <= i <= (if count > 0 then count else 0)
      invariant i <= |tenantRandoms| && i <= |randomParts|
      invariant |keys| == i
      invariant i > 0 ==> tenant == [] || ValidTenantName(tenant)
      invariant forall k :: 0 <= k < i ==>
        Ok(keys[k]) == GenerateApiKey(tenant, length, autoTenant || tenant == [], tenantRandoms[k], randomParts[k])
      invariant tenant != [] ==> forall k :: 0 <= k < i ==> keys[k].1 == tenant
    {
      var tenantForKey := if autoTenant && baseTenant == [] then [] else baseTenant;
      var generated := GenerateApiKey(tenantForKey, length, autoTenant || baseTenant == [],
                                      tenantRandoms[i], randomParts[i]);
      GenerateApiKeyOutcomes(tenantForKey, length, autoTenant || baseTenant == [], tenantRandoms[i], randomParts[i]);
      if generated.Err? {
        return Err(generated.error);
      }
      assert tenantForKey == tenant;
      var next := keys + [generated.value];
      assert forall k :: 0 <= k < i ==> next[k] == keys[k];
      keys := next;
      i := i + 1;
    }
    r := Ok(keys);
  }
}
