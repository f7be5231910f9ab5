# Semantis AI semantic cache — a Dafny model

This project models the core of the Semantis AI backend and of its Express
middleware, and proves properties of that model.

- **The hybrid cache engine** (`SemanticCacheService` with `TenantState` and
  `CacheEntry`), in `semantic_cache.dfy`.
  - Each tenant owns:
    - an exact map from normalised prompt to entry;
    - an append-only list of rows;
    - a flat inner-product index aligned with the rows;
    - the counters `hits`, `misses` and `semantic_hits`;
    - the recorded latencies;
    - an adaptive similarity threshold that starts at 0.83.
  - `query` answers in a fixed order: an exact hit (prompt present, entry
    fresh, same model), a semantic hit (best neighbour at or above the
    threshold, and fresh), or a miss. A miss calls the language model and
    inserts the answer.
  - The tenant record is a `class` whose fields the methods update in place.
  - Each method is proved against a pure function on a `TenantSnapshot`
    value (`QuerySpec`, `RecordHit`, `MissPath`, `AddVector`,
    `AdaptedThreshold`, `Report`), and the lemmas are stated about those
    functions.
  - The Python `exact` dictionary and `rows` list share entry objects. In the
    model, `exact` maps a prompt to the position of its row, so a touched
    entry is seen through both.
  - The embedding model, the language model and the similarity function are
    oracles passed as parameters. An oracle answering `None` stands for the
    exception the call would raise. The two `get_embedding` calls of one
    query (the semantic step and the miss step) have separate answers.
  - The clock is an explicit `now`, and the measured latency is a parameter.
- **Prompt normalisation** (`norm_text`) and the exact-match key of the
  chat-completions endpoint, in `prompts.dfy`.
- **The domain hint** (`domain_hint`), in `domains.dfy`.
- **Bearer authentication** (`get_tenant_from_key`), in `key_auth.dfy`.
- **API-key generation, validation and tenant extraction**, in
  `api_keys.dfy`. The random draws are inputs.
- **The sign-up validators** for passwords and e-mail addresses, in
  `credentials.dfy`.
- **The storage connection strings**, the production test and the
  configuration summary, in `storage.dfy`.
- **The persistence field mapping**, in `persistence.dfy`: entry to
  dictionary and back with its defaults, tenant reconstruction with the
  rebuilt index, and the duplicate-free merge of API-key records.
- **The Express middleware**, in `express_gate.dfy`: the 32-bit rolling
  `hashCode` and the decision whether a request is answered from the cache
  or passed to `next()`.

`text_ops.dfy` holds the Python string behaviour the code relies on
(`isspace`, `split(sep)`, `join`, `lower`, `in`). `numerals.dfy` holds the
decimal and base-36 numerals of `str(n)` and `toString(36)`. `basics.dfy`
holds `Option` and `Result`.

## Model

| member | source | states |
|---|---|---|
| Prompts.Words | backend/semantic_cache_server.py:156 | the pieces of `split()` are non-empty and contain no whitespace |
| Prompts.NormText | backend/semantic_cache_server.py:154-156 | `norm_text`: `" ".join(s.strip().split()).lower()`; a specification function, whose result `NormTextIsNormalized`, `NormalizedIsFixedPoint` and `NormTextIdempotent` characterise |
| Prompts.NormTextIsNormalized | backend/semantic_cache_server.py:154-156 | the output of `norm_text` has no upper-case letter, no leading or trailing whitespace, and single spaces as its only whitespace |
| Prompts.NormalizedIsFixedPoint | backend/semantic_cache_server.py:154-156 | `norm_text` leaves a normalised string unchanged |
| Prompts.NormTextIdempotent | backend/semantic_cache_server.py:154-156 | `norm_text(norm_text(s)) == norm_text(s)` |
| Prompts.ChatPromptKey | backend/semantic_cache_server.py:376-378 | the chat endpoint's key (the user contents joined by one space, then normalised) is a normalised string |
| Prompts.UserContentsAppend | backend/semantic_cache_server.py:377 | the user contents of two concatenated message lists are the two lists' user contents concatenated |
| Prompts.NonUserMessageKeepsKey | backend/semantic_cache_server.py:376-378 | inserting a system or assistant message anywhere does not change the key |
| Domains.Score | backend/semantic_cache_server.py:85 | a domain's score is at most its number of keywords |
| Domains.DomainOf | backend/semantic_cache_server.py:81-88 | the label is `general` or one of the four domain names; `PickIsFirstMaximum` and `GeneralIffNoKeyword` say which |
| Domains.DomainHint | backend/semantic_cache_server.py:81-88 | the loop over `DOMAIN_MAP` returns the label defined by `DomainOf` |
| Domains.PickIsFirstMaximum | backend/semantic_cache_server.py:83-88 | the hint is the first domain of maximal positive score; with no keyword it is `general` |
| Domains.GeneralIffNoKeyword | backend/semantic_cache_server.py:81-88 | the hint is `general` exactly when no keyword of any domain occurs in the lower-cased text |
| SemanticCache.EmptyTenantWellFormed | backend/semantic_cache_server.py:128-140 | a new `TenantState` (no rows, no index, zero counters, threshold 0.83) satisfies the engine invariant |
| SemanticCache.BestMatch | backend/semantic_cache_server.py:166-170 | the search returns a row position, and no indexed vector is more similar to the query than the one at that position |
| SemanticCache.InsertRow | backend/semantic_cache_server.py:229-231 | the three insertion updates taken together keep the invariant: the entry becomes the last row, `exact[prompt_norm]` points at it, its embedding becomes the last indexed vector, and counters, latencies and threshold are unchanged |
| SemanticCache.Inserted | backend/semantic_cache_server.py:229-234 | an insertion keeps the invariant, appends exactly the new entry and leaves earlier rows unchanged |
| SemanticCache.InterleavedMissesMisalignIndex | backend/semantic_cache_server.py:229-231 | when a second miss runs its three updates between the first one's `rows.append` and `_faiss_add`, the first miss's row sits at the index position holding the second miss's vector and the invariant is broken |
| SemanticCache.SerialisedMissesStayAligned | backend/semantic_cache_server.py:229-231 | the same two misses, each inserted in one step, keep the invariant, with rows `e1, e2` at index positions holding `e1`'s and then `e2`'s vector |
| SemanticCache.MissPath | backend/semantic_cache_server.py:215-237 | the miss path keeps the invariant (exact values are rows of their prompt; index aligned with rows; `semantic_hits <= hits`) |
| SemanticCache.RecordHit | backend/semantic_cache_server.py:186-213 | a hit keeps the invariant |
| SemanticCache.QuerySpec | backend/semantic_cache_server.py:172-237 | `query` keeps the invariant |
| SemanticCache.SearchOrMiss | backend/semantic_cache_server.py:198-237 | the semantic step followed by the miss step keeps the invariant |
| SemanticCache.QueryCounters | backend/semantic_cache_server.py:182-237 | an answered request raises exactly one of `hits`/`misses` by one and records its latency; `semantic_hits` rises exactly on a semantic hit; a failed call records no hit and no latency; `semantic_hits <= hits` |
| SemanticCache.Fresh | backend/semantic_cache_server.py:125-126 | `CacheEntry.fresh`: younger than the TTL, strictly; `ExactHitIff`, `SemanticHitIff` and `DefaultTtlLastsAWeek` use it |
| SemanticCache.UserText | backend/semantic_cache_server.py:218 | the text embedded: the user contents joined by spaces, or the normalised prompt when that is empty; `MissInserts` ties the stored domain and vector to it |
| SemanticCache.ExactHitIff | backend/semantic_cache_server.py:185-196 | an exact hit happens iff the prompt is in `exact`, its entry is fresh (strictly) and has the requested model; it answers the stored text with similarity 1.0, increments that entry's use count, and changes nothing else but `hits` and the latencies |
| SemanticCache.SemanticHitIff | backend/semantic_cache_server.py:198-213 | a semantic hit happens iff there is no exact hit, the index exists with rows, the embedding succeeds, and the best neighbour's similarity is at least the threshold (inclusive) and its row is fresh; it answers that row's text and increments `hits` and `semantic_hits` |
| SemanticCache.SemanticIgnoresModel | backend/semantic_cache_server.py:198-213 | the semantic branch does not look at the model: the same request with another model (and no exact hit for it) gets the same semantic answer |
| SemanticCache.MissInserts | backend/semantic_cache_server.py:215-231 | a successful miss answers the LLM's text with similarity 0.0, points `exact[prompt_norm]` at a new last row (use count 0, strategy `miss`, domain hint of the user text), adds exactly one vector, and counts one miss; the stored vector is the answer of the miss step's own `get_embedding` call, not the search's |
| SemanticCache.SecondEmbeddingFails | backend/semantic_cache_server.py:198-219 | when the search's embedding succeeds without a hit, the model answers and the second embedding fails, the request fails with the miss counted and nothing inserted |
| SemanticCache.RepeatAfterMissIsExactHit | backend/semantic_cache_server.py:186-231 | after a miss, the same prompt and model within the TTL is an exact hit with the same text, whatever the oracles answer |
| SemanticCache.MissForOtherModelReplacesExactKey | backend/semantic_cache_server.py:186-229 | the exact map is keyed by prompt only: after a miss for one model, the same prompt with another model has no exact hit |
| SemanticCache.DefaultTtlLastsAWeek | backend/semantic_cache_server.py:172-178 | an entry inserted with the default `ttl_seconds` of seven days is fresh exactly until 604800 seconds after the miss |
| SemanticCache.NoEviction | backend/semantic_cache_server.py:172-237 | a query never removes a row or changes a row's prompt, answer, embedding, model, creation time or TTL |
| SemanticCache.HitKeepsRows | backend/semantic_cache_server.py:189-196 | a hit keeps the number of rows and changes nothing in any row but its use count and last use |
| SemanticCache.MissKeepsRows | backend/semantic_cache_server.py:215-237 | the miss path keeps every earlier row unchanged and never shrinks the rows |
| SemanticCache.EmbeddingsKept | backend/semantic_cache_server.py:172-237 | a query keeps the embedding of every earlier row |
| SemanticCache.OnlyMissInserts | backend/semantic_cache_server.py:180-237 | a hit or a failed request inserts no row and keeps `dim` |
| SemanticCache.QueryKeepsWidth | backend/semantic_cache_server.py:158-164 | when the miss step's embedding has the index's width, the case in which `index.add` does not raise, a query keeps every row's embedding at width `dim` |
| SemanticCache.HitRatio | backend/semantic_cache_server.py:250 | the hit ratio lies in [0, 1], is 0.0 before any request, and is `hits / (hits + misses)` otherwise |
| SemanticCache.Report | backend/semantic_cache_server.py:239-255 | `requests == hits + misses`, `entries == len(rows)`, `semantic_hits <= hits <= requests` |
| SemanticCache.AdaptedThreshold | backend/semantic_cache_server.py:257-267 | the threshold is unchanged under 20 requests or with a ratio in [0.55, 0.85]; it moves down only on a ratio below 0.55 and up only above 0.85, by at most 0.01; a threshold in [0.70, 0.92] stays there; with 20 requests, a ratio below 0.55 lowers a threshold above 0.70 by exactly 0.01 or to 0.70 and sets one at or below 0.70 to 0.70, and a ratio above 0.85 raises a threshold below 0.92 by exactly 0.01 or to 0.92 and sets one at or above 0.92 to 0.92 |
| SemanticCache.LowRatioClampsToFloor | backend/semantic_cache_server.py:264-265 | a threshold below 0.70 is raised to 0.70 by a low hit ratio (`max` clamps, it does not step) |
| SemanticCache.RepeatedLowRatioReachesFloor | backend/semantic_cache_server.py:257-265 | while the ratio stays below 0.55, `n` calls with `n · 0.01` at least the distance to 0.70 bring a threshold at or above 0.70 down to exactly 0.70 |
| SemanticCache.RepeatedHighRatioReachesCap | backend/semantic_cache_server.py:257-267 | while the ratio stays above 0.85, `n` calls with `n · 0.01` at least the distance to 0.92 bring a threshold at or below 0.92 up to exactly 0.92 |
| SemanticCache.ServiceQuery | backend/semantic_cache_server.py:149-152 | a query creates the asking tenant if needed, keeps every tenant well formed, and leaves every other tenant's state equal |
| SemanticCache.OtherTenantUnaffected | backend/semantic_cache_server.py:149-152 | tenant isolation: a query by tenant A does not change what tenant B is answered |
| SemanticCache.TenantState.constructor | backend/semantic_cache_server.py:128-140 | a new record is the empty tenant |
| SemanticCache.SemanticCacheService.constructor | backend/semantic_cache_server.py:146-147 | the service starts with no tenants |
| SemanticCache.SemanticCacheService.Tenant | backend/semantic_cache_server.py:149-152 | returns the tenant's existing record or a fresh empty one, registered under that id; no record's contents change |
| SemanticCache.SemanticCacheService.OnlyTenantChanged | backend/semantic_cache_server.py:149-152 | when only the fetched record changed, the service state changed at that tenant alone and stays valid |
| SemanticCache.AddVector | backend/semantic_cache_server.py:158-164 | the first vector creates the index and sets `dim` to its width; later vectors are appended with `dim` kept; the earlier vectors, rows, `exact` and counters are unchanged |
| SemanticCache.SemanticCacheService.FaissAdd | backend/semantic_cache_server.py:158-164 | appends the vector to the index, creating the index and fixing `dim` on the first one |
| SemanticCache.SemanticCacheService.Query | backend/semantic_cache_server.py:172-237 | the new service state is the old one with only this tenant replaced by `QuerySpec`'s result, and the reply is `QuerySpec`'s |
| SemanticCache.SemanticCacheService.QueryRecord | backend/semantic_cache_server.py:185-196 | the exact step of the in-place query updates the record to `QuerySpec`'s result |
| SemanticCache.SemanticCacheService.SearchThenMiss | backend/semantic_cache_server.py:198-213 | the semantic step of the in-place query updates the record to `SearchOrMiss`'s result |
| SemanticCache.SemanticCacheService.Hit | backend/semantic_cache_server.py:189-196 | a hit touches the entry, counts the hit (and the semantic hit) and records the latency, as `RecordHit` |
| SemanticCache.SemanticCacheService.InsertMiss | backend/semantic_cache_server.py:215-237 | the miss step updates the record as `MissPath` |
| SemanticCache.SemanticCacheService.Metrics | backend/semantic_cache_server.py:239-255 | returns `Report` of the tenant's state, creating the tenant if needed and changing nothing else |
| SemanticCache.SemanticCacheService.AdaptThreshold | backend/semantic_cache_server.py:257-267 | only the tenant's threshold changes, to `AdaptedThreshold` |
| ApiKeys.Chunks | backend/api_key_generator.py:51 | the blocks are of eight characters except the last, which has one to eight, and together they have the length of the random part |
| ApiKeys.ChunkIsSlice | backend/api_key_generator.py:51 | block `i` is `r[8i : 8i+8]` |
| ApiKeys.ChunksConcat | backend/api_key_generator.py:49-54 | concatenating the blocks gives the random part back |
| ApiKeys.GenerateApiKey | backend/api_key_generator.py:12-56 | a generated tenant is non-empty and uses only alphanumerics, `-` and `_` |
| ApiKeys.GenerateApiKeyOutcomes | backend/api_key_generator.py:28-40 | no tenant and no `auto_tenant` raises the "required" error; an automatic tenant is `usr_` plus the eight draws; a given tenant is accepted iff its characters are alphanumerics, `-` or `_`, and otherwise raises the tenant-name error |
| ApiKeys.FormattedBlocks | backend/api_key_generator.py:49-54 | the `-`-joined blocks split on `-` back into the blocks, which concatenate to the random part |
| ApiKeys.GeneratedKeyChars | backend/api_key_generator.py:39-54 | a generated key contains only alphanumerics, `-` and `_` |
| ApiKeys.GeneratedKeyLayout | backend/api_key_generator.py:44-54 | the key is `sc-` + tenant + `-` + R, with R the random part verbatim when `length <= 24` and its blocks of eight joined by `-` otherwise |
| ApiKeys.ValidateApiKey | backend/api_key_generator.py:140-164 | a valid key starts with `sc-`; `KeyOfTenantIsValid` and `ValidKeyHasTenant` give the exact iff |
| ApiKeys.ExtractTenant | backend/api_key_generator.py:166-182 | fails with "Invalid API key format" exactly when `validate_api_key` rejects the key |
| ApiKeys.KeyOfTenantIsValid | backend/api_key_generator.py:140-182 | every `sc-{t}-{rest}` with `t` non-empty, of valid characters and without `-` is valid, and its tenant is `t` |
| ApiKeys.ValidKeyHasTenant | backend/api_key_generator.py:140-182 | conversely, every valid key is `sc-{t}-{rest}` with such a `t`, and `extract_tenant` gives `t` |
| ApiKeys.GeneratedKeyRoundTrip | backend/api_key_generator.py:12-182 | a key generated for a tenant without `-` validates, and `extract_tenant` returns that tenant |
| ApiKeys.DashedTenantIsTruncated | backend/api_key_generator.py:12-182 | for a tenant `head-tail` (such as `company-abc`), generation succeeds but `extract_tenant` returns only `head` |
| ApiKeys.LeadingDashTenantKeyIsInvalid | backend/api_key_generator.py:39-162 | a tenant starting with `-` passes generation, but its key fails `validate_api_key` |
| ApiKeys.GenerateMultipleKeys | backend/api_key_generator.py:58-81 | fails exactly when `count > 0` and a given tenant has a bad character; otherwise returns `max(count, 0)` pairs, pair `k` being `generate_api_key` on draw `k`, each carrying the given tenant when one is given |
| KeyAuth.SpaceRun | backend/semantic_cache_server.py:319 | the leading run of `\s` is all whitespace and is followed by a non-whitespace character or the end |
| KeyAuth.MatchBearer | backend/semantic_cache_server.py:319-323 | a match captures a well-formed `sc-` token and happens only after the `Bearer` prefix; `HeaderMatches` and `MatchHasShape` give the exact iff |
| KeyAuth.HeaderMatches | backend/semantic_cache_server.py:319 | `Bearer`, whitespace, a token `sc-[A-Za-z0-9_-]+` and an optional final newline match, capturing the token |
| KeyAuth.MatchHasShape | backend/semantic_cache_server.py:319 | conversely, every matching header has exactly that shape |
| KeyAuth.TenantFromHeader | backend/semantic_cache_server.py:321-333 | every rejection has status 401 |
| KeyAuth.ServerAgreesWithExtractTenant | backend/semantic_cache_server.py:321-333 | for a key that `validate_api_key` accepts, the server derives the same tenant as `extract_tenant` |
| KeyAuth.GeneratedKeyAuthenticates | backend/semantic_cache_server.py:321-333 | `Bearer <generated key>` authenticates as the generated tenant when the tenant has no `-` |
| KeyAuth.OneDashTokenIsMalformed | backend/semantic_cache_server.py:329-331 | a matching token with a single `-` is refused with 401 "Malformed API key" |
| KeyAuth.EmptyTenantPartAccepted | backend/semantic_cache_server.py:319-333 | every header `Bearer`, whitespace, a well-formed token `sc--{rest}` and an optional final newline authenticates as the empty tenant, although `validate_api_key` rejects every such token |
| KeyAuth.NoSchemeIsUnauthorized | backend/semantic_cache_server.py:323-326 | a header not starting with `Bearer` is refused with 401 "Missing or invalid API key" |
| Credentials.ValidatePasswordStrength | backend/auth.py:96-108 | the verdict is valid exactly when the message is empty |
| Credentials.PasswordRules | backend/auth.py:96-108 | accepted iff at least 8 characters, a letter and a digit; otherwise the message names the first broken rule, in the order length, letter, number |
| Credentials.AcceptedPasswordExtends | backend/auth.py:96-108 | appending characters to an accepted password keeps it accepted |
| Credentials.ValidateEmail | backend/auth.py:120-136 | the verdict is valid exactly when the message is empty; an address without `@`, the empty one included, is "Invalid email format"; one with `@` but under three characters is "Email is too short"; an accepted address has an `@` and at least three characters |
| Credentials.AcceptedEmailShape | backend/auth.py:126-136 | an accepted address is `local@domain`, both sides non-empty and free of `@`, with a `.` in the domain |
| Credentials.EmailOfShapeAccepted | backend/auth.py:120-136 | conversely, every such address is accepted |
| Credentials.DomainWithoutDot | backend/auth.py:133-134 | a domain without `.` gives "Invalid email domain" |
| Credentials.TwoAtSigns | backend/auth.py:126-128 | a second `@` gives "Invalid email format" |
| Numerals.ToBase | sdk/integrations/express/middleware.js:135 | the numeral is non-empty, unsigned and made of base digits, with a leading `0` only for zero |
| Numerals.FromToBase | sdk/integrations/express/middleware.js:135 | reading the numeral back gives the number |
| Storage.IntDecimal | backend/storage_config.py:78 | `str(port)` consists of digits and `-` |
| Storage.DbUrl | backend/storage_config.py:71-82 | `get_db_url`; a specification function characterised by `DbUrlForms` |
| Storage.DbUrlForms | backend/storage_config.py:71-82 | `DATABASE_URL` wins whatever the backend; otherwise the URL starts with `postgresql://`, `mysql+pymysql://` or `sqlite:///`, each chosen exactly by its backend, SQLite for any unknown one; a server URL is `user:password@` followed by exactly the summary's `db_url`, and a SQLite URL is `cache_data/<name>.db` with no `@` |
| Storage.RedisUrl | backend/storage_config.py:84-95 | there is no Redis URL exactly when `REDIS_URL` is unset and Redis is disabled |
| Storage.RedisPasswordOnlyWhenSet | backend/storage_config.py:90-94 | `:{password}@` appears with a non-empty password, and without one the URL has no `@` |
| Storage.IsProduction | backend/storage_config.py:97-100 | `is_production`: not SQLite, or Redis or S3 enabled; `DefaultsAreDevelopment` and `DevelopmentUsesSqlite` state its consequences |
| Storage.DefaultsAreDevelopment | backend/storage_config.py:21-39 | the default configuration is not production, uses `sqlite:///cache_data/semantis_cache.db`, and has no Redis URL |
| Storage.DevelopmentUsesSqlite | backend/storage_config.py:97-111 | outside production the database is SQLite unless a URL is given, Redis is reached only through `REDIS_URL`, and the summary has no bucket |
| Storage.SummaryDbUrl | backend/storage_config.py:107 | the summary's `db_url` contains no `@` |
| Storage.ConfigSummary | backend/storage_config.py:102-117 | `s3_bucket` is present exactly when S3 is enabled, and then is the bucket; `db_url` has no `@` |
| Storage.SummaryDbUrlIsSuffix | backend/storage_config.py:107 | the summary URL is a suffix of the connection URL; what is dropped is empty exactly when there is no `@`, and otherwise ends with `@` |
| Storage.SummaryHidesCredentials | backend/storage_config.py:107 | for a server database built from fields, the summary shows only `host:port/name`, even when the password contains `@` |
| Storage.SummaryKeepsUrlWithoutAt | backend/storage_config.py:107 | a URL without `@` is shown unchanged |
| Storage.SummaryShowsRedisPassword | backend/storage_config.py:109 | as written, a Redis password set by fields appears in full in the summary's `redis_url` |
| Storage.MaskedRedisUrl | backend/storage_config.py:107-109 | the masked Redis URL exists exactly when a Redis URL does, and has no `@` |
| Storage.MaskedRedisHidesPassword | backend/storage_config.py:90-109 | with a password and a host free of `@`, the masked URL is `host:port/db` whatever the password holds; without a password it is the URL unchanged |
| Persistence.EntryToDict | backend/cache_persistence.py:55-69 | the saved dictionary has exactly the ten entry fields |
| Persistence.DictToEntry | backend/cache_persistence.py:144-155 | the `CacheEntry(...)` rebuilt from a dictionary; `EntryRoundTrip`, `EntryDefaults` and `MissingRequiredField` characterise it |
| Persistence.EntryRoundTrip | backend/cache_persistence.py:55-166 | saving an entry and loading it back gives the same ten fields |
| Persistence.EntryDefaults | backend/cache_persistence.py:144-148 | missing optional fields load as `last_used_at` = now, `use_count` 0, domain `general` and strategy `miss` |
| Persistence.MissingRequiredField | backend/cache_persistence.py:137-143 | a missing required field makes the entry unloadable |
| Persistence.SaveTenant | backend/cache_persistence.py:72-95 | the saved tenant has the same `exact` keys and as many rows |
| Persistence.IndexFor | backend/cache_persistence.py:168-186 | an index is rebuilt iff `dim` is truthy and there are rows, and then holds one vector per row in row order |
| Persistence.RebuildIndex | backend/cache_persistence.py:168-186 | the reconstruction loop builds the index `IndexFor` describes |
| Persistence.LoadRows | backend/cache_persistence.py:152-166 | the rows load iff every row dictionary loads, and then row `i` is the entry of dictionary `i` |
| Persistence.LoadExact | backend/cache_persistence.py:135-149 | the loaded `exact` map has the saved keys |
| Persistence.LoadTenant | backend/cache_persistence.py:138-215 | the tenant part of `load_cache`; `TenantDefaults`, `TenantRoundTrip` and `UnsetDimLoadsWithoutIndex` characterise it |
| Persistence.TenantDefaults | backend/cache_persistence.py:207-211 | missing counters load as 0, missing latencies as empty, and a missing threshold as 0.83 |
| Persistence.SavedRowsLoad | backend/cache_persistence.py:55-166 | the saved rows load back as the tenant's rows |
| Persistence.SavedExactLoads | backend/cache_persistence.py:72-149 | the saved `exact` dictionary loads back as each key's row |
| Persistence.TenantRoundTrip | backend/cache_persistence.py:87-211 | saving a well-formed tenant and loading it gives the same rows, counters, latencies and threshold, `exact` mapped to the rows it pointed at, and the same index when vectors are non-empty |
| Persistence.SavedIndexMatches | backend/cache_persistence.py:168-186 | the index rebuilt from the saved rows and `dim` equals the tenant's index |
| Persistence.UnsetDimLoadsWithoutIndex | backend/cache_persistence.py:170-171 | with `dim` 0 or missing, no index is rebuilt even when there are rows |
| Persistence.Merged | backend/cache_persistence.py:243-248 | the records after the merge loop; the `Merge…` lemmas below characterise it |
| Persistence.MergeKeys | backend/cache_persistence.py:243-248 | the merge loop with its set of known keys computes `Merged` |
| Persistence.MergeKeepsExisting | backend/cache_persistence.py:243-248 | the existing records stay at the front, in their order |
| Persistence.MergedKeys | backend/cache_persistence.py:243-248 | the merged keys are the existing keys plus the batch's keys |
| Persistence.MergeAppendsNewKeysOnce | backend/cache_persistence.py:243-248 | each appended record comes from the batch with a key not present before, and no two appended records share a key |
| Persistence.MergeOfKnownKeys | backend/cache_persistence.py:243-248 | a batch whose keys are all known adds nothing |
| Persistence.MergeIdempotent | backend/cache_persistence.py:243-248 | merging the same batch twice adds nothing the second time |
| Persistence.MergeLength | backend/cache_persistence.py:243-248 | the merged length is the existing length plus the number of distinct batch keys not present before |
| ExpressGate.ToInt32 | sdk/integrations/express/middleware.js:133 | the result is a signed 32-bit value congruent to the input modulo 2^32 |
| ExpressGate.Utf16 | sdk/integrations/express/middleware.js:131 | `charCodeAt` yields code units in [0, 0xFFFF] |
| ExpressGate.StepIsTimes31 | sdk/integrations/express/middleware.js:132-133 | `((h << 5) - h) + c` then `h & h` is `31·h + c` reduced to a signed 32-bit value |
| ExpressGate.HashAcc | sdk/integrations/express/middleware.js:129-134 | the accumulator always lies in [-2^31, 2^31) |
| ExpressGate.HashAccIsPoly | sdk/integrations/express/middleware.js:129-134 | the accumulator is the exact polynomial hash `sum u[i]·31^(n-1-i)` reduced to a signed 32-bit value |
| ExpressGate.HashString | sdk/integrations/express/middleware.js:135 | the hash is non-empty, unsigned, and made of the base-36 digits `0-9a-z` |
| ExpressGate.HashCode | sdk/integrations/express/middleware.js:128-136 | the loop computes `HashString` |
| ExpressGate.HashOfEmpty | sdk/integrations/express/middleware.js:128-136 | `hashCode("") == "0"` |
| ExpressGate.HashReadsBack | sdk/integrations/express/middleware.js:135 | the hash reads back as the magnitude of the polynomial hash reduced to 32 bits, at most 2^31 |
| ExpressGate.CreateMiddleware | sdk/integrations/express/middleware.js:31-46 | it throws the "API key is required" error exactly when `apiKey` is missing, and the client gets the option's key; given `cachePaths` and `baseUrl` options are kept; without a `baseUrl` option a non-empty `SEMANTIS_API_URL` is used, and otherwise `https://api.semantis.ai`; the default paths are `["/v1/chat/completions"]` |
| ExpressGate.EnvApiKeyIgnored | sdk/integrations/express/middleware.js:38-44 | as written, a missing `apiKey` option is refused even when `SEMANTIS_API_KEY` is set |
| ExpressGate.CreateMiddlewareWithEnvKey | sdk/integrations/express/middleware.js:32-46 | refused exactly when both the option and `SEMANTIS_API_KEY` are missing; the key is the option's, else the variable's |
| ExpressGate.EnvKeyFallback | sdk/integrations/express/middleware.js:32-46 | with the option given it agrees with `CreateMiddleware`; without it, the variable's key is used with the same URL and paths |
| ExpressGate.NoUserContents | sdk/integrations/express/middleware.js:67-70 | no user content exactly when no message has role `user` |
| ExpressGate.LastUserMessage | sdk/integrations/express/middleware.js:67-72 | the prompt is the content of the last message with role `user` |
| ExpressGate.Gate | sdk/integrations/express/middleware.js:48-79 | the gating of the middleware; `GateIff` characterises it |
| ExpressGate.GateIff | sdk/integrations/express/middleware.js:48-79 | the cache is asked iff the path is a cache path, the method is POST with a body, and the last user message has non-empty content; the prompt is that content and the model is the body's, or `gpt-4o-mini` |
| ExpressGate.Handle | sdk/integrations/express/middleware.js:77-121 | a cached response is sent only for a request that passes the gate |
| ExpressGate.HandleIff | sdk/integrations/express/middleware.js:77-121 | a cached response is sent iff the gate passes and the cache reports `exact` or `semantic`; it carries `chatcmpl-cached-` + the prompt's hash, the cached answer, the hit kind, the model, and `created` = `floor(now / 1000)`; anything else, including a failed query, calls `next()` |

## Left out

- Character classes: `isalnum`, `isalpha`, `isdigit` and `lower` are modelled for ASCII only. Python's Unicode letters and digits, and non-ASCII case mappings, are not. `isspace` and `\s` use Python's full whitespace set.
- Oracles: the OpenAI embedding and chat calls, the FAISS search and the L2 normalisation are not modelled. They are the oracles `embed` (the call at backend/semantic_cache_server.py:201), `embedOnMiss` (the call at line 219), `llm` and `sim` (real-valued). Each oracle is a function, so a repeated call with the same text within one oracle gives the same answer. The search answers the first position of maximal similarity.
- Floating point: timestamps, similarities, latencies and the threshold are reals. The rounding of the latency, of the similarity and of the metrics fields is not modelled.
- SemanticCache.Report: the latency percentiles `p50`/`p95` are not modelled (numpy), and `hit_ratio` and `sim_threshold` are reported unrounded.
- Time: one clock reading `now` per query serves both the freshness test and `last_used_at`. The source reads the clock separately at each point.
- The HTTP layer is not modelled: the FastAPI app, the endpoints other than the chat-completions key expression, CORS, the OpenAPI customisation and the loggers.
- Configuration: environment reading is not modelled. `Config` is a record of values, and a setting that is unset (`None`) is the empty string, as both are falsy.
- Storage.ConfigSummary: `vector_db_backend`, `cache_persistence_enabled`, `prometheus_enabled` and `grafana_enabled` are not in the summary record. They are constant reads of configuration.
- Persistence: the pickle and JSON file I/O and `load_api_keys` are not modelled. `save_cache` reads `tenant_state.events`, and `load_cache` imports `CacheEvent` and passes `events=` to `TenantState`, but `TenantState` defines neither. As written, saving raises and loading returns `None`. The model covers only the field mapping and the tenant reconstruction without events.
- Persistence: a dictionary value of the wrong kind makes an entry unloadable. Python would instead carry it on unchecked.
- Persistence.IndexFor: the filtering of `None` embeddings is not modelled, because every modelled entry has an embedding. The `normalize_L2` of the rebuilt vectors is not modelled either.
- Persistence.TenantRoundTrip: it does not cover a tenant whose vectors are empty. For such a tenant the saved `dim` is 0, so no index is rebuilt.
- ApiKeys: the CLI `main`, `save_keys` and `list_keys` are not modelled (file I/O and printing). The `secrets.choice` draws are inputs that satisfy the alphabet constraints.
- ExpressGate: the `SemanticCache` client and its network call are not modelled. The call is the `query` oracle, and a thrown error is `None`. The constant fields of the cached response (`object`, `choices` wrapper, `finish_reason`, `usage`) and `meta.similarity`/`meta.latency_ms` pass-through beyond what `HandleIff` states are not listed separately. `console.warn` is not modelled.
- ExpressGate: a message's `content` and the body's `model` are strings, with the empty string for a missing or falsy value. A non-string content is not modelled.
- SemanticCache.AddVector: `faiss` asserts in `add` and `search` that a vector has the index's width. The model does not raise there, and `WellFormed` does not include equal widths. A tenant whose embedding model changes width is not modelled. In the source, the miss step would then append the row and raise at line 231 before its vector is added, leaving a row without a vector. Instead `QueryKeepsWidth` states when the widths stay equal.
- SemanticCache.SemanticCacheService.FaissAdd: appends a vector of any width, where `index.add` raises on a width other than `dim`; see the line above.
- Concurrency: the HTTP endpoints (backend/semantic_cache_server.py:356, 363, 375) are plain functions that the web framework runs on a thread pool, and `query` takes no lock. The model takes every request as one atomic step on the tenant's state. `WellFormed`, the alignment of index and rows, `NoEviction` and `QueryCounters` hold only for requests that do not overlap. Overlapping requests can also create a tenant twice (lines 149-152), or each create the index of a new tenant so that one vector is lost (lines 160-163), and they can lose `+=` updates of the counters. Only the interleaving of lines 229-231 is modelled, under Findings.
- Behaviour the product documentation promises but the code does not have is not modelled; the model follows the code:
  - popular entries extended to 30 days (frontend/src/components/DocsPage.tsx:129-130): every entry keeps the `ttl_seconds` it was created with, and nothing extends it;
  - a separate cache namespace per model (frontend/src/components/DocsPage.tsx:136-137): `exact` is keyed by prompt only, a miss for another model replaces the key (`MissForOtherModelReplacesExactKey`), and the semantic branch ignores the model (`SemanticIgnoresModel`).

## Findings

| source | as written | input that shows it | evidently intended | confidence | as-written member | corrected member |
|---|---|---|---|---|---|---|
| backend/semantic_cache_server.py:229-231 | the three updates that insert a miss run without a lock, while the endpoints run on a thread pool | two misses of one tenant with different embeddings, the second running lines 229-231 between the first one's line 230 and line 231: row `n` is the first entry but index position `n` holds the second one's vector | an insertion is one step per tenant, so row `i` and index vector `i` belong to the same entry | not executed; needs a thread switch inside a short window | SemanticCache.InterleavedMissesMisalignIndex | SemanticCache.InsertRow |
| sdk/integrations/express/middleware.js:38-44 | a missing `apiKey` option throws before the `SEMANTIS_API_KEY` fallback at line 44 is reached, although the error message says the variable may be set instead | `semanticCacheMiddleware({})` with `SEMANTIS_API_KEY` set throws "API key is required" | use the variable when the option is missing, and throw only when both are missing | not executed | ExpressGate.EnvApiKeyIgnored | ExpressGate.CreateMiddlewareWithEnvKey |
| backend/storage_config.py:109 | the summary's `redis_url` is the full connection URL, while its `db_url` at line 107 drops the credentials | Redis enabled with password `secret` and no `REDIS_URL`: the summary shows `redis://:secret@localhost:6379/0` | mask `redis_url` as `db_url` is masked | not executed; the summary may be meant only for trusted readers | Storage.SummaryShowsRedisPassword | Storage.MaskedRedisUrl |
