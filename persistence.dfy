/**
 * Cache persistence: the field-by-field mapping between cache entries and
 * the dictionaries that are written to disk, the reconstruction of a tenant
 * with its defaults and rebuilt vector index, and the duplicate-free merge of
 * API-key records.
 */
module Persistence {
  import opened Basics
  import opened SemanticCache

  /** A value stored in an entry dictionary. */
  datatype Value = Text(s: string) | Int(i: int) | Number(r: real) | Numbers(v: seq<real>)

  type EntryDict = map<string, Value>

  const PromptNormField: string := "prompt_norm"
  const ResponseTextField: string := "response_text"
  const EmbeddingField: string := "embedding"
  const ModelField: string := "model"
  const TtlSecondsField: string := "ttl_seconds"
  const CreatedAtField: string := "created_at"
  const LastUsedAtField: string := "last_used_at"
  const UseCountField: string := "use_count"
  const DomainField: string := "domain"
  const StrategyField: string := "strategy"

  const DefaultDomain: string := "general"
  const DefaultStrategy: string := "miss"

  /** The fields `load_cache` reads with `entry_data[...]`. */
  const RequiredFields: set<string> :=
    {PromptNormField, ResponseTextField, EmbeddingField, ModelField, TtlSecondsField, CreatedAtField}

  /** The fields `load_cache` reads with `entry_data.get(..., default)`. */
  const OptionalFields: set<string> := {LastUsedAtField, UseCountField, DomainField, StrategyField}

  /** The dictionary `save_cache` writes for one entry. */
  function EntryToDict(e: CacheEntry): (d: EntryDict)
    ensures d.Keys == RequiredFields + OptionalFields
  {
    map[PromptNormField := Text(e.promptNorm),
        ResponseTextField := Text(e.responseText),
        EmbeddingField := Numbers(e.embedding),
        ModelField := Text(e.model),
        TtlSecondsField := Int(e.ttlSeconds),
        CreatedAtField := Number(e.createdAt),
        LastUsedAtField := Number(e.lastUsedAt),
        UseCountField := Int(e.useCount),
        DomainField := Text(e.domain),
        StrategyField := Text(e.strategy)]
  }

  function GetText(d: EntryDict, k: string, default: Option<string>): Option<string>
  {
    if k in d then (if d[k].Text? then Some(d[k].s) else None) else default
  }

  function GetInt(d: EntryDict, k: string, default: Option<int>): Option<int>
  {
    if k in d then (if d[k].Int? then Some(d[k].i) else None) else default
  }

  function GetNumber(d: EntryDict, k: string, default: Option<real>): Option<real>
  {
    if k in d then (if d[k].Number? then Some(d[k].r) else None) else default
  }

  function GetNumbers(d: EntryDict, k: string): Option<seq<real>>
  {
    if k in d && d[k].Numbers? then Some(d[k].v) else None
  }

  /** The `CacheEntry(...)` that `load_cache` rebuilds from a dictionary, with
      `now` for `time.time()`; `None` when a field is missing (a `KeyError`)
      or holds a value of another kind. */
  function DictToEntry(d: EntryDict, now: real): Option<CacheEntry>
  {
    var promptNorm := GetText(d, PromptNormField, None);
    var responseText := GetText(d, ResponseTextField, None);
    var embedding := GetNumbers(d, EmbeddingField);
    var model := GetText(d, ModelField, None);
    var ttl := GetInt(d, TtlSecondsField, None);
    var createdAt := GetNumber(d, CreatedAtField, None);
    var lastUsedAt := GetNumber(d, LastUsedAtField, Some(now));
    var useCount := GetInt(d, UseCountField, Some(0));
    var domain := GetText(d, DomainField, Some(DefaultDomain));
    var strategy := GetText(d, StrategyField, Some(DefaultStrategy));
    if promptNorm.Some? && responseText.Some? && embedding.Some? && model.Some? && ttl.Some?
       && createdAt.Some? && lastUsedAt.Some? && useCount.Some? && domain.Some? && strategy.Some?
    then Some(CacheEntry(promptNorm.value, responseText.value, embedding.value, model.value, ttl.value,
                         createdAt.value, lastUsedAt.value, useCount.value, domain.value, strategy.value))
    else None
  }

  /** Saving an entry and loading it back gives the same ten fields. */
  lemma EntryRoundTrip(e: CacheEntry, now: real)
    ensures DictToEntry(EntryToDict(e), now) == Some(e)
  {
    var d := EntryToDict(e);
    assert d[PromptNormField] == Text(e.promptNorm);
    assert d[ResponseTextField] == Text(e.responseText);
    assert d[EmbeddingField] == Numbers(e.embedding);
    assert d[ModelField] == Text(e.model);
    assert d[TtlSecondsField] == Int(e.ttlSeconds);
    assert d[CreatedAtField] == Number(e.createdAt);
    assert d[LastUsedAtField] == Number(e.lastUsedAt);
    assert d[UseCountField] == Int(e.useCount);
    assert d[DomainField] == Text(e.domain);
  }

  /** A dictionary with only the required fields loads with `last_used_at`
      the load time, `use_count` 0, domain `general` and strategy `miss`. */
  lemma EntryDefaults(d: EntryDict, now: real)
    requires d.Keys == RequiredFields
    requires d[PromptNormField].Text? && d[ResponseTextField].Text? && d[EmbeddingField].Numbers?
    requires d[ModelField].Text? && d[TtlSecondsField].Int? && d[CreatedAtField].Number?
    ensures var r := DictToEntry(d, now);
      && r.Some?
      && r.value.promptNorm == d[PromptNormField].s
      && r.value.embedding == d[EmbeddingField].v
      && r.value.createdAt == d[CreatedAtField].r
      && r.value.lastUsedAt == now
      && r.value.useCount == 0
      && r.value.domain == DefaultDomain
      && r.value.strategy == DefaultStrategy
  {
    assert LastUsedAtField !in d && UseCountField !in d && DomainField !in d && StrategyField !in d;
  }

  /** Without one of the required fields the entry cannot be loaded. */
  lemma MissingRequiredField(d: EntryDict, now: real, k: string)
    requires k in RequiredFields && k !in d
    ensures DictToEntry(d, now).None?
  {
  }

  /** The dictionary `save_cache` writes for one tenant; a key that may be
      missing when it is read back is an `Option`. */
  datatype SavedTenant = SavedTenant(
    exact: map<string, EntryDict>,
    rows: seq<EntryDict>,
    dim: Option<int>,
    hits: Option<int>,
    misses: Option<int>,
    semanticHits: Option<int>,
    latencies: Option<seq<real>>,
    simThreshold: Option<real>)

  /** The `TenantState(...)` that `load_cache` rebuilds. Its `exact` values are
      entries of their own, no longer the objects held in `rows`. */
  datatype LoadedTenant = LoadedTenant(
    exact: map<string, CacheEntry>,
    rows: seq<CacheEntry>,
    index: Option<seq<Vector>>,
    dim: Option<int>,
    hits: int,
    misses: int,
    semanticHits: int,
    latencies: seq<real>,
    simThreshold: real)

  predicate InRange(exact: map<string, nat>, rows: seq<CacheEntry>)
  {
    forall k :: k in exact ==> exact[k] < |rows|
  }

  /** The `exact` dictionary of `save_cache`: each key with the entry it
      points at. */
  function SaveExact(exact: map<string, nat>, rows: seq<CacheEntry>): (r: map<string, EntryDict>)
    requires InRange(exact, rows)
    ensures r.Keys == exact.Keys
  {
    map k | k in exact :: EntryToDict(rows[exact[k]])
  }

  /** The tenant part of `save_cache`. */
  function SaveTenant(T: TenantSnapshot): (s: SavedTenant)
    requires WellFormed(T)
    ensures s.exact.Keys == T.exact.Keys && |s.rows| == |T.rows|
  {
    SavedTenant(
      SaveExact(T.exact, T.rows),
      seq(|T.rows|, i requires 0 <= i < |T.rows| => EntryToDict(T.rows[i])),
      if T.dim.Some? then Some(T.dim.value as int) else None,
      Some(T.hits), Some(T.misses), Some(T.semanticHits), Some(T.latencies), Some(T.simThreshold))
  }

  /** Python truthiness of `dim`: present and non-zero. */
  predicate DimSet(dim: Option<int>)
  {
    dim.Some? && dim.value != 0
  }

  /** The index `load_cache` rebuilds: only when `dim` is set and there are
      rows, and then one vector per row in row order. */
  function IndexFor(rows: seq<CacheEntry>, dim: Option<int>): (index: Option<seq<Vector>>)
    ensures index.Some? <==> DimSet(dim) && rows != []
    ensures index.Some? ==> (|index.value| == |rows|
      && forall i :: 0 <= i < |rows| ==> index.value[i] == rows[i].embedding)
  {
    if DimSet(dim) && rows != [] then Some(seq(|rows|, i requires 0 <= i < |rows| => rows[i].embedding))
    else None
  }

  /** The index reconstruction loop of `load_cache`: collect the embeddings of
      the rows, then add them to a fresh index. */
  method RebuildIndex(rows: seq<CacheEntry>, dim: Option<int>) returns (index: Option<seq<Vector>>)
    ensures index == IndexFor(rows, dim)
  {
    index := None;
    if DimSet(dim) && |rows| > 0 {
      var embeddings: seq<Vector> := [];
      var i := 0;
      while i < |rows|
        invariant 0 <= i <= |rows|
        invariant |embeddings| == i
        invariant forall j :: 0 <= j < i ==> embeddings[j] == rows[j].embedding
      {
        embeddings := embeddings + [rows[i].embedding];
        i := i + 1;
      }
      assert embeddings == IndexFor(rows, dim).value;
      index := Some(embeddings);
    }
  }

  /** The rows `load_cache` rebuilds, all or nothing. */
  function LoadRows(ds: seq<EntryDict>, now: real): (r: Option<seq<CacheEntry>>)
    ensures r.Some? <==> forall i :: 0 <= i < |ds| ==> DictToEntry(ds[i], now).Some?
    ensures r.Some? ==> (|r.value| == |ds|
      && forall i :: 0 <= i < |ds| ==> Some(r.value[i]) == DictToEntry(ds[i], now))
  {
    if ds == [] then Some([])
    else
      var first := DictToEntry(ds[0], now);
      var rest := LoadRows(ds[1..], now);
      if first.Some? && rest.Some? then Some([first.value] + rest.value)
      else
        assert first.None? ==> !DictToEntry(ds[0], now).Some?;
        assert rest.None? ==> exists i :: 0 <= i < |ds| - 1 && DictToEntry(ds[1..][i], now).None?;
        None
  }

  function OrDefault<T>(o: Option<T>, default: T): T
  {
    if o.Some? then o.value else default
  }

  predicate AllEntriesLoad(exact: map<string, EntryDict>, now: real)
  {
    forall k :: k in exact ==> DictToEntry(exact[k], now).Some?
  }

  /** The `exact` map `load_cache` rebuilds, key by key. */
  function LoadExact(exact: map<string, EntryDict>, now: real): (r: map<string, CacheEntry>)
    requires AllEntriesLoad(exact, now)
    ensures r.Keys == exact.Keys
  {
    map k | k in exact :: DictToEntry(exact[k], now).value
  }

  /** The tenant part of `load_cache`; `None` when an entry cannot be rebuilt. */
  function LoadTenant(s: SavedTenant, now: real): Option<LoadedTenant>
  {
    var rows := LoadRows(s.rows, now);
    if rows.None? || !AllEntriesLoad(s.exact, now) then None
    else
      Some(LoadedTenant(
        LoadExact(s.exact, now),
        rows.value,
        IndexFor(rows.value, s.dim),
        s.dim,
        OrDefault(s.hits, 0), OrDefault(s.misses, 0), OrDefault(s.semanticHits, 0),
        OrDefault(s.latencies, []), OrDefault(s.simThreshold, InitialThreshold)))
  }

  /** Missing counters load as 0, missing latencies as none and a missing
      threshold as 0.83. */
  lemma TenantDefaults(s: SavedTenant, now: real)
    requires s.hits.None? && s.misses.None? && s.semanticHits.None?
    requires s.latencies.None? && s.simThreshold.None?
    requires LoadTenant(s, now).Some?
    ensures var t := LoadTenant(s, now).value;
      t.hits == 0 && t.misses == 0 && t.semanticHits == 0 && t.latencies == [] && t.simThreshold == 0.83
  {
  }

  lemma SavedRowsLoad(T: TenantSnapshot, now: real)
    requires WellFormed(T)
    ensures LoadRows(SaveTenant(T).rows, now) == Some(T.rows)
  {
    var s := SaveTenant(T);
    forall i | 0 <= i < |T.rows| ensures DictToEntry(s.rows[i], now) == Some(T.rows[i]) {
      EntryRoundTrip(T.rows[i], now);
    }
    var rows := LoadRows(s.rows, now);
    assert rows.value == T.rows;
  }

  /** One key of the saved `exact` dictionary loads back as the row it
      pointed at. */
  lemma ExactEntryLoads(exact: map<string, nat>, rows: seq<CacheEntry>, now: real, k: string)
    requires InRange(exact, rows) && k in exact
    ensures DictToEntry(SaveExact(exact, rows)[k], now) == Some(rows[exact[k]])
  {
    EntryRoundTrip(rows[exact[k]], now);
  }

  /** A dictionary whose every entry loads as the same key of `target` loads
      as `target`. */
  lemma LoadExactOf(saved: map<string, EntryDict>, target: map<string, CacheEntry>, now: real)
    requires saved.Keys == target.Keys
    requires forall k :: k in saved ==> DictToEntry(saved[k], now) == Some(target[k])
    ensures AllEntriesLoad(saved, now) && LoadExact(saved, now) == target
  {
  }

  lemma ExactLoads(exact: map<string, nat>, rows: seq<CacheEntry>, now: real)
    requires InRange(exact, rows)
    ensures AllEntriesLoad(SaveExact(exact, rows), now)
    ensures LoadExact(SaveExact(exact, rows), now) == (map k | k in exact :: rows[exact[k]])
  {
    var saved := SaveExact(exact, rows);
    var target := map k | k in exact :: rows[exact[k]];
    forall k | k in saved ensures DictToEntry(saved[k], now) == Some(target[k]) {
      ExactEntryLoads(exact, rows, now, k);
    }
    LoadExactOf(saved, target, now);
  }

  lemma SavedExactLoads(T: TenantSnapshot, now: real)
    requires WellFormed(T)
    ensures AllEntriesLoad(SaveTenant(T).exact, now)
    ensures LoadExact(SaveTenant(T).exact, now) == (map k | k in T.exact :: T.rows[T.exact[k]])
  {
    ExactLoads(T.exact, T.rows, now);
  }

  /** Saving a well-formed tenant and loading it back gives the same rows,
      counters and threshold, an `exact` map whose values are the rows it
      pointed at, and the same index as long as the vectors are not empty. */
  lemma TenantRoundTrip(T: TenantSnapshot, now: real)
    requires WellFormed(T)
    requires T.rows != [] ==> |T.rows[0].embedding| > 0
    ensures var r := LoadTenant(SaveTenant(T), now);
      && r.Some?
      && r.value.rows == T.rows
      && r.value.exact == (map k | k in T.exact :: T.rows[T.exact[k]])
      && r.value.index == T.index
      && r.value.hits == T.hits && r.value.misses == T.misses && r.value.semanticHits == T.semanticHits
      && r.value.latencies == T.latencies && r.value.simThreshold == T.simThreshold
  {
    SavedRowsLoad(T, now);
    SavedExactLoads(T, now);
    SavedIndexMatches(T);
  }

  /** The index rebuilt from the saved rows and `dim` is the tenant's index. */
  lemma SavedIndexMatches(T: TenantSnapshot)
    requires WellFormed(T)
    requires T.rows != [] ==> |T.rows[0].embedding| > 0
    ensures IndexFor(T.rows, SaveTenant(T).dim) == T.index
  {
    if T.rows != [] {
      assert IndexFor(T.rows, SaveTenant(T).dim).value == T.index.value;
    }
  }

  /** A saved tenant whose `dim` is 0 or missing loads without an index even
      when it has rows. */
  lemma UnsetDimLoadsWithoutIndex(s: SavedTenant, now: real)
    requires !DimSet(s.dim) && LoadTenant(s, now).Some?
    ensures LoadTenant(s, now).value.index.None?
  {
  }

  /** One record of the API-key file; only `api_key` matters to the merge
      (`k.get("api_key")`, `None` when absent). */
  datatype KeyRecord = KeyRecord(apiKey: Option<string>, fields: map<string, string>)

  function KeysOf(records: seq<KeyRecord>): set<Option<string>>
  {
    set i | 0 <= i < |records| :: records[i].apiKey
  }

  /** The records after the merge loop of `save_api_keys` has seen `batch`. */
  function Merged(existing: seq<KeyRecord>, batch: seq<KeyRecord>): seq<KeyRecord>
  {
    if batch == [] then existing
    else
      var m := Merged(existing, batch[..|batch| - 1]);
      var r := batch[|batch| - 1];
      if r.apiKey in KeysOf(m) then m else m + [r]
  }

  /** The merge loop of `save_api_keys`, with the set of known keys. */
  method MergeKeys(existing: seq<KeyRecord>, batch: seq<KeyRecord>) returns (merged: seq<KeyRecord>)
    ensures merged == Merged(existing, batch)
  {
    merged := existing;
    var seen: set<Option<string>> := set k | k in existing :: k.apiKey;
    assert seen == KeysOf(existing) by {
      forall x | x in KeysOf(existing) ensures x in seen {
        var i :| 0 <= i < |existing| && existing[i].apiKey == x;
        assert existing[i] in existing;
      }
    }
    for n := 0 to |batch|
      invariant merged == Merged(existing, batch[..n])
      invariant seen == KeysOf(merged)
    {
      var key := batch[n];
      assert batch[..n + 1][..n] == batch[..n];
      if key.apiKey !in seen {
        KeysOfSnoc(merged, key);
        merged := merged + [key];
        seen := seen + {key.apiKey};
      }
    }
    assert batch[..|batch|] == batch;
  }

  lemma KeysOfSnoc(s: seq<KeyRecord>, r: KeyRecord)
    ensures KeysOf(s + [r]) == KeysOf(s) + {r.apiKey}
  {
    assert (s + [r])[|s|] == r;
    assert forall i :: 0 <= i < |s| ==> (s + [r])[i] == s[i];
  }

  /** The existing records stay, in their order, at the front. */
  lemma {:induction false} MergeKeepsExisting(existing: seq<KeyRecord>, batch: seq<KeyRecord>)
    ensures |existing| <= |Merged(existing, batch)|
    ensures Merged(existing, batch)[..|existing|] == existing
  {
    if batch != [] {
      MergeKeepsExisting(existing, batch[..|batch| - 1]);
    }
  }

  /** After the merge every key of the batch is known, and no other key is. */
  lemma {:induction false} MergedKeys(existing: seq<KeyRecord>, batch: seq<KeyRecord>)
    ensures KeysOf(Merged(existing, batch)) == KeysOf(existing) + KeysOf(batch)
  {
    if batch != [] {
      var init := batch[..|batch| - 1];
      var r := batch[|batch| - 1];
      MergedKeys(existing, init);
      var m := Merged(existing, init);
      if r.apiKey !in KeysOf(m) {
        KeysOfSnoc(m, r);
      }
      assert batch == init + [r];
      KeysOfSnoc(init, r);
    }
  }

  /** Each appended record comes from the batch, has a key not present before,
      and no two appended records share a key. */
  lemma {:induction false} MergeAppendsNewKeysOnce(existing: seq<KeyRecord>, batch: seq<KeyRecord>)
    ensures var m := Merged(existing, batch);
      && (forall i :: |existing| <= i < |m| ==> m[i] in batch && m[i].apiKey !in KeysOf(existing))
      && (forall i, j :: |existing| <= i < j < |m| ==> m[i].apiKey != m[j].apiKey)
  {
    MergeKeepsExisting(existing, batch);
    if batch != [] {
      var init := batch[..|batch| - 1];
      var r := batch[|batch| - 1];
      MergeAppendsNewKeysOnce(existing, init);
      var m0 := Merged(existing, init);
      MergeKeepsExisting(existing, init);
      MergedKeys(existing, init);
      if r.apiKey !in KeysOf(m0) {
        var m := m0 + [r];
        forall i | |existing| <= i < |m| - 1 ensures m[i] in batch && m[i].apiKey != r.apiKey {
          assert m[i] == m0[i];
          assert m0[i] in init;
        }
      } else {
        forall i | |existing| <= i < |m0| ensures m0[i] in batch {
          assert m0[i] in init;
        }
      }
    }
  }

  /** A batch whose keys are all known already adds nothing. */
  lemma {:induction false} MergeOfKnownKeys(existing: seq<KeyRecord>, batch: seq<KeyRecord>)
    requires KeysOf(batch) <= KeysOf(existing)
    ensures Merged(existing, batch) == existing
  {
    if batch != [] {
      var init := batch[..|batch| - 1];
      assert KeysOf(init) <= KeysOf(batch);
      MergeOfKnownKeys(existing, init);
      assert batch[|batch| - 1].apiKey in KeysOf(batch);
    }
  }

  /** Merging the same batch twice adds nothing the second time. */
  lemma MergeIdempotent(existing: seq<KeyRecord>, batch: seq<KeyRecord>)
    ensures Merged(Merged(existing, batch), batch) == Merged(existing, batch)
  {
    MergedKeys(existing, batch);
    MergeOfKnownKeys(Merged(existing, batch), batch);
  }

  /** The merge grows the file by the number of distinct keys of the batch
      that were not present. */
  lemma {:induction false} MergeLength(existing: seq<KeyRecord>, batch: seq<KeyRecord>)
    ensures |Merged(existing, batch)| == |existing| + |KeysOf(batch) - KeysOf(existing)|
  {
    if batch == [] {
      assert KeysOf(batch) == {};
    } else {
      var init := batch[..|batch| - 1];
      var r := batch[|batch| - 1];
      MergeLength(existing, init);
      MergedKeys(existing, init);
      var m := Merged(existing, init);
      assert batch == init + [r];
      KeysOfSnoc(init, r);
      var e := KeysOf(existing);
      if r.apiKey in KeysOf(m) {
        assert KeysOf(batch) - e == KeysOf(init) - e;
      } else {
        assert KeysOf(batch) - e == (KeysOf(init) - e) + {r.apiKey};
      }
    }
  }
}
