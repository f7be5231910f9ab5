/**
 * The hybrid exact/semantic cache engine (`SemanticCacheService`).
 *
 * Each tenant owns an exact-match map, an append-only list of rows, a flat
 * inner-product index whose positions line up with the rows, three counters,
 * the recorded latencies and an adaptive similarity threshold.  A query is
 * answered, in this order, by an exact hit, a semantic hit or a miss that
 * calls the language model and inserts the answer.
 *
 * The Python `exact` dictionary and `rows` list share the same entry objects;
 * here `exact` maps a normalised prompt to the POSITION of its entry in
 * `rows`, so that an update of an entry through either path is seen by both.
 *
 * The embedding model, the language model and the similarity of two vectors
 * are oracles (`Oracles`); a failing oracle stands for the exception the
 * Python call would raise.  Time is the parameter `now`, and the measured
 * latency is the parameter `latencyMs`.
 */
module SemanticCache {
  import opened Basics
  import opened TextOps
  import opened Prompts
  import Domains

  type Vector = seq<real>

  /** `CacheEntry`: one cached answer. */
  datatype CacheEntry = CacheEntry(
    promptNorm: string,
    responseText: string,
    embedding: Vector,
    model: string,
    ttlSeconds: int,
    createdAt: real,
    lastUsedAt: real,
    useCount: int,
    domain: string,
    strategy: string)

  /** `CacheEntry.fresh`: the entry is younger than its time to live (strictly). */
  predicate Fresh(e: CacheEntry, now: real)
  {
    now - e.createdAt < e.ttlSeconds as real
  }

  /** The external services the engine calls. `None` is a raised exception.
      `query` calls `get_embedding` twice on a miss after a search: `embed`
      answers the call of the semantic step and `embedOnMiss` the call of the
      miss step, so the second may fail or differ where the first did not. */
  datatype Oracles = Oracles(
    embed: string -> Option<Vector>,
    embedOnMiss: string -> Option<Vector>,
    llm: (seq<Message>, real) -> Option<string>,
    sim: (Vector, Vector) -> real)

  datatype HitKind = Exact | Semantic | Miss

  /** The `meta` dictionary of a reply. */
  datatype Meta = Meta(hit: HitKind, similarity: real, latencyMs: real, strategy: string)

  datatype Answer = Answer(text: string, meta: Meta)

  datatype QueryError = EmbeddingFailed | LlmFailed

  /** The arguments of one call of `query`. */
  datatype QueryInput = QueryInput(
    promptNorm: string,
    messages: seq<Message>,
    model: string,
    ttlSeconds: int,
    temperature: real,
    now: real,
    latencyMs: real)

  /** The value of a `TenantState`: `index` is `None` until the first vector is
      added, and otherwise holds the indexed vectors in insertion order. */
  datatype TenantSnapshot = TenantSnapshot(
    exact: map<string, nat>,
    index: Option<seq<Vector>>,
    rows: seq<CacheEntry>,
    dim: Option<nat>,
    hits: nat,
    misses: nat,
    semanticHits: nat,
    latencies: seq<real>,
    simThreshold: real)

  datatype QueryOutcome = QueryOutcome(after: TenantSnapshot, reply: Result<Answer, QueryError>)

  const InitialThreshold: real := 0.83
  const DefaultTtlSeconds: int := 7 * 24 * 3600
  const HybridStrategy: string := "hybrid"

  /** A freshly created `TenantState()`. */
  function EmptyTenant(): TenantSnapshot
  {
    TenantSnapshot(map[], None, [], None, 0, 0, 0, [], InitialThreshold)
  }

  /** The engine's invariant: every `exact` value is a row holding that prompt,
      the index exists exactly when there are rows and holds their embeddings
      position by position, `dim` is the dimension of the first vector,
      semantic hits are hits, and at most one latency is recorded per request. */
  predicate WellFormed(T: TenantSnapshot)
  {
    && (forall k :: k in T.exact ==> T.exact[k] < |T.rows| && T.rows[T.exact[k]].promptNorm == k)
    && (T.index.None? <==> T.rows == [])
    && (T.index.Some? ==>
          |T.index.value| == |T.rows|
          && forall i :: 0 <= i < |T.rows| ==> T.index.value[i] == T.rows[i].embedding)
    && (T.rows == [] ==> T.dim.None?)
    && (T.rows != [] ==> T.dim == Some(|T.rows[0].embedding|))
    && T.semanticHits <= T.hits
    && |T.latencies| <= T.hits + T.misses
  }

  lemma EmptyTenantWellFormed()
    ensures WellFormed(EmptyTenant())
  {
  }

  /** The text that is embedded: the `user` contents joined by spaces, or the
      normalised prompt when that join is empty. */
  function UserText(messages: seq<Message>, promptNorm: string): string
  {
    var joined := Join(UserContents(messages), " ");
    if joined == [] then promptNorm else joined
  }

  /** `_faiss_search` with `k = 1`: a position of maximal similarity to `q`
      (the first such position). */
  function BestMatch(vs: seq<Vector>, q: Vector, sim: (Vector, Vector) -> real): (k: nat)
    requires |vs| > 0
    ensures k < |vs|
    ensures forall j :: 0 <= j < |vs| ==> sim(q, vs[j]) <= sim(q, vs[k])
  {
    if |vs| == 1 then 0
    else
      var k := BestMatch(vs[..|vs| - 1], q, sim);
      if sim(q, vs[|vs| - 1]) > sim(q, vs[k]) then |vs| - 1 else k
  }

  /** A hit: `use_count += 1` and `last_used_at = now`. */
  function Touch(e: CacheEntry, now: real): CacheEntry
  {
    e.(useCount := e.useCount + 1, lastUsedAt := now)
  }

  /** `_faiss_add`: the index is created on the first vector, which fixes `dim`;
      afterwards `v` is appended and `dim` is kept. Nothing but the index and
      `dim` changes. */
  function AddVector(T: TenantSnapshot, v: Vector): (after: TenantSnapshot)
    ensures after.index.Some? && |after.index.value| == (if T.index.Some? then |T.index.value| else 0) + 1
    ensures after.index.value[|after.index.value| - 1] == v
    ensures T.index.Some? ==> after.index.value[..|T.index.value|] == T.index.value && after.dim == T.dim
    ensures T.index.None? ==> after.dim == Some(|v|)
    ensures after.rows == T.rows && after.exact == T.exact && after.hits == T.hits && after.misses == T.misses
  {
    if T.index.None? then T.(index := Some([v]), dim := Some(|v|))
    else T.(index := Some(T.index.value + [v]))
  }

  /** The exact branch fires. */
  predicate ExactHit(T: TenantSnapshot, promptNorm: string, model: string, now: real)
    requires WellFormed(T)
  {
    promptNorm in T.exact
    && Fresh(T.rows[T.exact[promptNorm]], now)
    && T.rows[T.exact[promptNorm]].model == model
  }

  /** The semantic branch is tried (the index exists and there are rows). */
  predicate SemanticSearched(T: TenantSnapshot)
  {
    T.index.Some? && |T.rows| > 0
  }

  /** The semantic branch fires for the query vector `v`: the best neighbour is
      at least as similar as the threshold (inclusive) and fresh. */
  predicate SemanticHitFor(T: TenantSnapshot, v: Vector, now: real, sim: (Vector, Vector) -> real)
    requires WellFormed(T) && SemanticSearched(T)
  {
    var k := BestMatch(T.index.value, v, sim);
    sim(v, T.index.value[k]) >= T.simThreshold && Fresh(T.rows[k], now)
  }

  /** `T.exact[prompt_norm] = entry` and `T.rows.append(entry)`, the first two
      of the three updates that insert a miss. */
  function AppendRow(T: TenantSnapshot, e: CacheEntry): TenantSnapshot
  {
    T.(exact := T.exact[e.promptNorm := |T.rows|], rows := T.rows + [e])
  }

  /** The three updates of an insertion done together: the entry becomes the
      last row, `exact[prompt_norm]` points at it, its embedding becomes the
      last indexed vector, and nothing else changes. */
  function InsertRow(T: TenantSnapshot, e: CacheEntry): (after: TenantSnapshot)
    requires WellFormed(T)
    ensures WellFormed(after)
    ensures after.rows == T.rows + [e] && after.exact == T.exact[e.promptNorm := |T.rows|]
    ensures after.index.Some? && after.index.value[|T.rows|] == e.embedding
    ensures after.hits == T.hits && after.misses == T.misses && after.semanticHits == T.semanticHits
    ensures after.latencies == T.latencies && after.simThreshold == T.simThreshold
  {
    var grown := AddVector(AppendRow(T, e), e.embedding);
    assert forall i :: 0 <= i < |T.rows| ==> grown.rows[i] == T.rows[i];
    grown
  }

  /** The insertion of a miss: the row is inserted and the latency recorded. */
  function Inserted(T: TenantSnapshot, e: CacheEntry, latencyMs: real): (after: TenantSnapshot)
    requires WellFormed(T) && |T.latencies| < T.hits + T.misses
    ensures WellFormed(after)
    ensures |after.rows| == |T.rows| + 1 && after.rows[..|T.rows|] == T.rows && after.rows[|T.rows|] == e
  {
    var grown := InsertRow(T, e);
    grown.(latencies := grown.latencies + [latencyMs])
  }

  /** Two misses of one tenant served by two threads, the second running its
      three updates between the first one's `rows.append` and `_faiss_add`:
      nothing in `query` holds a lock across them. */
  function InterleavedMisses(T: TenantSnapshot, e1: CacheEntry, e2: CacheEntry): TenantSnapshot
  {
    AddVector(AddVector(AppendRow(AppendRow(T, e1), e2), e2.embedding), e1.embedding)
  }

  /** After that interleaving the row of the first miss sits at the index
      position holding the second miss's vector, so a semantic search that
      finds `e2`'s vector answers with `e1`'s response: the index no longer
      lines up with the rows. */
  lemma InterleavedMissesMisalignIndex(T: TenantSnapshot, e1: CacheEntry, e2: CacheEntry)
    requires WellFormed(T) && e1.embedding != e2.embedding
    ensures InterleavedMisses(T, e1, e2).rows == T.rows + [e1, e2]
    ensures InterleavedMisses(T, e1, e2).index.Some?
    ensures |InterleavedMisses(T, e1, e2).index.value| == |T.rows| + 2
    ensures InterleavedMisses(T, e1, e2).index.value[|T.rows|] == e2.embedding
    ensures !WellFormed(InterleavedMisses(T, e1, e2))
  {
    var after := InterleavedMisses(T, e1, e2);
    var prior := if T.index.Some? then T.index.value else [];
    var appended := AppendRow(AppendRow(T, e1), e2);
    assert appended.index == T.index && appended.rows == T.rows + [e1, e2];
    if T.index.None? {
      assert prior + [e2.embedding] == [e2.embedding];
    }
    assert AddVector(appended, e2.embedding).index == Some(prior + [e2.embedding]);
    assert after.index == Some(prior + [e2.embedding] + [e1.embedding]);
    assert after.index.value[|T.rows|] == e2.embedding;
    assert after.rows[|T.rows|] == e1;
  }

  /** The same two misses one after the other, each insertion in one step as
      the rest of this model takes them: rows and index stay aligned. */
  lemma SerialisedMissesStayAligned(T: TenantSnapshot, e1: CacheEntry, e2: CacheEntry)
    requires WellFormed(T)
    ensures WellFormed(InsertRow(InsertRow(T, e1), e2))
    ensures InsertRow(InsertRow(T, e1), e2).rows == T.rows + [e1, e2]
    ensures InsertRow(InsertRow(T, e1), e2).index.value[|T.rows|] == e1.embedding
    ensures InsertRow(InsertRow(T, e1), e2).index.value[|T.rows| + 1] == e2.embedding
  {
    var mid := InsertRow(T, e1);
    var after := InsertRow(mid, e2);
    assert after.index.value[|T.rows|] == after.rows[|T.rows|].embedding;
  }

  /** Step 3 of `query`: count the miss, call the model, embed, and insert the
      new entry. */
  function MissPath(T: TenantSnapshot, q: QueryInput, o: Oracles): (out: QueryOutcome)
    requires WellFormed(T)
    ensures WellFormed(out.after)
  {
    var counted := T.(misses := T.misses + 1);
    match o.llm(q.messages, q.temperature)
    case None => QueryOutcome(counted, Err(LlmFailed))
    case Some(response) =>
      var text := UserText(q.messages, q.promptNorm);
      match o.embedOnMiss(text)
      case None => QueryOutcome(counted, Err(EmbeddingFailed))
      case Some(v) =>
        var entry := CacheEntry(q.promptNorm, response, v, q.model, q.ttlSeconds,
                                q.now, q.now, 0, Domains.DomainOf(text), "miss");
        QueryOutcome(Inserted(counted, entry, q.latencyMs),
                     Ok(Answer(response, Meta(Miss, 0.0, q.latencyMs, HybridStrategy))))
  }

  /** A hit on row `i`: touch the entry, count the hit (and the semantic hit),
      record the latency and answer the entry's text. */
  function RecordHit(T: TenantSnapshot, i: nat, kind: HitKind, similarity: real, now: real, latencyMs: real)
    : (out: QueryOutcome)
    requires WellFormed(T) && i < |T.rows|
    ensures WellFormed(out.after)
  {
    var after := T.(rows := T.rows[i := Touch(T.rows[i], now)],
                    hits := T.hits + 1,
                    semanticHits := if kind == Semantic then T.semanticHits + 1 else T.semanticHits,
                    latencies := T.latencies + [latencyMs]);
    QueryOutcome(after, Ok(Answer(T.rows[i].responseText, Meta(kind, similarity, latencyMs, HybridStrategy))))
  }

  /** `SemanticCacheService.query` on the tenant's state `T`. */
  function QuerySpec(T: TenantSnapshot, q: QueryInput, o: Oracles): (out: QueryOutcome)
    requires WellFormed(T)
    ensures WellFormed(out.after)
  {
    if ExactHit(T, q.promptNorm, q.model, q.now) then RecordHit(T, T.exact[q.promptNorm], Exact, 1.0, q.now, q.latencyMs)
    else SearchOrMiss(T, q, o)
  }

  /** Steps 2 and 3 of `query`, once the exact lookup has failed. */
  function SearchOrMiss(T: TenantSnapshot, q: QueryInput, o: Oracles): (out: QueryOutcome)
    requires WellFormed(T)
    ensures WellFormed(out.after)
  {
    if SemanticSearched(T) then
      match o.embed(UserText(q.messages, q.promptNorm))
      case None => QueryOutcome(T, Err(EmbeddingFailed))
      case Some(v) =>
        var k := BestMatch(T.index.value, v, o.sim);
        if SemanticHitFor(T, v, q.now, o.sim) then RecordHit(T, k, Semantic, o.sim(v, T.index.value[k]), q.now, q.latencyMs)
        else MissPath(T, q, o)
    else MissPath(T, q, o)
  }

  predicate IsHit(r: Result<Answer, QueryError>, kind: HitKind)
  {
    r.Ok? && r.value.meta.hit == kind
  }

  /** Every request that is answered moves exactly one of `hits` and `misses`
      by one and records one latency; a request that fails records no latency
      and no hit, and has counted a miss only if it failed after the lookups. */
  lemma QueryCounters(T: TenantSnapshot, q: QueryInput, o: Oracles)
    requires WellFormed(T)
    ensures var out := QuerySpec(T, q, o);
      && (out.reply.Ok? ==>
            && out.after.hits + out.after.misses == T.hits + T.misses + 1
            && (out.after.hits == T.hits + 1 <==> !IsHit(out.reply, Miss))
            && out.after.latencies == T.latencies + [q.latencyMs])
      && (out.reply.Err? ==>
            && out.after.hits == T.hits && out.after.semanticHits == T.semanticHits
            && T.misses <= out.after.misses <= T.misses + 1
            && out.after.latencies == T.latencies)
      && (out.after.semanticHits == T.semanticHits + 1 <==> IsHit(out.reply, Semantic))
      && out.after.semanticHits <= out.after.hits
  {
  }

  /** An exact hit happens exactly when the prompt is in `exact`, its entry is
      fresh and has the requested model; it answers the stored text with
      similarity 1.0 and changes only that entry's use count and last use, `hits`
      and the latencies. */
  lemma ExactHitIff(T: TenantSnapshot, q: QueryInput, o: Oracles)
    requires WellFormed(T)
    ensures var out := QuerySpec(T, q, o);
      && (IsHit(out.reply, Exact) <==> ExactHit(T, q.promptNorm, q.model, q.now))
      && (ExactHit(T, q.promptNorm, q.model, q.now) ==>
            var i := T.exact[q.promptNorm];
            && out.reply.value.text == T.rows[i].responseText
            && out.reply.value.meta.similarity == 1.0
            && out.after.rows[i].useCount == T.rows[i].useCount + 1
            && out.after.rows[i].lastUsedAt == q.now
            && (forall j :: 0 <= j < |T.rows| && j != i ==> out.after.rows[j] == T.rows[j])
            && |out.after.rows| == |T.rows|
            && out.after.exact == T.exact && out.after.index == T.index
            && out.after.hits == T.hits + 1 && out.after.misses == T.misses
            && out.after.semanticHits == T.semanticHits
            && out.after.simThreshold == T.simThreshold)
  {
  }

  /** A semantic hit needs no exact hit, an existing non-empty index and a
      successful embedding, and fires exactly when the best neighbour's
      similarity reaches the threshold (inclusive) and that row is fresh; it
      answers that row's text and increments `hits` and `semantic_hits`. */
  lemma SemanticHitIff(T: TenantSnapshot, q: QueryInput, o: Oracles)
    requires WellFormed(T)
    ensures var out := QuerySpec(T, q, o);
      var e := o.embed(UserText(q.messages, q.promptNorm));
      && (IsHit(out.reply, Semantic) <==>
            && !ExactHit(T, q.promptNorm, q.model, q.now)
            && SemanticSearched(T) && e.Some?
            && o.sim(e.value, T.index.value[BestMatch(T.index.value, e.value, o.sim)]) >= T.simThreshold
            && Fresh(T.rows[BestMatch(T.index.value, e.value, o.sim)], q.now))
      && (IsHit(out.reply, Semantic) ==>
            var k := BestMatch(T.index.value, e.value, o.sim);
            && out.reply.value.text == T.rows[k].responseText
            && out.reply.value.meta.similarity == o.sim(e.value, T.index.value[k])
            && out.after.rows[k].useCount == T.rows[k].useCount + 1
            && out.after.hits == T.hits + 1 && out.after.semanticHits == T.semanticHits + 1
            && out.after.misses == T.misses && out.after.exact == T.exact)
  {
  }

  /** The semantic branch does not look at the model: a semantic hit for one
      model is the same semantic hit for any model that has no exact hit. */
  lemma SemanticIgnoresModel(T: TenantSnapshot, q: QueryInput, o: Oracles, otherModel: string)
    requires WellFormed(T)
    requires IsHit(QuerySpec(T, q, o).reply, Semantic)
    requires !ExactHit(T, q.promptNorm, otherModel, q.now)
    ensures QuerySpec(T, q.(model := otherModel), o) == QuerySpec(T, q, o)
  {
  }

  /** A miss that succeeds points `exact[prompt_norm]` at a new last row holding
      the model's answer, with `use_count` 0 and strategy "miss", adds exactly
      one vector to the index, and leaves every earlier row unchanged. */
  lemma MissInserts(T: TenantSnapshot, q: QueryInput, o: Oracles)
    requires WellFormed(T)
    requires IsHit(QuerySpec(T, q, o).reply, Miss)
    ensures var out := QuerySpec(T, q, o);
      var e := out.after.rows[|T.rows|];
      && o.llm(q.messages, q.temperature).Some?
      && out.reply.value.text == o.llm(q.messages, q.temperature).value
      && out.reply.value.meta.similarity == 0.0
      && |out.after.rows| == |T.rows| + 1
      && out.after.rows[..|T.rows|] == T.rows
      && out.after.exact == T.exact[q.promptNorm := |T.rows|]
      && e.promptNorm == q.promptNorm && e.responseText == out.reply.value.text
      && e.model == q.model && e.ttlSeconds == q.ttlSeconds && e.createdAt == q.now
      && e.useCount == 0 && e.strategy == "miss"
      && e.domain == Domains.DomainOf(UserText(q.messages, q.promptNorm))
      && o.embedOnMiss(UserText(q.messages, q.promptNorm)).Some?
      && e.embedding == o.embedOnMiss(UserText(q.messages, q.promptNorm)).value
      && |out.after.index.value| == |T.rows| + 1
      && out.after.index.value[|T.rows|] == e.embedding
      && out.after.hits == T.hits && out.after.misses == T.misses + 1
  {
    var out := QuerySpec(T, q, o);
    assert out == MissPath(T, q, o);
    assert out.after.rows[..|T.rows|] == T.rows;
  }

  /** The miss step embeds again: when the search's embedding succeeded but
      the second one fails, the request fails after the miss was counted and
      the model was called, and nothing is inserted. */
  lemma SecondEmbeddingFails(T: TenantSnapshot, q: QueryInput, o: Oracles)
    requires WellFormed(T) && SemanticSearched(T)
    requires !ExactHit(T, q.promptNorm, q.model, q.now)
    requires o.embed(UserText(q.messages, q.promptNorm)).Some?
    requires !SemanticHitFor(T, o.embed(UserText(q.messages, q.promptNorm)).value, q.now, o.sim)
    requires o.llm(q.messages, q.temperature).Some?
    requires o.embedOnMiss(UserText(q.messages, q.promptNorm)).None?
    ensures QuerySpec(T, q, o) == QueryOutcome(T.(misses := T.misses + 1), Err(EmbeddingFailed))
  {
  }

  /** Every row's embedding has the width `dim` of the index. `WellFormed`
      does not include it: `faiss` asserts the width in `add` and `search`, and
      the model does not raise there. */
  predicate SameWidth(T: TenantSnapshot)
  {
    T.dim.Some? ==> forall i :: 0 <= i < |T.rows| ==> |T.rows[i].embedding| == T.dim.value
  }

  /** A query keeps every embedding at the index's width whenever the miss
      step's embedding has that width (with no index yet, any width): this is
      the case in which `index.add` at line 231 does not raise. */
  lemma QueryKeepsWidth(T: TenantSnapshot, q: QueryInput, o: Oracles)
    requires WellFormed(T) && SameWidth(T)
    requires T.dim.Some? && o.embedOnMiss(UserText(q.messages, q.promptNorm)).Some? ==>
      |o.embedOnMiss(UserText(q.messages, q.promptNorm)).value| == T.dim.value
    ensures SameWidth(QuerySpec(T, q, o).after)
  {
    var after := QuerySpec(T, q, o).after;
    EmbeddingsKept(T, q, o);
    if IsHit(QuerySpec(T, q, o).reply, Miss) {
      MissInserts(T, q, o);
      var w := if T.dim.Some? then T.dim.value else |after.rows[|T.rows|].embedding|;
      assert after.dim == Some(w);
      forall i | 0 <= i < |after.rows|
        ensures |after.rows[i].embedding| == w
      {
        if i < |T.rows| {
          assert after.rows[i].embedding == T.rows[i].embedding;
        }
      }
    } else {
      OnlyMissInserts(T, q, o);
    }
  }

  /** A query keeps the embedding of every earlier row. */
  lemma EmbeddingsKept(T: TenantSnapshot, q: QueryInput, o: Oracles)
    requires WellFormed(T)
    ensures |QuerySpec(T, q, o).after.rows| >= |T.rows|
    ensures forall i :: 0 <= i < |T.rows| ==> QuerySpec(T, q, o).after.rows[i].embedding == T.rows[i].embedding
  {
    var after := QuerySpec(T, q, o).after;
    NoEviction(T, q, o);
    forall i | 0 <= i < |T.rows|
      ensures after.rows[i].embedding == T.rows[i].embedding
    {
      assert after.rows[i].(useCount := 0, lastUsedAt := 0.0).embedding == after.rows[i].embedding;
    }
  }

  /** Hits and failed requests insert nothing and leave the index's width. */
  lemma OnlyMissInserts(T: TenantSnapshot, q: QueryInput, o: Oracles)
    requires WellFormed(T)
    requires !IsHit(QuerySpec(T, q, o).reply, Miss)
    ensures |QuerySpec(T, q, o).after.rows| == |T.rows| && QuerySpec(T, q, o).after.dim == T.dim
  {
  }

  /** After a miss, the same prompt and model asked again while the new entry
      is fresh is an exact hit with the same text, whatever the oracles answer. */
  lemma RepeatAfterMissIsExactHit(T: TenantSnapshot, q: QueryInput, o: Oracles, q2: QueryInput, o2: Oracles)
    requires WellFormed(T)
    requires IsHit(QuerySpec(T, q, o).reply, Miss)
    requires q2.promptNorm == q.promptNorm && q2.model == q.model
    requires q2.now - q.now < q.ttlSeconds as real
    ensures var first := QuerySpec(T, q, o);
      var second := QuerySpec(first.after, q2, o2);
      second.reply == Ok(Answer(first.reply.value.text, Meta(Exact, 1.0, q2.latencyMs, HybridStrategy)))
  {
    MissInserts(T, q, o);
  }

  /** An entry inserted with the default time to live of `query` (seven days)
      is fresh exactly until a week after the miss. */
  lemma DefaultTtlLastsAWeek(T: TenantSnapshot, q: QueryInput, o: Oracles, later: real)
    requires WellFormed(T) && IsHit(QuerySpec(T, q, o).reply, Miss)
    requires q.ttlSeconds == DefaultTtlSeconds
    ensures Fresh(QuerySpec(T, q, o).after.rows[|T.rows|], later) <==> later - q.now < 604800.0
  {
    MissInserts(T, q, o);
  }

  /** The exact map is keyed by prompt only: after a miss for one model, a
      request for the same prompt with another model has no exact hit. */
  lemma MissForOtherModelReplacesExactKey(T: TenantSnapshot, q: QueryInput, o: Oracles, model2: string, now2: real)
    requires WellFormed(T)
    requires IsHit(QuerySpec(T, q, o).reply, Miss)
    requires model2 != q.model
    ensures !ExactHit(QuerySpec(T, q, o).after, q.promptNorm, model2, now2)
  {
    MissInserts(T, q, o);
  }

  /** Nothing is ever evicted: every earlier row keeps its prompt, answer,
      embedding, model, creation time and time to live. */
  lemma NoEviction(T: TenantSnapshot, q: QueryInput, o: Oracles)
    requires WellFormed(T)
    ensures var after := QuerySpec(T, q, o).after;
      && |after.rows| >= |T.rows|
      && forall i :: 0 <= i < |T.rows| ==>
           after.rows[i].(useCount := 0, lastUsedAt := 0.0) == T.rows[i].(useCount := 0, lastUsedAt := 0.0)
  {
    if ExactHit(T, q.promptNorm, q.model, q.now) {
      HitKeepsRows(T, T.exact[q.promptNorm], Exact, 1.0, q.now, q.latencyMs);
    } else if SemanticSearched(T) {
      match o.embed(UserText(q.messages, q.promptNorm))
      case None =>
      case Some(v) =>
        var k := BestMatch(T.index.value, v, o.sim);
        if SemanticHitFor(T, v, q.now, o.sim) {
          HitKeepsRows(T, k, Semantic, o.sim(v, T.index.value[k]), q.now, q.latencyMs);
        } else {
          MissKeepsRows(T, q, o);
        }
    } else {
      MissKeepsRows(T, q, o);
    }
  }

  /** A hit changes only the use count and last use of the touched row. */
  lemma HitKeepsRows(T: TenantSnapshot, i: nat, kind: HitKind, similarity: real, now: real, latencyMs: real)
    requires WellFormed(T) && i < |T.rows|
    ensures var after := RecordHit(T, i, kind, similarity, now, latencyMs).after;
      && |after.rows| == |T.rows|
      && forall j :: 0 <= j < |T.rows| ==>
           after.rows[j].(useCount := 0, lastUsedAt := 0.0) == T.rows[j].(useCount := 0, lastUsedAt := 0.0)
  {
  }

  /** The miss path keeps every earlier row as it was. */
  lemma MissKeepsRows(T: TenantSnapshot, q: QueryInput, o: Oracles)
    requires WellFormed(T)
    ensures var after := MissPath(T, q, o).after;
      && |after.rows| >= |T.rows|
      && forall j :: 0 <= j < |T.rows| ==> after.rows[j] == T.rows[j]
  {
    var after := MissPath(T, q, o).after;
    assert after.rows[..|T.rows|] == T.rows;
    forall j | 0 <= j < |T.rows| ensures after.rows[j] == T.rows[j] {
      assert after.rows[..|T.rows|][j] == after.rows[j];
    }
  }

  // ---------------------------------------------------------------------
  // Metrics and the adaptive threshold
  // ---------------------------------------------------------------------

  /** The counts of `metrics` (the latency percentiles are left out). */
  datatype MetricsReport = MetricsReport(
    tenant: string,
    requests: nat,
    hits: nat,
    semanticHits: nat,
    misses: nat,
    hitRatio: real,
    simThreshold: real,
    entries: nat)

  /** `hits / total`, and 0.0 before the first request. */
  function HitRatio(hits: nat, misses: nat): (ratio: real)
    ensures 0.0 <= ratio <= 1.0
    ensures hits + misses == 0 ==> ratio == 0.0
    ensures hits + misses > 0 ==> ratio * (hits + misses) as real == hits as real
  {
    if hits + misses > 0 then hits as real / (hits + misses) as real else 0.0
  }

  /** `metrics(tenant_id)` on the tenant's state. */
  function Report(tenantId: string, T: TenantSnapshot): (m: MetricsReport)
    requires WellFormed(T)
    ensures m.requests == m.hits + m.misses && m.entries == |T.rows|
    ensures m.semanticHits <= m.hits <= m.requests
    ensures m.hitRatio == HitRatio(T.hits, T.misses) && m.simThreshold == T.simThreshold
  {
    MetricsReport(tenantId, T.hits + T.misses, T.hits, T.semanticHits, T.misses,
                  HitRatio(T.hits, T.misses), T.simThreshold, |T.rows|)
  }

  const MinThreshold: real := 0.70
  const MaxThreshold: real := 0.92
  const ThresholdStep: real := 0.01

  /** `adapt_threshold`: with at least 20 requests, a hit ratio below 0.55
      lowers the threshold by 0.01 (floored at 0.70) and one above 0.85 raises it
      by 0.01 (capped at 0.92). */
  function AdaptedThreshold(hits: nat, misses: nat, threshold: real): (r: real)
    ensures hits + misses < 20 ==> r == threshold
    ensures 0.55 <= HitRatio(hits, misses) <= 0.85 ==> r == threshold
    ensures MinThreshold <= threshold <= MaxThreshold && r < threshold ==>
              hits + misses >= 20 && HitRatio(hits, misses) < 0.55 && r >= MinThreshold
    ensures MinThreshold <= threshold <= MaxThreshold && r > threshold ==>
              hits + misses >= 20 && HitRatio(hits, misses) > 0.85 && r <= MaxThreshold
    ensures MinThreshold <= threshold <= MaxThreshold ==>
              MinThreshold <= r <= MaxThreshold && threshold - ThresholdStep <= r <= threshold + ThresholdStep
    ensures hits + misses >= 20 && HitRatio(hits, misses) < 0.55 && threshold > MinThreshold ==>
              MinThreshold <= r < threshold && (r == threshold - ThresholdStep || r == MinThreshold)
    ensures hits + misses >= 20 && HitRatio(hits, misses) < 0.55 && threshold <= MinThreshold ==>
              r == MinThreshold
    ensures hits + misses >= 20 && HitRatio(hits, misses) > 0.85 && threshold < MaxThreshold ==>
              threshold < r <= MaxThreshold && (r == threshold + ThresholdStep || r == MaxThreshold)
    ensures hits + misses >= 20 && HitRatio(hits, misses) > 0.85 && threshold >= MaxThreshold ==>
              r == MaxThreshold
  {
    var total := hits + misses;
    if total < 20 then threshold
    else
      var ratio := HitRatio(hits, misses);
      if ratio < 0.55 then (if MinThreshold > threshold - ThresholdStep then MinThreshold else threshold - ThresholdStep)
      else if ratio > 0.85 then (if MaxThreshold < threshold + ThresholdStep then MaxThreshold else threshold + ThresholdStep)
      else threshold
  }

  /** A threshold below the floor is raised to 0.70 by a low hit ratio: the
      "lowering" step is a clamp, not a decrement, outside the range. */
  lemma LowRatioClampsToFloor(hits: nat, misses: nat, threshold: real)
    requires hits + misses >= 20 && HitRatio(hits, misses) < 0.55
    requires threshold < MinThreshold
    ensures AdaptedThreshold(hits, misses, threshold) == MinThreshold > threshold
  {
  }

  /** `adapt_threshold` called `n` times with the counters unchanged. */
  function AdaptedRepeatedly(hits: nat, misses: nat, threshold: real, n: nat): real
    decreases n
  {
    if n == 0 then threshold
    else AdaptedRepeatedly(hits, misses, AdaptedThreshold(hits, misses, threshold), n - 1)
  }

  /** While the hit ratio stays below 0.55, enough calls bring a threshold in
      range down to the floor 0.70 and keep it there: one call per 0.01 above
      the floor suffices. */
  lemma {:induction false} RepeatedLowRatioReachesFloor(hits: nat, misses: nat, threshold: real, n: nat)
    requires hits + misses >= 20 && HitRatio(hits, misses) < 0.55
    requires MinThreshold <= threshold
    requires n as real * ThresholdStep >= threshold - MinThreshold
    ensures AdaptedRepeatedly(hits, misses, threshold, n) == MinThreshold
    decreases n
  {
    if n > 0 {
      var next := AdaptedThreshold(hits, misses, threshold);
      assert MinThreshold <= next;
      assert (n - 1) as real * ThresholdStep >= next - MinThreshold;
      RepeatedLowRatioReachesFloor(hits, misses, next, n - 1);
    }
  }

  /** While the hit ratio stays above 0.85, enough calls bring a threshold in
      range up to the cap 0.92 and keep it there. */
  lemma {:induction false} RepeatedHighRatioReachesCap(hits: nat, misses: nat, threshold: real, n: nat)
    requires hits + misses >= 20 && HitRatio(hits, misses) > 0.85
    requires threshold <= MaxThreshold
    requires n as real * ThresholdStep >= MaxThreshold - threshold
    ensures AdaptedRepeatedly(hits, misses, threshold, n) == MaxThreshold
    decreases n
  {
    if n > 0 {
      var next := AdaptedThreshold(hits, misses, threshold);
      assert next <= MaxThreshold;
      assert (n - 1) as real * ThresholdStep >= MaxThreshold - next;
      RepeatedHighRatioReachesCap(hits, misses, next, n - 1);
    }
  }

  // ---------------------------------------------------------------------
  // All tenants
  // ---------------------------------------------------------------------

  /** `tenant(tenant_id)` on a map of values: the tenant's state, or a fresh one. */
  function TenantOrEmpty(m: map<string, TenantSnapshot>, tenantId: string): TenantSnapshot
  {
    if tenantId in m then m[tenantId] else EmptyTenant()
  }

  predicate AllWellFormed(m: map<string, TenantSnapshot>)
  {
    forall t :: t in m ==> WellFormed(m[t])
  }

  lemma UpdateKeepsAllWellFormed(m: map<string, TenantSnapshot>, tenantId: string, T: TenantSnapshot)
    requires AllWellFormed(m) && WellFormed(T)
    ensures AllWellFormed(m[tenantId := T])
  {
  }

  /** One query against the whole service: only the asking tenant's state changes. */
  function ServiceQuery(m: map<string, TenantSnapshot>, tenantId: string, q: QueryInput, o: Oracles)
    : (r: (map<string, TenantSnapshot>, Result<Answer, QueryError>))
    requires AllWellFormed(m)
    ensures AllWellFormed(r.0)
    ensures r.0.Keys == m.Keys + {tenantId}
    ensures forall t :: t in m && t != tenantId ==> r.0[t] == m[t]
  {
    EmptyTenantWellFormed();
    var out := QuerySpec(TenantOrEmpty(m, tenantId), q, o);
    (m[tenantId := out.after], out.reply)
  }

  /** Tenants are isolated: a query for tenant `a` does not change what tenant
      `b` is answered, so nothing one tenant inserts is ever served to another. */
  lemma OtherTenantUnaffected(m: map<string, TenantSnapshot>, a: string, qa: QueryInput,
                              b: string, qb: QueryInput, oa: Oracles, ob: Oracles)
    requires AllWellFormed(m) && a != b
    ensures ServiceQuery(ServiceQuery(m, a, qa, oa).0, b, qb, ob).1 == ServiceQuery(m, b, qb, ob).1
  {
    var ma := ServiceQuery(m, a, qa, oa).0;
    assert TenantOrEmpty(ma, b) == TenantOrEmpty(m, b);
  }

  // ---------------------------------------------------------------------
  // The mutable objects
  // ---------------------------------------------------------------------

  /** `TenantState`: the per-tenant record that `query` updates in place. */
  class TenantState {
    var exact: map<string, nat>
    var index: Option<seq<Vector>>
    var rows: seq<CacheEntry>
    var dim: Option<nat>
    var hits: nat
    var misses: nat
    var semanticHits: nat
    var latencies: seq<real>
    var simThreshold: real

    constructor ()
      ensures Snapshot() == EmptyTenant()
    {
      exact, index, rows, dim := map[], None, [], None;
      hits, misses, semanticHits := 0, 0, 0;
      latencies, simThreshold := [], InitialThreshold;
    }

    function Snapshot(): TenantSnapshot
      reads this
    {
      TenantSnapshot(exact, index, rows, dim, hits, misses, semanticHits, latencies, simThreshold)
    }
  }

  /** `SemanticCacheService`: the tenants, each with its own `TenantState`. */
  class SemanticCacheService {
    var tenants: map<string, TenantState>

    /** Distinct tenants own distinct records, and every record is well formed. */
    ghost predicate Valid()
      reads this, tenants.Values
    {
      && (forall a, b :: a in tenants && b in tenants && a != b ==> tenants[a] != tenants[b])
      && AllWellFormed(State())
    }

    /** The value of every tenant's record. */
    ghost function State(): (m: map<string, TenantSnapshot>)
      reads this, tenants.Values
      ensures m.Keys == tenants.Keys
      ensures forall t :: t in tenants ==> m[t] == tenants[t].Snapshot()
    {
      map t | t in tenants :: tenants[t].Snapshot()
    }

    constructor ()
      ensures Valid() && State() == map[]
    {
      tenants := map[];
    }

    /** `tenant(tenant_id)`: the tenant's record, created on first use; no
        record's contents change. */
    method Tenant(tenantId: string) returns (T: TenantState)
      requires Valid()
      modifies this
      ensures tenants == old(tenants)[tenantId := T]
      ensures tenantId in old(tenants) ==> T == old(tenants[tenantId])
      ensures tenantId !in old(tenants) ==> fresh(T)
      ensures T.Snapshot() == TenantOrEmpty(old(State()), tenantId)
    {
      if tenantId !in tenants {
        var created := new TenantState();
        tenants := tenants[tenantId := created];
      }
      T := tenants[tenantId];
    }

    /** Frame step shared by the methods below: the record `T` of `tenantId`
        was fetched by `Tenant` and is the only record whose contents changed,
        so the service state changed at `tenantId` alone. */
    twostate lemma OnlyTenantChanged(tenantId: string, new T: TenantState)
      requires old(Valid())
      requires tenants == old(tenants)[tenantId := T]
      requires tenantId in old(tenants) ==> T == old(tenants[tenantId])
      requires tenantId !in old(tenants) ==> fresh(T)
      requires forall t :: t in old(tenants) && t != tenantId ==> unchanged(old(tenants[t]))
      requires WellFormed(T.Snapshot())
      ensures Valid()
      ensures State() == old(State())[tenantId := T.Snapshot()]
    {
      forall t | t in tenants && t != tenantId
        ensures t in old(tenants) && tenants[t] == old(tenants[t])
        ensures tenants[t].Snapshot() == old(tenants[t].Snapshot())
      {
        assert unchanged(old(tenants[t]));
      }
      forall a, b | a in tenants && b in tenants && a != b
        ensures tenants[a] != tenants[b]
      {
        if a != tenantId && b != tenantId {
          assert old(tenants[a]) != old(tenants[b]);
        } else if tenantId in old(tenants) {
          assert old(tenants[a]) != old(tenants[b]);
        }
      }
      var expected := old(State())[tenantId := T.Snapshot()];
      forall t | t in tenants
        ensures State()[t] == expected[t]
      {
      }
      assert State().Keys == expected.Keys;
      assert State() == expected;
      UpdateKeepsAllWellFormed(old(State()), tenantId, T.Snapshot());
    }

    /** `_faiss_add`: add one vector, creating the index on the first one. */
    method FaissAdd(T: TenantState, v: Vector)
      modifies T
      ensures T.Snapshot() == AddVector(old(T.Snapshot()), v)
    {
      if T.index.None? {
        T.dim := Some(|v|);
        T.index := Some([]);
      }
      assert T.index.value + [v] == old(if T.index.None? then [v] else T.index.value + [v]);
      T.index := Some(T.index.value + [v]);
    }

    /** `query`: answer from the exact map, else from the nearest neighbour,
        else from the language model, updating only this tenant's record. */
    method Query(tenantId: string, promptNorm: string, messages: seq<Message>, model: string,
                 ttlSeconds: int, temperature: real, now: real, latencyMs: real, o: Oracles)
      returns (r: Result<Answer, QueryError>)
      requires Valid()
      modifies this, tenants.Values
      ensures Valid()
      ensures var out := QuerySpec(TenantOrEmpty(old(State()), tenantId),
                                   QueryInput(promptNorm, messages, model, ttlSeconds, temperature, now, latencyMs), o);
        State() == old(State())[tenantId := out.after] && r == out.reply
    {
      var T := Tenant(tenantId);
      ghost var before := TenantOrEmpty(old(State()), tenantId);
      r := QueryRecord(T, before, promptNorm, messages, model, ttlSeconds, temperature, now, latencyMs, o);
      OnlyTenantChanged(tenantId, T);
    }

    /** The body of `query` once the tenant's record `T` is fetched: step 1,
        the exact lookup. */
    method QueryRecord(T: TenantState, ghost before: TenantSnapshot,
                       promptNorm: string, messages: seq<Message>, model: string,
                       ttlSeconds: int, temperature: real, now: real, latencyMs: real, o: Oracles)
      returns (r: Result<Answer, QueryError>)
      requires WellFormed(before) && T.Snapshot() == before
      modifies T
      ensures var out := QuerySpec(before,
        QueryInput(promptNorm, messages, model, ttlSeconds, temperature, now, latencyMs), o);
        T.Snapshot() == out.after && r == out.reply
    {
      if promptNorm in T.exact {
        var i := T.exact[promptNorm];
        var entry := T.rows[i];
        if Fresh(entry, now) && entry.model == model {
          r := Hit(T, before, i, Exact, 1.0, now, latencyMs);
          return;
        }
      }
      r := SearchThenMiss(T, before, promptNorm, messages, model, ttlSeconds, temperature, now, latencyMs, o);
    }

    /** Step 2 of `query`, the nearest-neighbour lookup, falling through to step 3. */
    method SearchThenMiss(T: TenantState, ghost before: TenantSnapshot,
                          promptNorm: string, messages: seq<Message>, model: string,
                          ttlSeconds: int, temperature: real, now: real, latencyMs: real, o: Oracles)
      returns (r: Result<Answer, QueryError>)
      requires WellFormed(before) && T.Snapshot() == before
      modifies T
      ensures var out := SearchOrMiss(before,
        QueryInput(promptNorm, messages, model, ttlSeconds, temperature, now, latencyMs), o);
        T.Snapshot() == out.after && r == out.reply
    {
      if T.index.Some? && |T.rows| > 0 {
        var e := o.embed(UserText(messages, promptNorm));
        if e.None? {
          return Err(EmbeddingFailed);
        }
        var bestIdx := BestMatch(T.index.value, e.value, o.sim);
        var bestSim := o.sim(e.value, T.index.value[bestIdx]);
        if bestSim >= T.simThreshold && Fresh(T.rows[bestIdx], now) {
          r := Hit(T, before, bestIdx, Semantic, bestSim, now, latencyMs);
          return;
        }
      }
      r := InsertMiss(T, before, promptNorm, messages, model, ttlSeconds, temperature, now, latencyMs, o);
    }

    /** A hit on row `i`: touch the entry, count the hit and record the latency. */
    method Hit(T: TenantState, ghost before: TenantSnapshot, i: nat, kind: HitKind, similarity: real,
               now: real, latencyMs: real)
      returns (r: Result<Answer, QueryError>)
      requires WellFormed(before) && T.Snapshot() == before && i < |before.rows|
      modifies T
      ensures var out := RecordHit(before, i, kind, similarity, now, latencyMs);
        T.Snapshot() == out.after && r == out.reply
    {
      var entry := T.rows[i];
      T.rows := T.rows[i := entry.(useCount := entry.useCount + 1, lastUsedAt := now)];
      T.hits := T.hits + 1;
      if kind == Semantic {
        T.semanticHits := T.semanticHits + 1;
      }
      T.latencies := T.latencies + [latencyMs];
      r := Ok(Answer(entry.responseText, Meta(kind, similarity, latencyMs, HybridStrategy)));
    }

    /** Step 3 of `query`. */
    method InsertMiss(T: TenantState, ghost before: TenantSnapshot, promptNorm: string, messages: seq<Message>, model: string,
                ttlSeconds: int, temperature: real, now: real, latencyMs: real, o: Oracles)
      returns (r: Result<Answer, QueryError>)
      requires WellFormed(before) && T.Snapshot() == before
      modifies T
      ensures var out := MissPath(before,
        QueryInput(promptNorm, messages, model, ttlSeconds, temperature, now, latencyMs), o);
        T.Snapshot() == out.after && r == out.reply
    {
      T.misses := T.misses + 1;
      var response := o.llm(messages, temperature);
      if response.None? {
        return Err(LlmFailed);
      }
      var userText := UserText(messages, promptNorm);
      var emb := o.embedOnMiss(userText);
      if emb.None? {
        return Err(EmbeddingFailed);
      }
      var domain := Domains.DomainHint(userText);
      var entry := CacheEntry(promptNorm, response.value, emb.value, model, ttlSeconds,
                              now, now, 0, domain, "miss");
      T.exact := T.exact[promptNorm := |T.rows|];
      T.rows := T.rows + [entry];
      FaissAdd(T, emb.value);
      T.latencies := T.latencies + [latencyMs];
      r := Ok(Answer(response.value, Meta(Miss, 0.0, latencyMs, HybridStrategy)));
    }

    /** `metrics(tenant_id)`: the counts, creating the tenant if needed. */
    method Metrics(tenantId: string) returns (m: MetricsReport)
      requires Valid()
      modifies this
      ensures Valid()
      ensures State() == old(State())[tenantId := TenantOrEmpty(old(State()), tenantId)]
      ensures m == Report(tenantId, TenantOrEmpty(old(State()), tenantId))
    {
      var T := Tenant(tenantId);
      EmptyTenantWellFormed();
      OnlyTenantChanged(tenantId, T);
      m := Report(tenantId, T.Snapshot());
    }

    /** `adapt_threshold(tenant_id)`: only the tenant's threshold can change. */
    method AdaptThreshold(tenantId: string)
      requires Valid()
      modifies this, tenants.Values
      ensures Valid()
      ensures var T := TenantOrEmpty(old(State()), tenantId);
        State() == old(State())[tenantId := T.(simThreshold := AdaptedThreshold(T.hits, T.misses, T.simThreshold))]
    {
      var T := Tenant(tenantId);
      EmptyTenantWellFormed();
      T.simThreshold := AdaptedThreshold(T.hits, T.misses, T.simThreshold);
      OnlyTenantChanged(tenantId, T);
    }
  }
}
