/** `findRelevantContext` of pages/api/interview/ask.js: score every entry of
    the session's vector store against the query embedding, sort the scores
    descending (stably) and keep the texts of the first `topK`. The query
    embedding service is a parameter `embedQuery`. */
module Retrieval {
  import opened Wrappers
  import opened Chunker
  import opened SessionCreate
  import opened Similarity
  import opened Ranking

  /** The reply of the query embedding service. */
  datatype QueryEmbedding = QueryEmbedded(vector: Vector) | QueryEmbedFailed(detail: string)

  /** The context texts, or the error that aborts the request. */
  datatype RetrievalResult = Context(texts: seq<string>) | RetrievalFailed(detail: string)

  /** The store's embeddings are at least as long as the query embedding, so
      `dotProduct(queryEmbedding, item.embedding)` reads no missing entry. */
  predicate DimensionsFit(store: seq<StoreEntry>, query: Vector) {
    forall i :: 0 <= i < |store| ==> |query| <= |store[i].embedding|
  }

  /** The store is there and holds at least one entry. */
  predicate HasEntries(store: Option<seq<StoreEntry>>) {
    store.Some? && store.value != []
  }

  /** `vectorStore.map(item => ({ text, similarity }))`. */
  function Scores(store: seq<StoreEntry>, query: Vector, sqrt: real -> real): (r: seq<Scored>)
    requires DimensionsFit(store, query)
    ensures |r| == |store|
    ensures forall i :: 0 <= i < |r| ==>
      r[i] == Scored(store[i].text, Cosine(query, store[i].embedding, sqrt))
  {
    seq(|store|, i requires 0 <= i < |store| && DimensionsFit(store, query) =>
      Scored(store[i].text, Cosine(query, store[i].embedding, sqrt)))
  }

  /** The scores after `similarities.sort(...)`. */
  function Ranked(store: seq<StoreEntry>, query: Vector, sqrt: real -> real): seq<Scored>
    requires DimensionsFit(store, query)
  {
    SortDesc(Scores(store, query, sqrt))
  }

  /** `ranked.slice(0, topK).map(item => item.text)`. */
  function TopTexts(ranked: seq<Scored>, topK: nat): (r: seq<string>)
    ensures |r| == Min(topK, |ranked|)
    ensures forall j :: 0 <= j < |r| ==> r[j] == ranked[j].text
  {
    var k := Min(topK, |ranked|);
    seq(k, j requires 0 <= j < k && k <= |ranked| => ranked[j].text)
  }

  /** What the query embedding must satisfy for the store it is compared with. */
  ghost predicate QueryFits(store: Option<seq<StoreEntry>>, query: string, embedQuery: string -> QueryEmbedding) {
    HasEntries(store) && embedQuery(query).QueryEmbedded? ==>
      DimensionsFit(store.value, embedQuery(query).vector)
  }

  /** The value `findRelevantContext(query, vectorStore, topK)` resolves to,
      or the error it throws. */
  function RelevantContext(store: Option<seq<StoreEntry>>, query: string,
                           embedQuery: string -> QueryEmbedding, sqrt: real -> real, topK: nat): RetrievalResult
    requires QueryFits(store, query, embedQuery)
  {
    if !HasEntries(store) then Context([])
    else match embedQuery(query)
      case QueryEmbedFailed(detail) => RetrievalFailed(detail)
      case QueryEmbedded(q) => Context(TopTexts(Ranked(store.value, q, sqrt), topK))
  }

  /** `findRelevantContext` with its array of scores sorted in place.
      `requested` says whether the query embedding service was called. */
  method FindRelevantContext(store: Option<seq<StoreEntry>>, query: string,
                             embedQuery: string -> QueryEmbedding, sqrt: real -> real, topK: nat)
    returns (r: RetrievalResult, requested: bool)
    requires SqrtLike(sqrt)
    requires QueryFits(store, query, embedQuery)
    ensures r == RelevantContext(store, query, embedQuery, sqrt, topK)
    ensures requested <==> HasEntries(store)
  {
    if !HasEntries(store) {
      return Context([]), false;
    }
    requested := true;
    var entries := store.value;
    var reply := embedQuery(query);
    if reply.QueryEmbedFailed? {
      return RetrievalFailed(reply.detail), requested;
    }
    var q := reply.vector;
    var similarities := new Scored[|entries|](_ => Scored("", 0.0));
    for i := 0 to |entries|
      invariant forall j :: 0 <= j < i ==> similarities[j] == Scores(entries, q, sqrt)[j]
    {
      var s := CosineSimilarity(q, entries[i].embedding, sqrt);
      similarities[i] := Scored(entries[i].text, s);
    }
    assert similarities[..] == Scores(entries, q, sqrt);
    SortDescending(similarities);
    r := Context(TopTexts(similarities[..], topK));
  }

  /** A missing or empty store gives no context, whatever the embedding
      service would answer: it is never asked. */
  lemma NoStoreNoContext(store: Option<seq<StoreEntry>>, query: string,
                         embedQuery: string -> QueryEmbedding, other: string -> QueryEmbedding,
                         sqrt: real -> real, topK: nat)
    requires !HasEntries(store)
    ensures RelevantContext(store, query, embedQuery, sqrt, topK) == Context([])
    ensures RelevantContext(store, query, embedQuery, sqrt, topK)
         == RelevantContext(store, query, other, sqrt, topK)
  {
  }

  /** A failing query embedding aborts retrieval. */
  lemma QueryFailureFails(store: Option<seq<StoreEntry>>, query: string,
                          embedQuery: string -> QueryEmbedding, sqrt: real -> real, topK: nat)
    requires HasEntries(store) && embedQuery(query).QueryEmbedFailed?
    ensures RelevantContext(store, query, embedQuery, sqrt, topK).RetrievalFailed?
  {
  }

  /** The ranking is a stable descending sort of the scores: sorted, a
      permutation, and equal scores keep their store order. */
  lemma RankedIsStableSort(store: seq<StoreEntry>, query: Vector, sqrt: real -> real, v: real)
    requires DimensionsFit(store, query)
    ensures SortedDesc(Ranked(store, query, sqrt))
    ensures multiset(Ranked(store, query, sqrt)) == multiset(Scores(store, query, sqrt))
    ensures WithScore(Ranked(store, query, sqrt), v) == WithScore(Scores(store, query, sqrt), v)
  {
    SortDescSorted(Scores(store, query, sqrt));
    SortDescPermutation(Scores(store, query, sqrt));
    SortDescStable(Scores(store, query, sqrt), v);
  }

  /** The context holds `min(topK, |store|)` texts, each the text of an entry
      of the store; with `topK = 0` it is empty. */
  lemma ContextShape(store: seq<StoreEntry>, query: Vector, sqrt: real -> real, topK: nat)
    requires DimensionsFit(store, query)
    ensures var texts := TopTexts(Ranked(store, query, sqrt), topK);
      && |texts| == Min(topK, |store|)
      && (forall j :: 0 <= j < |texts| ==> exists i :: 0 <= i < |store| && texts[j] == store[i].text)
      && (topK == 0 ==> texts == [])
  {
    var ranked := Ranked(store, query, sqrt);
    var scores := Scores(store, query, sqrt);
    RankedIsStableSort(store, query, sqrt, 0.0);
    var texts := TopTexts(ranked, topK);
    forall j | 0 <= j < |texts|
      ensures exists i :: 0 <= i < |store| && texts[j] == store[i].text
    {
      assert ranked[j] in multiset(scores);
      var i :| 0 <= i < |scores| && scores[i] == ranked[j];
      assert texts[j] == store[i].text;
    }
  }

  /** The returned scores are non-increasing, and any entry of the store that
      does not appear among the first `k` ranked places scores no higher than
      every one that does. */
  lemma ContextIsBest(store: seq<StoreEntry>, query: Vector, sqrt: real -> real, topK: nat, m: nat)
    requires DimensionsFit(store, query)
    requires m < |store|
    ensures var ranked := Ranked(store, query, sqrt);
      var k := Min(topK, |store|);
      var e := Scores(store, query, sqrt)[m];
      && (forall i, j :: 0 <= i < j < k ==> ranked[i].similarity >= ranked[j].similarity)
      && ((exists p :: 0 <= p < k && ranked[p] == e)
          || (forall i :: 0 <= i < k ==> ranked[i].similarity >= e.similarity))
  {
    var ranked := Ranked(store, query, sqrt);
    var scores := Scores(store, query, sqrt);
    var k := Min(topK, |store|);
    RankedIsStableSort(store, query, sqrt, 0.0);
    assert scores[m] in multiset(ranked);
    var p :| 0 <= p < |ranked| && ranked[p] == scores[m];
    if p >= k {
      assert forall i :: 0 <= i < k ==> ranked[i].similarity >= ranked[p].similarity;
    }
  }

  /** The first context text belongs to an entry with the highest score. */
  lemma FirstIsBest(store: seq<StoreEntry>, query: Vector, sqrt: real -> real, topK: nat)
    requires DimensionsFit(store, query)
    requires store != [] && topK > 0
    ensures var ranked := Ranked(store, query, sqrt);
      && TopTexts(ranked, topK)[0] == ranked[0].text
      && forall m :: 0 <= m < |store| ==>
           ranked[0].similarity >= Cosine(query, store[m].embedding, sqrt)
  {
    var ranked := Ranked(store, query, sqrt);
    var scores := Scores(store, query, sqrt);
    RankedIsStableSort(store, query, sqrt, 0.0);
    forall m | 0 <= m < |store|
      ensures ranked[0].similarity >= Cosine(query, store[m].embedding, sqrt)
    {
      assert scores[m] in multiset(ranked);
      var p :| 0 <= p < |ranked| && ranked[p] == scores[m];
    }
  }
}
