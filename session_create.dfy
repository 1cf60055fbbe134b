/** Session creation (the handler of pages/api/session/create.js) once its
    inputs are plain values: the two extracted documents are normalised,
    checked for emptiness, chunked, embedded in one batch and zipped into the
    session's vector store. */
module SessionCreate {
  import opened Text
  import opened Whitespace
  import opened Chunker

  /** An embedding vector. */
  type Vector = seq<real>

  /** One entry of a session's vector store: a chunk and its embedding. */
  datatype StoreEntry = StoreEntry(text: string, embedding: Vector)

  /** The reply of the batch embedding service: one vector per text, or a
      failure (a non-success response, or a missing API key). */
  datatype EmbedReply = Embedded(vectors: seq<Vector>) | EmbedFailed(detail: string)

  /** The errors session creation reports. */
  datatype CreateError =
    | MissingInput             // one of the documents is empty after normalisation
    | EmbeddingServiceError(detail: string)

  /** The fields of the session row that this model tracks. */
  datatype SessionRecord = SessionRecord(jobDescriptionText: string, resumeText: string, vectorStore: seq<StoreEntry>)

  datatype CreateResult = Created(session: SessionRecord) | Failed(error: CreateError)

  /** The batch embedding service keeps its contract: one vector per text. */
  ghost predicate OnePerText(embed: seq<string> -> EmbedReply) {
    forall texts :: embed(texts).Embedded? ==> |embed(texts).vectors| == |texts|
  }

  /** The chunks of one document, with the default window and overlap. */
  function DocumentChunks(text: string): seq<string> {
    Chunks(text, DefaultChunkSize, DefaultOverlap)
  }

  /** `allChunks.map((chunk, i) => ({ text: chunk, embedding: embeddings[i] }))`. */
  function BuildVectorStore(chunks: seq<string>, embeddings: seq<Vector>): (r: seq<StoreEntry>)
    requires |embeddings| == |chunks|
    ensures |r| == |chunks|
    ensures forall i :: 0 <= i < |r| ==> r[i].text == chunks[i] && r[i].embedding == embeddings[i]
  {
    seq(|chunks|, i requires 0 <= i < |chunks| => StoreEntry(chunks[i], embeddings[i]))
  }

  /** The texts of a store's entries, in order. */
  function Texts(store: seq<StoreEntry>): (r: seq<string>)
    ensures |r| == |store|
    ensures forall i :: 0 <= i < |r| ==> r[i] == store[i].text
  {
    seq(|store|, i requires 0 <= i < |store| => store[i].text)
  }

  /** Unzipping the assembled store gives back the chunks in their order. */
  lemma StoreTextsAreChunks(chunks: seq<string>, embeddings: seq<Vector>)
    requires |embeddings| == |chunks|
    ensures Texts(BuildVectorStore(chunks, embeddings)) == chunks
  {
  }

  /** The session-creation handler from the extracted documents on: `embed`
      stands for the batch call to the embedding service. */
  function CreateSession(rawJob: string, rawResume: string, embed: seq<string> -> EmbedReply): CreateResult
    requires OnePerText(embed)
  {
    var job := Normalize(rawJob);
    var resume := Normalize(rawResume);
    if job == [] || resume == [] then Failed(MissingInput)
    else
      var all := DocumentChunks(job) + DocumentChunks(resume);
      match embed(all)
      case EmbedFailed(detail) => Failed(EmbeddingServiceError(detail))
      case Embedded(vectors) => Created(SessionRecord(job, resume, BuildVectorStore(all, vectors)))
  }

  /** An empty document (after normalisation) fails with `MissingInput`
      whatever the embedding service would say: the guard comes before any
      chunking or embedding, and no session is created. */
  lemma EmptyDocumentFails(rawJob: string, rawResume: string, embed: seq<string> -> EmbedReply,
                           other: seq<string> -> EmbedReply)
    requires OnePerText(embed) && OnePerText(other)
    requires Normalize(rawJob) == [] || Normalize(rawResume) == []
    ensures CreateSession(rawJob, rawResume, embed) == Failed(MissingInput)
    ensures CreateSession(rawJob, rawResume, embed) == CreateSession(rawJob, rawResume, other)
  {
  }

  /** A failing embedding call creates no session. */
  lemma EmbeddingFailureFails(rawJob: string, rawResume: string, embed: seq<string> -> EmbedReply)
    requires OnePerText(embed)
    requires Normalize(rawJob) != [] && Normalize(rawResume) != []
    requires embed(DocumentChunks(Normalize(rawJob)) + DocumentChunks(Normalize(rawResume))).EmbedFailed?
    ensures CreateSession(rawJob, rawResume, embed).Failed?
  {
  }

  /** A created session holds the normalised documents and a vector store with
      one entry per chunk, the job-description chunks first: entry `i` pairs
      chunk `i` of `jobChunks ++ resumeChunks` with embedding `i`. Both
      documents contribute at least one chunk. */
  lemma CreatedStore(rawJob: string, rawResume: string, embed: seq<string> -> EmbedReply)
    requires OnePerText(embed)
    requires CreateSession(rawJob, rawResume, embed).Created?
    ensures var s := CreateSession(rawJob, rawResume, embed).session;
      var jobChunks := DocumentChunks(Normalize(rawJob));
      var resumeChunks := DocumentChunks(Normalize(rawResume));
      var all := jobChunks + resumeChunks;
      && s.jobDescriptionText == Normalize(rawJob) != []
      && s.resumeText == Normalize(rawResume) != []
      && |jobChunks| > 0 && |resumeChunks| > 0
      && |s.vectorStore| == |jobChunks| + |resumeChunks|
      && embed(all).Embedded?
      && Texts(s.vectorStore) == all
      && (forall i :: 0 <= i < |jobChunks| ==> s.vectorStore[i].text == jobChunks[i])
      && (forall i :: 0 <= i < |s.vectorStore| ==> s.vectorStore[i].embedding == embed(all).vectors[i])
  {
    var job := Normalize(rawJob);
    var resume := Normalize(rawResume);
    ChunksEmptyIff(job, DefaultChunkSize, DefaultOverlap);
    ChunksEmptyIff(resume, DefaultChunkSize, DefaultOverlap);
    var all := DocumentChunks(job) + DocumentChunks(resume);
    StoreTextsAreChunks(all, embed(all).vectors);
  }
}
