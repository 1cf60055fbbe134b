/** The three API handlers: pages/api/session/create.js,
    pages/api/interview/ask.js and pages/api/interview/analyze.js. Each is
    a pure function that gives the response and the rows written, and a
    method that runs the handler against the database. The external services
    (document extraction, embeddings, question generation, coaching) are
    parameters. */
module Handlers {
  import opened Wrappers
  import opened Text
  import opened Whitespace
  import opened SessionCreate
  import opened Similarity
  import opened Retrieval
  import opened Prompt
  import opened Transcript
  import opened Analysis
  import opened Storage

  /** The JSON body of a response. */
  datatype Payload =
    | Info(message: string)
    | SessionCreated(sessionId: string)
    | Question(question: string, messageId: nat)

  datatype Response = Response(status: int, payload: Payload)

  const Post := "POST"
  const MethodNotAllowed := Response(405, Info("Method not allowed"))

  /** `error.message || fallback`. */
  function ErrorText(message: string, fallback: string): (r: string)
    ensures fallback != "" ==> r != ""
    ensures message != "" ==> r == message
    ensures message == "" ==> r == fallback
  {
    if message != "" then message else fallback
  }

  // ------------------------------------------------------- session/create

  const MissingInputMessage := "Failed to extract text from one of the documents."
  const CreateFallback := "Failed to create interview session."

  /** The message of the error session creation throws. */
  function CreateErrorMessage(e: CreateError): string {
    match e
    case MissingInput => MissingInputMessage
    case EmbeddingServiceError(detail) => detail
  }

  /** The response of the session-creation handler; `newId` is the id the
      database gives the new session. */
  function CreateResponse(httpMethod: string, rawJob: string, rawResume: string,
                          embed: seq<string> -> EmbedReply, newId: string): Response
    requires OnePerText(embed)
  {
    if httpMethod != Post then MethodNotAllowed
    else match CreateSession(rawJob, rawResume, embed)
      case Failed(e) => Response(500, Info(ErrorText(CreateErrorMessage(e), CreateFallback)))
      case Created(_) => Response(201, SessionCreated(newId))
  }

  /** The handler answers 405 to anything but POST, 201 with the new id
      exactly when a session was created, and 500 with a non-empty message
      otherwise; an empty document gives the extraction message. */
  lemma CreateStatuses(httpMethod: string, rawJob: string, rawResume: string,
                       embed: seq<string> -> EmbedReply, newId: string)
    requires OnePerText(embed)
    ensures var r := CreateResponse(httpMethod, rawJob, rawResume, embed, newId);
      && (r.status == 405 <==> httpMethod != Post)
      && (r.status == 201 <==> httpMethod == Post && CreateSession(rawJob, rawResume, embed).Created?)
      && (r.status == 201 ==> r.payload == SessionCreated(newId))
      && (r.status in {405, 500, 201})
      && (r.status == 500 ==> r.payload.Info? && r.payload.message != "")
      && (httpMethod == Post && (Normalize(rawJob) == [] || Normalize(rawResume) == []) ==>
            r == Response(500, Info(MissingInputMessage)))
  {
    if httpMethod == Post && (Normalize(rawJob) == [] || Normalize(rawResume) == []) {
      EmptyDocumentFails(rawJob, rawResume, embed, embed);
    }
  }

  /** The session-creation handler: on success the session row is stored
      under `newId`; otherwise nothing is written. */
  method Create(db: Database, httpMethod: string, rawJob: string, rawResume: string,
                embed: seq<string> -> EmbedReply, newId: string) returns (response: Response)
    requires db.Valid() && newId !in db.sessions
    requires OnePerText(embed)
    modifies db
    ensures db.Valid()
    ensures response == CreateResponse(httpMethod, rawJob, rawResume, embed, newId)
    ensures db.sessions == if response.status == 201
      then old(db.sessions)[newId := RowOf(CreateSession(rawJob, rawResume, embed).session)]
      else old(db.sessions)
    ensures db.messages == old(db.messages) && db.reports == old(db.reports)
    ensures db.nextMessageId == old(db.nextMessageId)
  {
    CreateStatuses(httpMethod, rawJob, rawResume, embed, newId);
    if httpMethod != Post {
      return MethodNotAllowed;
    }
    var result := CreateSession(rawJob, rawResume, embed);
    match result
    case Failed(e) =>
      response := Response(500, Info(ErrorText(CreateErrorMessage(e), CreateFallback)));
    case Created(record) =>
      db.CreateSession(newId, RowOf(record));
      response := Response(201, SessionCreated(newId));
  }

  // -------------------------------------------------------- interview/ask

  /** `findRelevantContext(query, session.vectorStore)` uses its default. */
  const TopK := 3
  const SessionNotFound := Response(404, Info("Session not found."))
  const AskFallback := "Failed to generate question."

  /** The reply of the question generation service. */
  datatype GenReply = Generated(text: string) | GenFailed(detail: string)

  /** The response and the messages written, in order. */
  datatype AskOutcome = AskOutcome(response: Response, written: seq<Message>)

  /** The query embedding fits the store of the session asked about. */
  ghost predicate QueryFitsSession(sessions: map<string, SessionRow>, sessionId: string,
                                   query: string, embedQuery: string -> QueryEmbedding) {
    sessionId in sessions ==> QueryFits(sessions[sessionId].vectorStore, query, embedQuery)
  }

  /** The ask handler given the sessions and the next message id. */
  function AskSpec(sessions: map<string, SessionRow>, nextId: nat, httpMethod: string,
                   sessionId: string, history: seq<Turn>, query: string,
                   embedQuery: string -> QueryEmbedding, generate: seq<Turn> -> GenReply,
                   sqrt: real -> real): AskOutcome
    requires QueryFitsSession(sessions, sessionId, query, embedQuery)
  {
    if httpMethod != Post then AskOutcome(MethodNotAllowed, [])
    else if sessionId !in sessions then AskOutcome(SessionNotFound, [])
    else match RelevantContext(sessions[sessionId].vectorStore, query, embedQuery, sqrt, TopK)
      case RetrievalFailed(detail) => AskOutcome(Response(500, Info(ErrorText(detail, AskFallback))), [])
      case Context(context) =>
        match generate(Contents(history, ContextString(context)))
        case GenFailed(detail) => AskOutcome(Response(500, Info(ErrorText(detail, AskFallback))), [])
        case Generated(question) =>
          AskOutcome(Response(200, Question(question, nextId + 1)),
                     [Message(nextId, sessionId, PersistedUserText(history, query), true),
                      Message(nextId + 1, sessionId, question, false)])
  }

  /** The ask handler: 405 and 404 before any service is called; 500 with a
      non-empty message when retrieval or generation fails, writing nothing;
      200 with the question and the id of the interviewer message otherwise,
      after writing the candidate's message and then the question. */
  lemma AskStatuses(sessions: map<string, SessionRow>, nextId: nat, httpMethod: string,
                    sessionId: string, history: seq<Turn>, query: string,
                    embedQuery: string -> QueryEmbedding, generate: seq<Turn> -> GenReply,
                    sqrt: real -> real)
    requires QueryFitsSession(sessions, sessionId, query, embedQuery)
    ensures var o := AskSpec(sessions, nextId, httpMethod, sessionId, history, query, embedQuery, generate, sqrt);
      && (o.response.status == 405 <==> httpMethod != Post)
      && (o.response.status == 404 <==> httpMethod == Post && sessionId !in sessions)
      && o.response.status in {405, 404, 500, 200}
      && (o.response.status == 500 ==> o.response.payload.Info? && o.response.payload.message != "")
      && (o.written != [] <==> o.response.status == 200)
  {
  }

  /** A successful request writes exactly two messages to the session: the
      candidate's text first, the generated question second, with fresh
      consecutive ids, and returns the question and the id of the second. */
  lemma AskSuccess(sessions: map<string, SessionRow>, nextId: nat, httpMethod: string,
                   sessionId: string, history: seq<Turn>, query: string,
                   embedQuery: string -> QueryEmbedding, generate: seq<Turn> -> GenReply,
                   sqrt: real -> real)
    requires QueryFitsSession(sessions, sessionId, query, embedQuery)
    requires AskSpec(sessions, nextId, httpMethod, sessionId, history, query, embedQuery, generate, sqrt).response.status == 200
    ensures var o := AskSpec(sessions, nextId, httpMethod, sessionId, history, query, embedQuery, generate, sqrt);
      && httpMethod == Post && sessionId in sessions
      && |o.written| == 2
      && o.written[0].isUser && !o.written[1].isUser
      && o.written[0].sessionId == sessionId && o.written[1].sessionId == sessionId
      && o.written[0].text == PersistedUserText(history, query)
      && o.written[0].id == nextId && o.written[1].id == nextId + 1
      && o.response.payload == Question(o.written[1].text, o.written[1].id)
  {
  }

  /** The generation service receives the history and one more turn that
      carries the numbered context: at most `TopK` store texts, the best
      scoring first. */
  lemma AskPrompt(sessions: map<string, SessionRow>, nextId: nat, sessionId: string,
                  history: seq<Turn>, query: string, embedQuery: string -> QueryEmbedding,
                  generate: seq<Turn> -> GenReply, sqrt: real -> real)
    requires QueryFitsSession(sessions, sessionId, query, embedQuery)
    requires sessionId in sessions
    requires RelevantContext(sessions[sessionId].vectorStore, query, embedQuery, sqrt, TopK).Context?
    ensures var context := RelevantContext(sessions[sessionId].vectorStore, query, embedQuery, sqrt, TopK).texts;
      var sent := Contents(history, ContextString(context));
      && |context| <= TopK
      && (!HasEntries(sessions[sessionId].vectorStore) ==> context == [])
      && sent[..|history|] == history
      && sent[|history|].role == UserRole
      && ((AskSpec(sessions, nextId, Post, sessionId, history, query, embedQuery, generate, sqrt).response.status == 200)
          <==> generate(sent).Generated?)
  {
    var store := sessions[sessionId].vectorStore;
    if HasEntries(store) {
      ContextShape(store.value, embedQuery(query).vector, sqrt, TopK);
    }
  }

  /** Neither service is consulted when the method is wrong or the session
      is missing, and the query embedding service is not consulted when the
      session has no stored vectors: replacing them changes nothing. */
  lemma AskServicesNotCalled(sessions: map<string, SessionRow>, nextId: nat, httpMethod: string,
                             sessionId: string, history: seq<Turn>, query: string,
                             embedQuery: string -> QueryEmbedding, otherEmbed: string -> QueryEmbedding,
                             generate: seq<Turn> -> GenReply, otherGenerate: seq<Turn> -> GenReply,
                             sqrt: real -> real)
    requires QueryFitsSession(sessions, sessionId, query, embedQuery)
    requires QueryFitsSession(sessions, sessionId, query, otherEmbed)
    ensures httpMethod != Post || sessionId !in sessions ==>
      AskSpec(sessions, nextId, httpMethod, sessionId, history, query, embedQuery, generate, sqrt)
        == AskSpec(sessions, nextId, httpMethod, sessionId, history, query, otherEmbed, otherGenerate, sqrt)
    ensures sessionId in sessions && !HasEntries(sessions[sessionId].vectorStore) ==>
      AskSpec(sessions, nextId, httpMethod, sessionId, history, query, embedQuery, generate, sqrt)
        == AskSpec(sessions, nextId, httpMethod, sessionId, history, query, otherEmbed, generate, sqrt)
  {
    if sessionId in sessions && !HasEntries(sessions[sessionId].vectorStore) {
      var store := sessions[sessionId].vectorStore;
      NoStoreNoContext(store, query, embedQuery, otherEmbed, sqrt, TopK);
    }
  }

  /** The messages a request writes extend the transcript of its own
      session and of no other. */
  lemma AskExtendsTranscript(messages: seq<Message>, sessions: map<string, SessionRow>, nextId: nat,
                             httpMethod: string, sessionId: string, history: seq<Turn>, query: string,
                             embedQuery: string -> QueryEmbedding, generate: seq<Turn> -> GenReply,
                             sqrt: real -> real, other: string)
    requires QueryFitsSession(sessions, sessionId, query, embedQuery)
    ensures var o := AskSpec(sessions, nextId, httpMethod, sessionId, history, query, embedQuery, generate, sqrt);
      MessagesOf(messages + o.written, other)
        == MessagesOf(messages, other) + (if other == sessionId then o.written else [])
  {
    var o := AskSpec(sessions, nextId, httpMethod, sessionId, history, query, embedQuery, generate, sqrt);
    if o.written == [] {
      assert messages + o.written == messages;
    } else {
      var w := o.written;
      assert messages + w == (messages + [w[0]]) + [w[1]];
      MessagesOfAppend(messages, w[0], other);
      MessagesOfAppend(messages + [w[0]], w[1], other);
    }
  }

  /** The ask handler: reads the session, retrieves the context, calls the
      generation service and writes the two messages. */
  method Ask(db: Database, httpMethod: string, sessionId: string, history: seq<Turn>, query: string,
             embedQuery: string -> QueryEmbedding, generate: seq<Turn> -> GenReply,
             sqrt: real -> real) returns (response: Response)
    requires db.Valid() && SqrtLike(sqrt)
    requires QueryFitsSession(db.sessions, sessionId, query, embedQuery)
    modifies db
    ensures db.Valid()
    ensures var o := AskSpec(old(db.sessions), old(db.nextMessageId), httpMethod, sessionId,
                             history, query, embedQuery, generate, sqrt);
      && response == o.response
      && db.messages == old(db.messages) + o.written
      && db.nextMessageId == old(db.nextMessageId) + |o.written|
    ensures db.sessions == old(db.sessions) && db.reports == old(db.reports)
  {
    if httpMethod != Post {
      return MethodNotAllowed;
    }
    var session := db.FindSession(sessionId);
    if session.None? {
      return SessionNotFound;
    }
    var context, _ := FindRelevantContext(session.value.vectorStore, query, embedQuery, sqrt, TopK);
    if context.RetrievalFailed? {
      return Response(500, Info(ErrorText(context.detail, AskFallback)));
    }
    var reply := generate(Contents(history, ContextString(context.texts)));
    if reply.GenFailed? {
      return Response(500, Info(ErrorText(reply.detail, AskFallback)));
    }
    var question := reply.text;
    var userMessage := db.CreateMessage(sessionId, PersistedUserText(history, query), true);
    var aiMessage := db.CreateMessage(sessionId, question, false);
    response := Response(200, Question(question, aiMessage.id));
  }

  // ---------------------------------------------------- interview/analyze

  const AnalysisStarted := Response(202, Info("Analysis started."))

  /** The analyze handler's response, and the report rows its background
      task writes, given the stored messages and reports. A session that
      already has a report gets no second one: the create is refused. */
  function AnalyzeSpec(messages: seq<Message>, reports: seq<ReportRow>, httpMethod: string,
                       sessionId: string, coach: seq<Message> -> CoachReply): (Response, seq<ReportRow>)
  {
    if httpMethod != Post then (MethodNotAllowed, [])
    else (AnalysisStarted,
          match AnalyzeTranscript(MessagesOf(messages, sessionId), coach)
          case None => []
          case Some(report) => if HasReport(reports, sessionId) then [] else [ReportRow(sessionId, report)])
  }

  /** A POST is accepted with 202 before, and whatever, the analysis does;
      at most one report is written, for the session asked about, only when
      the session has messages and no report yet. */
  lemma AnalyzeAccepted(messages: seq<Message>, reports: seq<ReportRow>, httpMethod: string,
                        sessionId: string, coach: seq<Message> -> CoachReply,
                        other: seq<Message> -> CoachReply)
    ensures var (response, rows) := AnalyzeSpec(messages, reports, httpMethod, sessionId, coach);
      && (response.status == 405 <==> httpMethod != Post)
      && (httpMethod == Post ==> response == AnalysisStarted)
      && response == AnalyzeSpec(messages, reports, httpMethod, sessionId, other).0
      && |rows| <= 1
      && (forall i :: 0 <= i < |rows| ==> rows[i].sessionId == sessionId)
      && (MessagesOf(messages, sessionId) == [] ==> rows == [])
      && (HasReport(reports, sessionId) ==> rows == [])
  {
  }

  /** The report written for a transcript with candidate messages, when the
      coach replies and the session has no report yet, is the analysis of
      exactly that session's messages. */
  lemma AnalyzeWritesReport(messages: seq<Message>, reports: seq<ReportRow>, sessionId: string,
                            coach: seq<Message> -> CoachReply)
    requires UserMessages(MessagesOf(messages, sessionId)) != []
    requires coach(MessagesOf(messages, sessionId)).Replied?
    requires !HasReport(reports, sessionId)
    ensures var transcript := MessagesOf(messages, sessionId);
      && PerformAnalysis(transcript, coach).Analysed?
      && AnalyzeSpec(messages, reports, Post, sessionId, coach).1
           == [ReportRow(sessionId, PerformAnalysis(transcript, coach).report)]
  {
    var transcript := MessagesOf(messages, sessionId);
    assert transcript != [];
  }

  /** The analyze handler: answers at once and then, in the background, reads
      the session's messages and stores a report when the analysis succeeds
      and the session has none. */
  method Analyze(db: Database, httpMethod: string, sessionId: string,
                 coach: seq<Message> -> CoachReply) returns (response: Response)
    requires db.Valid()
    modifies db
    ensures db.Valid()
    ensures response == AnalyzeSpec(old(db.messages), old(db.reports), httpMethod, sessionId, coach).0
    ensures db.reports == old(db.reports) + AnalyzeSpec(old(db.messages), old(db.reports), httpMethod, sessionId, coach).1
    ensures db.sessions == old(db.sessions) && db.messages == old(db.messages)
    ensures db.nextMessageId == old(db.nextMessageId)
  {
    if httpMethod != Post {
      return MethodNotAllowed;
    }
    response := AnalysisStarted;
    var transcript := db.FindMessages(sessionId);
    var report := AnalyzeTranscript(transcript, coach);
    if report.Some? {
      var _ := db.CreateReport(ReportRow(sessionId, report.value));
    }
  }
}
