/** The rows the three handlers read and write through the database client:
    interview sessions, messages and analysis reports. The database chooses
    message ids; here they come from a counter, so that every message written
    later has a larger id. */
module Storage {
  import opened Wrappers
  import opened SessionCreate
  import opened Transcript
  import opened Analysis

  /** An interview session row. `vectorStore` is a JSON column that may be
      null. */
  datatype SessionRow = SessionRow(jobDescriptionText: string, resumeText: string,
                                   vectorStore: Option<seq<StoreEntry>>)

  /** An analysis report row: the session it belongs to and its fields. */
  datatype ReportRow = ReportRow(sessionId: string, report: Report)

  /** The row written for a freshly created session. */
  function RowOf(record: SessionRecord): (r: SessionRow)
    ensures r.vectorStore.Some? && r.vectorStore.value == record.vectorStore
    ensures r.jobDescriptionText == record.jobDescriptionText && r.resumeText == record.resumeText
  {
    SessionRow(record.jobDescriptionText, record.resumeText, Some(record.vectorStore))
  }

  /** Message ids in write order are strictly increasing and below `next`. */
  predicate IdsBelow(messages: seq<Message>, next: nat) {
    && (forall i, j :: 0 <= i < j < |messages| ==> messages[i].id < messages[j].id)
    && (forall i :: 0 <= i < |messages| ==> messages[i].id < next)
  }

  /** Writing a message with the next id keeps the ids increasing. */
  lemma IdsBelowAppend(messages: seq<Message>, next: nat, m: Message)
    requires IdsBelow(messages, next) && m.id == next
    ensures IdsBelow(messages + [m], next + 1)
  {
  }

  /** Every report belongs to a session that has at least one message. */
  predicate ReportsBacked(reports: seq<ReportRow>, messages: seq<Message>) {
    forall i :: 0 <= i < |reports| ==> MessagesOf(messages, reports[i].sessionId) != []
  }

  /** Writing a message keeps every report backed. */
  lemma ReportsBackedAppend(reports: seq<ReportRow>, messages: seq<Message>, m: Message)
    requires ReportsBacked(reports, messages)
    ensures ReportsBacked(reports, messages + [m])
  {
    forall i | 0 <= i < |reports|
      ensures MessagesOf(messages + [m], reports[i].sessionId) != []
    {
      MessagesOfAppend(messages, m, reports[i].sessionId);
    }
  }

  /** Some report row belongs to the session. */
  predicate HasReport(reports: seq<ReportRow>, sessionId: string) {
    exists i :: 0 <= i < |reports| && reports[i].sessionId == sessionId
  }

  /** `sessionId` is unique in the report table: no two rows share one. */
  predicate OneReportPerSession(reports: seq<ReportRow>) {
    forall i, j :: 0 <= i < j < |reports| ==> reports[i].sessionId != reports[j].sessionId
  }

  /** Adding a report for a session that has none keeps the ids unique, and
      the session then has a report. */
  lemma OneReportAppend(reports: seq<ReportRow>, row: ReportRow)
    requires OneReportPerSession(reports) && !HasReport(reports, row.sessionId)
    ensures OneReportPerSession(reports + [row])
    ensures HasReport(reports + [row], row.sessionId)
  {
    assert (reports + [row])[|reports|] == row;
  }

  class Database {
    var sessions: map<string, SessionRow>
    var messages: seq<Message>
    var reports: seq<ReportRow>
    var nextMessageId: nat

    ghost predicate Valid()
      reads this
    {
      && IdsBelow(messages, nextMessageId)
      && ReportsBacked(reports, messages)
      && OneReportPerSession(reports)
    }

    constructor ()
      ensures Valid()
      ensures sessions == map[] && messages == [] && reports == []
    {
      sessions := map[];
      messages := [];
      reports := [];
      nextMessageId := 0;
    }

    /** `prisma.interviewSession.findUnique({ where: { id } })`. */
    function FindSession(id: string): (r: Option<SessionRow>)
      reads this
      ensures r.Some? <==> id in sessions
      ensures r.Some? ==> r.value == sessions[id]
    {
      if id in sessions then Some(sessions[id]) else None
    }

    /** `prisma.interviewSession.create(...)` under an id the database chose. */
    method CreateSession(id: string, row: SessionRow)
      requires Valid() && id !in sessions
      modifies this
      ensures Valid()
      ensures sessions == old(sessions)[id := row]
      ensures messages == old(messages) && reports == old(reports) && nextMessageId == old(nextMessageId)
    {
      sessions := sessions[id := row];
    }

    /** `prisma.message.create(...)`: the new row, with the next id, goes
        last. */
    method CreateMessage(sessionId: string, text: string, isUser: bool) returns (m: Message)
      requires Valid()
      modifies this
      ensures Valid()
      ensures m == Message(old(nextMessageId), sessionId, text, isUser)
      ensures messages == old(messages) + [m] && nextMessageId == old(nextMessageId) + 1
      ensures sessions == old(sessions) && reports == old(reports)
    {
      m := Message(nextMessageId, sessionId, text, isUser);
      IdsBelowAppend(messages, nextMessageId, m);
      ReportsBackedAppend(reports, messages, m);
      messages := messages + [m];
      nextMessageId := nextMessageId + 1;
    }

    /** `prisma.message.findMany({ where: { sessionId }, orderBy: { createdAt: 'asc' } })`. */
    function FindMessages(sessionId: string): (r: seq<Message>)
      reads this
      ensures forall i :: 0 <= i < |r| ==> r[i].sessionId == sessionId
      ensures r == MessagesOf(messages, sessionId)
    {
      MessagesOf(messages, sessionId)
    }

    /** `prisma.analysisReport.create(...)`: `sessionId` is unique in the
        report table, so a second report for a session is refused (the create
        throws) and nothing is written. */
    method CreateReport(row: ReportRow) returns (created: bool)
      requires Valid() && MessagesOf(messages, row.sessionId) != []
      modifies this
      ensures Valid()
      ensures created <==> !HasReport(old(reports), row.sessionId)
      ensures reports == if created then old(reports) + [row] else old(reports)
      ensures HasReport(reports, row.sessionId)
      ensures sessions == old(sessions) && messages == old(messages) && nextMessageId == old(nextMessageId)
    {
      created := !HasReport(reports, row.sessionId);
      if created {
        OneReportAppend(reports, row);
        reports := reports + [row];
      }
    }
  }
}
