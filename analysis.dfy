/** `performAnalysis` of pages/api/interview/analyze.js and the background
    task of its handler, with the coaching model as a parameter `coach` that
    receives the transcript. */
module Analysis {
  import opened Wrappers
  import opened Text
  import opened Transcript
  import opened Metrics
  import opened Reply

  /** The fields of an analysis report. `clarityScore` is `None` where the
      source computes `NaN` (user messages without a single word). */
  datatype Report = Report(pace: int, clarityScore: Option<int>, sentiment: string, qualitativeFeedback: string)

  /** The coaching model's reply text, or a failure (a non-success response
      or a missing API key). */
  datatype CoachReply = Replied(text: string) | CoachFailed(detail: string)

  datatype AnalysisResult = Analysed(report: Report) | AnalysisFailed(detail: string)

  /** The report for a transcript without any candidate message. */
  const NoResponsesReport := Report(0, Some(100), "Neutral", "No user responses to analyze.")

  /** `fullText`: the candidate's messages, in order, joined by one space. */
  function FullText(messages: seq<Message>): string {
    Join(Texts(UserMessages(messages)), " ")
  }

  /** `Math.round(clarityScore)`, `NaN` (here `None`) without words. */
  function ClarityScore(fillers: nat, words: nat): Option<int> {
    if words == 0 then None else Some(Round(Clarity(fillers, words)))
  }

  /** `performAnalysis(messages)`. */
  function PerformAnalysis(messages: seq<Message>, coach: seq<Message> -> CoachReply): AnalysisResult {
    var users := UserMessages(messages);
    if users == [] then Analysed(NoResponsesReport)
    else
      var fullText := FullText(messages);
      var words := WordCount(fullText);
      var pace := Pace(words, |users|);
      var fillers := FillerCount(fullText);
      match coach(messages)
      case CoachFailed(detail) => AnalysisFailed(detail)
      case Replied(text) =>
        var parsed := ParseReply(text);
        Analysed(Report(Round(pace), ClarityScore(fillers, words), parsed.sentiment, parsed.feedback))
  }

  /** The background task: the report to store for a transcript, if any.
      An empty transcript throws before any analysis, and so does a failed
      analysis; neither stores a report. */
  function AnalyzeTranscript(messages: seq<Message>, coach: seq<Message> -> CoachReply): Option<Report> {
    if messages == [] then None
    else match PerformAnalysis(messages, coach)
      case AnalysisFailed(_) => None
      case Analysed(report) => Some(report)
  }

  /** Without candidate messages the fixed report comes back and the coach
      is not consulted: any two coaches give the same result. */
  lemma NoUserResponses(messages: seq<Message>, coach: seq<Message> -> CoachReply, other: seq<Message> -> CoachReply)
    requires forall i :: 0 <= i < |messages| ==> !messages[i].isUser
    ensures PerformAnalysis(messages, coach) == Analysed(NoResponsesReport)
    ensures PerformAnalysis(messages, coach) == PerformAnalysis(messages, other)
  {
  }

  /** An empty transcript stores no report, whatever the coach. */
  lemma EmptyTranscriptNoReport(coach: seq<Message> -> CoachReply)
    ensures AnalyzeTranscript([], coach) == None
  {
  }

  /** A transcript of interviewer messages only stores the fixed report. */
  lemma InterviewerOnlyTranscript(messages: seq<Message>, coach: seq<Message> -> CoachReply)
    requires messages != []
    requires forall i :: 0 <= i < |messages| ==> !messages[i].isUser
    ensures AnalyzeTranscript(messages, coach) == Some(NoResponsesReport)
  {
  }

  /** A failing coach stores no report for a transcript with candidate
      messages. */
  lemma CoachFailureNoReport(messages: seq<Message>, coach: seq<Message> -> CoachReply)
    requires UserMessages(messages) != [] && coach(messages).CoachFailed?
    ensures AnalyzeTranscript(messages, coach) == None
  {
  }

  /** The report on candidate messages, when the coach replies: its pace and
      clarity come from the candidate's words and fillers, its sentiment and
      feedback from the parsed reply. */
  lemma ReportFields(messages: seq<Message>, coach: seq<Message> -> CoachReply)
    requires UserMessages(messages) != [] && coach(messages).Replied?
    ensures var full := FullText(messages);
      var r := PerformAnalysis(messages, coach);
      && r.Analysed?
      && r.report.pace == Round(Pace(WordCount(full), |UserMessages(messages)|))
      && r.report.clarityScore == ClarityScore(FillerCount(full), WordCount(full))
      && r.report.sentiment == ParseReply(coach(messages).text).sentiment
      && r.report.qualitativeFeedback == ParseReply(coach(messages).text).feedback
  {
  }

  /** The pace a report carries (see `ReportFields`) is the rounded number
      of words per 0.75-minute answer, counting the words of every candidate
      message, and is never negative. */
  lemma PaceOfTranscript(messages: seq<Message>)
    requires UserMessages(messages) != []
    ensures var users := UserMessages(messages);
      var pace := Round(Pace(WordCount(FullText(messages)), |users|));
      && pace == Round(SumWordCounts(Texts(users)) as real / (0.75 * |users| as real))
      && pace >= 0
  {
    var users := UserMessages(messages);
    WordCountJoin(Texts(users));
    PaceFormula(SumWordCounts(Texts(users)), |users|);
  }

  /** Clarity is `NaN` exactly when the candidate said no word, and
      otherwise a rounded score in [0, 100] that is 100 without fillers. */
  lemma ClarityOfReport(messages: seq<Message>, coach: seq<Message> -> CoachReply)
    requires UserMessages(messages) != [] && coach(messages).Replied?
    ensures var words := SumWordCounts(Texts(UserMessages(messages)));
      var c := PerformAnalysis(messages, coach).report.clarityScore;
      && PerformAnalysis(messages, coach).Analysed?
      && (words == 0 <==> c.None?)
      && (c.Some? ==> 0 <= c.value <= 100)
      && (c.Some? && FillerCount(FullText(messages)) == 0 ==> c.value == 100)
  {
    var full := FullText(messages);
    ReportFields(messages, coach);
    WordCountJoin(Texts(UserMessages(messages)));
    if WordCount(full) > 0 {
      ClarityBounds(FillerCount(full), WordCount(full));
    }
  }

  /** Sentiment and feedback are never empty and never hold the separator. */
  lemma TextFieldsOfReport(messages: seq<Message>, coach: seq<Message> -> CoachReply)
    requires UserMessages(messages) != [] && coach(messages).Replied?
    ensures var r := PerformAnalysis(messages, coach);
      && r.Analysed?
      && r.report.sentiment != "" && r.report.qualitativeFeedback != ""
      && (forall j: nat :: !OccursAt(r.report.sentiment, Separator, j))
      && (forall j: nat :: !OccursAt(r.report.qualitativeFeedback, Separator, j))
  {
    ReportFields(messages, coach);
    ParsedFields(coach(messages).text);
  }
}
