# intervieo-general: session creation, question retrieval and transcript analysis in Dafny

This project models the server side of an AI mock-interview application. Three
API handlers hold its logic:

- **Session creation** (`pages/api/session/create.js`) does the following:
  - normalises the whitespace of the scraped job description and the parsed résumé;
  - rejects an empty document;
  - cuts both documents into overlapping 1000-character windows with a 100-character overlap;
  - embeds every window in one batch;
  - stores the vector store, in which chunk `i` is zipped with embedding `i`.
- **Asking the next question** (`pages/api/interview/ask.js`) does the following:
  - scores every entry of the session's vector store by cosine similarity against the query embedding;
  - sorts the scores in place, descending and stably;
  - keeps the texts of the first three;
  - numbers them into a `CONTEXT i:` string;
  - appends one user turn to the conversation history and asks the generation service;
  - writes the candidate's message and then the interviewer's question.
- **Analysing the transcript** (`pages/api/interview/analyze.js`) computes, from the candidate's messages:
  - the word count;
  - the case-insensitive whole-word filler count of `\b(um|uh|er|ah|like|okay|right|so|you know)\b`;
  - the pace and clarity scores with `Math.round`.

  It then parses the coaching model's `TONE###FEEDBACK` reply, with its defaults, and stores a report. An empty transcript stores none.

Each source component has its own module:

| module | file | models |
|---|---|---|
| `Text` | text.dfy | JavaScript's `\s`, `\w`, ASCII case folding, `join`, decimal numbers in template literals |
| `Whitespace` | whitespace.dfy | `replace(/\s\s+/g, ' ').trim()` |
| `Chunker` | chunker.dfy | `chunkText`, as a loop and as a closed form |
| `SessionCreate` | session_create.dfy | the empty-document guard, the batch embedding and the vector store |
| `Similarity` | similarity.dfy | `dotProduct` (loop), `magnitude`, `cosineSimilarity` with its zero guard |
| `Ranking` | ranking.dfy | the in-place stable descending sort of the `similarities` array |
| `Retrieval` | retrieval.dfy | `findRelevantContext` |
| `Prompt` | prompt.dfy | the context string, the `contents` list, and the persisted user text |
| `Metrics` | metrics.dfy | word count, filler count, pace, clarity, `Math.round` |
| `Reply` | reply.dfy | `split('###')` and the sentiment and feedback defaults |
| `Transcript` | transcript.dfy | messages, their filtering by author and by session |
| `Analysis` | analysis.dfy | `performAnalysis` and the background analysis task |
| `Storage` | storage.dfy | the session, message and report rows, as a `Database` class |
| `Handlers` | handlers.dfy | the three handlers: response codes, messages, and rows written |

The model works as follows:
- Imperative code is modelled by methods with loop invariants, proved equal to a specification function:
  - `ChunkText` and `DotProduct` are loops;
  - `InsertAt` and `SortDescending` sort an array in place;
  - `FindRelevantContext` fills and sorts an array.
- Pure code is modelled by functions and lemmas.
- The database is a class whose methods update its fields. `Database.Valid` keeps three invariants:
  - message ids increase in write order;
  - every report belongs to a session that has messages;
  - no two reports belong to the same session. The report lookup `findUnique({ where: { sessionId } })` of `pages/api/report/[sessionId].js` makes `sessionId` unique in the report table, so a second create for a session is refused.
- Each handler has two parts:
  - a pure function, such as `CreateResponse`, `AskSpec` or `AnalyzeSpec`, that gives the response and the rows written;
  - a method that runs the handler against a `Database` and is proved to agree with that function.

External services are function parameters:
- the batch embedding service `embed`;
- the query embedding service `embedQuery`;
- the question generator `generate`;
- the coaching model `coach`;
- `Math.sqrt`, as `sqrt`, with the contract `SqrtLike`.

A claim that a service "is not called" is stated as independence: two different services give the same outcome. Scores are exact reals.

Three behaviours of the code that a reader may not expect:
- A reply without `###` keeps the whole reply as the sentiment, when it is non-empty (`Reply.NoSeparatorReply`). Defaults apply only to empty pieces.
- The feedback is the piece between the first and the second `###`, not everything after the first (`Reply.SecondSeparatorDropsRest`).
- A second analysis of a session that already has a report runs the analysis again, but its create is refused and no second report is written (`Handlers.AnalyzeAccepted`).

## Model

| member | source | states |
|---|---|---|
| Text.LowerAscii | pages/api/interview/analyze.js:4 | The `i` flag folds exactly the ASCII capitals onto lower-case letters and leaves every other character alone |
| Text.NatToStringValue | pages/api/interview/ask.js:60 | The decimal label of a context number reads back as that number, so distinct blocks carry distinct labels |
| Text.JoinSnoc | pages/api/interview/ask.js:60 | Joining a list extended by one piece appends the separator and that piece |
| Text.NonSpaceAppend | pages/api/session/create.js:59 | Dropping whitespace distributes over concatenation |
| Chunker.ChunkText | pages/api/session/create.js:73-79 | The counted loop returns `ceil(len / step)` chunks, chunk `j` being `text[j*step .. min(j*step + size, len)]` |
| Chunker.Chunks | pages/api/session/create.js:73-79 | The closed form: chunk count and each chunk's exact slice |
| Chunker.ChunkIndexBound | pages/api/session/create.js:75 | Chunk `j` exists exactly when its start offset `j*step` lies inside the text |
| Chunker.NoChunksOfEmpty | pages/api/session/create.js:75 | The empty text gives no chunk |
| Chunker.ChunksEmptyIff | pages/api/session/create.js:73-79 | There are no chunks exactly when the text is empty |
| Chunker.ChunkShape | pages/api/session/create.js:75-76 | Every chunk is non-empty and at most `size` long; it is full length exactly when the window fits; starts strictly increase |
| Chunker.ChunkCovers | pages/api/session/create.js:75-76 | Every character `k` of the text is character `k - j*step` of chunk `j = k / step` |
| Chunker.ChunkOverlap | pages/api/session/create.js:75-76 | After a full chunk, the next chunk starts with the last `overlap` characters of this one |
| Chunker.CeilUnique | pages/api/session/create.js:75 | The number of windows of width `step` needed to reach `len` is `ceil(len / step)` |
| Whitespace.DropLeadingSpaces | pages/api/session/create.js:59 | The result does not start with whitespace; it is shorter when the text starts with whitespace, and the text itself otherwise |
| Whitespace.DropLeadingSuffix | pages/api/session/create.js:59 | Only a whitespace prefix is removed: the result is a suffix of the text and everything before it is whitespace |
| Whitespace.TrimTrimmed | pages/api/session/create.js:59 | `trim` leaves no whitespace at either end |
| Whitespace.NormalizeShape | pages/api/session/create.js:59 | Normalised text has no two adjacent whitespace characters, no leading or trailing whitespace, and the input's non-whitespace characters in order |
| Whitespace.CollapseFixesNoDouble | pages/api/session/create.js:59 | Text without a whitespace run is left alone by the `\s\s+` replacement, so an isolated tab or newline survives |
| Whitespace.NormalizeFixesNormal | pages/api/session/create.js:59 | Already-normalised text is its own normalisation |
| Whitespace.NormalizeIdempotent | pages/api/session/create.js:59 | Normalising twice is normalising once |
| Whitespace.NormalizeAllSpace | pages/api/session/create.js:70 | An all-whitespace document normalises to the empty string |
| Whitespace.CollapseAppend | pages/api/session/create.js:59 | The `\s\s+` replacement never reaches across a non-whitespace character: a text ending in one is collapsed on its own |
| Whitespace.LoneSpaceKept | pages/api/session/create.js:59 | A single whitespace character of any kind between two non-whitespace characters is kept as it is |
| Whitespace.RunBecomesSpace | pages/api/session/create.js:59 | A run of two or more whitespace characters after a non-whitespace character (or at the start) becomes exactly one space |
| Whitespace.NormalizeJoin | pages/api/session/create.js:59 | `trim` after collapsing removes only the outer ends, never whitespace between two non-whitespace characters |
| Whitespace.NormalizeLoneSpace | pages/api/session/create.js:59 | Normalisation keeps a lone whitespace character between two non-whitespace characters and normalises each side on its own |
| Whitespace.NormalizeRun | pages/api/session/create.js:59 | Normalisation turns a whitespace run between two non-whitespace characters into one space and normalises each side on its own |
| Whitespace.LoneTabKept | pages/api/session/create.js:59 | `"a\tb"` is kept as it is |
| Whitespace.TabBesideSpace | pages/api/session/create.js:59 | `"a\t b"` becomes `"a b"` |
| SessionCreate.BuildVectorStore | pages/api/session/create.js:139-142 | Entry `i` pairs chunk `i` with embedding `i`, one entry per chunk |
| SessionCreate.StoreTextsAreChunks | pages/api/session/create.js:139-142 | Unzipping the store gives back the chunks in order |
| SessionCreate.EmptyDocumentFails | pages/api/session/create.js:129-131 | An empty normalised document fails with the missing-input error whatever the embedding service does |
| SessionCreate.EmbeddingFailureFails | pages/api/session/create.js:137 | A failing embedding call creates no session |
| SessionCreate.CreatedStore | pages/api/session/create.js:133-142 | A created session holds both normalised documents and `|jobChunks| + |resumeChunks|` entries, job chunks first, each with its embedding; both documents give at least one chunk |
| Similarity.DotProduct | pages/api/interview/ask.js:6-12 | The accumulator loop computes the sum of `a[i]*b[i]` over the indices of `a` |
| Similarity.DotPrefix | pages/api/interview/ask.js:8-10 | Entries of `b` past the length of `a` take no part |
| Similarity.DotSymmetric | pages/api/interview/ask.js:6-12 | The dot product of equal-length vectors is symmetric |
| Similarity.DotSelfNonNegative | pages/api/interview/ask.js:14-16 | A squared magnitude is never negative |
| Similarity.CosineSimilarity | pages/api/interview/ask.js:18-21 | The method computes the cosine, and returns 0 without dividing when either self dot product is 0 |
| Similarity.CosineZeroGuard | pages/api/interview/ask.js:19 | A zero-magnitude vector in either position gives similarity 0 |
| Similarity.CosineSelf | pages/api/interview/ask.js:18-21 | With an exact square root, a non-zero vector has similarity 1 with itself |
| Similarity.CosineSymmetric | pages/api/interview/ask.js:18-21 | Similarity of equal-length vectors is symmetric |
| Ranking.InsertAt | pages/api/interview/ask.js:50 | One pass shifts the lower-scoring elements right and puts `a[i]` after every element scoring at least as high, leaving the rest of the array alone |
| Ranking.SortDescending | pages/api/interview/ask.js:50 | The in-place sort leaves the array equal to the stable descending sort of its old contents |
| Ranking.InsertSorted | pages/api/interview/ask.js:50 | Inserting into a descending sequence keeps it descending |
| Ranking.InsertMultiset | pages/api/interview/ask.js:50 | Insertion adds exactly the inserted element |
| Ranking.InsertWithScore | pages/api/interview/ask.js:50 | The inserted element goes after every element of its own score |
| Ranking.SortDescSorted | pages/api/interview/ask.js:50 | The result is ordered by non-increasing score |
| Ranking.SortDescPermutation | pages/api/interview/ask.js:50 | The result is a permutation of the input |
| Ranking.SortDescStable | pages/api/interview/ask.js:50 | For every score, the elements with that score keep their input order |
| Retrieval.Scores | pages/api/interview/ask.js:45-48 | Entry `i` becomes its text with its cosine similarity to the query |
| Retrieval.TopTexts | pages/api/interview/ask.js:52 | The first `min(topK, n)` ranked texts, in rank order |
| Retrieval.FindRelevantContext | pages/api/interview/ask.js:40-53 | The array-based method returns the specified context; its `requested` result records whether it called the query embedding service, which it does exactly when the store has entries |
| Retrieval.NoStoreNoContext | pages/api/interview/ask.js:41 | A missing or empty store gives no context, independently of the embedding service |
| Retrieval.QueryFailureFails | pages/api/interview/ask.js:43 | A failing query embedding aborts retrieval |
| Retrieval.RankedIsStableSort | pages/api/interview/ask.js:50 | The ranking is sorted, a permutation of the scores, and stable |
| Retrieval.ContextShape | pages/api/interview/ask.js:45-52 | Exactly `min(topK, |store|)` texts, each a store entry's text; none for `topK = 0` |
| Retrieval.ContextIsBest | pages/api/interview/ask.js:50-52 | The kept scores are non-increasing, and an entry not kept scores no higher than every kept one |
| Retrieval.FirstIsBest | pages/api/interview/ask.js:50-52 | The first context text has the highest score in the store |
| Prompt.Blocks | pages/api/interview/ask.js:60 | Block `i` is `CONTEXT i+1:` and a newline before text `i` |
| Prompt.ContextStringEmpty | pages/api/interview/ask.js:60 | No context gives the empty string |
| Prompt.ContextStringSingle | pages/api/interview/ask.js:60 | One text gives `CONTEXT 1:` and a newline before that text |
| Prompt.ContextStringSnoc | pages/api/interview/ask.js:60 | Each further text adds a blank line and its numbered block |
| Prompt.ContextStringStartsWithFirst | pages/api/interview/ask.js:60 | A non-empty context string begins with the first block |
| Prompt.PromptTurn | pages/api/interview/ask.js:75-78 | The final turn has the user role, one part, and the context string embedded right after the fixed head |
| Prompt.Contents | pages/api/interview/ask.js:73-79 | The history unchanged, followed by exactly one user turn carrying the context |
| Prompt.FirstUserTurn | pages/api/interview/ask.js:110 | The index of the first user-role turn, and none exactly when no turn has that role |
| Prompt.PersistedUserTextSource | pages/api/interview/ask.js:110 | The persisted text is part 0 of the first user turn when present and non-empty, the query otherwise; a non-empty query gives a non-empty text |
| Prompt.PersistedTextIsEarliestAnswer | pages/api/interview/ask.js:110 | With an earlier user answer in the history, that answer is persisted rather than the current query |
| Metrics.SplitOnSpaces | pages/api/interview/analyze.js:13 | `split(/\s+/)` gives at least one piece, and an empty first piece exactly for empty input or a leading space |
| Metrics.WordCountIsRuns | pages/api/interview/analyze.js:13 | The word count is the number of maximal non-whitespace runs |
| Metrics.WordCountSpaceJoin | pages/api/interview/analyze.js:12-13 | Joining two texts with a space adds their word counts |
| Metrics.WordCountJoin | pages/api/interview/analyze.js:12-13 | The word count of the space-joined messages is the sum of their counts |
| Metrics.NoWordsInSpace | pages/api/interview/analyze.js:13 | Whitespace-only text has no words |
| Metrics.FillersShape | pages/api/interview/analyze.js:4 | Every alternative is at least two letters long and starts and ends with a letter |
| Metrics.MatchFrom | pages/api/interview/analyze.js:4 | A match is either absent (0) or at least two characters long and stays inside the text; `MatchIsWholeFiller` proves it has the length of the alternative found |
| Metrics.FillerScan | pages/api/interview/analyze.js:18 | The global match finds at most half as many fillers as there are characters left |
| Metrics.MatchIsWholeFiller | pages/api/interview/analyze.js:4 | Every match is a case-insensitive occurrence of an alternative that forms a whole word |
| Metrics.DelimitedFillerMatches | pages/api/interview/analyze.js:4 | Every whole-word occurrence of an alternative is a match |
| Metrics.InsideOccurrence | pages/api/interview/analyze.js:4 | Inside an occurrence of an alternative, each position follows a word character or holds the `k` of `you know` |
| Metrics.InsideMatch | pages/api/interview/analyze.js:4 | The same holds for every position strictly inside a match |
| Metrics.FillerAtFacts | pages/api/interview/analyze.js:4 | A whole-word occurrence starts at a word character that is not a `k`, with no word character before it |
| Metrics.NoFillerInside | pages/api/interview/analyze.js:4 | Whole-word occurrences do not overlap: none starts strictly inside a match |
| Metrics.MatchIffFiller | pages/api/interview/analyze.js:4 | A match starts at a position exactly when some alternative occurs there as a whole word, case-insensitively |
| Metrics.SkipMatch | pages/api/interview/analyze.js:18 | The positions a match consumes start no other whole-word occurrence |
| Metrics.FillerScanCounts | pages/api/interview/analyze.js:18 | The global match from a position counts exactly the positions from there on at which an alternative occurs as a whole word |
| Metrics.FillerCountIsPositions | pages/api/interview/analyze.js:4-18 | The filler count is the number of positions of the text at which one of the alternatives occurs as a whole word, case-insensitively |
| Metrics.NoMatchInsideWord | pages/api/interview/analyze.js:4 | No match starts inside a word |
| Metrics.FillerUpperCase | pages/api/interview/analyze.js:18 | `"UM"` holds one filler |
| Metrics.FillerInsideWord | pages/api/interview/analyze.js:18 | `"also"` holds none |
| Metrics.FillerPrefixOfWord | pages/api/interview/analyze.js:18 | `"likely"` holds none |
| Metrics.FillerYouKnow | pages/api/interview/analyze.js:18 | `"you know"` holds one |
| Metrics.YouKnowOneSpace | pages/api/interview/analyze.js:4 | `you know` matches only with exactly one space between non-whitespace neighbours |
| Metrics.FillerAfterPunctuation | pages/api/interview/analyze.js:18 | `"so, like"` holds two |
| Metrics.Round | pages/api/interview/analyze.js:37-38 | `Math.round` gives the integer within a half of its argument, halves rounding up |
| Metrics.Duration | pages/api/interview/analyze.js:15 | The duration is always positive |
| Metrics.DurationOfMessages | pages/api/interview/analyze.js:15 | With at least one message the `|| 1` fallback is unreachable: 0.75 minutes per message |
| Metrics.PaceFormula | pages/api/interview/analyze.js:15-16 | The rounded pace is the rounded words per 0.75 minutes per message, and never negative |
| Metrics.PaceNonNegative | pages/api/interview/analyze.js:16 | The rounded pace is never negative |
| Metrics.ClarityBounds | pages/api/interview/analyze.js:19 | The rounded clarity lies in [0, 100] and is 100 without fillers |
| Metrics.ClarityMonotone | pages/api/interview/analyze.js:19 | More fillers never raise clarity |
| Metrics.MetricsExample | pages/api/interview/analyze.js:15-19 | Three fillers in seven words clamp clarity to 0; seven words in one message give pace 9 |
| Reply.IndexOf | pages/api/interview/analyze.js:34 | The first occurrence of the separator at or after a position, or none at all |
| Reply.SplitJoin | pages/api/interview/analyze.js:34 | Joining the pieces with `###` gives back the reply |
| Reply.SplitPiecesFree | pages/api/interview/analyze.js:34 | No piece contains the separator |
| Reply.SplitFirstLeftmost | pages/api/interview/analyze.js:34 | The first piece ends at the leftmost occurrence of `###` in the reply, and the remaining pieces are the split of what follows it |
| Reply.PrefixFree | pages/api/interview/analyze.js:34 | The text before the first separator holds no separator |
| Reply.SplitAfter | pages/api/interview/analyze.js:34 | A `#`-free text before a separator is the first piece |
| Reply.SplitNoHash | pages/api/interview/analyze.js:34 | A `#`-free text is one piece |
| Reply.ParsedFields | pages/api/interview/analyze.js:39-40 | Sentiment and feedback are never empty and never hold the separator |
| Reply.NoSeparatorReply | pages/api/interview/analyze.js:34-40 | Without `###`, the sentiment is the whole reply when non-empty, and the feedback is the default |
| Reply.ToneAndFeedback | pages/api/interview/analyze.js:34-40 | `TONE###FEEDBACK` parses into its two halves |
| Reply.SecondSeparatorDropsRest | pages/api/interview/analyze.js:34 | Anything after a second `###` is dropped |
| Reply.EmptyPiecesDefault | pages/api/interview/analyze.js:39-40 | An empty reply, or `###` alone, gives both defaults |
| Transcript.UserMessages | pages/api/interview/analyze.js:7 | Only candidate messages, none exactly when the transcript has no candidate message |
| Transcript.UserMessagesMembers | pages/api/interview/analyze.js:7 | A message is kept exactly when it is in the transcript and written by the candidate |
| Transcript.Texts | pages/api/interview/analyze.js:12 | The texts of the messages, in order |
| Transcript.MessagesOf | pages/api/interview/analyze.js:54 | Only messages of the session asked for |
| Transcript.MessagesOfMembers | pages/api/interview/analyze.js:54 | A stored message is in a session's transcript exactly when it belongs to that session |
| Transcript.MessagesOfAppend | pages/api/interview/ask.js:111-112 | A new message extends its own session's transcript by itself and leaves every other transcript alone |
| Analysis.NoUserResponses | pages/api/interview/analyze.js:7-10 | Without candidate messages the fixed report (pace 0, clarity 100, Neutral, no responses) comes back and the coach is not consulted |
| Analysis.EmptyTranscriptNoReport | pages/api/interview/analyze.js:55-57 | An empty transcript stores no report |
| Analysis.InterviewerOnlyTranscript | pages/api/interview/analyze.js:7-10 | A transcript of interviewer messages stores the fixed report |
| Analysis.CoachFailureNoReport | pages/api/interview/analyze.js:32 | A failing coach stores no report |
| Analysis.PaceOfTranscript | pages/api/interview/analyze.js:12-16 | The pace counts the words of every candidate message over 0.75 minutes per message, rounded, and is never negative |
| Analysis.ClarityOfReport | pages/api/interview/analyze.js:18-19 | Clarity is NaN exactly when the candidate said no word, and otherwise lies in [0, 100], 100 without fillers |
| Analysis.TextFieldsOfReport | pages/api/interview/analyze.js:39-40 | The report's sentiment and feedback are non-empty and `###`-free |
| Storage.RowOf | pages/api/session/create.js:145-152 | The stored row carries the documents and the vector store |
| Storage.IdsBelowAppend | pages/api/interview/ask.js:111-112 | A message written with the next id keeps the ids increasing |
| Storage.OneReportAppend | pages/api/interview/analyze.js:60-65 | Adding a report for a session that has none keeps `sessionId` unique among reports, and the session then has its report |
| Storage.ReportsBackedAppend | pages/api/interview/ask.js:111-112 | Writing a message keeps every report backed by a message of its session |
| Storage.Database.FindSession | pages/api/interview/ask.js:102 | The stored row when the id is known, none otherwise |
| Storage.Database.CreateSession | pages/api/session/create.js:145-152 | Adds the row under a fresh id and changes nothing else |
| Storage.Database.CreateMessage | pages/api/interview/ask.js:111-112 | Appends the message with the next id, keeps the database invariant, and changes nothing else |
| Storage.Database.FindMessages | pages/api/interview/analyze.js:54 | Exactly the session's messages (`MessagesOf`), in write order |
| Storage.Database.CreateReport | pages/api/interview/analyze.js:60-65 | Appends the report of a session that has messages exactly when that session has no report yet, otherwise writes nothing; keeps one report per session and changes nothing else |
| Handlers.ErrorText | pages/api/interview/ask.js:118 | The error's message, or the fallback when it is empty; never empty with a non-empty fallback |
| Handlers.CreateStatuses | pages/api/session/create.js:116-160 | 405 exactly for non-POST; 201 with the new id exactly when a session is created; otherwise 500 with a non-empty message, the extraction message for an empty document |
| Handlers.Create | pages/api/session/create.js:116-160 | Responds as specified and stores the new session's row exactly on 201; messages and reports are untouched |
| Handlers.AskStatuses | pages/api/interview/ask.js:94-120 | 405 exactly for non-POST, 404 exactly for an unknown session, 500 with a non-empty message, and rows written exactly on 200 |
| Handlers.AskSuccess | pages/api/interview/ask.js:110-114 | On 200, two messages with consecutive fresh ids are written to the session (the candidate's persisted text first, then the question), and the second id is returned |
| Handlers.AskPrompt | pages/api/interview/ask.js:105-107 | The generator receives the history and one user turn with at most three context texts, none without stored vectors; the request succeeds exactly when generation does |
| Handlers.AskServicesNotCalled | pages/api/interview/ask.js:95-105 | For a wrong method or an unknown session, neither service affects the outcome; without stored vectors, the embedding service does not |
| Handlers.AskExtendsTranscript | pages/api/interview/ask.js:111-112 | A request extends its own session's transcript by exactly the written messages and no other transcript |
| Handlers.Ask | pages/api/interview/ask.js:94-120 | Responds as specified, appends exactly the specified messages, and keeps the database invariant |
| Handlers.AnalyzeAccepted | pages/api/interview/analyze.js:44-65 | A POST gets 202 whatever the analysis does; at most one report is written, for that session, and none for a session without messages or with a report already |
| Handlers.AnalyzeWritesReport | pages/api/interview/analyze.js:54-65 | With candidate messages, a replying coach and no earlier report, the report written is the analysis of exactly that session's messages |
| Handlers.Analyze | pages/api/interview/analyze.js:44-71 | Responds as specified and appends exactly the specified report rows, keeping one report per session and changing nothing else |

## Left out

- HTTP request handling, form parsing, PDF parsing and HTML scraping are not modelled (`parseFormData`, `scrapeJobDescription`, `parseResume`). The documents enter as strings. Their extraction errors (missing URL or file, unreachable page) are not modelled. The job-description fallback `jobDescription || fallbackText` is not modelled either.
- The network calls to the embedding and generation services are function parameters, and so is reading their JSON replies. A reply whose JSON lacks the expected fields is not modelled; it would throw.
- The database client is modelled by the `Database` class. It leaves out storage failures, the user record (`getOrCreateUser` and its read-then-create race), and database-chosen ids. A session id is a parameter that must be fresh. Message ids come from a counter.
- Handlers.Create: requires that `newId` is not already a session id, because the database chooses fresh ids.
- Handlers.Analyze: performs the background task before returning, so it does not capture that the 202 is sent first or that the task runs concurrently with later requests.
- Floating point is not modelled. Scores and metrics are exact reals. `Math.sqrt` is a parameter that is zero exactly at zero (`SqrtLike`). NaN in the sort comparator is not modelled.
- Analysis.ClarityScore: the NaN of a word-less transcript (`0 / 0`) is modelled as `None`.
- Similarity.DotSelfNonNegative: there is no proof that a zero self dot product means the zero vector. The solver does not close this nonlinear step, so the zero guard is stated on the self dot product, as the source tests it.
- Chunker.ChunkText: requires `overlap < size`, because with `overlap >= size` the source's loop does not terminate on a non-empty text.
- Chunker.ChunkText: a character is a Unicode code point, not a UTF-16 code unit. JavaScript's `length` and `substring` count code units, so on text outside the Basic Multilingual Plane the source's windows hold fewer characters and are more numerous, and a window may split a surrogate pair; the model does not capture this.
- SessionCreate.CreateSession: requires the batch embedding service to return one vector per text (`OnePerText`).
- Retrieval.FindRelevantContext: requires every stored embedding to be at least as long as the query embedding (`QueryFits`, `DimensionsFit`). With a shorter stored vector the source reads `undefined` and scores NaN.
- Handlers.Ask: requires `QueryFitsSession`, the same condition for the session asked about.
- A `vectorStore` column that holds a non-array value is not modelled. A null column is modelled as `None`.
- Request bodies with a missing or non-array `history`, a missing `query` or a missing `sessionId` are not modelled. Turns without a `parts` field are not modelled either.
- Storage.Database.FindMessages: `orderBy: { createdAt: 'asc' }` leaves messages with equal timestamps in no defined order; the model returns them in write order.
- The conversation history is forwarded whole, as in the source. No windowing rule is modelled.
- The other pages and endpoints (`pages/setup.js`, `pages/index.js`, `pages/interview/[sessionId].js`, `pages/analysis/[sessionId].js`, `pages/api/session/[sessionId].js`, `pages/api/report/[sessionId].js`) are not part of this model.
