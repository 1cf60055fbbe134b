/** Parsing of the coach's reply in `performAnalysis` (pages/api/interview/analyze.js):
    `text.split('###')`, the first two pieces, and their defaults. */
module Reply {
  import opened Wrappers
  import opened Text

  const Separator := "###"
  const DefaultSentiment := "Neutral"
  const DefaultFeedback := "Could not generate feedback."

  /** `sep` occurs in `s` at position `j`. */
  predicate OccursAt(s: string, sep: string, j: nat) {
    j + |sep| <= |s| && s[j..j + |sep|] == sep
  }

  /** `s.indexOf(sep, from)`: the first occurrence at or after `from`. */
  function IndexOf(s: string, sep: string, from: nat): (r: Option<nat>)
    requires |sep| > 0
    ensures r.Some? ==> from <= r.value && OccursAt(s, sep, r.value)
    ensures r.Some? ==> forall j :: from <= j < r.value ==> !OccursAt(s, sep, j)
    ensures r.None? ==> forall j: nat :: from <= j ==> !OccursAt(s, sep, j)
    decreases |s| - from
  {
    if from + |sep| > |s| then None
    else if s[from..from + |sep|] == sep then Some(from)
    else IndexOf(s, sep, from + 1)
  }

  /** `s.split(sep)` for a non-empty separator: the pieces between
      successive non-overlapping occurrences, found left to right. */
  function Split(s: string, sep: string): (r: seq<string>)
    requires |sep| > 0
    ensures |r| > 0
    decreases |s|
  {
    match IndexOf(s, sep, 0)
    case None => [s]
    case Some(i) => [s[..i]] + Split(s[i + |sep|..], sep)
  }

  /** Joining the pieces with the separator gives back the text. */
  lemma {:induction false} SplitJoin(s: string, sep: string)
    requires |sep| > 0
    ensures Join(Split(s, sep), sep) == s
    decreases |s|
  {
    match IndexOf(s, sep, 0)
    case None =>
    case Some(i) =>
      var rest := s[i + |sep|..];
      var pieces := Split(rest, sep);
      SplitJoin(rest, sep);
      assert ([s[..i]] + pieces)[1..] == pieces;
      assert Join([s[..i]] + pieces, sep) == s[..i] + sep + Join(pieces, sep);
      assert s == s[..i] + s[i..i + |sep|] + rest;
  }

  /** The text before the first occurrence of the separator does not
      contain it. */
  lemma PrefixFree(s: string, sep: string, i: nat)
    requires |sep| > 0 && IndexOf(s, sep, 0) == Some(i)
    ensures forall j: nat :: !OccursAt(s[..i], sep, j)
  {
    forall j: nat
      ensures !OccursAt(s[..i], sep, j)
    {
      if j + |sep| <= i {
        assert s[..i][j..j + |sep|] == s[j..j + |sep|];
        assert !OccursAt(s, sep, j);
      }
    }
  }

  /** Splitting is leftmost: the first piece is a prefix of the text in
      which no occurrence of the separator starts, and when more pieces
      follow, the separator occurs right after it. So `"a####b"` splits as
      `["a", "#b"]`, never as `["a#", "b"]`. */
  lemma SplitFirstLeftmost(s: string, sep: string)
    requires |sep| > 0
    ensures var p := Split(s, sep)[0];
      && |p| <= |s| && p == s[..|p|]
      && (forall j :: 0 <= j < |p| ==> !OccursAt(s, sep, j))
      && (|Split(s, sep)| > 1 ==> OccursAt(s, sep, |p|) && Split(s, sep)[1..] == Split(s[|p| + |sep|..], sep))
      && (|Split(s, sep)| == 1 ==> p == s)
  {
    match IndexOf(s, sep, 0)
    case None =>
    case Some(i) =>
      assert Split(s, sep)[0] == s[..i];
  }

  /** No piece contains the separator. */
  lemma {:induction false} SplitPiecesFree(s: string, sep: string)
    requires |sep| > 0
    ensures forall k, j: nat :: 0 <= k < |Split(s, sep)| ==> !OccursAt(Split(s, sep)[k], sep, j)
    decreases |s|
  {
    match IndexOf(s, sep, 0)
    case None =>
    case Some(i) =>
      var rest := s[i + |sep|..];
      var tail := Split(rest, sep);
      var pieces := Split(s, sep);
      SplitPiecesFree(rest, sep);
      PrefixFree(s, sep, i);
      assert pieces == [s[..i]] + tail;
      assert forall k :: 1 <= k < |pieces| ==> pieces[k] == tail[k - 1];
  }

  /** The fields `performAnalysis` reads from the reply. */
  datatype Parsed = Parsed(sentiment: string, feedback: string)

  /** `const [sentiment, qualitativeFeedback] = text.split('###')`, then
      `sentiment || 'Neutral'` and `qualitativeFeedback || 'Could not generate feedback.'`. */
  function ParseReply(text: string): Parsed {
    var pieces := Split(text, Separator);
    Parsed(if pieces[0] != "" then pieces[0] else DefaultSentiment,
           if |pieces| > 1 && pieces[1] != "" then pieces[1] else DefaultFeedback)
  }

  /** The text has no `#` character. */
  predicate NoHash(s: string) {
    forall i :: 0 <= i < |s| ==> s[i] != '#'
  }

  lemma NoHashNoSeparator(s: string)
    requires NoHash(s)
    ensures forall j: nat :: !OccursAt(s, Separator, j)
  {
    forall j: nat
      ensures !OccursAt(s, Separator, j)
    {
      if j + 3 <= |s| {
        assert s[j..j + 3][0] == s[j];
      }
    }
  }

  /** Both fields are always non-empty, and neither contains the separator. */
  lemma ParsedFields(text: string)
    ensures ParseReply(text).sentiment != "" && ParseReply(text).feedback != ""
    ensures forall j: nat :: !OccursAt(ParseReply(text).sentiment, Separator, j)
    ensures forall j: nat :: !OccursAt(ParseReply(text).feedback, Separator, j)
  {
    SplitPiecesFree(text, Separator);
    assert NoHash(DefaultSentiment) && NoHash(DefaultFeedback);
    NoHashNoSeparator(DefaultSentiment);
    NoHashNoSeparator(DefaultFeedback);
  }

  /** A reply without the separator: the whole reply (when non-empty) is the
      sentiment and the feedback is the default. */
  lemma NoSeparatorReply(text: string)
    requires forall j: nat :: !OccursAt(text, Separator, j)
    ensures ParseReply(text).sentiment == (if text != "" then text else DefaultSentiment)
    ensures ParseReply(text).feedback == DefaultFeedback
  {
  }

  /** The first occurrence of a separator lies after the end of a text with
      no `#` in it, so that text is the first piece. */
  lemma SplitAfter(t: string, rest: string)
    requires NoHash(t)
    ensures IndexOf(t + Separator + rest, Separator, 0) == Some(|t|)
    ensures Split(t + Separator + rest, Separator) == [t] + Split(rest, Separator)
  {
    var s := t + Separator + rest;
    assert s[|t|..|t| + 3] == Separator;
    assert OccursAt(s, Separator, |t|);
    forall j: nat | j < |t|
      ensures !OccursAt(s, Separator, j)
    {
      assert s[j..j + 3][0] == t[j];
    }
    assert s[..|t|] == t;
    assert s[|t| + 3..] == rest;
  }

  /** A text with no `#` is a single piece. */
  lemma SplitNoHash(t: string)
    requires NoHash(t)
    ensures Split(t, Separator) == [t]
  {
    NoHashNoSeparator(t);
  }

  /** `TONE###FEEDBACK` parses into its two halves. */
  lemma ToneAndFeedback(tone: string, feedback: string)
    requires tone != "" && feedback != ""
    requires NoHash(tone) && NoHash(feedback)
    ensures ParseReply(tone + Separator + feedback) == Parsed(tone, feedback)
  {
    SplitAfter(tone, feedback);
    SplitNoHash(feedback);
  }

  /** Anything after a second separator is dropped. */
  lemma SecondSeparatorDropsRest(tone: string, feedback: string, rest: string)
    requires NoHash(tone) && NoHash(feedback)
    ensures ParseReply(tone + Separator + (feedback + Separator + rest))
         == ParseReply(tone + Separator + feedback)
  {
    SplitAfter(tone, feedback + Separator + rest);
    SplitAfter(feedback, rest);
    SplitAfter(tone, feedback);
    SplitNoHash(feedback);
  }

  /** An empty reply, or an empty tone and feedback, give the defaults. */
  lemma EmptyPiecesDefault()
    ensures ParseReply("") == Parsed(DefaultSentiment, DefaultFeedback)
    ensures ParseReply(Separator) == Parsed(DefaultSentiment, DefaultFeedback)
  {
    SplitNoHash("");
    SplitAfter("", "");
    assert Separator == "" + Separator + "";
  }
}
