/** The text metrics of `performAnalysis` (pages/api/interview/analyze.js):
    the word count, the filler-word count of `FILLER_WORDS`, and the pace and
    clarity scores with `Math.round`, over exact reals. */
module Metrics {
  import opened Text
  import opened Whitespace

  // ---------------------------------------------------------------- words

  /** `s.split(/\s+/)`: the pieces between maximal whitespace runs. A leading
      run gives an empty first piece and a trailing run an empty last one. */
  function SplitOnSpaces(s: string): (r: seq<string>)
    ensures |r| > 0
    ensures r[0] == "" <==> s == [] || IsSpace(s[0])
    decreases |s|
  {
    if s == [] then [""]
    else if IsSpace(s[0]) then [""] + SplitOnSpaces(DropLeadingSpaces(s))
    else
      var p := SplitOnSpaces(s[1..]);
      [[s[0]] + p[0]] + p[1..]
  }

  /** `.filter(Boolean).length`: the number of non-empty pieces. */
  function CountNonEmpty(pieces: seq<string>): nat {
    if pieces == [] then 0 else (if pieces[0] != "" then 1 else 0) + CountNonEmpty(pieces[1..])
  }

  /** The number of words of `s`: `s.split(/\s+/).filter(Boolean).length`. */
  function WordCount(s: string): nat {
    CountNonEmpty(SplitOnSpaces(s))
  }

  /** The reference count: the maximal runs of non-whitespace characters,
      counted at their first character. `afterSpace` says whether the
      character before `s` was whitespace (or there was none). */
  function RunsFrom(s: string, afterSpace: bool): nat {
    if s == [] then 0
    else (if afterSpace && !IsSpace(s[0]) then 1 else 0) + RunsFrom(s[1..], IsSpace(s[0]))
  }

  function Runs(s: string): nat {
    RunsFrom(s, true)
  }

  /** A leading whitespace run starts no word. */
  lemma {:induction false} RunsSkipSpaces(s: string)
    ensures Runs(DropLeadingSpaces(s)) == Runs(s)
    decreases |s|
  {
    if s != [] && IsSpace(s[0]) {
      RunsSkipSpaces(s[1..]);
    }
  }

  lemma {:induction false} SplitCountsRuns(s: string)
    ensures CountNonEmpty(SplitOnSpaces(s)) == RunsFrom(s, true)
    ensures CountNonEmpty(SplitOnSpaces(s)[1..]) == RunsFrom(s, false)
    decreases |s|
  {
    if s == [] {
    } else if IsSpace(s[0]) {
      var t := DropLeadingSpaces(s);
      SplitCountsRuns(t);
      RunsSkipSpaces(s);
      RunsSkipSpaces(s[1..]);
      assert DropLeadingSpaces(s) == DropLeadingSpaces(s[1..]);
      assert ([""] + SplitOnSpaces(t))[1..] == SplitOnSpaces(t);
    } else {
      var p := SplitOnSpaces(s[1..]);
      SplitCountsRuns(s[1..]);
      var r := [[s[0]] + p[0]] + p[1..];
      assert r[1..] == p[1..];
      if s[1..] == [] || IsSpace(s[1..][0]) {
        assert p[0] == "";
      } else {
        assert p[0] != "";
      }
    }
  }

  /** The word count is the number of maximal non-whitespace runs. */
  lemma WordCountIsRuns(s: string)
    ensures WordCount(s) == Runs(s)
  {
    SplitCountsRuns(s);
  }

  /** The whitespace state after reading `a`, starting from `afterSpace`. */
  function SpaceAfter(a: string, afterSpace: bool): bool {
    if a == [] then afterSpace else IsSpace(a[|a| - 1])
  }

  lemma {:induction false} RunsFromAppend(a: string, b: string, afterSpace: bool)
    ensures RunsFrom(a + b, afterSpace) == RunsFrom(a, afterSpace) + RunsFrom(b, SpaceAfter(a, afterSpace))
    decreases |a|
  {
    if a == [] {
      assert a + b == b;
    } else {
      assert (a + b)[1..] == a[1..] + b;
      RunsFromAppend(a[1..], b, IsSpace(a[0]));
      if |a| > 1 {
        assert a[1..][|a[1..]| - 1] == a[|a| - 1];
      }
    }
  }

  /** Joining two texts with a space adds their word counts. */
  lemma WordCountSpaceJoin(a: string, b: string)
    ensures WordCount(a + " " + b) == WordCount(a) + WordCount(b)
  {
    WordCountIsRuns(a + " " + b);
    WordCountIsRuns(a);
    WordCountIsRuns(b);
    assert a + " " + b == a + (" " + b);
    RunsFromAppend(a, " " + b, true);
    assert (" " + b)[1..] == b;
    assert IsSpace(' ');
  }

  /** The sum of the word counts of the texts. */
  function SumWordCounts(texts: seq<string>): nat {
    if texts == [] then 0 else WordCount(texts[0]) + SumWordCounts(texts[1..])
  }

  /** The word count of the space-joined texts is the sum of their counts. */
  lemma {:induction false} WordCountJoin(texts: seq<string>)
    ensures WordCount(Join(texts, " ")) == SumWordCounts(texts)
  {
    if |texts| == 0 {
    } else if |texts| == 1 {
      assert SumWordCounts(texts[1..]) == 0;
    } else {
      WordCountJoin(texts[1..]);
      WordCountSpaceJoin(texts[0], Join(texts[1..], " "));
    }
  }

  /** Whitespace-only text has no words. */
  lemma {:induction false} NoWordsInSpace(s: string)
    requires forall i :: 0 <= i < |s| ==> IsSpace(s[i])
    ensures WordCount(s) == 0
  {
    WordCountIsRuns(s);
    NoRunsInSpace(s, true);
  }

  lemma {:induction false} NoRunsInSpace(s: string, afterSpace: bool)
    requires forall i :: 0 <= i < |s| ==> IsSpace(s[i])
    ensures RunsFrom(s, afterSpace) == 0
    decreases |s|
  {
    if s != [] {
      NoRunsInSpace(s[1..], true);
    }
  }

  // -------------------------------------------------------------- fillers

  /** The alternatives of `FILLER_WORDS`, in the order they are tried. */
  const Fillers: seq<string> := ["um", "uh", "er", "ah", "like", "okay", "right", "so", "you know"]

  /** `\b` at position `i`: a word character on exactly one side. */
  predicate Boundary(s: string, i: nat)
    requires i <= |s|
  {
    (i > 0 && IsWordChar(s[i - 1])) != (i < |s| && IsWordChar(s[i]))
  }

  /** The characters of `w` (lower case) from the `k`-th on occur at
      `p + k`, comparing case-insensitively. */
  predicate MatchesFrom(s: string, p: nat, w: string, k: nat)
    requires k <= |w|
    decreases |w| - k
  {
    k == |w| || (p + k < |s| && LowerAscii(s[p + k]) == w[k] && MatchesFrom(s, p, w, k + 1))
  }

  /** `w` (lower case) occurs at `p`, comparing case-insensitively. */
  predicate MatchesAt(s: string, p: nat, w: string)
    ensures MatchesAt(s, p, w) ==> p + |w| <= |s|
  {
    p + |w| <= |s| && MatchesFrom(s, p, w, 0)
  }

  /** Every filler is at least two characters long and begins and ends
      with a lower-case letter. */
  lemma FillersShape()
    ensures forall k :: 0 <= k < |Fillers| ==>
      && |Fillers[k]| >= 2
      && 'a' <= Fillers[k][0] <= 'z'
      && 'a' <= Fillers[k][|Fillers[k]| - 1] <= 'z'
  {
  }

  /** The length of the match of `\b(um|uh|...|you know)\b` at `p`, trying
      the alternatives from the `k`-th on, in order; 0 when none matches. */
  function MatchFrom(s: string, p: nat, k: nat): (r: nat)
    requires p <= |s| && k <= |Fillers|
    ensures r == 0 || (2 <= r && p + r <= |s|)
    decreases |Fillers| - k
  {
    if k == |Fillers| then 0
    else
      var w := Fillers[k];
      if MatchesAt(s, p, w) && Boundary(s, p) && Boundary(s, p + |w|) then
        FillersShape();
        |w|
      else MatchFrom(s, p, k + 1)
  }

  /** The global match from position `p` on: after a match the search
      resumes at its end, otherwise one position later. */
  function FillerScan(s: string, p: nat): (r: nat)
    requires p <= |s|
    ensures 2 * r <= |s| - p
    decreases |s| - p
  {
    if p == |s| then 0
    else
      var n := MatchFrom(s, p, 0);
      if n > 0 then 1 + FillerScan(s, p + n)
      else FillerScan(s, p + 1)
  }

  /** `(fullText.match(FILLER_WORDS) || []).length`. */
  function FillerCount(s: string): nat {
    FillerScan(s, 0)
  }

  /** One step of the global match. */
  lemma ScanStep(s: string, p: nat)
    requires p < |s|
    ensures var n := MatchFrom(s, p, 0);
      FillerScan(s, p) == if n > 0 then 1 + FillerScan(s, p + n) else FillerScan(s, p + 1)
  {
  }

  /** A character that folds onto a lower-case letter is a word character. */
  lemma FoldedLetterIsWordChar(c: char)
    requires 'a' <= LowerAscii(c) <= 'z'
    ensures IsWordChar(c)
  {
  }

  lemma {:induction false} MatchesFromChar(s: string, p: nat, w: string, k: nat, i: nat)
    requires k <= i < |w|
    requires MatchesFrom(s, p, w, k)
    ensures p + i < |s| && LowerAscii(s[p + i]) == w[i]
    decreases i - k
  {
    if k < i {
      MatchesFromChar(s, p, w, k + 1, i);
    }
  }

  /** `s[p..p + n]` is a whole word: it starts and ends with a word character
      and has no word character on either side. */
  predicate WholeWord(s: string, p: nat, n: nat) {
    && 0 < n && p + n <= |s|
    && IsWordChar(s[p]) && (p == 0 || !IsWordChar(s[p - 1]))
    && IsWordChar(s[p + n - 1]) && (p + n == |s| || !IsWordChar(s[p + n]))
  }

  /** A delimited occurrence of a word that begins and ends with a letter is
      a whole word. */
  lemma DelimitedIsWholeWord(s: string, p: nat, w: string)
    requires |w| > 0 && 'a' <= w[0] <= 'z' && 'a' <= w[|w| - 1] <= 'z'
    requires MatchesAt(s, p, w) && Boundary(s, p) && Boundary(s, p + |w|)
    ensures WholeWord(s, p, |w|)
  {
    MatchesFromChar(s, p, w, 0, 0);
    MatchesFromChar(s, p, w, 0, |w| - 1);
    FoldedLetterIsWordChar(s[p]);
    FoldedLetterIsWordChar(s[p + |w| - 1]);
  }

  /** A match is an occurrence of one of the alternatives tried, compared
      case-insensitively, that forms a whole word. */
  lemma {:induction false} MatchIsWholeFiller(s: string, p: nat, k: nat)
    requires p <= |s| && k <= |Fillers|
    ensures var r := MatchFrom(s, p, k);
      r > 0 ==>
        && WholeWord(s, p, r)
        && exists j :: k <= j < |Fillers| && r == |Fillers[j]| && MatchesAt(s, p, Fillers[j])
    decreases |Fillers| - k
  {
    if k < |Fillers| {
      var w := Fillers[k];
      if MatchesAt(s, p, w) && Boundary(s, p) && Boundary(s, p + |w|) {
        FillersShape();
        DelimitedIsWholeWord(s, p, w);
      } else {
        MatchIsWholeFiller(s, p, k + 1);
      }
    }
  }

  /** Conversely, a whole-word occurrence of a filler is a match. */
  lemma {:induction false} DelimitedFillerMatches(s: string, p: nat, k: nat, j: nat)
    requires p <= |s| && k <= j < |Fillers|
    requires MatchesAt(s, p, Fillers[j]) && Boundary(s, p) && Boundary(s, p + |Fillers[j]|)
    ensures MatchFrom(s, p, k) > 0
    decreases j - k
  {
    if k < j {
      DelimitedFillerMatches(s, p, k + 1, j);
    }
  }

  /** Alternative `j` occurs at `p`, case-insensitively, with a word boundary
      on both sides. */
  predicate DelimitedFiller(s: string, p: nat, j: nat)
    requires j < |Fillers|
  {
    p <= |s| && MatchesAt(s, p, Fillers[j]) && Boundary(s, p) && Boundary(s, p + |Fillers[j]|)
  }

  /** Some alternative occurs as a whole word at `p`. */
  predicate FillerAt(s: string, p: nat) {
    exists j :: 0 <= j < |Fillers| && DelimitedFiller(s, p, j)
  }

  /** The reference count: the number of positions from `q` on at which some
      alternative occurs as a whole word, regardless of how a scan would
      consume the text. */
  function FillerPositions(s: string, q: nat): nat
    requires q <= |s|
    decreases |s| - q
  {
    if q == |s| then 0 else (if FillerAt(s, q) then 1 else 0) + FillerPositions(s, q + 1)
  }

  /** One step of the reference count. */
  lemma PositionsStep(s: string, q: nat)
    requires q < |s|
    ensures FillerPositions(s, q) == (if FillerAt(s, q) then 1 else 0) + FillerPositions(s, q + 1)
  {
  }

  /** The alternatives are made of lower-case letters, except the space in
      "you know", which is followed by "k". */
  lemma FillerCharAt(j: nat, i: nat)
    requires j < |Fillers| && i < |Fillers[j]|
    ensures ('a' <= Fillers[j][i] <= 'z') || (j == 8 && i == 3)
    ensures j == 8 && i == 4 ==> Fillers[j][i] == 'k'
  {
  }

  /** At a whole-word occurrence the text holds a word character that folds
      onto the alternative's first letter, which is never "k", and no word
      character before it. */
  lemma FillerStartFacts(s: string, q: nat, k: nat)
    requires k < |Fillers| && DelimitedFiller(s, q, k)
    ensures q < |s| && IsWordChar(s[q]) && LowerAscii(s[q]) != 'k'
    ensures q > 0 ==> !IsWordChar(s[q - 1])
  {
    FillersShape();
    MatchesFromChar(s, q, Fillers[k], 0, 0);
    FoldedLetterIsWordChar(s[q]);
  }

  /** The match at a position succeeds exactly when an alternative occurs
      there as a whole word. */
  lemma MatchIffFiller(s: string, p: nat)
    requires p <= |s|
    ensures MatchFrom(s, p, 0) > 0 <==> FillerAt(s, p)
  {
    var r := MatchFrom(s, p, 0);
    if r > 0 {
      MatchIsWholeFiller(s, p, 0);
      var j :| 0 <= j < |Fillers| && r == |Fillers[j]| && MatchesAt(s, p, Fillers[j]);
      assert DelimitedFiller(s, p, j);
    }
    if FillerAt(s, p) {
      var j :| 0 <= j < |Fillers| && DelimitedFiller(s, p, j);
      DelimitedFillerMatches(s, p, 0, j);
    }
  }

  /** Inside an occurrence of an alternative, every position either follows
      a word character or holds the "k" of "you know". */
  lemma InsideOccurrence(s: string, p: nat, j: nat, i: nat)
    requires j < |Fillers| && MatchesAt(s, p, Fillers[j]) && 0 < i < |Fillers[j]|
    ensures IsWordChar(s[p + i - 1]) || LowerAscii(s[p + i]) == 'k'
  {
    var w := Fillers[j];
    MatchesFromChar(s, p, w, 0, i - 1);
    MatchesFromChar(s, p, w, 0, i);
    FillerCharAt(j, i - 1);
    FillerCharAt(j, i);
    if 'a' <= w[i - 1] <= 'z' {
      FoldedLetterIsWordChar(s[p + i - 1]);
    }
  }

  /** Inside a match, every position either follows a word character or
      holds the "k" of "you know". */
  lemma InsideMatch(s: string, p: nat, q: nat)
    requires p <= |s| && p < q < p + MatchFrom(s, p, 0)
    ensures IsWordChar(s[q - 1]) || LowerAscii(s[q]) == 'k'
  {
    var j := MatchedAlternative(s, p);
    InsideOccurrence(s, p, j, q - p);
  }

  /** The alternative a successful match found. */
  lemma MatchedAlternative(s: string, p: nat) returns (j: nat)
    requires p <= |s| && MatchFrom(s, p, 0) > 0
    ensures j < |Fillers| && MatchFrom(s, p, 0) == |Fillers[j]| && MatchesAt(s, p, Fillers[j])
  {
    MatchIsWholeFiller(s, p, 0);
    j :| 0 <= j < |Fillers| && MatchFrom(s, p, 0) == |Fillers[j]| && MatchesAt(s, p, Fillers[j]);
  }

  /** Where some alternative occurs as a whole word, the text holds a word
      character other than a folded "k", with no word character before it. */
  lemma FillerAtFacts(s: string, q: nat)
    requires FillerAt(s, q)
    ensures q < |s| && IsWordChar(s[q]) && LowerAscii(s[q]) != 'k'
    ensures q > 0 ==> !IsWordChar(s[q - 1])
  {
    var k :| 0 <= k < |Fillers| && DelimitedFiller(s, q, k);
    FillerStartFacts(s, q, k);
  }

  /** Whole-word occurrences do not overlap: no alternative occurs as a whole
      word strictly inside a match. */
  lemma NoFillerInside(s: string, p: nat, q: nat)
    requires p <= |s| && p < q < p + MatchFrom(s, p, 0)
    ensures !FillerAt(s, q)
  {
    if FillerAt(s, q) {
      FillerAtFacts(s, q);
      InsideMatch(s, p, q);
    }
  }

  /** Positions that start no whole-word filler add nothing to the count. */
  lemma {:induction false} SkipNonFillers(s: string, a: nat, b: nat)
    requires a <= b <= |s|
    requires forall q :: a <= q < b ==> !FillerAt(s, q)
    ensures FillerPositions(s, a) == FillerPositions(s, b)
    decreases b - a
  {
    if a < b {
      SkipNonFillers(s, a + 1, b);
    }
  }

  /** The positions strictly inside a match add nothing to the count. */
  lemma SkipMatch(s: string, q: nat)
    requires q < |s| && MatchFrom(s, q, 0) > 0
    ensures FillerPositions(s, q + 1) == FillerPositions(s, q + MatchFrom(s, q, 0))
  {
    var n := MatchFrom(s, q, 0);
    forall k | q + 1 <= k < q + n ensures !FillerAt(s, k) {
      NoFillerInside(s, q, k);
    }
    SkipNonFillers(s, q + 1, q + n);
  }

  /** One step of the scan and of the reference count: both add the same
      amount and continue from the same position. */
  lemma ScanAdvance(s: string, q: nat) returns (next: nat, d: nat)
    requires q < |s|
    ensures q < next <= |s|
    ensures FillerScan(s, q) == d + FillerScan(s, next)
    ensures FillerPositions(s, q) == d + FillerPositions(s, next)
  {
    var n := MatchFrom(s, q, 0);
    ScanStep(s, q);
    if n > 0 {
      PositionsOnMatch(s, q);
      next, d := q + n, 1;
    } else {
      PositionsOnMiss(s, q);
      next, d := q + 1, 0;
    }
  }

  /** A position where a match starts adds one to the reference count, and
      the positions the match consumes add nothing. */
  lemma PositionsOnMatch(s: string, q: nat)
    requires q < |s| && MatchFrom(s, q, 0) > 0
    ensures FillerPositions(s, q) == 1 + FillerPositions(s, q + MatchFrom(s, q, 0))
  {
    MatchIffFiller(s, q);
    PositionsStep(s, q);
    SkipMatch(s, q);
  }

  /** A position where no match starts adds nothing to the reference count. */
  lemma PositionsOnMiss(s: string, q: nat)
    requires q < |s| && MatchFrom(s, q, 0) == 0
    ensures FillerPositions(s, q) == FillerPositions(s, q + 1)
  {
    MatchIffFiller(s, q);
    PositionsStep(s, q);
  }

  /** The global match from `q` on counts exactly the whole-word occurrences
      of the alternatives from `q` on. */
  lemma {:induction false} FillerScanCounts(s: string, q: nat)
    requires q <= |s|
    ensures FillerScan(s, q) == FillerPositions(s, q)
    decreases |s| - q
  {
    if q < |s| {
      var next, _ := ScanAdvance(s, q);
      FillerScanCounts(s, next);
    }
  }

  /** `(fullText.match(FILLER_WORDS) || []).length` is the number of
      positions at which an alternative occurs as a whole word,
      case-insensitively. */
  lemma FillerCountIsPositions(s: string)
    ensures FillerCount(s) == FillerPositions(s, 0)
  {
    FillerScanCounts(s, 0);
  }

  /** No search position inside a word starts a match. */
  lemma NoMatchInsideWord(s: string, p: nat)
    requires 0 < p < |s| && IsWordChar(s[p - 1])
    ensures FillerScan(s, p) == FillerScan(s, p + 1)
  {
    MatchIsWholeFiller(s, p, 0);
  }

  /** Case is ignored: "UM" is one filler. */
  lemma FillerUpperCase()
    ensures FillerCount("UM") == 1
  {
  }

  /** A filler inside a longer word is not counted: "also" holds none. */
  lemma FillerInsideWord()
    ensures FillerCount("also") == 0
  {
    var s := "also";
    assert MatchFrom(s, 0, 0) == 0;
    NoMatchInsideWord(s, 1);
    NoMatchInsideWord(s, 2);
    NoMatchInsideWord(s, 3);
  }

  /** A filler at the start of a longer word is not counted: "likely" holds
      none. */
  lemma FillerPrefixOfWord()
    ensures FillerCount("likely") == 0
  {
    var s := "likely";
    assert MatchFrom(s, 0, 0) == 0;
    NoMatchInsideWord(s, 1);
    NoMatchInsideWord(s, 2);
    NoMatchInsideWord(s, 3);
    NoMatchInsideWord(s, 4);
    NoMatchInsideWord(s, 5);
  }

  /** "you know" with one space is one filler. */
  lemma FillerYouKnow()
    ensures FillerCount("you know") == 1
  {
    var s := "you know";
    assert MatchesAt(s, 0, "you know");
    assert Boundary(s, 0) && Boundary(s, 8);
    assert Fillers[8] == "you know";
    assert MatchFrom(s, 0, 8) == 8;
    assert MatchFrom(s, 0, 7) == 8;
    assert MatchFrom(s, 0, 6) == 8;
    assert MatchFrom(s, 0, 5) == 8;
    assert MatchFrom(s, 0, 4) == 8;
    assert MatchFrom(s, 0, 3) == 8;
    assert MatchFrom(s, 0, 2) == 8;
    assert MatchFrom(s, 0, 1) == 8;
    ScanStep(s, 0);
  }

  /** "you know" matches only with exactly one space between the words: the
      character between them is a space (not a tab or any other whitespace),
      and neither of its neighbours is whitespace. */
  lemma YouKnowOneSpace(s: string, p: nat)
    ensures MatchesAt(s, p, "you know") ==>
      s[p + 3] == ' ' && !IsSpace(s[p + 2]) && !IsSpace(s[p + 4])
  {
    if MatchesAt(s, p, "you know") {
      MatchesFromChar(s, p, "you know", 0, 2);
      MatchesFromChar(s, p, "you know", 0, 3);
      MatchesFromChar(s, p, "you know", 0, 4);
    }
  }

  lemma SoLikeFrom2()
    ensures FillerScan("so, like", 2) == 1
  {
    var s := "so, like";
    assert MatchesAt(s, 4, "like") && Boundary(s, 4) && Boundary(s, 8);
    assert MatchFrom(s, 4, 4) == 4;
    assert MatchFrom(s, 4, 3) == 4;
    assert MatchFrom(s, 4, 2) == 4;
    assert MatchFrom(s, 4, 1) == 4;
    assert MatchFrom(s, 4, 0) == 4;
    ScanStep(s, 4);
    MatchIsWholeFiller(s, 2, 0);
    ScanStep(s, 2);
    MatchIsWholeFiller(s, 3, 0);
    ScanStep(s, 3);
  }

  /** Punctuation is a word boundary: "so, like" holds two fillers. */
  lemma FillerAfterPunctuation()
    ensures FillerCount("so, like") == 2
  {
    var s := "so, like";
    SoLikeFrom2();
    assert MatchesAt(s, 0, "so") && Boundary(s, 0) && Boundary(s, 2);
    assert MatchFrom(s, 0, 7) == 2;
    assert MatchFrom(s, 0, 6) == 2;
    assert MatchFrom(s, 0, 5) == 2;
    assert MatchFrom(s, 0, 4) == 2;
    assert MatchFrom(s, 0, 3) == 2;
    assert MatchFrom(s, 0, 2) == 2;
    assert MatchFrom(s, 0, 1) == 2;
    assert MatchFrom(s, 0, 0) == 2;
    ScanStep(s, 0);
  }

  // ------------------------------------------------------ pace and clarity

  /** `Math.round` on an exact real: the nearest integer, halves rounded up. */
  function Round(x: real): (r: int)
    ensures x - 0.5 < r as real <= x + 0.5
  {
    (x + 0.5).Floor
  }

  /** `userMessages.length * 0.75 || 1`, in minutes. */
  function Duration(userMessages: nat): (r: real)
    ensures r > 0.0
  {
    if userMessages as real * 0.75 == 0.0 then 1.0 else userMessages as real * 0.75
  }

  /** Words per minute, before rounding. */
  function Pace(words: nat, userMessages: nat): real {
    words as real / Duration(userMessages)
  }

  /** `Math.max(0, 100 - (fillers / words) * 500)`, before rounding. */
  function Clarity(fillers: nat, words: nat): real
    requires words > 0
  {
    var c := 100.0 - (fillers as real / words as real) * 500.0;
    if c > 0.0 then c else 0.0
  }

  /** With at least one user message the `|| 1` fallback is unreachable. */
  lemma DurationOfMessages(userMessages: nat)
    requires userMessages > 0
    ensures Duration(userMessages) == 0.75 * userMessages as real
  {
  }

  /** With at least one user message the rounded pace is the rounded words
      per 0.75 minutes of answers, and is never negative. */
  lemma PaceFormula(words: nat, userMessages: nat)
    requires userMessages > 0
    ensures Round(Pace(words, userMessages)) == Round(words as real / (0.75 * userMessages as real))
    ensures Round(Pace(words, userMessages)) >= 0
  {
    DurationOfMessages(userMessages);
  }

  /** The rounded pace is never negative. */
  lemma PaceNonNegative(words: nat, userMessages: nat)
    ensures Round(Pace(words, userMessages)) >= 0
  {
  }

  /** The rounded clarity lies in [0, 100], and is 100 without fillers. */
  lemma ClarityBounds(fillers: nat, words: nat)
    requires words > 0
    ensures 0 <= Round(Clarity(fillers, words)) <= 100
    ensures fillers == 0 ==> Round(Clarity(fillers, words)) == 100
  {
    var q := fillers as real / words as real;
    assert q >= 0.0;
    assert q * 500.0 >= 0.0;
  }

  /** More fillers never raise the clarity. */
  lemma ClarityMonotone(f1: nat, f2: nat, words: nat)
    requires words > 0 && f1 <= f2
    ensures Clarity(f2, words) <= Clarity(f1, words)
  {
    assert f1 as real / words as real <= f2 as real / words as real;
  }

  /** Seven words with three fillers in one answer: clarity clamps to 0, and
      the pace 7 / 0.75 = 9.33... rounds to 9. */
  lemma MetricsExample()
    ensures Round(Clarity(3, 7)) == 0
    ensures Round(Pace(7, 1)) == 9
  {
    assert Duration(1) == 0.75;
    assert Pace(7, 1) == 7.0 / 0.75;
  }
}
