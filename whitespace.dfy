/** Whitespace normalisation of both extracted documents at session creation:
    `text.replace(/\s\s+/g, ' ').trim()` (pages/api/session/create.js, the job
    description scraper and the resume parser). */
module Whitespace {
  import opened Text

  /** The text has no two neighbouring whitespace characters. */
  predicate NoDoubleSpace(s: string) {
    forall i :: 0 <= i < |s| - 1 ==> !(IsSpace(s[i]) && IsSpace(s[i + 1]))
  }

  /** The text neither starts nor ends with whitespace. */
  predicate Trimmed(s: string) {
    s == [] || (!IsSpace(s[0]) && !IsSpace(s[|s| - 1]))
  }

  /** Drops the whitespace at the front: what `trimStart` strips, and what one
      greedy match of `\s\s+` consumes at the start of a run. */
  function DropLeadingSpaces(s: string): (r: string)
    ensures |r| <= |s|
    ensures r == [] || !IsSpace(r[0])
    ensures s != [] && IsSpace(s[0]) ==> |r| < |s|
    ensures s != [] && !IsSpace(s[0]) ==> r == s
  {
    if s != [] && IsSpace(s[0]) then DropLeadingSpaces(s[1..]) else s
  }

  /** `DropLeadingSpaces` removes a whitespace prefix and nothing else: the
      result is a suffix of the text, and everything before it is whitespace. */
  lemma {:induction false} DropLeadingSuffix(s: string)
    ensures var r := DropLeadingSpaces(s);
      r == s[|s| - |r|..] && forall i :: 0 <= i < |s| - |r| ==> IsSpace(s[i])
  {
    if s != [] && IsSpace(s[0]) {
      DropLeadingSuffix(s[1..]);
      var r := DropLeadingSpaces(s[1..]);
      assert s[1..][|s| - 1 - |r|..] == s[|s| - |r|..];
      forall i | 0 <= i < |s| - |r| ensures IsSpace(s[i]) {
        if i > 0 { assert s[i] == s[1..][i - 1]; }
      }
    }
  }

  /** Drops the whitespace at the back. */
  function DropTrailingSpaces(s: string): (r: string)
    ensures |r| <= |s|
    ensures r == [] || !IsSpace(r[|r| - 1])
  {
    if s != [] && IsSpace(s[|s| - 1]) then DropTrailingSpaces(s[..|s| - 1]) else s
  }

  /** `String.prototype.trim`. */
  function Trim(s: string): string {
    DropTrailingSpaces(DropLeadingSpaces(s))
  }

  /** `replace(/\s\s+/g, ' ')`: scanning left to right, a run of two or more
      whitespace characters, taken greedily, becomes one space; a single
      whitespace character is not matched and stays as it is. */
  function CollapseRuns(s: string): string
    decreases |s|
  {
    if s == [] then []
    else if |s| >= 2 && IsSpace(s[0]) && IsSpace(s[1]) then [' '] + CollapseRuns(DropLeadingSpaces(s))
    else [s[0]] + CollapseRuns(s[1..])
  }

  /** The normalisation applied to each extracted document. */
  function Normalize(s: string): string {
    Trim(CollapseRuns(s))
  }

  lemma {:induction false} CollapseHead(s: string)
    requires s != [] && !IsSpace(s[0])
    ensures CollapseRuns(s) != [] && CollapseRuns(s)[0] == s[0]
  {
  }

  lemma {:induction false} CollapseNoDoubleSpace(s: string)
    ensures NoDoubleSpace(CollapseRuns(s))
    decreases |s|
  {
    if s == [] {
    } else if |s| >= 2 && IsSpace(s[0]) && IsSpace(s[1]) {
      var d := DropLeadingSpaces(s);
      CollapseNoDoubleSpace(d);
      if d != [] { CollapseHead(d); }
    } else {
      CollapseNoDoubleSpace(s[1..]);
      if IsSpace(s[0]) && |s| >= 2 { CollapseHead(s[1..]); }
    }
  }

  lemma {:induction false} DropLeadingKeepsNonSpace(s: string)
    ensures NonSpace(DropLeadingSpaces(s)) == NonSpace(s)
  {
    if s != [] && IsSpace(s[0]) {
      DropLeadingKeepsNonSpace(s[1..]);
    }
  }

  lemma {:induction false} DropTrailingKeepsNonSpace(s: string)
    ensures NonSpace(DropTrailingSpaces(s)) == NonSpace(s)
  {
    if s != [] && IsSpace(s[|s| - 1]) {
      var p := s[..|s| - 1];
      assert s == p + [s[|s| - 1]];
      NonSpaceAppend(p, [s[|s| - 1]]);
      DropTrailingKeepsNonSpace(p);
    }
  }

  lemma {:induction false} CollapseKeepsNonSpace(s: string)
    ensures NonSpace(CollapseRuns(s)) == NonSpace(s)
    decreases |s|
  {
    if s == [] {
    } else if |s| >= 2 && IsSpace(s[0]) && IsSpace(s[1]) {
      var d := DropLeadingSpaces(s);
      CollapseKeepsNonSpace(d);
      DropLeadingKeepsNonSpace(s);
      assert ([' '] + CollapseRuns(d))[1..] == CollapseRuns(d);
    } else {
      CollapseKeepsNonSpace(s[1..]);
      assert ([s[0]] + CollapseRuns(s[1..]))[1..] == CollapseRuns(s[1..]);
    }
  }

  lemma {:induction false} DropLeadingKeepsNoDouble(s: string)
    requires NoDoubleSpace(s)
    ensures NoDoubleSpace(DropLeadingSpaces(s))
  {
    if s != [] && IsSpace(s[0]) {
      assert NoDoubleSpace(s[1..]) by {
        forall i | 0 <= i < |s[1..]| - 1 ensures !(IsSpace(s[1..][i]) && IsSpace(s[1..][i + 1])) {
          assert s[1..][i] == s[i + 1] && s[1..][i + 1] == s[i + 2];
        }
      }
      DropLeadingKeepsNoDouble(s[1..]);
    }
  }

  lemma {:induction false} DropTrailingKeepsNoDouble(s: string)
    requires NoDoubleSpace(s)
    ensures NoDoubleSpace(DropTrailingSpaces(s))
  {
    if s != [] && IsSpace(s[|s| - 1]) {
      DropTrailingKeepsNoDouble(s[..|s| - 1]);
    }
  }

  lemma {:induction false} DropTrailingKeepsHead(s: string)
    requires s != [] && !IsSpace(s[0])
    ensures DropTrailingSpaces(s) != [] && DropTrailingSpaces(s)[0] == s[0]
  {
    if IsSpace(s[|s| - 1]) {
      DropTrailingKeepsHead(s[..|s| - 1]);
    }
  }

  /** Trimming leaves a text that neither starts nor ends with whitespace. */
  lemma TrimTrimmed(s: string)
    ensures Trimmed(Trim(s))
  {
    var t := DropLeadingSpaces(s);
    if t != [] { DropTrailingKeepsHead(t); }
  }

  /** Normalised text has no two adjacent whitespace characters, no leading or
      trailing whitespace, and the same non-whitespace characters in the same
      order as the input. */
  lemma NormalizeShape(s: string)
    ensures NoDoubleSpace(Normalize(s))
    ensures Trimmed(Normalize(s))
    ensures NonSpace(Normalize(s)) == NonSpace(s)
  {
    var c := CollapseRuns(s);
    CollapseNoDoubleSpace(s);
    DropLeadingKeepsNoDouble(c);
    DropTrailingKeepsNoDouble(DropLeadingSpaces(c));
    TrimTrimmed(c);
    CollapseKeepsNonSpace(s);
    DropLeadingKeepsNonSpace(c);
    DropTrailingKeepsNonSpace(DropLeadingSpaces(c));
  }

  /** A text without whitespace runs is left alone by the `\s\s+` replacement;
      in particular an isolated whitespace character other than a space (a
      lone tab or newline) is kept as it is. */
  lemma {:induction false} CollapseFixesNoDouble(s: string)
    requires NoDoubleSpace(s)
    ensures CollapseRuns(s) == s
    decreases |s|
  {
    if s != [] {
      assert !(|s| >= 2 && IsSpace(s[0]) && IsSpace(s[1]));
      assert NoDoubleSpace(s[1..]) by {
        forall i | 0 <= i < |s[1..]| - 1 ensures !(IsSpace(s[1..][i]) && IsSpace(s[1..][i + 1])) {
          assert s[1..][i] == s[i + 1] && s[1..][i + 1] == s[i + 2];
        }
      }
      CollapseFixesNoDouble(s[1..]);
    }
  }

  /** Normalisation leaves already-normalised text unchanged. */
  lemma NormalizeFixesNormal(s: string)
    requires NoDoubleSpace(s) && Trimmed(s)
    ensures Normalize(s) == s
  {
    CollapseFixesNoDouble(s);
  }

  /** Normalisation is idempotent. */
  lemma NormalizeIdempotent(s: string)
    ensures Normalize(Normalize(s)) == Normalize(s)
  {
    NormalizeShape(s);
    NormalizeFixesNormal(Normalize(s));
  }

  /** A text that is all whitespace normalises to the empty text (and so fails
      the empty-document guard of session creation). */
  lemma {:induction false} NormalizeAllSpace(s: string)
    requires forall i :: 0 <= i < |s| ==> IsSpace(s[i])
    ensures Normalize(s) == ""
  {
    NormalizeShape(s);
    AllSpaceNonSpace(s);
    var n := Normalize(s);
    if n != [] {
      NonSpaceHead(n);
    }
  }

  lemma {:induction false} AllSpaceNonSpace(s: string)
    requires forall i :: 0 <= i < |s| ==> IsSpace(s[i])
    ensures NonSpace(s) == ""
  {
    if s != [] { AllSpaceNonSpace(s[1..]); }
  }

  lemma NonSpaceHead(s: string)
    requires s != [] && !IsSpace(s[0])
    ensures NonSpace(s) != ""
  {
  }

  /** The text ends with a character that is not whitespace. */
  predicate EndsSolid(s: string) {
    s != [] && !IsSpace(s[|s| - 1])
  }

  /** The text starts with a character that is not whitespace. */
  predicate StartsSolid(s: string) {
    s != [] && !IsSpace(s[0])
  }

  /** Leading whitespace of a text that ends solid stays inside that text. */
  lemma {:induction false} DropLeadingAppend(a: string, b: string)
    requires EndsSolid(a)
    ensures DropLeadingSpaces(a + b) == DropLeadingSpaces(a) + b
    ensures EndsSolid(DropLeadingSpaces(a))
  {
    if IsSpace(a[0]) {
      assert (a + b)[1..] == a[1..] + b;
      DropLeadingAppend(a[1..], b);
    }
  }

  /** A whitespace prefix in front of a solid start (or of nothing) is
      dropped entirely. */
  lemma {:induction false} DropSpacePrefix(w: string, v: string)
    requires forall i :: 0 <= i < |w| ==> IsSpace(w[i])
    requires v == [] || StartsSolid(v)
    ensures DropLeadingSpaces(w + v) == v
  {
    if w == [] {
      assert w + v == v;
    } else {
      assert (w + v)[1..] == w[1..] + v;
      DropSpacePrefix(w[1..], v);
    }
  }

  /** Trailing whitespace of a text that starts solid stays inside that text. */
  lemma {:induction false} DropTrailingAppend(a: string, b: string)
    requires StartsSolid(b)
    ensures DropTrailingSpaces(a + b) == a + DropTrailingSpaces(b)
    decreases |b|
  {
    if IsSpace(b[|b| - 1]) {
      assert (a + b)[..|a + b| - 1] == a + b[..|b| - 1];
      DropTrailingAppend(a, b[..|b| - 1]);
    }
  }

  /** The replacement never reaches across a non-whitespace character: a text
      that ends solid is collapsed on its own. */
  /** The replacement at a run of two or more whitespace characters. */
  lemma CollapseRunStep(s: string)
    requires |s| >= 2 && IsSpace(s[0]) && IsSpace(s[1])
    ensures CollapseRuns(s) == [' '] + CollapseRuns(DropLeadingSpaces(s))
  {
  }

  /** The replacement at any other character. */
  lemma CollapseCharStep(s: string)
    requires s != [] && !(|s| >= 2 && IsSpace(s[0]) && IsSpace(s[1]))
    ensures CollapseRuns(s) == [s[0]] + CollapseRuns(s[1..])
  {
  }

  /** A text that ends solid still does after something is put in front. */
  lemma EndsSolidPrepend(c: string, x: string)
    requires EndsSolid(x)
    ensures EndsSolid(c + x)
  {
    assert (c + x)[|c + x| - 1] == x[|x| - 1];
  }

  lemma {:induction false} CollapseAppend(a: string, b: string)
    requires EndsSolid(a)
    ensures CollapseRuns(a + b) == CollapseRuns(a) + CollapseRuns(b)
    ensures EndsSolid(CollapseRuns(a))
    decreases |a|, 1
  {
    if |a| >= 2 && IsSpace(a[0]) && IsSpace(a[1]) {
      CollapseAppendRun(a, b);
    } else {
      CollapseAppendChar(a, b);
    }
  }

  /** `CollapseAppend` when `a` starts with a whitespace run. */
  lemma {:induction false} CollapseAppendRun(a: string, b: string)
    requires EndsSolid(a) && |a| >= 2 && IsSpace(a[0]) && IsSpace(a[1])
    ensures CollapseRuns(a + b) == CollapseRuns(a) + CollapseRuns(b)
    ensures EndsSolid(CollapseRuns(a))
    decreases |a|, 0
  {
    var s := a + b;
    assert s[0] == a[0] && s[1] == a[1];
    DropLeadingAppend(a, b);
    var d := DropLeadingSpaces(a);
    CollapseAppend(d, b);
    calc {
      CollapseRuns(s);
      { CollapseRunStep(s); }
      [' '] + CollapseRuns(DropLeadingSpaces(s));
      [' '] + CollapseRuns(d + b);
      [' '] + (CollapseRuns(d) + CollapseRuns(b));
      ([' '] + CollapseRuns(d)) + CollapseRuns(b);
      { CollapseRunStep(a); }
      CollapseRuns(a) + CollapseRuns(b);
    }
    CollapseRunStep(a);
    EndsSolidPrepend([' '], CollapseRuns(d));
  }

  /** `CollapseAppend` when `a` starts with anything else. */
  lemma {:induction false} CollapseAppendChar(a: string, b: string)
    requires EndsSolid(a) && !(|a| >= 2 && IsSpace(a[0]) && IsSpace(a[1]))
    ensures CollapseRuns(a + b) == CollapseRuns(a) + CollapseRuns(b)
    ensures EndsSolid(CollapseRuns(a))
    decreases |a|, 0
  {
    var s := a + b;
    var t := a[1..];
    assert s[0] == a[0] && (|a| >= 2 ==> s[1] == a[1]);
    assert s[1..] == t + b;
    CollapseCharStep(a);
    if |a| == 1 {
      assert t == [] && t + b == b;
      calc {
        CollapseRuns(s);
        { CollapseCharStep(s); }
        [a[0]] + CollapseRuns(b);
        { assert CollapseRuns(a) == [a[0]]; }
        CollapseRuns(a) + CollapseRuns(b);
      }
    } else {
      CollapseAppend(t, b);
      calc {
        CollapseRuns(s);
        { CollapseCharStep(s); }
        [a[0]] + CollapseRuns(t + b);
        [a[0]] + (CollapseRuns(t) + CollapseRuns(b));
        ([a[0]] + CollapseRuns(t)) + CollapseRuns(b);
        CollapseRuns(a) + CollapseRuns(b);
      }
      EndsSolidPrepend([a[0]], CollapseRuns(t));
    }
  }

  /** A single whitespace character between two non-whitespace characters is
      kept by the replacement, whatever kind of whitespace it is. */
  lemma LoneSpaceKept(w: string, c: char, v: string)
    requires EndsSolid(w) && IsSpace(c) && StartsSolid(v)
    ensures CollapseRuns(w + [c] + v) == CollapseRuns(w) + [c] + CollapseRuns(v)
  {
    CollapseAppend(w, [c] + v);
    assert ([c] + v)[1..] == v;
    assert w + [c] + v == w + ([c] + v);
  }

  /** Every character of the text is whitespace. */
  predicate AllSpace(s: string) {
    forall i :: 0 <= i < |s| ==> IsSpace(s[i])
  }

  /** A run of two or more whitespace characters in front of a solid start
      (or of nothing) collapses to one space. */
  lemma RunCollapses(run: string, v: string)
    requires |run| >= 2 && AllSpace(run)
    requires v == [] || StartsSolid(v)
    ensures CollapseRuns(run + v) == " " + CollapseRuns(v)
  {
    var x := run + v;
    assert x[0] == run[0] && x[1] == run[1];
    calc {
      CollapseRuns(x);
      { CollapseRunStep(x); }
      [' '] + CollapseRuns(DropLeadingSpaces(x));
      { DropSpacePrefix(run, v); }
      [' '] + CollapseRuns(v);
    }
  }

  /** A run of two or more whitespace characters after a non-whitespace
      character (or at the start) becomes exactly one space. */
  lemma RunBecomesSpace(w: string, run: string, v: string)
    requires w == [] || EndsSolid(w)
    requires |run| >= 2 && AllSpace(run)
    requires v == [] || StartsSolid(v)
    ensures CollapseRuns(w + run + v) == CollapseRuns(w) + " " + CollapseRuns(v)
  {
    if w == [] {
      RunCollapses(run, v);
      assert w + run + v == run + v;
      assert CollapseRuns(w) + " " + CollapseRuns(v) == " " + CollapseRuns(v);
    } else {
      RunAfterSolid(w, run, v);
    }
  }

  /** `RunBecomesSpace` after a non-whitespace character. */
  lemma RunAfterSolid(w: string, run: string, v: string)
    requires EndsSolid(w)
    requires |run| >= 2 && AllSpace(run)
    requires v == [] || StartsSolid(v)
    ensures CollapseRuns(w + run + v) == CollapseRuns(w) + " " + CollapseRuns(v)
  {
    var x := run + v;
    var cw, cv := CollapseRuns(w), CollapseRuns(v);
    calc {
      CollapseRuns(w + run + v);
      { assert w + run + v == w + x; }
      CollapseRuns(w + x);
      { CollapseAppend(w, x); }
      cw + CollapseRuns(x);
      { RunCollapses(run, v); }
      cw + (" " + cv);
      cw + " " + cv;
    }
  }

  /** Normalisation splits at a single whitespace character between two
      non-whitespace characters, and keeps that character. */
  lemma NormalizeLoneSpace(w: string, c: char, v: string)
    requires EndsSolid(w) && IsSpace(c) && StartsSolid(v)
    ensures Normalize(w + [c] + v) == Normalize(w) + [c] + Normalize(v)
  {
    LoneSpaceKept(w, c, v);
    NormalizeJoin(w, [c], v);
  }

  /** Normalisation turns a whitespace run between two non-whitespace
      characters into one space. */
  lemma NormalizeRun(w: string, run: string, v: string)
    requires EndsSolid(w) && StartsSolid(v)
    requires |run| >= 2 && AllSpace(run)
    ensures Normalize(w + run + v) == Normalize(w) + " " + Normalize(v)
  {
    RunBecomesSpace(w, run, v);
    NormalizeJoin(w, " ", v);
  }

  /** Trimming `collapse(w) + mid + collapse(v)` trims only the outer ends. */
  lemma NormalizeJoin(w: string, mid: string, v: string)
    requires EndsSolid(w) && StartsSolid(v)
    ensures Trim(CollapseRuns(w) + mid + CollapseRuns(v)) == Normalize(w) + mid + Normalize(v)
  {
    var cw := CollapseRuns(w);
    var cv := CollapseRuns(v);
    CollapseAppend(w, []);
    CollapseHead(v);
    DropLeadingAppend(cw, mid + cv);
    assert cw + mid + cv == cw + (mid + cv);
    var dw := DropLeadingSpaces(cw);
    assert dw + (mid + cv) == (dw + mid) + cv;
    DropTrailingAppend(dw + mid, cv);
    assert DropTrailingSpaces(dw) == dw;
    assert DropLeadingSpaces(cv) == cv;
  }

  /** A lone tab between two words survives normalisation. */
  lemma LoneTabKept()
    ensures Normalize("a\tb") == "a\tb"
  {
    NormalizeFixesNormal("a\tb");
  }

  /** A tab next to a space becomes one space. */
  lemma TabBesideSpace()
    ensures Normalize("a\t b") == "a b"
  {
    NormalizeFixesNormal("a");
    NormalizeFixesNormal("b");
    assert "a\t b" == "a" + "\t " + "b";
    NormalizeRun("a", "\t ", "b");
  }
}
