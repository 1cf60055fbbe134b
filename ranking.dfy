/** The ranking step of `findRelevantContext` (pages/api/interview/ask.js):
    `similarities.sort((a, b) => b.similarity - a.similarity)`, a stable sort
    by descending score, done in place on the `similarities` array. The
    specification is a functional insertion sort, stable by construction. */
module Ranking {

  /** One element of the `similarities` array. */
  datatype Scored = Scored(text: string, similarity: real)

  /** Non-increasing by score. */
  predicate SortedDesc(s: seq<Scored>) {
    forall i, j :: 0 <= i < j < |s| ==> s[i].similarity >= s[j].similarity
  }

  /** The elements that have score `v`, in their order. */
  function WithScore(s: seq<Scored>, v: real): seq<Scored> {
    if s == [] then []
    else WithScore(s[..|s| - 1], v) + (if s[|s| - 1].similarity == v then [s[|s| - 1]] else [])
  }

  /** Puts `x` after every element of `t` that scores at least as high. */
  function Insert(t: seq<Scored>, x: Scored): (r: seq<Scored>)
    ensures |r| == |t| + 1
  {
    if t == [] then [x]
    else if t[|t| - 1].similarity >= x.similarity then t + [x]
    else Insert(t[..|t| - 1], x) + [t[|t| - 1]]
  }

  /** The stable descending sort: each element in turn inserted into the
      sorted prefix. */
  function SortDesc(s: seq<Scored>): (r: seq<Scored>)
    ensures |r| == |s|
  {
    if s == [] then [] else Insert(SortDesc(s[..|s| - 1]), s[|s| - 1])
  }

  lemma {:induction false} WithScoreAppend(a: seq<Scored>, b: seq<Scored>, v: real)
    ensures WithScore(a + b, v) == WithScore(a, v) + WithScore(b, v)
    decreases |b|
  {
    if b != [] {
      var b' := b[..|b| - 1];
      assert (a + b)[..|a + b| - 1] == a + b';
      WithScoreAppend(a, b', v);
    } else {
      assert a + b == a;
    }
  }

  lemma {:induction false} InsertSorted(t: seq<Scored>, x: Scored)
    requires SortedDesc(t)
    ensures SortedDesc(Insert(t, x))
    ensures Insert(t, x)[|t|] == x || Insert(t, x)[|t|] == t[|t| - 1]
    decreases |t|
  {
    if t != [] && t[|t| - 1].similarity < x.similarity {
      var p := t[..|t| - 1];
      InsertSorted(p, x);
      var q := Insert(p, x);
      assert q[|p|] == x || q[|p|] == p[|p| - 1];
    }
  }

  lemma {:induction false} InsertMultiset(t: seq<Scored>, x: Scored)
    ensures multiset(Insert(t, x)) == multiset(t) + multiset{x}
    decreases |t|
  {
    if t != [] && t[|t| - 1].similarity < x.similarity {
      var p := t[..|t| - 1];
      InsertMultiset(p, x);
      assert t == p + [t[|t| - 1]];
    }
  }

  lemma WithScoreSingle(x: Scored, v: real)
    ensures WithScore([x], v) == if x.similarity == v then [x] else []
  {
    assert [x][..0] == [];
  }

  /** Inserting `x` adds it last among the elements of its own score. */
  lemma {:induction false} InsertWithScore(t: seq<Scored>, x: Scored, v: real)
    ensures WithScore(Insert(t, x), v) == WithScore(t, v) + (if x.similarity == v then [x] else [])
    decreases |t|
  {
    WithScoreSingle(x, v);
    if t == [] {
    } else if t[|t| - 1].similarity >= x.similarity {
      WithScoreAppend(t, [x], v);
    } else {
      var p := t[..|t| - 1];
      var l := t[|t| - 1];
      assert Insert(t, x) == Insert(p, x) + [l];
      InsertWithScore(p, x, v);
      WithScoreAppend(Insert(p, x), [l], v);
      WithScoreSingle(l, v);
      assert WithScore(t, v) == WithScore(p, v) + (if l.similarity == v then [l] else []);
    }
  }

  /** The ranking is sorted by descending score. */
  lemma {:induction false} SortDescSorted(s: seq<Scored>)
    ensures SortedDesc(SortDesc(s))
  {
    if s != [] {
      SortDescSorted(s[..|s| - 1]);
      InsertSorted(SortDesc(s[..|s| - 1]), s[|s| - 1]);
    }
  }

  /** The ranking is a permutation of the scored entries. */
  lemma {:induction false} SortDescPermutation(s: seq<Scored>)
    ensures multiset(SortDesc(s)) == multiset(s)
  {
    if s != [] {
      var init, x := s[..|s| - 1], s[|s| - 1];
      calc {
        multiset(SortDesc(s));
        multiset(Insert(SortDesc(init), x));
        { InsertMultiset(SortDesc(init), x); }
        multiset(SortDesc(init)) + multiset{x};
        { SortDescPermutation(init); }
        multiset(init) + multiset{x};
        multiset(init + [x]);
        { assert init + [x] == s; }
        multiset(s);
      }
    }
  }

  /** The sort is stable: for every score, the entries with that score keep
      their original order. */
  lemma {:induction false} SortDescStable(s: seq<Scored>, v: real)
    ensures WithScore(SortDesc(s), v) == WithScore(s, v)
  {
    if s != [] {
      SortDescStable(s[..|s| - 1], v);
      InsertWithScore(SortDesc(s[..|s| - 1]), s[|s| - 1], v);
    }
  }

  /** One step of an insertion pass: `s[j - 1]` scores lower than `x`, so
      `x` goes before it. */
  lemma InsertPasses(s: seq<Scored>, i: nat, j: nat, x: Scored)
    requires 0 < j <= i < |s| && s[j - 1].similarity < x.similarity
    requires Insert(s[..i], x) == Insert(s[..j], x) + s[j..i]
    ensures Insert(s[..i], x) == Insert(s[..j - 1], x) + s[j - 1..i]
  {
    var t := s[..j];
    assert t[..|t| - 1] == s[..j - 1] && t[|t| - 1] == s[j - 1];
    var left := Insert(s[..j - 1], x);
    assert Insert(t, x) == left + [s[j - 1]];
    assert s[j - 1..i] == [s[j - 1]] + s[j..i];
    assert (left + [s[j - 1]]) + s[j..i] == left + ([s[j - 1]] + s[j..i]);
  }

  /** The end of an insertion pass: at the front, or behind an element that
      scores at least as high as `x`, `x` goes in the hole. */
  lemma InsertStops(s: seq<Scored>, i: nat, j: nat, x: Scored)
    requires j <= i < |s| && (j == 0 || s[j - 1].similarity >= x.similarity)
    requires Insert(s[..i], x) == Insert(s[..j], x) + s[j..i]
    ensures Insert(s[..i], x) == s[..j] + [x] + s[j..i]
  {
  }

  /** `cur` is `s` with `s[j..i]` moved one place right: the state of an
      insertion pass whose hole is at `j`. */
  ghost predicate Shifted(cur: seq<Scored>, s: seq<Scored>, i: nat, j: nat) {
    && j <= i < |s| == |cur|
    && cur[..j] == s[..j]
    && cur[j + 1..i + 1] == s[j..i]
    && cur[i + 1..] == s[i + 1..]
  }

  /** Moving the element before the hole into it moves the hole left. */
  lemma ShiftStep(cur: seq<Scored>, s: seq<Scored>, i: nat, j: nat)
    requires Shifted(cur, s, i, j) && j > 0
    ensures Shifted(cur[j := cur[j - 1]], s, i, j - 1)
  {
    var next := cur[j := cur[j - 1]];
    assert next[..j - 1] == cur[..j - 1] == s[..j - 1];
    assert next[j..i + 1] == [s[j - 1]] + cur[j + 1..i + 1];
    assert next[i + 1..] == cur[i + 1..];
  }

  /** Filling the hole with `x` gives the prefix, `x`, and the moved part. */
  lemma ShiftFill(cur: seq<Scored>, s: seq<Scored>, i: nat, j: nat, x: Scored)
    requires Shifted(cur, s, i, j)
    ensures cur[j := x][..i + 1] == s[..j] + [x] + s[j..i]
    ensures cur[j := x][i + 1..] == s[i + 1..]
  {
    var next := cur[j := x];
    assert next[..i + 1] == next[..j] + [x] + next[j + 1..i + 1];
  }

  /** Inserts `a[i]` into the sorted prefix `a[..i]`, shifting the lower-scoring
      elements one place right, as one pass of an insertion sort. */
  method InsertAt(a: array<Scored>, i: nat)
    requires i < a.Length
    modifies a
    ensures a[..i + 1] == Insert(old(a[..i]), old(a[i]))
    ensures a[i + 1..] == old(a[i + 1..])
  {
    ghost var s := a[..];
    var x := a[i];
    var j := i;
    while j > 0 && a[j - 1].similarity < x.similarity
      invariant Shifted(a[..], s, i, j)
      invariant Insert(s[..i], x) == Insert(s[..j], x) + s[j..i]
    {
      assert a[j - 1] == a[..j][j - 1] == s[j - 1];
      InsertPasses(s, i, j, x);
      ShiftStep(a[..], s, i, j);
      a[j] := a[j - 1];
      j := j - 1;
    }
    assert j > 0 ==> a[j - 1] == a[..j][j - 1] == s[j - 1];
    InsertStops(s, i, j, x);
    ShiftFill(a[..], s, i, j, x);
    a[j] := x;
  }

  /** Sorts the array in place by descending score, stably. */
  method SortDescending(a: array<Scored>)
    modifies a
    ensures a[..] == SortDesc(old(a[..]))
  {
    for i := 0 to a.Length
      invariant a[..i] == SortDesc(old(a[..i]))
      invariant a[i..] == old(a[i..])
    {
      assert old(a[..i + 1])[..i] == old(a[..i]);
      InsertAt(a, i);
    }
    assert a[..] == a[..a.Length];
    assert old(a[..]) == old(a[..a.Length]);
  }
}
