/** The chunker of session creation (`chunkText` in pages/api/session/create.js):
    overlapping fixed-size windows over a document, each window starting
    `chunkSize - overlap` characters after the previous one. */
module Chunker {

  /** The default window length and overlap of `chunkText`, in characters. */
  const DefaultChunkSize: nat := 1000
  const DefaultOverlap: nat := 100

  function Min(a: int, b: int): int { if a <= b then a else b }

  /** The distance between the starts of neighbouring chunks. */
  function Step(size: nat, overlap: nat): (r: nat)
    requires overlap < size
    ensures r > 0
  {
    size - overlap
  }

  /** The number of chunks of a text of length `len`: ceil(len / step). */
  function NumChunks(len: nat, size: nat, overlap: nat): nat
    requires overlap < size
  {
    (len + Step(size, overlap) - 1) / Step(size, overlap)
  }

  /** Chunk `j`: `text.substring(j * step, j * step + size)`, the end clamped to
      the length of the text as `substring` does. */
  function ChunkAt(text: string, size: nat, overlap: nat, j: nat): string
    requires overlap < size
    requires j * Step(size, overlap) < |text|
  {
    var start := j * Step(size, overlap);
    text[start .. Min(start + size, |text|)]
  }

  lemma MulLe(a: nat, b: nat, c: nat)
    requires a <= b
    ensures a * c <= b * c
  {
  }

  /** Division has exactly one quotient. */
  lemma DivUnique(x: nat, step: nat, n: nat)
    requires step > 0
    requires n * step <= x < n * step + step
    ensures x / step == n
  {
    var q := x / step;
    assert q * step <= x < q * step + step;
    if q < n {
      MulLe(q + 1, n, step);
    } else if q > n {
      MulLe(n + 1, q, step);
    }
  }

  /** Characterises the ceiling: `n` windows of width `step` are the fewest
      that reach `len`. */
  lemma CeilUnique(len: nat, step: nat, n: nat)
    requires step > 0
    requires len <= n * step
    requires n == 0 || (n - 1) * step < len
    ensures n == (len + step - 1) / step
  {
    if n > 0 {
      assert (n - 1) * step == n * step - step;
    }
    DivUnique(len + step - 1, step, n);
  }

  /** Chunk `j` exists exactly when its start offset lies inside the text. */
  lemma ChunkIndexBound(len: nat, size: nat, overlap: nat, j: nat)
    requires overlap < size
    ensures j < NumChunks(len, size, overlap) <==> j * Step(size, overlap) < len
  {
    var step := Step(size, overlap);
    var n := NumChunks(len, size, overlap);
    assert n * step <= len + step - 1 < n * step + step;
    if j < n {
      MulLe(j + 1, n, step);
      assert (j + 1) * step == j * step + step;
    } else {
      MulLe(n, j, step);
    }
  }

  /** The empty text has no chunks. */
  lemma NoChunksOfEmpty(size: nat, overlap: nat)
    requires overlap < size
    ensures NumChunks(0, size, overlap) == 0
  {
    ChunkIndexBound(0, size, overlap, 0);
  }

  /** Every chunk is non-empty and at most `size` long; it is exactly `size`
      long when the window fits inside the text. Its start is `j * step`, so
      starts strictly increase with `j`. */
  lemma ChunkShape(text: string, size: nat, overlap: nat, j: nat)
    requires overlap < size
    requires j * Step(size, overlap) < |text|
    ensures 0 < |ChunkAt(text, size, overlap, j)| <= size
    ensures |ChunkAt(text, size, overlap, j)| == size <==> j * Step(size, overlap) + size <= |text|
    ensures (j + 1) * Step(size, overlap) > j * Step(size, overlap)
  {
    assert (j + 1) * Step(size, overlap) == j * Step(size, overlap) + Step(size, overlap);
  }

  /** Every character of the text lies in a chunk: character `k` is character
      `k - j * step` of chunk `j = k / step`. */
  lemma ChunkCovers(text: string, size: nat, overlap: nat, k: nat)
    requires overlap < size
    requires k < |text|
    ensures var step := Step(size, overlap); var j := k / step;
      && j < NumChunks(|text|, size, overlap)
      && j * step <= k
      && k - j * step < |ChunkAt(text, size, overlap, j)|
      && ChunkAt(text, size, overlap, j)[k - j * step] == text[k]
  {
    var step := Step(size, overlap);
    var j := k / step;
    assert j * step <= k < j * step + step;
    ChunkIndexBound(|text|, size, overlap, j);
  }

  /** A full-length chunk followed by another: the next one begins with the
      last `overlap` characters of this one. */
  lemma ChunkOverlap(text: string, size: nat, overlap: nat, j: nat)
    requires overlap < size
    requires j * Step(size, overlap) + size <= |text|
    requires (j + 1) * Step(size, overlap) < |text|
    ensures |ChunkAt(text, size, overlap, j + 1)| >= overlap
    ensures ChunkAt(text, size, overlap, j + 1)[..overlap]
         == ChunkAt(text, size, overlap, j)[size - overlap..]
  {
    var step := Step(size, overlap);
    var s0 := j * step;
    assert (j + 1) * step == s0 + step;
    var s1 := s0 + step;
    var e1 := Min(s1 + size, |text|);
    assert e1 >= s0 + size;
    assert ChunkAt(text, size, overlap, j) == text[s0 .. s0 + size];
    assert ChunkAt(text, size, overlap, j + 1) == text[s1 .. e1];
    assert text[s1 .. e1][..overlap] == text[s1 .. s0 + size];
    assert text[s0 .. s0 + size][size - overlap..] == text[s1 .. s0 + size];
  }

  /** The chunks of a text, in order: the value `chunkText` returns. */
  function Chunks(text: string, size: nat, overlap: nat): (r: seq<string>)
    requires overlap < size
    ensures |r| == NumChunks(|text|, size, overlap)
    ensures forall j :: 0 <= j < |r| ==>
      j * Step(size, overlap) < |text| && r[j] == ChunkAt(text, size, overlap, j)
  {
    var n := NumChunks(|text|, size, overlap);
    assert forall j :: 0 <= j < n ==> j * Step(size, overlap) < |text| by {
      forall j | 0 <= j < n
        ensures j * Step(size, overlap) < |text|
      {
        ChunkIndexBound(|text|, size, overlap, j);
      }
    }
    seq(n, j requires 0 <= j < n => ChunkAt(text, size, overlap, j))
  }

  /** A non-empty text has at least one chunk, the empty text none. */
  lemma ChunksEmptyIff(text: string, size: nat, overlap: nat)
    requires overlap < size
    ensures Chunks(text, size, overlap) == [] <==> text == []
  {
    ChunkIndexBound(|text|, size, overlap, 0);
  }

  /** `chunkText`: the counted loop that pushes one window per step. Requires
      `overlap < size`; with `overlap >= size` the source's loop does not
      terminate on a non-empty text. */
  method ChunkText(text: string, size: nat, overlap: nat) returns (chunks: seq<string>)
    requires overlap < size
    ensures |chunks| == NumChunks(|text|, size, overlap)
    ensures forall j :: 0 <= j < |chunks| ==>
      j * Step(size, overlap) < |text| && chunks[j] == ChunkAt(text, size, overlap, j)
    ensures chunks == Chunks(text, size, overlap)
  {
    var step := size - overlap;
    chunks := [];
    var i := 0;
    while i < |text|
      invariant i == |chunks| * step
      invariant |chunks| == 0 || (|chunks| - 1) * step < |text|
      invariant forall j :: 0 <= j < |chunks| ==>
        j * step < |text| && chunks[j] == ChunkAt(text, size, overlap, j)
      decreases |text| - i
    {
      chunks := chunks + [text[i .. Min(i + size, |text|)]];
      assert (|chunks| - 1) * step == i;
      i := i + step;
    }
    CeilUnique(|text|, step, |chunks|);
  }
}
