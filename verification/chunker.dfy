/** The word-window chunker of `load_file`: the extracted text is split on
    whitespace into words, and windows of `chunk_size` words are emitted,
    each starting `chunk_size - overlap` words after the previous one, with
    ids `"{name}_chunk_1"`, `"{name}_chunk_2"`, ... */
module Chunker {
  import opened Basics
  import opened Text

  /** One entry of the list `load_file` returns: `{"id": ..., "text": ...}`. */
  datatype Chunk = Chunk(id: string, text: string)

  /** Window parameters under which the chunking loop advances on every
      iteration. A negative overlap is accepted (windows then skip words);
      `overlap >= chunk_size` would make the loop run forever. */
  predicate ValidWindow(chunkSize: int, overlap: int) {
    0 < chunkSize && overlap < chunkSize
  }

  /** Offset of window `k` when windows advance by `step`: `k * step`. */
  function Start(k: nat, step: nat): nat {
    if k == 0 then 0 else Start(k - 1, step) + step
  }

  lemma {:induction false} StartIsProduct(k: nat, step: nat)
    ensures Start(k, step) == k * step
  {
    if k > 0 {
      StartIsProduct(k - 1, step);
      assert (k - 1) * step + step == k * step;
    }
  }

  lemma {:induction false} StartMonotone(j: nat, k: nat, step: nat)
    requires j <= k
    ensures Start(j, step) <= Start(k, step)
    decreases k
  {
    if j < k {
      StartMonotone(j, k - 1, step);
    }
  }

  /** `⌈n / d⌉` for a positive divisor: the number of steps of `d` from 0
      that start below `n`. */
  function CeilDiv(n: nat, d: nat): nat
    requires d > 0
  {
    if n == 0 then 0 else if n <= d then 1 else 1 + CeilDiv(n - d, d)
  }

  /** Window `k` exists exactly when it starts before the end of the words. */
  lemma {:induction false} CountMeansStartInside(n: nat, d: nat, k: nat)
    requires d > 0
    ensures k < CeilDiv(n, d) <==> Start(k, d) < n
    decreases n
  {
    if k > 0 {
      StartMonotone(1, k, d);
      if n > d {
        CountMeansStartInside(n - d, d, k - 1);
      }
    }
  }

  /** The first window that does not exist starts at or after the end. */
  lemma StartPastEnd(n: nat, d: nat)
    requires d > 0
    ensures n <= Start(CeilDiv(n, d), d)
  {
    CountMeansStartInside(n, d, CeilDiv(n, d));
  }

  /** `CeilDiv` is the ceiling of the quotient: the least `c` with
      `c * d >= n`. */
  lemma CeilDivIsCeiling(n: nat, d: nat)
    requires d > 0
    ensures CeilDiv(n, d) * d >= n
    ensures CeilDiv(n, d) == 0 || (CeilDiv(n, d) - 1) * d < n
  {
    var c := CeilDiv(n, d);
    CountMeansStartInside(n, d, c);
    StartIsProduct(c, d);
    if c > 0 {
      CountMeansStartInside(n, d, c - 1);
      StartIsProduct(c - 1, d);
    }
  }

  /** Number of chunks for `n` words: `⌈n / (chunk_size - overlap)⌉`. */
  function WindowCount(n: nat, chunkSize: int, overlap: int): nat
    requires ValidWindow(chunkSize, overlap)
  {
    CeilDiv(n, chunkSize - overlap)
  }

  /** The words of window `k`: `words[k*step : k*step + chunk_size]` with
      Python's clipping at the end of the list. */
  function Window(words: seq<string>, chunkSize: int, overlap: int, k: nat): (w: seq<string>)
    requires ValidWindow(chunkSize, overlap)
    requires k < WindowCount(|words|, chunkSize, overlap)
  {
    var start := Start(k, chunkSize - overlap);
    CountMeansStartInside(|words|, chunkSize - overlap, k);
    words[start..Min(start + chunkSize, |words|)]
  }

  /** `f"{name}_chunk_{n}"`. */
  function ChunkId(name: string, n: nat): string {
    name + "_chunk_" + NatToString(n)
  }

  /** The chunk list `load_file` promises for the words `words`: one chunk per
      window, in window order, window `k` joined by single spaces and
      numbered `k + 1`. */
  function Chunks(name: string, words: seq<string>, chunkSize: int, overlap: int): (cs: seq<Chunk>)
    requires ValidWindow(chunkSize, overlap)
  {
    var count := WindowCount(|words|, chunkSize, overlap);
    seq(count, k requires 0 <= k < count =>
      Chunk(ChunkId(name, k + 1), Join(Window(words, chunkSize, overlap, k), " ")))
  }

  /** The chunking loop of `load_file`, as written: `start` advances by
      `chunk_size - overlap` while it is below the word count. With no words
      the loop is never entered, so any overlap is accepted then. */
  method ChunkWords(name: string, words: seq<string>, chunkSize: int, overlap: int)
    returns (chunks: seq<Chunk>)
    requires 0 < chunkSize && (words != [] ==> overlap < chunkSize)
    ensures words == [] ==> chunks == []
    ensures ValidWindow(chunkSize, overlap) ==> |chunks| == WindowCount(|words|, chunkSize, overlap)
    ensures ValidWindow(chunkSize, overlap) ==> chunks == Chunks(name, words, chunkSize, overlap)
  {
    if words == [] {
      // `start < len(words)` fails on the first test
      return [];
    }
    ghost var step := chunkSize - overlap;
    ghost var count := WindowCount(|words|, chunkSize, overlap);
    chunks := [];
    var start := 0;
    var chunkNum := 1;
    while start < |words|
      invariant chunkNum == |chunks| + 1
      invariant start == Start(|chunks|, step)
      invariant |chunks| <= count
      invariant forall k :: 0 <= k < |chunks| ==>
        chunks[k] == Chunk(ChunkId(name, k + 1), Join(Window(words, chunkSize, overlap, k), " "))
      decreases |words| - start
    {
      CountMeansStartInside(|words|, step, |chunks|);
      var end := start + chunkSize;
      var chunkText := Join(words[start..Min(end, |words|)], " ");
      chunks := chunks + [Chunk(ChunkId(name, chunkNum), chunkText)];
      start := start + chunkSize - overlap;
      chunkNum := chunkNum + 1;
    }
    CountMeansStartInside(|words|, step, |chunks|);
  }

  // ---------------------------------------------------------------------
  // File dispatch
  // ---------------------------------------------------------------------

  predicate EndsWith(s: string, suffix: string) {
    |suffix| <= |s| && s[|s| - |suffix|..] == suffix
  }

  /** The file names `load_file` extracts text from. */
  predicate SupportedExtension(name: string) {
    EndsWith(name, ".pdf") || EndsWith(name, ".txt") || EndsWith(name, ".csv") || EndsWith(name, ".docx")
  }

  /** `load_file` on a file named `name` whose extracted text is `text`. */
  method LoadFile(name: string, text: string, chunkSize: int, overlap: int)
    returns (chunks: seq<Chunk>)
    requires SupportedExtension(name) ==> 0 < chunkSize && (!AllSpace(text) ==> overlap < chunkSize)
    ensures !SupportedExtension(name) ==> chunks == []
    ensures SupportedExtension(name) && ValidWindow(chunkSize, overlap) ==>
              chunks == Chunks(name, Words(text), chunkSize, overlap)
    ensures AllSpace(text) ==> chunks == []
  {
    if !SupportedExtension(name) {
      return [];
    }
    var words := Words(text);
    RunsEmptyIff(text, NotSpace);
    chunks := ChunkWords(name, words, chunkSize, overlap);
  }

  // ---------------------------------------------------------------------
  // Properties of the windows
  // ---------------------------------------------------------------------

  /** Every chunk holds between 1 and `chunk_size` words, and exactly
      `chunk_size` when the window ends inside the word list. */
  lemma WindowSize(words: seq<string>, chunkSize: int, overlap: int, k: nat)
    requires ValidWindow(chunkSize, overlap)
    requires k < WindowCount(|words|, chunkSize, overlap)
    ensures 1 <= |Window(words, chunkSize, overlap, k)| <= chunkSize
    ensures Start(k, chunkSize - overlap) + chunkSize <= |words| ==>
              |Window(words, chunkSize, overlap, k)| == chunkSize
  {
    CountMeansStartInside(|words|, chunkSize - overlap, k);
  }

  /** Splitting a chunk's text on whitespace gives back exactly the words of
      its window, so each chunk text holds 1 to `chunk_size` words. */
  lemma ChunkTextWords(text: string, chunkSize: int, overlap: int, k: nat)
    requires ValidWindow(chunkSize, overlap)
    requires k < WindowCount(|Words(text)|, chunkSize, overlap)
    ensures Words(Join(Window(Words(text), chunkSize, overlap, k), " ")) == Window(Words(text), chunkSize, overlap, k)
    ensures 1 <= |Words(Join(Window(Words(text), chunkSize, overlap, k), " "))| <= chunkSize
  {
    var ws := Words(text);
    var w := Window(ws, chunkSize, overlap, k);
    WindowSize(ws, chunkSize, overlap, k);
    var start := Start(k, chunkSize - overlap);
    CountMeansStartInside(|ws|, chunkSize - overlap, k);
    assert w == ws[start..Min(start + chunkSize, |ws|)];
    assert forall j :: 0 <= j < |w| ==> w[j] == ws[start + j];
    WordsOfJoin(w);
  }

  /** Coverage: with a non-negative overlap, word `i` appears in chunk
      `⌊i / step⌋`, at offset `i mod step`. */
  lemma Coverage(words: seq<string>, chunkSize: int, overlap: int, i: nat)
    requires ValidWindow(chunkSize, overlap) && 0 <= overlap
    requires i < |words|
    ensures i / (chunkSize - overlap) < WindowCount(|words|, chunkSize, overlap)
    ensures var k := i / (chunkSize - overlap);
            i % (chunkSize - overlap) < |Window(words, chunkSize, overlap, k)| &&
            Window(words, chunkSize, overlap, k)[i % (chunkSize - overlap)] == words[i]
  {
    var step := chunkSize - overlap;
    var k := i / step;
    StartIsProduct(k, step);
    assert Start(k, step) + i % step == i;
    CountMeansStartInside(|words|, step, k);
  }

  /** Consecutive chunks whose first one is full share exactly `overlap`
      words: the tail of chunk `k` is the head of chunk `k + 1`. */
  lemma SharedOverlap(words: seq<string>, chunkSize: int, overlap: int, k: nat)
    requires ValidWindow(chunkSize, overlap) && 0 <= overlap
    requires k + 1 < WindowCount(|words|, chunkSize, overlap)
    requires Start(k, chunkSize - overlap) + chunkSize <= |words|
    ensures |Window(words, chunkSize, overlap, k + 1)| >= overlap
    ensures Window(words, chunkSize, overlap, k)[chunkSize - overlap..] ==
            Window(words, chunkSize, overlap, k + 1)[..overlap]
  {
    var step := chunkSize - overlap;
    var s := Start(k, step);
    CountMeansStartInside(|words|, step, k);
    CountMeansStartInside(|words|, step, k + 1);
    assert Start(k + 1, step) == s + step;
    var w := Window(words, chunkSize, overlap, k);
    var v := Window(words, chunkSize, overlap, k + 1);
    assert w == words[s..s + chunkSize];
    assert v == words[s + step..Min(s + step + chunkSize, |words|)];
    assert |v| >= overlap;
    assert forall j :: 0 <= j < overlap ==> w[step + j] == words[s + step + j] == v[j];
  }

  /** A window that already reaches the end of the words swallows the next
      one: the following chunk lies entirely inside it. */
  lemma TrailingWindowInside(words: seq<string>, chunkSize: int, overlap: int, k: nat)
    requires ValidWindow(chunkSize, overlap) && 0 <= overlap
    requires k + 1 < WindowCount(|words|, chunkSize, overlap)
    requires Start(k, chunkSize - overlap) + chunkSize >= |words|
    ensures |Window(words, chunkSize, overlap, k)| >= chunkSize - overlap
    ensures Window(words, chunkSize, overlap, k + 1) ==
            Window(words, chunkSize, overlap, k)[chunkSize - overlap..]
  {
    CountMeansStartInside(|words|, chunkSize - overlap, k + 1);
  }

  /** Ten words with `chunk_size = 10` and `overlap = 2` give two chunks, the
      second being the last two words of the first. */
  lemma TrailingWindowExample(words: seq<string>)
    requires |words| == 10
    ensures WindowCount(|words|, 10, 2) == 2
    ensures Window(words, 10, 2, 1) == Window(words, 10, 2, 0)[8..]
  {
    assert CeilDiv(2, 8) == 1;
    assert Start(0, 8) == 0;
    TrailingWindowInside(words, 10, 2, 0);
  }

  /** The part of chunk `k` that chunk `k + 1` does not repeat. */
  function Fresh(words: seq<string>, chunkSize: int, overlap: int, k: nat): seq<string>
    requires ValidWindow(chunkSize, overlap)
    requires k < WindowCount(|words|, chunkSize, overlap)
  {
    var w := Window(words, chunkSize, overlap, k);
    w[..Min(chunkSize - overlap, |w|)]
  }

  /** The fresh parts of the first `c` chunks, in order. */
  function FreshParts(words: seq<string>, chunkSize: int, overlap: int, c: nat): seq<seq<string>>
    requires ValidWindow(chunkSize, overlap)
    requires c <= WindowCount(|words|, chunkSize, overlap)
  {
    if c == 0 then [] else FreshParts(words, chunkSize, overlap, c - 1) + [Fresh(words, chunkSize, overlap, c - 1)]
  }

  /** The words from the start of window `k` up to the start of window
      `k + 1`, clipped to the word sequence. */
  function Piece(words: seq<string>, step: nat, k: nat): seq<string> {
    words[Min(Start(k, step), |words|)..Min(Start(k, step) + step, |words|)]
  }

  function Pieces(words: seq<string>, step: nat, c: nat): seq<seq<string>> {
    if c == 0 then [] else Pieces(words, step, c - 1) + [Piece(words, step, c - 1)]
  }

  lemma {:induction false} PiecesPrefix(words: seq<string>, step: nat, c: nat)
    ensures Concat(Pieces(words, step, c)) == words[..Min(Start(c, step), |words|)]
  {
    if c > 0 {
      var k := c - 1;
      PiecesPrefix(words, step, k);
      PrefixGrows(Pieces(words, step, k), Piece(words, step, k), words,
                  Min(Start(k, step), |words|), Min(Start(k, step) + step, |words|));
    }
  }

  /** A concatenation that spells a prefix, extended by the next slice,
      spells the longer prefix. */
  lemma PrefixGrows<T>(parts: seq<seq<T>>, f: seq<T>, w: seq<T>, s: nat, e: nat)
    requires s <= e <= |w|
    requires Concat(parts) == w[..s] && f == w[s..e]
    ensures Concat(parts + [f]) == w[..e]
  {
    ConcatAppend(parts, f);
    assert w[..s] + w[s..e] == w[..e];
  }

  /** With a non-negative overlap, the fresh part of chunk `k` is the word
      range from its start up to the next chunk's start. */
  lemma {:induction false} FreshPartsArePieces(words: seq<string>, chunkSize: int, overlap: int, c: nat)
    requires ValidWindow(chunkSize, overlap) && 0 <= overlap
    requires c <= WindowCount(|words|, chunkSize, overlap)
    ensures FreshParts(words, chunkSize, overlap, c) == Pieces(words, chunkSize - overlap, c)
  {
    if c > 0 {
      FreshPartsArePieces(words, chunkSize, overlap, c - 1);
      FreshIsPiece(words, chunkSize, overlap, c - 1);
    }
  }

  lemma FreshIsPiece(words: seq<string>, chunkSize: int, overlap: int, k: nat)
    requires ValidWindow(chunkSize, overlap) && 0 <= overlap
    requires k < WindowCount(|words|, chunkSize, overlap)
    ensures Fresh(words, chunkSize, overlap, k) == Piece(words, chunkSize - overlap, k)
  {
    var step := chunkSize - overlap;
    CountMeansStartInside(|words|, step, k);
    var s := Start(k, step);
    var w := Window(words, chunkSize, overlap, k);
    var m := Min(step, |w|);
    assert s + m == Min(s + step, |words|);
    assert w[..m] == words[s..s + m];
  }

  /** Lossless chunking: with a non-negative overlap, concatenating every
      chunk's non-repeated part reconstructs the word sequence exactly. */
  lemma Lossless(words: seq<string>, chunkSize: int, overlap: int)
    requires ValidWindow(chunkSize, overlap) && 0 <= overlap
    ensures Concat(FreshParts(words, chunkSize, overlap, WindowCount(|words|, chunkSize, overlap))) == words
  {
    var c := WindowCount(|words|, chunkSize, overlap);
    var step := chunkSize - overlap;
    FreshPartsArePieces(words, chunkSize, overlap, c);
    PiecesPrefix(words, step, c);
    assert c == CeilDiv(|words|, step);
    StartPastEnd(|words|, step);
    assert |words| <= Start(c, step);
    var m := Min(Start(c, step), |words|);
    assert m == |words|;
    assert words[..m] == words;
  }

  /** Chunk ids of one file are pairwise distinct. */
  lemma ChunkIdsDistinct(name: string, words: seq<string>, chunkSize: int, overlap: int, i: nat, j: nat)
    requires ValidWindow(chunkSize, overlap)
    requires i < j < WindowCount(|words|, chunkSize, overlap)
    ensures Chunks(name, words, chunkSize, overlap)[i].id != Chunks(name, words, chunkSize, overlap)[j].id
  {
    var p := name + "_chunk_";
    if ChunkId(name, i + 1) == ChunkId(name, j + 1) {
      assert ChunkId(name, i + 1)[|p|..] == NatToString(i + 1);
      assert ChunkId(name, j + 1)[|p|..] == NatToString(j + 1);
      NatToStringInjective(i + 1, j + 1);
    }
  }
}
