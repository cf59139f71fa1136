/** The in-memory keyword index `BM25Store`: chunk texts are tokenised into
    lower-case word runs, kept side by side with the chunks, and a query
    ranks the stored chunks by a relevance score, best first, keeping at
    most `top_k` of them and only those with a positive score.

    The Okapi BM25 formula itself belongs to a library and is a parameter
    here: a function giving the score of document `i` of a corpus for a
    list of query tokens. Everything the store does around that score
    (tokenising, pairing scores with chunks, the stable descending sort,
    the `top_k` slice and the positivity filter) is modelled. */
module KeywordStore {
  import opened Basics
  import opened Text
  import opened Chunker

  // ---------------------------------------------------------------------
  // Tokenising
  // ---------------------------------------------------------------------

  /** `re.findall(r"\w+", text.lower())`: the maximal runs of word
      characters of the lower-cased text. */
  function Tokenize(text: string): (tokens: seq<string>)
    ensures forall k :: 0 <= k < |tokens| ==> IsRun(tokens[k], IsWordChar)
    ensures forall k, i :: 0 <= k < |tokens| && 0 <= i < |tokens[k]| ==> !IsUpper(tokens[k][i])
  {
    var low := Lower(text);
    RunsKeep(low, IsWordChar, c => !IsUpper(c));
    Runs(low, IsWordChar)
  }

  /** A token as the tokenizer produces it: a non-empty run of lower-case
      word characters. */
  predicate IsToken(w: string) {
    IsRun(w, IsWordChar) && forall i :: 0 <= i < |w| ==> !IsUpper(w[i])
  }

  /** Tokenising ignores case. */
  lemma TokenizeIgnoresCase(text: string)
    ensures Tokenize(Lower(text)) == Tokenize(text)
  {
    LowerIdempotent(text);
  }

  /** Lower-casing leaves a text without upper-case letters as it is. */
  lemma LowerKeeps(s: string)
    requires forall i :: 0 <= i < |s| ==> !IsUpper(s[i])
    ensures Lower(s) == s
  {
  }

  /** Every character of a join comes from a part or from the separator. */
  lemma {:induction false} JoinKeeps(ws: seq<string>, sep: string, good: char -> bool)
    requires forall k, i :: 0 <= k < |ws| && 0 <= i < |ws[k]| ==> good(ws[k][i])
    requires forall i :: 0 <= i < |sep| ==> good(sep[i])
    ensures forall i :: 0 <= i < |Join(ws, sep)| ==> good(Join(ws, sep)[i])
    decreases |ws|
  {
    if |ws| > 1 {
      JoinKeeps(ws[1..], sep, good);
      var rest := Join(ws[1..], sep);
      assert Join(ws, sep) == ws[0] + sep + rest;
      forall i | 0 <= i < |Join(ws, sep)|
        ensures good(Join(ws, sep)[i])
      {
        if i < |ws[0]| {
          assert Join(ws, sep)[i] == ws[0][i];
        } else if i < |ws[0]| + |sep| {
          assert Join(ws, sep)[i] == sep[i - |ws[0]|];
        } else {
          assert Join(ws, sep)[i] == rest[i - |ws[0]| - |sep|];
        }
      }
    } else if |ws| == 1 {
      assert Join(ws, sep) == ws[0];
    }
  }

  /** Tokenising a space-separated list of tokens gives the list back. */
  lemma TokenizeJoin(tokens: seq<string>)
    requires forall k :: 0 <= k < |tokens| ==> IsToken(tokens[k])
    ensures Tokenize(Join(tokens, " ")) == tokens
  {
    var s := Join(tokens, " ");
    JoinKeeps(tokens, " ", c => !IsUpper(c));
    LowerKeeps(s);
    RunsOfJoin(tokens, ' ', IsWordChar);
  }

  /** Tokenising is idempotent: re-tokenising the tokens, joined by
      spaces, changes nothing. */
  lemma TokenizeIdempotent(text: string)
    ensures Tokenize(Join(Tokenize(text), " ")) == Tokenize(text)
  {
    TokenizeJoin(Tokenize(text));
  }

  // ---------------------------------------------------------------------
  // The store
  // ---------------------------------------------------------------------

  /** `self.corpus`, `self.chunks`, and whether `self.bm25` has been built. */
  datatype Store = Store(corpus: seq<seq<string>>, chunks: seq<Chunk>, built: bool)

  /** The corpus holds, position by position, the tokens of the chunks. */
  predicate Valid(st: Store) {
    && |st.corpus| == |st.chunks|
    && forall i :: 0 <= i < |st.chunks| ==> st.corpus[i] == Tokenize(st.chunks[i].text)
  }

  /** `BM25Store()`: nothing stored, no index built. */
  function NewStore(): (st: Store)
    ensures Valid(st) && !st.built && st.chunks == []
  {
    Store([], [], false)
  }

  function TokenLists(chunks: seq<Chunk>): (ts: seq<seq<string>>)
    ensures |ts| == |chunks|
    ensures forall i :: 0 <= i < |chunks| ==> ts[i] == Tokenize(chunks[i].text)
  {
    seq(|chunks|, i requires 0 <= i < |chunks| => Tokenize(chunks[i].text))
  }

  /** `add_chunks(chunks)`: the chunks and their tokens are appended and the
      index is rebuilt over the whole corpus. */
  function AddChunks(st: Store, chunks: seq<Chunk>): (r: Store)
    ensures Valid(st) ==> Valid(r)
    ensures r.built
    ensures |r.chunks| == |st.chunks| + |chunks|
    ensures r.chunks[..|st.chunks|] == st.chunks && r.chunks[|st.chunks|..] == chunks
    ensures |r.corpus| == |st.corpus| + |chunks| && r.corpus[..|st.corpus|] == st.corpus
  {
    var r := Store(st.corpus + TokenLists(chunks), st.chunks + chunks, true);
    assert r.chunks[..|st.chunks|] == st.chunks && r.chunks[|st.chunks|..] == chunks;
    assert r.corpus[..|st.corpus|] == st.corpus;
    r
  }

  /** Adding in two calls stores the same as adding everything in one. */
  lemma AddChunksTwice(st: Store, a: seq<Chunk>, b: seq<Chunk>)
    ensures AddChunks(AddChunks(st, a), b) == AddChunks(st, a + b)
  {
    assert TokenLists(a) + TokenLists(b) == TokenLists(a + b);
    assert st.chunks + a + b == st.chunks + (a + b);
    assert st.corpus + TokenLists(a) + TokenLists(b) == st.corpus + (TokenLists(a) + TokenLists(b));
  }

  // ---------------------------------------------------------------------
  // Ranking
  // ---------------------------------------------------------------------

  /** `score(corpus, query_tokens, i)`: the relevance of document `i`. */
  type Scorer = (seq<seq<string>>, seq<string>, nat) -> real

  /** `zip(scores, self.chunks)` keeps the shorter of the two lengths. */
  function Paired(st: Store): nat {
    Min(|st.corpus|, |st.chunks|)
  }

  function Scores(st: Store, query: seq<string>, score: Scorer): (s: seq<real>)
    ensures |s| == Paired(st)
    ensures forall i :: 0 <= i < |s| ==> s[i] == score(st.corpus, query, i)
  {
    seq(Paired(st), i requires 0 <= i < Paired(st) => score(st.corpus, query, i))
  }

  /** Position `i` comes before position `j` in `sorted(..., reverse=True)`
      by score: a higher score first, equal scores in their original order
      (Python's sort is stable, also when reversed). */
  predicate Before(s: seq<real>, i: nat, j: nat) {
    i < |s| && j < |s| && (s[i] > s[j] || (s[i] == s[j] && i < j))
  }

  /** `r` lists positions strictly in `Before` order. */
  predicate Ranked(s: seq<real>, r: seq<nat>) {
    forall a, b :: 0 <= a < b < |r| ==> Before(s, r[a], r[b])
  }

  /** A position that comes before every element of a ranked list can be
      put in front of it. */
  lemma ConsRanked(s: seq<real>, x: nat, q: seq<nat>)
    requires Ranked(s, q)
    requires forall y :: y in q ==> Before(s, x, y)
    ensures Ranked(s, [x] + q)
  {
    var c := [x] + q;
    forall a, b | 0 <= a < b < |c|
      ensures Before(s, c[a], c[b])
    {
      if a == 0 {
        assert c[b] == q[b - 1];
      } else {
        assert c[a] == q[a - 1] && c[b] == q[b - 1];
      }
    }
  }

  /** The head of a ranked list comes before everything in its tail. */
  lemma HeadBefore(s: seq<real>, r: seq<nat>, y: nat)
    requires Ranked(s, r) && r != [] && y in r[1..]
    ensures Before(s, r[0], y)
  {
    var m :| 0 <= m < |r[1..]| && r[1..][m] == y;
    assert r[m + 1] == y;
  }

  /** Inserting `x` in front of the first position it comes before. */
  function Insert(s: seq<real>, x: nat, r: seq<nat>): (q: seq<nat>)
    ensures |q| == |r| + 1
    ensures forall i :: i in q <==> i in r || i == x
    decreases |r|
  {
    if r == [] then [x]
    else if Before(s, x, r[0]) then [x] + r
    else
      var rest := Insert(s, x, r[1..]);
      assert forall i :: i in r <==> i == r[0] || i in r[1..] by {
        assert r == [r[0]] + r[1..];
      }
      [r[0]] + rest
  }

  /** Two different positions are ordered one way or the other. */
  lemma BeforeTotal(s: seq<real>, i: nat, j: nat)
    requires i < |s| && j < |s| && i != j
    ensures Before(s, i, j) || Before(s, j, i)
  {
  }

  lemma {:induction false} InsertRanked(s: seq<real>, x: nat, r: seq<nat>)
    requires x < |s| && x !in r
    requires forall y :: y in r ==> y < |s|
    requires Ranked(s, r)
    ensures Ranked(s, Insert(s, x, r))
    decreases |r|
  {
    if r == [] {
    } else if Before(s, x, r[0]) {
      forall y | y in r
        ensures Before(s, x, y)
      {
        if y != r[0] {
          assert r == [r[0]] + r[1..];
          HeadBefore(s, r, y);
        }
      }
      ConsRanked(s, x, r);
    } else {
      var rest := Insert(s, x, r[1..]);
      assert Ranked(s, r[1..]);
      assert forall y :: y in r[1..] ==> y in r;
      InsertRanked(s, x, r[1..]);
      assert r[0] in r;
      BeforeTotal(s, x, r[0]);
      forall y | y in rest
        ensures Before(s, r[0], y)
      {
        if y != x {
          HeadBefore(s, r, y);
        }
      }
      ConsRanked(s, r[0], rest);
    }
  }

  /** Positions `0 .. k - 1`, ranked by insertion. */
  function SortUpTo(s: seq<real>, k: nat): (r: seq<nat>)
    requires k <= |s|
    ensures |r| == k
    ensures forall i: nat :: i in r <==> i < k
    ensures Ranked(s, r)
  {
    if k == 0 then []
    else
      var r := SortUpTo(s, k - 1);
      InsertRanked(s, k - 1, r);
      Insert(s, k - 1, r)
  }

  /** `ranked`: every position exactly once, best score first. */
  function Rank(s: seq<real>): (r: seq<nat>)
    ensures |r| == |s|
    ensures forall i: nat :: i in r <==> i < |s|
    ensures forall a, b :: 0 <= a < b < |r| ==> r[a] != r[b]
    ensures Ranked(s, r)
  {
    SortUpTo(s, |s|)
  }

  /** Ranked positions have non-increasing scores, and equal scores keep the
      original order. */
  lemma RankedDescending(s: seq<real>, r: seq<nat>, a: nat, b: nat)
    requires Ranked(s, r)
    requires a < b < |r|
    ensures r[a] < |s| && r[b] < |s|
    ensures s[r[a]] >= s[r[b]]
    ensures s[r[a]] == s[r[b]] ==> r[a] < r[b]
  {
  }

  // ---------------------------------------------------------------------
  // Searching
  // ---------------------------------------------------------------------

  /** End of Python's `ranked[:top_k]` on a list of length `n`: a negative
      `top_k` counts from the end. */
  function SliceEnd(n: nat, topK: int): (e: nat)
    ensures e <= n
    ensures topK >= 0 ==> e <= topK
    ensures topK >= n ==> e == n
    ensures 0 <= topK <= n ==> e == topK
    ensures topK < 0 && n + topK >= 0 ==> e == n + topK
    ensures n + topK < 0 ==> e == 0
  {
    if topK >= 0 then Min(topK, n) else Max(n + topK, 0)
  }

  /** `[... if score > 0]`: the positions with a positive score, in order. */
  function Positive(s: seq<real>, r: seq<nat>): (q: seq<nat>)
    ensures |q| <= |r|
    ensures forall j :: 0 <= j < |q| ==> q[j] < |s| && s[q[j]] > 0.0 && q[j] in r
    ensures forall i :: i in r && i < |s| && s[i] > 0.0 ==> i in q
    decreases |r|
  {
    if r == [] then []
    else
      var rest := Positive(s, r[1..]);
      assert forall i :: i in r[1..] ==> i in r;
      assert forall i :: i in r ==> i == r[0] || i in r[1..];
      if r[0] < |s| && s[r[0]] > 0.0 then [r[0]] + rest else rest
  }

  /** Filtering keeps the ranking order. */
  lemma {:induction false} PositiveRanked(s: seq<real>, r: seq<nat>)
    requires Ranked(s, r)
    ensures Ranked(s, Positive(s, r))
    decreases |r|
  {
    if r != [] {
      var rest := Positive(s, r[1..]);
      assert Ranked(s, r[1..]);
      PositiveRanked(s, r[1..]);
      if r[0] < |s| && s[r[0]] > 0.0 {
        forall y | y in rest
          ensures Before(s, r[0], y)
        {
          HeadBefore(s, r, y);
        }
        ConsRanked(s, r[0], rest);
      }
    }
  }

  /** In a ranked list, whatever is inside a prefix comes before whatever
      is left outside it. */
  lemma PrefixBefore(s: seq<real>, r: seq<nat>, e: nat, x: nat, y: nat)
    requires Ranked(s, r) && e <= |r|
    requires x in r[..e] && y in r && y !in r[..e]
    ensures Before(s, x, y)
  {
    var m :| 0 <= m < e && r[..e][m] == x;
    var p :| 0 <= p < |r| && r[p] == y;
    assert r[m] == x;
  }

  /** The positions `search` returns: none before the index is built;
      otherwise the positive-scored among the first `top_k` ranked. */
  function SearchHits(st: Store, query: string, topK: int, score: Scorer): (h: seq<nat>)
    ensures !st.built ==> h == []
    ensures |h| <= SliceEnd(Paired(st), topK)
    ensures forall j :: 0 <= j < |h| ==> h[j] < Paired(st)
    ensures forall j :: 0 <= j < |h| ==> Scores(st, Tokenize(query), score)[h[j]] > 0.0
  {
    if !st.built then []
    else
      var s := Scores(st, Tokenize(query), score);
      var r := Rank(s);
      Positive(s, r[..SliceEnd(|r|, topK)])
  }

  /** The hits are in ranking order: scores never increase along the
      result, and chunks with equal scores keep their insertion order. */
  lemma HitsRanked(st: Store, query: string, topK: int, score: Scorer)
    ensures Ranked(Scores(st, Tokenize(query), score), SearchHits(st, query, topK, score))
  {
    if st.built {
      var s := Scores(st, Tokenize(query), score);
      var r := Rank(s);
      var e := SliceEnd(|r|, topK);
      assert Ranked(s, r[..e]);
      PositiveRanked(s, r[..e]);
    }
  }

  /** A positive-scored chunk is a hit exactly when it is among the first
      `top_k` of the ranking; every one left out ranks below every hit, and
      with `top_k` at least the number of chunks none is left out. */
  lemma HitsComplete(st: Store, query: string, topK: int, score: Scorer, i: nat)
    requires st.built
    requires i < Paired(st) && Scores(st, Tokenize(query), score)[i] > 0.0
    ensures var h := SearchHits(st, query, topK, score);
            && (i in h <==> i in Rank(Scores(st, Tokenize(query), score))[..SliceEnd(Paired(st), topK)])
            && (i !in h ==> forall j :: 0 <= j < |h| ==> Before(Scores(st, Tokenize(query), score), h[j], i))
            && (topK >= Paired(st) ==> i in h)
  {
    var s := Scores(st, Tokenize(query), score);
    var r := Rank(s);
    var e := SliceEnd(|r|, topK);
    var h := SearchHits(st, query, topK, score);
    assert h == Positive(s, r[..e]);
    if i !in h {
      forall j | 0 <= j < |h|
        ensures Before(s, h[j], i)
      {
        PrefixBefore(s, r, e, h[j], i);
      }
    }
    if topK >= Paired(st) {
      assert r[..e] == r;
    }
  }

  /** `search(query, top_k)`: the chunks at the hit positions, in order. */
  function Search(st: Store, query: string, topK: int, score: Scorer): (r: seq<Chunk>)
    ensures !st.built ==> r == []
    ensures |r| <= SliceEnd(Paired(st), topK)
    ensures topK >= 0 ==> |r| <= topK
    ensures forall c :: c in r ==> c in st.chunks
  {
    var h := SearchHits(st, query, topK, score);
    var r := seq(|h|, j requires 0 <= j < |h| => st.chunks[h[j]]);
    assert forall c :: c in r ==> exists j :: 0 <= j < |h| && c == st.chunks[h[j]];
    r
  }
}
