/**
 * The semantic chunker of src/mastra/tools/pdf-ingest.ts:192-228. Starting at
 * sentence `i`, it tries every end `j` among the next nine sentences while
 * the summed sentence lengths of `i..j` stay within the size bound, scores
 * each window by the sum of its pairwise similarities, and ends the chunk at
 * the best-scoring window, the earliest one on ties. With no window to try,
 * the chunk is sentence `i` alone.
 *
 * The similarity of sentences `k` and `l` (the cosine of their embeddings) is
 * the parameter `sim`.
 */
module Chunker {
  import opened Wrappers
  import opened Strings
  import opened Whitespace
  import opened Sentences

  /** A window holds at most this many sentences. */
  const Lookahead: nat := 10

  /** The size bound the chunker is built with when none is given. */
  const DefaultMaxChunkSize: nat := 200

  /** `[start, end]`: the chunk holds sentences `start` to `end`, both included. */
  datatype ChunkRange = ChunkRange(start: nat, end: nat)

  /** Summed length of `sentences[lo..hi]`. */
  function SizeRange(sentences: seq<string>, lo: nat, hi: nat): nat
    requires lo <= hi <= |sentences|
    decreases hi
  {
    if hi == lo then 0 else SizeRange(sentences, lo, hi - 1) + |sentences[hi - 1]|
  }

  /** A longer window is never smaller. */
  lemma {:induction false} SizeMonotone(sentences: seq<string>, lo: nat, h1: nat, h2: nat)
    requires lo <= h1 <= h2 <= |sentences|
    ensures SizeRange(sentences, lo, h1) <= SizeRange(sentences, lo, h2)
    decreases h2
  {
    if h1 < h2 {
      SizeMonotone(sentences, lo, h1, h2 - 1);
    }
  }

  // ---------------------------------------------------------------- window score

  /** The similarities of sentence `k` with sentences `k+1..hi`. */
  function RowScore(sim: (nat, nat) -> real, k: nat, hi: nat): real
    decreases hi
  {
    if hi <= k then 0.0 else RowScore(sim, k, hi - 1) + sim(k, hi)
  }

  /** The rows of the window `[i, j]` that start at `i..kHi-1`. */
  function PairsScore(sim: (nat, nat) -> real, i: nat, kHi: nat, j: nat): real
    decreases kHi
  {
    if kHi <= i then 0.0 else PairsScore(sim, i, kHi - 1, j) + RowScore(sim, kHi - 1, j)
  }

  /** The score of the window `[i, j]`: the similarities of all its pairs `k < l`. */
  function Cohesion(sim: (nat, nat) -> real, i: nat, j: nat): real
  {
    PairsScore(sim, i, j, j)
  }

  /** The number of pairs in a window of `m + 1` sentences. */
  function PairCount(m: nat): (c: nat)
    ensures 2 * c == m * (m + 1)
  {
    if m == 0 then 0 else PairCount(m - 1) + m
  }

  lemma {:induction false} RowScoreOfUnit(sim: (nat, nat) -> real, k: nat, hi: nat)
    requires forall a: nat, b: nat :: sim(a, b) == 1.0
    requires k <= hi
    ensures RowScore(sim, k, hi) == (hi - k) as real
    decreases hi
  {
    if hi > k {
      RowScoreOfUnit(sim, k, hi - 1);
    }
  }

  lemma {:induction false} PairsScoreOfUnit(sim: (nat, nat) -> real, i: nat, kHi: nat, j: nat)
    requires forall a: nat, b: nat :: sim(a, b) == 1.0
    requires i <= kHi <= j
    ensures PairsScore(sim, i, kHi, j) == (PairCount(j - i) - PairCount(j - kHi)) as real
    decreases kHi
  {
    if kHi > i {
      PairsScoreOfUnit(sim, i, kHi - 1, j);
      RowScoreOfUnit(sim, kHi - 1, j);
      assert PairCount(j - (kHi - 1)) == PairCount(j - kHi) + (j - kHi + 1);
    }
  }

  /**
   * The number of terms of a window's score: with unit similarities a window
   * of `w` sentences scores `w(w-1)/2`.
   */
  lemma CohesionCountsEachPairOnce(sim: (nat, nat) -> real, i: nat, j: nat)
    requires forall a: nat, b: nat :: sim(a, b) == 1.0
    requires i <= j
    ensures 2.0 * Cohesion(sim, i, j) == ((j - i) * (j - i + 1)) as real
  {
    PairsScoreOfUnit(sim, i, j, j);
  }

  lemma {:induction false} RowScoreOfPair(sim: (nat, nat) -> real, k0: nat, l0: nat, k: nat, hi: nat)
    requires forall a: nat, b: nat :: sim(a, b) == if a == k0 && b == l0 then 1.0 else 0.0
    ensures RowScore(sim, k, hi) == if k == k0 && k < l0 <= hi then 1.0 else 0.0
    decreases hi
  {
    if hi > k {
      RowScoreOfPair(sim, k0, l0, k, hi - 1);
    }
  }

  lemma {:induction false} PairsScoreOfPair(sim: (nat, nat) -> real, k0: nat, l0: nat, i: nat, kHi: nat, j: nat)
    requires forall a: nat, b: nat :: sim(a, b) == if a == k0 && b == l0 then 1.0 else 0.0
    ensures PairsScore(sim, i, kHi, j) == if i <= k0 < kHi && k0 < l0 <= j then 1.0 else 0.0
    decreases kHi
  {
    if kHi > i {
      PairsScoreOfPair(sim, k0, l0, i, kHi - 1, j);
      RowScoreOfPair(sim, k0, l0, kHi - 1, j);
    }
  }

  /**
   * Which pairs the window score sums: with a similarity that is 1 on the
   * single pair `(k0, l0)` and 0 elsewhere, the window `[i, j]` scores 1
   * exactly when `i <= k0 < l0 <= j`. So every pair `k < l` of the window is
   * summed once, and no other pair (no `(k, k)`, no pair reaching outside
   * the window, no pair in the reverse order) is summed at all.
   */
  lemma CohesionPicksPairsOfWindow(sim: (nat, nat) -> real, k0: nat, l0: nat, i: nat, j: nat)
    requires forall a: nat, b: nat :: sim(a, b) == if a == k0 && b == l0 then 1.0 else 0.0
    ensures Cohesion(sim, i, j) == if i <= k0 < l0 <= j then 1.0 else 0.0
  {
    PairsScoreOfPair(sim, k0, l0, i, j, j);
  }

  /** The double loop that scores one window. */
  method WindowScore(sim: (nat, nat) -> real, i: nat, j: nat) returns (score: real)
    requires i <= j
    ensures score == Cohesion(sim, i, j)
  {
    score := 0.0;
    for k := i to j
      invariant score == PairsScore(sim, i, k, j)
    {
      for l := k + 1 to j + 1
        invariant score == PairsScore(sim, i, k, j) + RowScore(sim, k, l - 1)
      {
        score := score + sim(k, l);
      }
    }
  }

  // ---------------------------------------------------------------- choosing one chunk

  /** `[i, j]` is a window the chunker scores: within the lookahead and the size bound. */
  predicate IsCandidate(sentences: seq<string>, maxSize: nat, i: nat, j: nat)
  {
    i < j < Min(i + Lookahead, |sentences|) && SizeRange(sentences, i, j + 1) <= maxSize
  }

  /**
   * The chunk starting at `i` ends at `e`: at `i` itself when no window is a
   * candidate, otherwise at the candidate with the greatest score, the earliest
   * one among equals.
   */
  ghost predicate IsBestEnd(sentences: seq<string>, sim: (nat, nat) -> real, maxSize: nat, i: nat, e: nat)
  {
    && i <= e < |sentences|
    && (e == i ==> forall j: nat :: !IsCandidate(sentences, maxSize, i, j))
    && (e != i ==>
          && IsCandidate(sentences, maxSize, i, e)
          && (forall j: nat :: IsCandidate(sentences, maxSize, i, j) && j < e ==> Cohesion(sim, i, j) < Cohesion(sim, i, e))
          && (forall j: nat :: IsCandidate(sentences, maxSize, i, j) && j > e ==> Cohesion(sim, i, j) <= Cohesion(sim, i, e)))
  }

  /** Once the window `[i, j]` is over the bound, so is every longer one. */
  lemma TooLongStaysTooLong(sentences: seq<string>, maxSize: nat, i: nat, j: nat)
    requires i < j < |sentences| && SizeRange(sentences, i, j + 1) > maxSize
    ensures forall j': nat :: j <= j' ==> !IsCandidate(sentences, maxSize, i, j')
  {
    forall j': nat | j <= j' ensures !IsCandidate(sentences, maxSize, i, j') {
      if j' < |sentences| {
        SizeMonotone(sentences, i, j + 1, j' + 1);
      }
    }
  }

  /**
   * One turn of the outer loop: the end of the chunk that starts at `i`.
   * `maxSim` is `None` while it still holds minus infinity.
   */
  method ChooseChunkEnd(sentences: seq<string>, sim: (nat, nat) -> real, maxSize: nat, i: nat)
    returns (bestJ: nat)
    requires i < |sentences|
    ensures IsBestEnd(sentences, sim, maxSize, i, bestJ)
  {
    bestJ := i;
    var maxSim: Option<real> := None;
    var chunkSize := |sentences[i]|;
    assert SizeRange(sentences, i, i + 1) == chunkSize;
    var hi := Min(i + Lookahead, |sentences|);
    var j := i + 1;
    while j < hi
      invariant i + 1 <= j <= hi
      invariant chunkSize == SizeRange(sentences, i, j)
      invariant i <= bestJ < j
      invariant forall j' :: i < j' < j ==> IsCandidate(sentences, maxSize, i, j')
      invariant maxSim == None <==> bestJ == i
      invariant maxSim == None ==> j == i + 1
      invariant bestJ != i ==>
        && maxSim == Some(Cohesion(sim, i, bestJ))
        && (forall j' :: i < j' < bestJ ==> Cohesion(sim, i, j') < Cohesion(sim, i, bestJ))
        && (forall j' :: bestJ < j' < j ==> Cohesion(sim, i, j') <= Cohesion(sim, i, bestJ))
      decreases hi - j
    {
      chunkSize := chunkSize + |sentences[j]|;
      if chunkSize > maxSize {
        TooLongStaysTooLong(sentences, maxSize, i, j);
        BestSoFarIsBest(sentences, sim, maxSize, i, bestJ, j);
        break;
      }
      var score := WindowScore(sim, i, j);
      if maxSim == None || score > maxSim.value {
        maxSim := Some(score);
        bestJ := j;
      }
      j := j + 1;
    }
    if j == hi {
      BestSoFarIsBest(sentences, sim, maxSize, i, bestJ, j);
    }
  }

  /**
   * When every window up to `j` was tried and none from `j` on is a
   * candidate, the best window so far is the best end.
   */
  lemma BestSoFarIsBest(sentences: seq<string>, sim: (nat, nat) -> real, maxSize: nat, i: nat, bestJ: nat, j: nat)
    requires i <= bestJ < j <= |sentences|
    requires bestJ == i ==> j == i + 1
    requires forall j' :: i < j' < j ==> IsCandidate(sentences, maxSize, i, j')
    requires forall j': nat :: j <= j' ==> !IsCandidate(sentences, maxSize, i, j')
    requires bestJ != i ==>
      && (forall j' :: i < j' < bestJ ==> Cohesion(sim, i, j') < Cohesion(sim, i, bestJ))
      && (forall j' :: bestJ < j' < j ==> Cohesion(sim, i, j') <= Cohesion(sim, i, bestJ))
    ensures IsBestEnd(sentences, sim, maxSize, i, bestJ)
  {
  }

  // ---------------------------------------------------------------- the whole chunking

  /** The chunks cover `0..to-1` in order, each one non-empty, without gap or overlap. */
  predicate PartitionUpTo(chunks: seq<ChunkRange>, to: nat)
  {
    && (chunks == [] <==> to == 0)
    && (chunks != [] ==> chunks[0].start == 0 && chunks[|chunks| - 1].end + 1 == to)
    && (forall c :: 0 <= c < |chunks| ==> chunks[c].start <= chunks[c].end < to)
    && (forall c :: 0 < c < |chunks| ==> chunks[c].start == chunks[c - 1].end + 1)
  }

  /** What `dynamicProgrammingChunk` computes: a partition whose every chunk ends at its best end. */
  ghost predicate IsGreedyChunking(sentences: seq<string>, sim: (nat, nat) -> real, maxSize: nat, chunks: seq<ChunkRange>)
  {
    && PartitionUpTo(chunks, |sentences|)
    && forall c :: 0 <= c < |chunks| ==> IsBestEnd(sentences, sim, maxSize, chunks[c].start, chunks[c].end)
  }

  method DynamicProgrammingChunk(sentences: seq<string>, sim: (nat, nat) -> real, maxSize: nat)
    returns (chunks: seq<ChunkRange>)
    ensures IsGreedyChunking(sentences, sim, maxSize, chunks)
  {
    chunks := [];
    var i := 0;
    while i < |sentences|
      invariant i <= |sentences|
      invariant PartitionUpTo(chunks, i)
      invariant forall c :: 0 <= c < |chunks| ==> IsBestEnd(sentences, sim, maxSize, chunks[c].start, chunks[c].end)
      decreases |sentences| - i
    {
      var bestJ := ChooseChunkEnd(sentences, sim, maxSize, i);
      chunks := chunks + [ChunkRange(i, bestJ)];
      i := bestJ + 1;
    }
  }

  /** The best end of a chunk is determined by where it starts. */
  lemma BestEndUnique(sentences: seq<string>, sim: (nat, nat) -> real, maxSize: nat, i: nat, e1: nat, e2: nat)
    requires IsBestEnd(sentences, sim, maxSize, i, e1)
    requires IsBestEnd(sentences, sim, maxSize, i, e2)
    ensures e1 == e2
  {
    if e1 != i && e2 != i {
      assert IsCandidate(sentences, maxSize, i, e1) && IsCandidate(sentences, maxSize, i, e2);
    }
  }

  /** There is exactly one greedy chunking: the specification pins the result down. */
  lemma GreedyChunkingUnique(sentences: seq<string>, sim: (nat, nat) -> real, maxSize: nat, c1: seq<ChunkRange>, c2: seq<ChunkRange>)
    requires IsGreedyChunking(sentences, sim, maxSize, c1)
    requires IsGreedyChunking(sentences, sim, maxSize, c2)
    ensures c1 == c2
  {
    var m := if |c1| < |c2| then |c1| else |c2|;
    for c := 0 to m
      invariant c1[..c] == c2[..c]
    {
      assert c1[c].start == c2[c].start by {
        if c > 0 {
          assert c1[c - 1] == c1[..c][c - 1] == c2[..c][c - 1] == c2[c - 1];
        }
      }
      BestEndUnique(sentences, sim, maxSize, c1[c].start, c1[c].end, c2[c].end);
      assert c1[..c + 1] == c1[..c] + [c1[c]];
      assert c2[..c + 1] == c2[..c] + [c2[c]];
    }
    if m > 0 {
      // the shorter list already reaches the last sentence, so the longer one has nothing left
      assert c1[m - 1] == c1[..m][m - 1] == c2[..m][m - 1] == c2[m - 1];
      var longer := if |c1| <= |c2| then c2 else c1;
      PartitionEndsAtLast(longer, |sentences|, m - 1);
    }
    assert c1 == c1[..m] && c2 == c2[..m];
  }

  /**
   * Every chunk holds at most `Lookahead` sentences, and one of two or more
   * sentences has summed sentence length within the bound.
   */
  lemma GreedyChunkBounds(sentences: seq<string>, sim: (nat, nat) -> real, maxSize: nat, chunks: seq<ChunkRange>, c: nat)
    requires IsGreedyChunking(sentences, sim, maxSize, chunks)
    requires c < |chunks|
    ensures chunks[c].end - chunks[c].start < Lookahead
    ensures chunks[c].start < chunks[c].end ==> SizeRange(sentences, chunks[c].start, chunks[c].end + 1) <= maxSize
  {
    assert IsBestEnd(sentences, sim, maxSize, chunks[c].start, chunks[c].end);
  }

  /**
   * A chunk is a single sentence exactly when the sentence is the last one or
   * together with the next one it exceeds the bound; an overlong sentence is
   * never split and never joined.
   */
  lemma SingleSentenceChunk(sentences: seq<string>, sim: (nat, nat) -> real, maxSize: nat, i: nat)
    requires i < |sentences|
    ensures IsBestEnd(sentences, sim, maxSize, i, i)
      <==> i + 1 == |sentences| || |sentences[i]| + |sentences[i + 1]| > maxSize
  {
    if i + 1 < |sentences| {
      assert SizeRange(sentences, i, i + 2) == |sentences[i]| + |sentences[i + 1]| by {
        assert SizeRange(sentences, i, i + 1) == |sentences[i]|;
      }
      if |sentences[i]| + |sentences[i + 1]| > maxSize {
        forall j | i < j < |sentences| ensures !IsCandidate(sentences, maxSize, i, j) {
          SizeMonotone(sentences, i, i + 2, j + 1);
        }
      } else {
        assert IsCandidate(sentences, maxSize, i, i + 1);
      }
    }
  }

  // ---------------------------------------------------------------- chunk texts

  /** Every range lies within the sentence list. */
  predicate InBounds(n: nat, chunks: seq<ChunkRange>)
  {
    forall c :: 0 <= c < |chunks| ==> chunks[c].start <= chunks[c].end < n
  }

  /** The text of every chunk: its sentences joined by single spaces. */
  function ChunkStrings(sentences: seq<string>, chunks: seq<ChunkRange>): seq<string>
    requires InBounds(|sentences|, chunks)
  {
    seq(|chunks|, c requires 0 <= c < |chunks| => Join(" ", sentences[chunks[c].start..chunks[c].end + 1]))
  }

  /** The length of a joined window: its sentence lengths plus one space between neighbours. */
  lemma {:induction false} JoinLength(sentences: seq<string>, lo: nat, hi: nat)
    requires lo < hi <= |sentences|
    ensures |Join(" ", sentences[lo..hi])| == SizeRange(sentences, lo, hi) + (hi - lo - 1)
    decreases hi
  {
    if hi - lo == 1 {
      assert sentences[lo..hi] == [sentences[lo]];
      assert SizeRange(sentences, lo, hi - 1) == 0;
    } else {
      JoinLength(sentences, lo, hi - 1);
      assert sentences[lo..hi] == sentences[lo..hi - 1] + [sentences[hi - 1]];
      JoinAppend(" ", sentences[lo..hi - 1], [sentences[hi - 1]]);
    }
  }

  /**
   * A chunk of two or more sentences is at most `maxSize + Lookahead - 1`
   * characters long: the bound limits the sentences, not the spaces between them.
   */
  lemma ChunkStringBounded(sentences: seq<string>, sim: (nat, nat) -> real, maxSize: nat, chunks: seq<ChunkRange>, c: nat)
    requires IsGreedyChunking(sentences, sim, maxSize, chunks)
    requires c < |chunks| && chunks[c].start < chunks[c].end
    ensures |ChunkStrings(sentences, chunks)[c]| <= maxSize + Lookahead - 1
  {
    GreedyChunkBounds(sentences, sim, maxSize, chunks, c);
    JoinLength(sentences, chunks[c].start, chunks[c].end + 1);
  }

  /** Chunks come in order: each one ends at least one sentence after the one before. */
  lemma {:induction false} EndsIncrease(chunks: seq<ChunkRange>, to: nat, c: nat, d: nat)
    requires PartitionUpTo(chunks, to)
    requires c <= d < |chunks|
    ensures chunks[c].end + (d - c) <= chunks[d].end
    decreases d - c
  {
    if c < d {
      EndsIncrease(chunks, to, c, d - 1);
    }
  }

  /** Only the last chunk reaches the end of the covered range. */
  lemma PartitionEndsAtLast(chunks: seq<ChunkRange>, to: nat, c: nat)
    requires PartitionUpTo(chunks, to)
    requires c < |chunks| && chunks[c].end + 1 == to
    ensures c == |chunks| - 1
  {
    EndsIncrease(chunks, to, c, |chunks| - 1);
  }

  /** Without its last chunk, a partition up to `to` is a partition up to the last chunk's start. */
  lemma PartitionInit(chunks: seq<ChunkRange>, to: nat)
    requires PartitionUpTo(chunks, to) && chunks != []
    ensures PartitionUpTo(chunks[..|chunks| - 1], chunks[|chunks| - 1].start)
  {
    var m := |chunks| - 1;
    var init := chunks[..m];
    forall c | 0 <= c < m ensures init[c].end < chunks[m].start {
      EndsIncrease(chunks, to, c, m - 1);
    }
    assert m > 0 ==> init[m - 1] == chunks[m - 1];
  }

  /** The chunk strings of a partition up to `to`, one more chunk appended. */
  lemma ChunkStringsSnoc(sentences: seq<string>, chunks: seq<ChunkRange>, to: nat)
    requires to <= |sentences|
    requires PartitionUpTo(chunks, to) && chunks != []
    ensures InBounds(|sentences|, chunks)
    ensures ChunkStrings(sentences, chunks)
      == ChunkStrings(sentences, chunks[..|chunks| - 1]) + [Join(" ", sentences[chunks[|chunks| - 1].start..to])]
  {
  }

  /** Joining the two parts of `sentences[..to]`, cut at `mid`. */
  lemma JoinSplit(sentences: seq<string>, mid: nat, to: nat)
    requires mid < to <= |sentences|
    ensures Join(" ", sentences[..to]) == if mid == 0 then Join(" ", sentences[mid..to])
      else Join(" ", sentences[..mid]) + " " + Join(" ", sentences[mid..to])
  {
    if mid == 0 {
      assert sentences[..to] == sentences[mid..to];
    } else {
      assert sentences[..to] == sentences[..mid] + sentences[mid..to];
      JoinAppend(" ", sentences[..mid], sentences[mid..to]);
    }
  }

  /** Joining the chunk texts with spaces gives the sentences joined with spaces. */
  lemma {:induction false} ChunksJoinToSentences(sentences: seq<string>, chunks: seq<ChunkRange>, to: nat)
    requires to <= |sentences|
    requires PartitionUpTo(chunks, to)
    ensures InBounds(|sentences|, chunks)
    ensures Join(" ", ChunkStrings(sentences, chunks)) == Join(" ", sentences[..to])
    decreases |chunks|
  {
    if chunks != [] {
      var m := |chunks| - 1;
      var init := chunks[..m];
      var lastText := Join(" ", sentences[chunks[m].start..to]);
      PartitionInit(chunks, to);
      ChunksJoinToSentences(sentences, init, chunks[m].start);
      ChunkStringsSnoc(sentences, chunks, to);
      JoinSplit(sentences, chunks[m].start, to);
      if init != [] {
        JoinAppend(" ", ChunkStrings(sentences, init), [lastText]);
      }
    }
  }

  /**
   * A worked instance: with "A." and "B." similar and "C." dissimilar to both,
   * the first chunk is "A. B." and "C." stands alone.
   */
  lemma ChunkExample()
    ensures IsGreedyChunking(["A.", "B.", "C."], (k: nat, l: nat) => if k == 0 && l == 1 then 1.0 else -1.0,
                             DefaultMaxChunkSize, [ChunkRange(0, 1), ChunkRange(2, 2)])
  {
    var s := ["A.", "B.", "C."];
    var sim := (k: nat, l: nat) => if k == 0 && l == 1 then 1.0 else -1.0;
    assert SizeRange(s, 0, 3) == 6 by {
      assert SizeRange(s, 0, 1) == 2;
      assert SizeRange(s, 0, 2) == 4;
    }
    assert Cohesion(sim, 0, 1) == 1.0 by {
      assert RowScore(sim, 0, 1) == 1.0;
    }
    assert Cohesion(sim, 0, 2) == -1.0 by {
      assert RowScore(sim, 0, 2) == 0.0 by {
        assert RowScore(sim, 0, 1) == 1.0;
      }
      assert RowScore(sim, 1, 2) == -1.0;
      assert PairsScore(sim, 0, 1, 2) == 0.0;
    }
    assert IsCandidate(s, DefaultMaxChunkSize, 0, 1);
    assert IsCandidate(s, DefaultMaxChunkSize, 0, 2) by {
      SizeMonotone(s, 0, 3, 3);
    }
  }

  /**
   * `chunkText`: the chunks are the sentences of the text grouped by the greedy
   * chunking `ranges`, each chunk its sentences joined by single spaces. They
   * hold the text's non-whitespace characters in order, there are none exactly
   * when the text is blank, and for cleaned-up text joining the chunks with
   * single spaces gives the text back.
   */
  method ChunkText(text: string, sim: (nat, nat) -> real, maxSize: nat)
    returns (chunks: seq<string>, ghost ranges: seq<ChunkRange>)
    ensures IsGreedyChunking(SplitIntoSentences(text), sim, maxSize, ranges)
    ensures InBounds(|SplitIntoSentences(text)|, ranges)
    ensures chunks == ChunkStrings(SplitIntoSentences(text), ranges)
    ensures Strip(Join(" ", chunks)) == Strip(text)
    ensures chunks == [] <==> Strip(text) == ""
    ensures IsNormalized(text) ==> Join(" ", chunks) == text
  {
    var sentences := SplitIntoSentences(text);
    var greedy := DynamicProgrammingChunk(sentences, sim, maxSize);
    ranges := greedy;
    ChunksJoinToSentences(sentences, ranges, |sentences|);
    chunks := ChunkStrings(sentences, greedy);
    assert sentences[..|sentences|] == sentences;
    SentencesKeepText(text);
    StripJoin(" ", sentences);
    if sentences != [] {
      assert Strip(sentences[0]) == [sentences[0][0]] + Strip(sentences[0][1..]);
      assert Concat(sentences) == sentences[0] + Concat(sentences[1..]);
      StripAppend(sentences[0], Concat(sentences[1..]));
    }
    if IsNormalized(text) {
      SplitJoinRoundTrip(text);
    }
  }
}
