/**
 * Ranking in `retrieve_context`: score every entry against the query vector, sort stably by
 * descending score (`list.sort(key=..., reverse=True)`), keep the first `top_k`.
 *
 * Floating point is not modelled: scores are reals, and the dot product and norms behind the
 * cosine similarity are the functions of a `Metric`.
 */
module Retrieval {
  import opened Wrappers
  import opened Embeddings
  import opened Indexing

  /** One ranked result: the entry's uri and content, and its similarity to the query. */
  datatype RetrievedChunk = RetrievedChunk(uri: string, content: string, score: real)

  /** `_cosine_similarity` from its dot product and norms: 0.0 when either norm is zero. */
  function Cosine(dot: real, leftNorm: real, rightNorm: real): (r: real)
    ensures leftNorm == 0.0 || rightNorm == 0.0 ==> r == 0.0
    ensures leftNorm != 0.0 && rightNorm != 0.0 ==> r * (leftNorm * rightNorm) == dot
  {
    if leftNorm == 0.0 || rightNorm == 0.0 then 0.0 else dot / (leftNorm * rightNorm)
  }

  /** The arithmetic the cosine similarity is made of, left abstract. */
  datatype Metric<!E> = Metric(dot: (seq<E>, seq<E>) -> real, norm: seq<E> -> real)

  function CosineSimilarity<E>(m: Metric<E>, left: seq<E>, right: seq<E>): real
  {
    Cosine(m.dot(left, right), m.norm(left), m.norm(right))
  }

  /** The `scored` list: one chunk per entry, in index order, scored against the query vector. */
  function Score<E>(entries: seq<IndexEntry<E>>, query: seq<E>, m: Metric<E>): seq<RetrievedChunk>
  {
    seq(|entries|, i requires 0 <= i < |entries| =>
      RetrievedChunk(entries[i].uri, entries[i].content, CosineSimilarity(m, query, entries[i].embedding)))
  }

  /** An entry whose vector has norm zero scores 0.0. */
  lemma ZeroNormScoresZero<E>(entries: seq<IndexEntry<E>>, query: seq<E>, m: Metric<E>, i: nat)
    requires i < |entries|
    requires m.norm(entries[i].embedding) == 0.0 || m.norm(query) == 0.0
    ensures |Score(entries, query, m)| == |entries|
    ensures Score(entries, query, m)[i] == RetrievedChunk(entries[i].uri, entries[i].content, 0.0)
  {
  }

  ghost predicate Descending(s: seq<RetrievedChunk>)
  {
    forall i, j :: 0 <= i < j < |s| ==> s[i].score >= s[j].score
  }

  /** The chunks of `s` that score exactly `x`, in their order in `s`. */
  function WithScore(s: seq<RetrievedChunk>, x: real): seq<RetrievedChunk>
  {
    if s == [] then [] else (if s[0].score == x then [s[0]] else []) + WithScore(s[1..], x)
  }

  /** Where a stable descending sort puts `x` among the sorted `s`: after every chunk scoring at least as much. */
  function Rank(s: seq<RetrievedChunk>, x: RetrievedChunk): (k: nat)
    ensures k <= |s|
    ensures forall i :: 0 <= i < k ==> s[i].score >= x.score
    ensures k < |s| ==> s[k].score < x.score
  {
    if s == [] || s[0].score < x.score then 0 else 1 + Rank(s[1..], x)
  }

  function Insert(s: seq<RetrievedChunk>, x: RetrievedChunk): seq<RetrievedChunk>
  {
    s[..Rank(s, x)] + [x] + s[Rank(s, x)..]
  }

  /** The order `scored.sort(key=score, reverse=True)` leaves: a stable insertion sort. */
  function SortByScore(s: seq<RetrievedChunk>): seq<RetrievedChunk>
  {
    if s == [] then [] else Insert(SortByScore(s[..|s| - 1]), s[|s| - 1])
  }

  lemma {:induction false} WithScoreAppend(a: seq<RetrievedChunk>, b: seq<RetrievedChunk>, x: real)
    ensures WithScore(a + b, x) == WithScore(a, x) + WithScore(b, x)
  {
    if a != [] {
      assert (a + b)[0] == a[0];
      assert (a + b)[1..] == a[1..] + b;
      WithScoreAppend(a[1..], b, x);
    } else {
      assert a + b == b;
    }
  }

  lemma {:induction false} WithScoreNone(s: seq<RetrievedChunk>, x: real)
    requires forall i :: 0 <= i < |s| ==> s[i].score != x
    ensures WithScore(s, x) == []
  {
    if s != [] {
      WithScoreNone(s[1..], x);
    }
  }

  lemma InsertAt(s: seq<RetrievedChunk>, x: RetrievedChunk)
    ensures var k, t := Rank(s, x), Insert(s, x);
      && |t| == |s| + 1 && t[k] == x
      && (forall i :: 0 <= i < k ==> t[i] == s[i])
      && (forall i :: k < i < |t| ==> t[i] == s[i - 1])
  {
  }

  /** Inserting into a descending sequence keeps it descending. */
  lemma InsertDescending(s: seq<RetrievedChunk>, x: RetrievedChunk)
    requires Descending(s)
    ensures Descending(Insert(s, x))
  {
    var k, t := Rank(s, x), Insert(s, x);
    InsertAt(s, x);
    forall i, j | 0 <= i < j < |t|
      ensures t[i].score >= t[j].score
    {
      if j < k {
      } else if j == k {
      } else if i < k {
        assert t[i] == s[i] && t[j] == s[j - 1];
      } else if i == k {
        assert s[k].score < x.score && s[k].score >= s[j - 1].score;
      } else {
        assert t[i] == s[i - 1] && t[j] == s[j - 1];
      }
    }
  }

  /** Inserting adds `x` and nothing else. */
  lemma InsertMultiset(s: seq<RetrievedChunk>, x: RetrievedChunk)
    ensures multiset(Insert(s, x)) == multiset(s) + multiset{x}
  {
    var k := Rank(s, x);
    assert s == s[..k] + s[k..];
  }

  lemma WithScoreSingle(x: RetrievedChunk, y: real)
    ensures WithScore([x], y) == if x.score == y then [x] else []
  {
    assert [x][1..] == [];
  }

  /** After the insertion point, every chunk scores strictly less than `x`. */
  lemma RankTail(s: seq<RetrievedChunk>, x: RetrievedChunk)
    requires Descending(s)
    ensures forall i :: Rank(s, x) <= i < |s| ==> s[i].score < x.score
  {
  }

  /** Filtering an insertion by score: the part before the insertion point, `x`, then the rest. */
  lemma {:induction false} InsertFilter(s: seq<RetrievedChunk>, x: RetrievedChunk, y: real)
    ensures var k := Rank(s, x);
      && WithScore(Insert(s, x), y) == WithScore(s[..k], y) + WithScore([x], y) + WithScore(s[k..], y)
      && WithScore(s, y) == WithScore(s[..k], y) + WithScore(s[k..], y)
  {
    var k := Rank(s, x);
    var p, q := s[..k], s[k..];
    assert Insert(s, x) == (p + [x]) + q;
    WithScoreAppend(p + [x], q, y);
    WithScoreAppend(p, [x], y);
    assert s == p + q;
    WithScoreAppend(p, q, y);
  }

  /** Nothing after the insertion point ties with `x`. */
  lemma TailHasNoTies(s: seq<RetrievedChunk>, x: RetrievedChunk)
    requires Descending(s)
    ensures WithScore(s[Rank(s, x)..], x.score) == []
  {
    var k := Rank(s, x);
    RankTail(s, x);
    assert forall i :: 0 <= i < |s[k..]| ==> s[k..][i].score != x.score by {
      assert forall i :: 0 <= i < |s[k..]| ==> s[k..][i] == s[k + i];
    }
    WithScoreNone(s[k..], x.score);
  }

  /** Inserting puts `x` after every chunk with the same score. */
  lemma InsertStable(s: seq<RetrievedChunk>, x: RetrievedChunk, y: real)
    requires Descending(s)
    ensures WithScore(Insert(s, x), y) == WithScore(s, y) + (if x.score == y then [x] else [])
  {
    if x.score == y {
      TailHasNoTies(s, x);
    }
    InsertAfterTies(s, x, y);
  }

  /** Inserting `x` keeps the chunks of score `y` in order, when none after the insertion point ties with `x`. */
  lemma InsertAfterTies(s: seq<RetrievedChunk>, x: RetrievedChunk, y: real)
    requires x.score == y ==> WithScore(s[Rank(s, x)..], y) == []
    ensures WithScore(Insert(s, x), y) == WithScore(s, y) + (if x.score == y then [x] else [])
  {
    var k := Rank(s, x);
    InsertFilter(s, x, y);
    WithScoreSingle(x, y);
    var wp, wq := WithScore(s[..k], y), WithScore(s[k..], y);
    if x.score == y {
      assert wp + [x] + [] == wp + [] + [x];
    } else {
      assert wp + [] + wq == wp + wq + [];
    }
  }

  /**
   * The stable sort is descending, is a permutation of its input, and is stable: for every
   * score, the chunks with that score come out in the order they went in.
   */
  lemma {:induction false} SortByScoreSpec(s: seq<RetrievedChunk>)
    ensures |SortByScore(s)| == |s|
    ensures Descending(SortByScore(s))
    ensures multiset(SortByScore(s)) == multiset(s)
    ensures forall y :: WithScore(SortByScore(s), y) == WithScore(s, y)
    decreases |s|
  {
    if s != [] {
      var pre, x := s[..|s| - 1], s[|s| - 1];
      SortByScoreSpec(pre);
      var t := SortByScore(pre);
      assert SortByScore(s) == Insert(t, x);
      InsertAt(t, x);
      InsertDescending(t, x);
      InsertMultiset(t, x);
      assert s == pre + [x];
      forall y
        ensures WithScore(SortByScore(s), y) == WithScore(s, y)
      {
        SortStableStep(pre, x, y);
      }
    }
  }

  /** One step of the stable sort keeps the chunks of score `y` in input order. */
  lemma SortStableStep(pre: seq<RetrievedChunk>, x: RetrievedChunk, y: real)
    requires Descending(SortByScore(pre))
    requires WithScore(SortByScore(pre), y) == WithScore(pre, y)
    ensures WithScore(Insert(SortByScore(pre), x), y) == WithScore(pre + [x], y)
  {
    InsertStable(SortByScore(pre), x, y);
    WithScoreAppend(pre, [x], y);
    WithScoreSingle(x, y);
  }

  /** The insertion point is where the scan over a descending sequence stops. */
  lemma RankAtExit(s: seq<RetrievedChunk>, x: RetrievedChunk, j: nat)
    requires Descending(s) && j <= |s|
    requires j > 0 ==> s[j - 1].score >= x.score
    requires forall k :: j <= k < |s| ==> s[k].score < x.score
    ensures Rank(s, x) == j
  {
  }

  /**
   * Move `a[i]` left past the chunks of the sorted prefix `a[..i]` that score less than it.
   */
  method InsertInPlace(a: array<RetrievedChunk>, i: nat)
    requires i < a.Length && Descending(a[..i])
    modifies a
    ensures a[..i + 1] == Insert(old(a[..i]), old(a[i]))
    ensures a[i + 1..] == old(a[i + 1..])
  {
    ghost var sorted, rest := a[..i], a[i + 1..];
    var x := a[i];
    var j := i;
    assert a[..] == Placed(sorted, x, rest, j) by {
      assert a[..] == a[..i] + [a[i]] + a[i + 1..];
    }
    while j > 0 && a[j - 1].score < x.score
      invariant 0 <= j <= i
      invariant a[..] == Placed(sorted, x, rest, j)
      invariant forall k :: j <= k < i ==> sorted[k].score < x.score
    {
      PlacedAt(sorted, x, rest, j);
      a[j - 1], a[j] := x, a[j - 1];
      PlacedSwap(sorted, x, rest, j);
      j := j - 1;
    }
    PlacedAt(sorted, x, rest, j);
    RankAtExit(sorted, x, j);
    PlacedSplit(sorted, x, rest, j);
  }

  /** `s` with `x` placed at position `j`, followed by `rest`. */
  function Placed(s: seq<RetrievedChunk>, x: RetrievedChunk, rest: seq<RetrievedChunk>, j: nat)
    : seq<RetrievedChunk>
    requires j <= |s|
  {
    s[..j] + [x] + s[j..] + rest
  }

  /** Where the moved chunk and its left neighbour sit in a placement. */
  lemma PlacedAt(s: seq<RetrievedChunk>, x: RetrievedChunk, rest: seq<RetrievedChunk>, j: nat)
    requires j <= |s|
    ensures |Placed(s, x, rest, j)| == |s| + 1 + |rest|
    ensures Placed(s, x, rest, j)[j] == x
    ensures j > 0 ==> Placed(s, x, rest, j)[j - 1] == s[j - 1]
  {
  }

  /** Swapping the moved chunk with its left neighbour places it one step further left. */
  lemma PlacedSwap(s: seq<RetrievedChunk>, x: RetrievedChunk, rest: seq<RetrievedChunk>, j: nat)
    requires 0 < j <= |s|
    ensures Placed(s, x, rest, j)[j - 1 := x][j := s[j - 1]] == Placed(s, x, rest, j - 1)
  {
    var p, q := Placed(s, x, rest, j)[j - 1 := x][j := s[j - 1]], Placed(s, x, rest, j - 1);
    assert |p| == |q|;
    forall k | 0 <= k < |p|
      ensures p[k] == q[k]
    {
    }
  }

  /** A placement splits into the placed prefix and the untouched rest. */
  lemma PlacedSplit(s: seq<RetrievedChunk>, x: RetrievedChunk, rest: seq<RetrievedChunk>, j: nat)
    requires j <= |s|
    ensures Placed(s, x, rest, j)[..|s| + 1] == s[..j] + [x] + s[j..]
    ensures Placed(s, x, rest, j)[|s| + 1..] == rest
  {
  }

  lemma SortedIsDescending(s: seq<RetrievedChunk>)
    ensures Descending(SortByScore(s))
  {
    SortByScoreSpec(s);
  }

  /** The in-place `scored.sort(...)`: an insertion sort by descending score. */
  method SortInPlace(a: array<RetrievedChunk>)
    modifies a
    ensures a[..] == SortByScore(old(a[..]))
  {
    ghost var input := a[..];
    for i := 0 to a.Length
      invariant a[..i] == SortByScore(input[..i])
      invariant a[i..] == input[i..]
    {
      SortedIsDescending(input[..i]);
      assert input[..i + 1][..i] == input[..i];
      assert a[i] == input[i] by {
        assert a[i..][0] == input[i..][0];
      }
      assert a[i + 1..] == input[i + 1..] by {
        assert a[i + 1..] == a[i..][1..];
        assert input[i + 1..] == input[i..][1..];
      }
      InsertInPlace(a, i);
    }
    assert input[..a.Length] == input;
  }

  /** End of the Python slice `[:k]` of a list of length `n`: a negative `k` counts from the end. */
  function SliceEnd(k: int, n: nat): (e: nat)
    ensures e <= n
  {
    if k >= 0 then Min(k, n) else if n + k >= 0 then n + k else 0
  }

  /**
   * Ranking over a loaded index: an empty index gives no results before the provider is asked
   * anything; otherwise the query is embedded once, every entry is scored, the scored list is
   * sorted, and the first `top_k` are kept.
   */
  function Ranked<E>(entries: seq<IndexEntry<E>>, query: string, embed: Embedder<E>, m: Metric<E>, topK: int)
    : Result<seq<RetrievedChunk>, EmbedError>
  {
    if entries == [] then Ok([])
    else
      match EmbedOne(embed, query)
      case Err(x) => Err(x)
      case Ok(q) =>
        var sorted := SortByScore(Score(entries, q, m));
        SortByScoreSpec(Score(entries, q, m));
        Ok(sorted[..SliceEnd(topK, |sorted|)])
  }

  /** The number of chunks `retrieve_context` returns when no `top_k` is given. */
  const DefaultTopK: nat := 5

  /** Why retrieval failed: the index file did not load, or the provider failed. */
  datatype RetrieveError = IndexUnreadable(load: LoadError) | EmbeddingFailed(embed: EmbedError)

  /** `retrieve_context` on the index file's contents (None: the file does not exist). */
  function Retrieved<E>(file: Option<string>, c: Codec<E>, query: string, embed: Embedder<E>, m: Metric<E>, topK: int)
    : Result<seq<RetrievedChunk>, RetrieveError>
  {
    match Loaded(c, file)
    case Err(x) => Err(IndexUnreadable(x))
    case Ok(index) =>
      match Ranked(index.entries, query, embed, m, topK)
      case Err(x) => Err(EmbeddingFailed(x))
      case Ok(r) => Ok(r)
  }

  /**
   * `retrieve_context`: load the index, stop with `[]` if it is empty, embed the query, score
   * every entry, sort the scored list in place, and return its first `top_k` chunks.
   */
  method RetrieveContext<E>(file: Option<string>, c: Codec<E>, query: string, embed: Embedder<E>,
                            m: Metric<E>, topK: int)
    returns (r: Result<seq<RetrievedChunk>, RetrieveError>)
    ensures r == Retrieved(file, c, query, embed, m, topK)
  {
    var loaded := VectorIndex.Load(file, c);
    if loaded.Err? {
      return Err(IndexUnreadable(loaded.error));
    }
    var entries := loaded.value.entries;
    if |entries| == 0 {
      return Ok([]);
    }
    var q := EmbedOne(embed, query);
    if q.Err? {
      return Err(EmbeddingFailed(q.error));
    }
    var scored := Score(entries, q.value, m);
    var a := new RetrievedChunk[|scored|](i requires 0 <= i < |scored| => scored[i]);
    assert a[..] == scored;
    SortInPlace(a);
    SortByScoreSpec(scored);
    return Ok(a[..SliceEnd(topK, a.Length)]);
  }

  /**
   * Called without `top_k`, as the command line and the HTTP API do, a successful retrieval
   * returns the five best chunks, or every chunk of a smaller index.
   */
  lemma DefaultRetrieval<E>(file: Option<string>, c: Codec<E>, query: string, embed: Embedder<E>, m: Metric<E>)
    ensures var r := Retrieved(file, c, query, embed, m, DefaultTopK);
      r.Ok? ==> Loaded(c, file).Ok? && |r.value| == Min(5, |Loaded(c, file).value.entries|)
  {
    if Loaded(c, file).Ok? && Loaded(c, file).value.entries != [] {
      RankedLength(Loaded(c, file).value.entries, query, embed, m, DefaultTopK);
    }
  }

  /** An empty index yields no results whatever the provider would do, even fail. */
  lemma EmptyIndexSkipsEmbedder<E>(query: string, embed: Embedder<E>, m: Metric<E>, topK: int)
    ensures Ranked([], query, embed, m, topK) == Ok([])
    ensures Ranked([], query, _ => None, m, topK) == Ok([])
  {
  }

  /**
   * On a non-empty index, ranking fails exactly when embedding the query fails; otherwise it
   * returns `top_k` results when `top_k` is between 0 and the index size, all of them when
   * `top_k` is larger, and Python's `[:top_k]` count when `top_k` is negative.
   */
  lemma RankedLength<E>(entries: seq<IndexEntry<E>>, query: string, embed: Embedder<E>, m: Metric<E>, topK: int)
    requires entries != []
    ensures var r := Ranked(entries, query, embed, m, topK);
      && (r.Err? <==> EmbedOne(embed, query).Err?)
      && (r.Ok? ==> |r.value| == SliceEnd(topK, |entries|))
      && (r.Ok? && topK >= 0 ==> |r.value| == Min(topK, |entries|))
      && (r.Ok? && topK >= |entries| ==> |r.value| == |entries|)
  {
    if EmbedOne(embed, query).Ok? {
      SortByScoreSpec(Score(entries, EmbedOne(embed, query).value, m));
    }
  }

  /**
   * The returned chunks are a sub-multiset of the scored entries, in non-increasing score
   * order, and each scores at least as much as every scored entry left out.
   */
  lemma RankedTopK<E>(entries: seq<IndexEntry<E>>, query: string, embed: Embedder<E>, m: Metric<E>, topK: int)
    requires entries != [] && EmbedOne(embed, query).Ok?
    ensures var r := Ranked(entries, query, embed, m, topK);
      var scored := Score(entries, EmbedOne(embed, query).value, m);
      && r.Ok?
      && Descending(r.value)
      && multiset(r.value) <= multiset(scored)
      && forall x, y :: x in r.value && y in multiset(scored) - multiset(r.value) ==> x.score >= y.score
  {
    var scored := Score(entries, EmbedOne(embed, query).value, m);
    var sorted := SortByScore(scored);
    SortByScoreSpec(scored);
    var r := Ranked(entries, query, embed, m, topK).value;
    assert r == sorted[..|r|];
    PrefixDominates(sorted, |r|);
  }

  /** Every returned chunk is one index entry's uri and content with that entry's score. */
  lemma RankedFromEntries<E>(entries: seq<IndexEntry<E>>, query: string, embed: Embedder<E>, m: Metric<E>, topK: int)
    requires entries != [] && EmbedOne(embed, query).Ok?
    ensures var r := Ranked(entries, query, embed, m, topK);
      var q := EmbedOne(embed, query).value;
      r.Ok? && forall x :: x in r.value ==>
        exists j :: 0 <= j < |entries| && x == RetrievedChunk(entries[j].uri, entries[j].content,
                                                              CosineSimilarity(m, q, entries[j].embedding))
  {
    RankedTopK(entries, query, embed, m, topK);
    var r := Ranked(entries, query, embed, m, topK);
    var scored := Score(entries, EmbedOne(embed, query).value, m);
    forall x | x in r.value
      ensures exists j :: 0 <= j < |entries| && x == scored[j]
    {
      assert x in multiset(r.value);
      assert x in multiset(scored);
      var j :| 0 <= j < |scored| && scored[j] == x;
    }
  }

  /** In a descending sequence, a prefix scores at least as much as everything after it. */
  lemma PrefixDominates(sorted: seq<RetrievedChunk>, e: nat)
    requires Descending(sorted) && e <= |sorted|
    ensures multiset(sorted[..e]) <= multiset(sorted)
    ensures forall x, y :: x in sorted[..e] && y in multiset(sorted) - multiset(sorted[..e]) ==> x.score >= y.score
  {
    var r, rest := sorted[..e], sorted[e..];
    assert sorted == r + rest;
    assert multiset(sorted) - multiset(r) == multiset(rest);
    PrefixOverRest(sorted, e);
    forall y | y in multiset(rest)
      ensures y in rest
    {
    }
  }

  /** In a descending list, everything before position `e` scores at least as much as everything after. */
  lemma PrefixOverRest(sorted: seq<RetrievedChunk>, e: nat)
    requires Descending(sorted) && e <= |sorted|
    ensures forall x, y :: x in sorted[..e] && y in sorted[e..] ==> x.score >= y.score
  {
    forall x, y | x in sorted[..e] && y in sorted[e..]
      ensures x.score >= y.score
    {
      var i :| 0 <= i < e && sorted[..e][i] == x;
      var j :| 0 <= j < |sorted| - e && sorted[e..][j] == y;
      assert sorted[i] == x && sorted[e + j] == y;
    }
  }

  lemma RankedStable<E>(entries: seq<IndexEntry<E>>, query: string, embed: Embedder<E>, m: Metric<E>, topK: int, y: real)
    requires entries != [] && EmbedOne(embed, query).Ok?
    ensures var r := Ranked(entries, query, embed, m, topK).value;
      var scored := Score(entries, EmbedOne(embed, query).value, m);
      && |WithScore(r, y)| <= |WithScore(scored, y)|
      && WithScore(r, y) == WithScore(scored, y)[..|WithScore(r, y)|]
  {
    var scored := Score(entries, EmbedOne(embed, query).value, m);
    var sorted := SortByScore(scored);
    SortByScoreSpec(scored);
    var r := Ranked(entries, query, embed, m, topK).value;
    assert sorted == r + sorted[|r|..];
    WithScoreAppend(r, sorted[|r|..], y);
  }

  /**
   * Two entries scoring 1.0 and 0.0 against the query, `top_k = 1`: the first entry comes
   * back, with score 1.0.
   */
  lemma TopOneExample<E>(e0: IndexEntry<E>, e1: IndexEntry<E>, query: string, embed: Embedder<E>, m: Metric<E>)
    requires EmbedOne(embed, query).Ok?
    requires CosineSimilarity(m, EmbedOne(embed, query).value, e0.embedding) == 1.0
    requires CosineSimilarity(m, EmbedOne(embed, query).value, e1.embedding) == 0.0
    ensures Ranked([e0, e1], query, embed, m, 1) == Ok([RetrievedChunk(e0.uri, e0.content, 1.0)])
  {
    var q := EmbedOne(embed, query).value;
    var c0 := RetrievedChunk(e0.uri, e0.content, 1.0);
    var c1 := RetrievedChunk(e1.uri, e1.content, 0.0);
    var scored := Score([e0, e1], q, m);
    assert scored == [c0, c1];
    assert scored[..1] == [c0];
    assert SortByScore([c0]) == [c0];
    assert Rank([c0], c1) == 1;
    assert SortByScore(scored) == [c0, c1];
  }
}
