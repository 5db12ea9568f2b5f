/** The nearest-chunk query: `OrderBy(c => c.Embedding!.L2Distance(q)).Take(k)`. */
module VectorSearch {
  import opened Wrappers
  import opened Entities

  /** Squared Euclidean distance over the components both vectors have. The
      square root is monotone, so ordering by it is ordering by L2 distance. */
  function SqDist(a: Vector, b: Vector): nat
    decreases |a|
  {
    if |a| == 0 || |b| == 0 then 0
    else (a[0] - b[0]) * (a[0] - b[0]) + SqDist(a[1..], b[1..])
  }

  lemma {:induction false} SqDistSelf(a: Vector)
    ensures SqDist(a, a) == 0
    decreases |a|
  {
    if |a| > 0 {
      SqDistSelf(a[1..]);
    }
  }

  /** The sort key of a chunk: its distance to the question, or SQL NULL when
      the chunk has no embedding. PostgreSQL sorts NULL after every value in
      ascending order. */
  datatype Rank = Distance(d: nat) | Null

  predicate RankLe(x: Rank, y: Rank) {
    y.Null? || (x.Distance? && x.d <= y.d)
  }

  function RankOf(c: TextChunk, q: Vector): Rank {
    match c.embedding
    case None => Null
    case Some(e) => Distance(SqDist(e, q))
  }

  predicate SortedByRank(s: seq<TextChunk>, q: Vector) {
    forall i, j | 0 <= i < j < |s| :: RankLe(RankOf(s[i], q), RankOf(s[j], q))
  }

  /** pgvector refuses to compare vectors of different dimensions. */
  predicate SameDimension(chunks: seq<TextChunk>, q: Vector) {
    forall i | 0 <= i < |chunks| ::
      chunks[i].embedding.Some? ==> |chunks[i].embedding.value| == |q|
  }

  datatype SearchError = DifferentVectorDimensions

  function Insert(c: TextChunk, s: seq<TextChunk>, q: Vector): (r: seq<TextChunk>)
    requires SortedByRank(s, q)
    ensures SortedByRank(r, q)
    ensures multiset(r) == multiset(s) + multiset{c}
    decreases |s|
  {
    if s == [] then [c]
    else if RankLe(RankOf(c, q), RankOf(s[0], q)) then [c] + s
    else
      var rest := Insert(c, s[1..], q);
      assert s == [s[0]] + s[1..];
      assert forall j | 0 <= j < |rest| :: RankLe(RankOf(s[0], q), RankOf(rest[j], q)) by {
        forall j | 0 <= j < |rest| ensures RankLe(RankOf(s[0], q), RankOf(rest[j], q)) {
          assert rest[j] in multiset(rest);
          if rest[j] != c {
            assert rest[j] in multiset(s[1..]);
            var l :| 0 <= l < |s[1..]| && s[1..][l] == rest[j];
            assert s[l + 1] == rest[j];
          }
        }
      }
      [s[0]] + rest
  }

  /** A sort by rank; it happens to be stable, but nothing here depends on
      the order of ties. */
  function SortByRank(s: seq<TextChunk>, q: Vector): (r: seq<TextChunk>)
    ensures SortedByRank(r, q)
    ensures multiset(r) == multiset(s)
    decreases |s|
  {
    if s == [] then []
    else
      assert s == [s[0]] + s[1..];
      Insert(s[0], SortByRank(s[1..], q), q)
  }

  function Min(a: nat, b: nat): nat {
    if a <= b then a else b
  }

  /** `r` is a result the database may give for OrderBy(rank).Take(k), under
      any order of ties: min(k, |chunks|) rows of the table, each row at most
      as often as the table holds it, in ascending rank, and no row left out
      ranks strictly before a returned one. */
  ghost predicate IsTopK(chunks: seq<TextChunk>, q: Vector, k: nat, r: seq<TextChunk>) {
    && |r| == Min(k, |chunks|)
    && multiset(r) <= multiset(chunks)
    && SortedByRank(r, q)
    && forall i, c | 0 <= i < |r| && c in multiset(chunks) - multiset(r) ::
         RankLe(RankOf(r[i], q), RankOf(c, q))
  }

  /** Splitting a sequence at m: what the prefix leaves out of the whole is
      exactly the suffix. */
  lemma {:induction false} PrefixLeavesSuffix(sorted: seq<TextChunk>, m: nat)
    requires m <= |sorted|
    ensures multiset(sorted[..m]) <= multiset(sorted)
    ensures multiset(sorted) - multiset(sorted[..m]) == multiset(sorted[m..])
  {
    assert sorted == sorted[..m] + sorted[m..];
  }

  /** Every prefix of a sorted permutation of the table is a valid result. */
  lemma {:induction false} SortedPrefixIsTopK(chunks: seq<TextChunk>, q: Vector, k: nat, sorted: seq<TextChunk>)
    requires SortedByRank(sorted, q) && multiset(sorted) == multiset(chunks)
    ensures |sorted| == |chunks|
    ensures IsTopK(chunks, q, k, sorted[..Min(k, |chunks|)])
  {
    assert |sorted| == |multiset(sorted)| == |multiset(chunks)| == |chunks|;
    var m := Min(k, |chunks|);
    var r := sorted[..m];
    var rest := sorted[m..];
    PrefixLeavesSuffix(sorted, m);
    assert SortedByRank(r, q) by {
      forall i, j | 0 <= i < j < |r| ensures RankLe(RankOf(r[i], q), RankOf(r[j], q)) {
        assert r[i] == sorted[i] && r[j] == sorted[j];
      }
    }
    forall i, c | 0 <= i < |r| && c in multiset(chunks) - multiset(r)
      ensures RankLe(RankOf(r[i], q), RankOf(c, q))
    {
      assert c in multiset(rest);
      var l :| 0 <= l < |rest| && rest[l] == c;
      assert sorted[i] == r[i] && sorted[m + l] == c;
    }
  }

  function TopK(chunks: seq<TextChunk>, q: Vector, k: nat): (r: seq<TextChunk>)
    ensures IsTopK(chunks, q, k, r)
  {
    var sorted := SortByRank(chunks, q);
    SortedPrefixIsTopK(chunks, q, k, sorted);
    sorted[..Min(k, |chunks|)]
  }

  /** The query: a dimension error, or the k nearest chunks. */
  function Retrieve(chunks: seq<TextChunk>, q: Vector, k: nat): (r: Result<seq<TextChunk>, SearchError>)
    ensures r.Failure? <==> !SameDimension(chunks, q)
    ensures r.Success? ==> IsTopK(chunks, q, k, r.value)
  {
    if SameDimension(chunks, q) then Success(TopK(chunks, q, k)) else Failure(DifferentVectorDimensions)
  }

  /** A chunk whose embedding is the question vector itself is at distance 0,
      so the first result is at distance 0 too. */
  lemma {:induction false} ExactMatchRanksFirst(chunks: seq<TextChunk>, q: Vector, k: nat, i: nat)
    requires i < |chunks| && chunks[i].embedding == Some(q) && k > 0
    ensures |TopK(chunks, q, k)| > 0
    ensures RankOf(TopK(chunks, q, k)[0], q) == Distance(0)
  {
    var r := TopK(chunks, q, k);
    var c := chunks[i];
    SqDistSelf(q);
    assert RankOf(c, q) == Distance(0);
    assert c in multiset(chunks);
    if c in multiset(r) {
      var j :| 0 <= j < |r| && r[j] == c;
      assert RankLe(RankOf(r[0], q), RankOf(r[j], q)) by {
        if j > 0 { }
      }
    } else {
      assert c in multiset(chunks) - multiset(r);
    }
  }

  /** Two chunks without embeddings tie, and either may be the one returned:
      the top-k specification does not fix an order among ties. */
  lemma TiedChunksEitherReturned(q: Vector)
    ensures IsTopK([TextChunk(1, 0, "a", 1, None), TextChunk(2, 0, "b", 2, None)], q, 1,
                   [TextChunk(1, 0, "a", 1, None)])
    ensures IsTopK([TextChunk(1, 0, "a", 1, None), TextChunk(2, 0, "b", 2, None)], q, 1,
                   [TextChunk(2, 0, "b", 2, None)])
  {
    var c1, c2 := TextChunk(1, 0, "a", 1, None), TextChunk(2, 0, "b", 2, None);
    assert multiset([c1, c2]) - multiset([c1]) == multiset{c2};
    assert multiset([c1, c2]) - multiset([c2]) == multiset{c1};
  }
}
