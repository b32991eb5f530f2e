/** The vector store of `RAGService`: the `DocumentVectors` table of chunk
    records, replace-by-source ingestion and top-K retrieval by cosine
    similarity. The embedding client and the floating-point tail of the cosine
    are parameters. */
module Rag {
  import opened Wrappers
  import opened Text
  import opened Chunker

  /** An embedding, a `float[]` in the service. */
  type Vector = seq<real>

  /** The remote embedding endpoint: the vector for a text, or the exception
      the call raised. */
  type EmbeddingApi = string -> Result<Vector>

  /** The last step of `CosineSimilarity`: from the dot product and the two
      squared norms to the score. */
  type CosineTail = (real, real, real) -> real

  /** A row of `DocumentVectors`. `EmbeddingJson` holds the serialised vector;
      the model keeps the vector itself. */
  datatype DocumentVector = DocumentVector(
    id: Guid,
    source: string,
    chunkId: Guid,
    text: string,
    embedding: Vector,
    createdAt: int)

  /** A retrieved record and its score. */
  datatype Hit = Hit(doc: DocumentVector, score: real)

  /** `EmbeddingService.CreateEmbeddingAsync`: a blank text gets the empty
      vector without a call; any other text goes to the endpoint. */
  function CreateEmbedding(api: EmbeddingApi, text: string): Result<Vector> {
    if IsBlank(text) then Success([]) else api(text)
  }

  // ---------------------------------------------------------------------
  // Filters over the table

  /** The records labelled `key`, in table order. */
  function Labelled(rs: seq<DocumentVector>, key: string): (r: seq<DocumentVector>)
    ensures forall d :: d in r <==> d in rs && d.source == key
  {
    if rs == [] then []
    else if rs[0].source == key then [rs[0]] + Labelled(rs[1..], key)
    else Labelled(rs[1..], key)
  }

  /** The records not labelled `key`, in table order. */
  function Without(rs: seq<DocumentVector>, key: string): (r: seq<DocumentVector>)
    ensures forall d :: d in r <==> d in rs && d.source != key
  {
    if rs == [] then []
    else if rs[0].source != key then [rs[0]] + Without(rs[1..], key)
    else Without(rs[1..], key)
  }

  /** `Where(d => sources.Contains(d.Source))`, in table order. */
  function Candidates(rs: seq<DocumentVector>, sources: seq<string>): (r: seq<DocumentVector>)
    ensures forall d :: d in r <==> d in rs && d.source in sources
  {
    if rs == [] then []
    else if rs[0].source in sources then [rs[0]] + Candidates(rs[1..], sources)
    else Candidates(rs[1..], sources)
  }

  lemma {:induction false} LabelledAppend(a: seq<DocumentVector>, b: seq<DocumentVector>, key: string)
    ensures Labelled(a + b, key) == Labelled(a, key) + Labelled(b, key)
  {
    if a == [] {
      assert a + b == b;
    } else {
      assert (a + b)[0] == a[0];
      assert (a + b)[1..] == a[1..] + b;
      LabelledAppend(a[1..], b, key);
      if a[0].source == key {
        assert Labelled(a + b, key) == [a[0]] + Labelled(a[1..] + b, key);
      }
    }
  }

  lemma {:induction false} WithoutAppend(a: seq<DocumentVector>, b: seq<DocumentVector>, key: string)
    ensures Without(a + b, key) == Without(a, key) + Without(b, key)
  {
    if a == [] {
      assert a + b == b;
    } else {
      assert (a + b)[0] == a[0];
      assert (a + b)[1..] == a[1..] + b;
      WithoutAppend(a[1..], b, key);
      if a[0].source != key {
        assert Without(a + b, key) == [a[0]] + Without(a[1..] + b, key);
      }
    }
  }

  lemma {:induction false} LabelledAll(rs: seq<DocumentVector>, key: string)
    requires forall d :: d in rs ==> d.source == key
    ensures Labelled(rs, key) == rs
    ensures Without(rs, key) == []
  {
    if rs != [] {
      assert rs[0] in rs;
      assert forall d :: d in rs[1..] ==> d in rs;
      LabelledAll(rs[1..], key);
    }
  }

  // ---------------------------------------------------------------------
  // Record ids

  /** Record ids strictly increase in table order, so no two are equal. */
  predicate IdsAscending(rs: seq<DocumentVector>) {
    rs == [] || ((forall d :: d in rs[1..] ==> rs[0].id < d.id) && IdsAscending(rs[1..]))
  }

  lemma {:induction false} IdsAscendingDistinct(rs: seq<DocumentVector>)
    requires IdsAscending(rs)
    ensures forall i, j :: 0 <= i < j < |rs| ==> rs[i].id < rs[j].id
  {
    if rs != [] {
      IdsAscendingDistinct(rs[1..]);
      forall i, j | 0 <= i < j < |rs| ensures rs[i].id < rs[j].id {
        assert rs[j] == rs[1..][j - 1];
        if i > 0 {
          assert rs[i] == rs[1..][i - 1];
        }
      }
    }
  }

  lemma {:induction false} WithoutAscending(rs: seq<DocumentVector>, key: string)
    requires IdsAscending(rs)
    ensures IdsAscending(Without(rs, key))
  {
    if rs != [] {
      WithoutAscending(rs[1..], key);
      if rs[0].source != key {
        var rest := Without(rs[1..], key);
        assert Without(rs, key) == [rs[0]] + rest;
        assert ([rs[0]] + rest)[1..] == rest;
      }
    }
  }

  lemma {:induction false} AscendingAppend(a: seq<DocumentVector>, b: seq<DocumentVector>)
    requires IdsAscending(a) && IdsAscending(b)
    requires forall x, y :: x in a && y in b ==> x.id < y.id
    ensures IdsAscending(a + b)
  {
    if a == [] {
      assert a + b == b;
    } else {
      assert (a + b)[1..] == a[1..] + b;
      assert forall x :: x in a[1..] ==> x in a;
      AscendingAppend(a[1..], b);
    }
  }

  // ---------------------------------------------------------------------
  // Cosine similarity

  /** The dot product, summed from the first component to the last. */
  function Dot(a: Vector, b: Vector): real
    requires |a| == |b|
    decreases |a|
  {
    if a == [] then 0.0
    else Dot(a[..|a| - 1], b[..|b| - 1]) + a[|a| - 1] * b[|b| - 1]
  }

  /** A squared norm is never negative, so its square root exists. */
  lemma {:induction false} SquaredNormNonNegative(a: Vector)
    ensures Dot(a, a) >= 0.0
    decreases |a|
  {
    if a != [] {
      SquaredNormNonNegative(a[..|a| - 1]);
      var x := a[|a| - 1];
      assert x * x >= 0.0;
    }
  }

  lemma {:induction false} DotSymmetric(a: Vector, b: Vector)
    requires |a| == |b|
    ensures Dot(a, b) == Dot(b, a)
    decreases |a|
  {
    if a != [] {
      DotSymmetric(a[..|a| - 1], b[..|b| - 1]);
    }
  }

  /** The score `CosineSimilarity` gives a record: 0 when either vector is
      empty or their lengths differ, else the tail applied to the dot product
      and the squared norms. */
  function Score(a: Vector, b: Vector, tail: CosineTail): real {
    if |a| == 0 || |b| == 0 || |a| != |b| then 0.0
    else tail(Dot(a, b), Dot(a, a), Dot(b, b))
  }

  /** Exchanging the two vectors leaves the score alone when the tail treats
      the two norms alike. */
  lemma ScoreSymmetric(a: Vector, b: Vector, tail: CosineTail)
    requires forall d, x, y :: tail(d, x, y) == tail(d, y, x)
    ensures Score(a, b, tail) == Score(b, a, tail)
  {
    if |a| == |b| {
      DotSymmetric(a, b);
    }
  }

  /** `CosineSimilarity(a, b)`: the guard, then the loop that accumulates the
      dot product and both squared norms. */
  method CosineSimilarity(a: Vector, b: Vector, tail: CosineTail) returns (score: real)
    ensures |a| == 0 || |b| == 0 || |a| != |b| ==> score == 0.0
    ensures |a| > 0 && |a| == |b| ==> score == tail(Dot(a, b), Dot(a, a), Dot(b, b))
    ensures score == Score(a, b, tail)
  {
    if |a| == 0 || |b| == 0 || |a| != |b| {
      return 0.0;
    }
    var dot, na, nb := 0.0, 0.0, 0.0;
    for i := 0 to |a|
      invariant dot == Dot(a[..i], b[..i])
      invariant na == Dot(a[..i], a[..i])
      invariant nb == Dot(b[..i], b[..i])
    {
      assert a[..i + 1][..i] == a[..i];
      assert b[..i + 1][..i] == b[..i];
      dot := dot + a[i] * b[i];
      na := na + a[i] * a[i];
      nb := nb + b[i] * b[i];
    }
    assert a[..|a|] == a && b[..|b|] == b;
    score := tail(dot, na, nb);
  }

  // ---------------------------------------------------------------------
  // Ranking

  /** Each candidate paired with its score against the query, in table order. */
  function ScoreAll(cs: seq<DocumentVector>, query: Vector, tail: CosineTail): seq<Hit> {
    seq(|cs|, i requires 0 <= i < |cs| => Hit(cs[i], Score(query, cs[i].embedding, tail)))
  }

  predicate SortedByScore(hs: seq<Hit>) {
    forall i, j :: 0 <= i < j < |hs| ==> hs[i].score >= hs[j].score
  }

  /** Puts `h` after every hit of `s` whose score is at least its own. */
  function Insert(s: seq<Hit>, h: Hit): (r: seq<Hit>)
    ensures multiset(r) == multiset(s) + multiset{h}
  {
    if s == [] then [h]
    else if s[0].score >= h.score then
      assert s == [s[0]] + s[1..];
      [s[0]] + Insert(s[1..], h)
    else [h] + s
  }

  /** `OrderByDescending(r => r.Score)`: a stable sort, built by inserting
      the hits one by one in their original order. */
  function SortByScore(hs: seq<Hit>): (r: seq<Hit>)
    ensures multiset(r) == multiset(hs)
    ensures |r| == |hs|
  {
    if hs == [] then []
    else
      assert hs == hs[..|hs| - 1] + [hs[|hs| - 1]];
      var r := Insert(SortByScore(hs[..|hs| - 1]), hs[|hs| - 1]);
      assert |r| == |multiset(r)|;
      r
  }

  lemma {:induction false} InsertSorted(s: seq<Hit>, h: Hit)
    requires SortedByScore(s)
    ensures SortedByScore(Insert(s, h))
  {
    if s != [] && s[0].score >= h.score {
      InsertSorted(s[1..], h);
      var rest := Insert(s[1..], h);
      forall x | x in rest ensures x.score <= s[0].score {
        assert x in multiset(rest);
        assert x in multiset(s[1..]) || x == h;
      }
      var r := [s[0]] + rest;
      forall i, j | 0 <= i < j < |r| ensures r[i].score >= r[j].score {
        assert r[j] == rest[j - 1];
        if i > 0 {
          assert r[i] == rest[i - 1];
        }
      }
    }
  }

  /** The hits are sorted by non-increasing score. */
  lemma {:induction false} SortByScoreSorted(hs: seq<Hit>)
    ensures SortedByScore(SortByScore(hs))
  {
    if hs != [] {
      SortByScoreSorted(hs[..|hs| - 1]);
      InsertSorted(SortByScore(hs[..|hs| - 1]), hs[|hs| - 1]);
    }
  }

  /** The hits with score `v`, in order. */
  function WithScore(hs: seq<Hit>, v: real): (r: seq<Hit>)
    ensures forall h :: h in r ==> h in hs && h.score == v
  {
    if hs == [] then []
    else if hs[0].score == v then [hs[0]] + WithScore(hs[1..], v)
    else WithScore(hs[1..], v)
  }

  lemma {:induction false} WithScoreAppend(a: seq<Hit>, b: seq<Hit>, v: real)
    ensures WithScore(a + b, v) == WithScore(a, v) + WithScore(b, v)
  {
    if a == [] {
      assert a + b == b;
    } else {
      assert (a + b)[0] == a[0];
      assert (a + b)[1..] == a[1..] + b;
      WithScoreAppend(a[1..], b, v);
    }
  }

  lemma {:induction false} WithScoreNone(hs: seq<Hit>, v: real)
    requires forall h :: h in hs ==> h.score < v
    ensures WithScore(hs, v) == []
  {
    if hs != [] {
      assert hs[0] in hs;
      assert forall h :: h in hs[1..] ==> h in hs;
      WithScoreNone(hs[1..], v);
    }
  }

  lemma {:induction false} WithScoreAll(hs: seq<Hit>, v: real)
    requires forall h :: h in hs ==> h.score == v
    ensures WithScore(hs, v) == hs
  {
    if hs != [] {
      assert hs[0] in hs;
      assert forall h :: h in hs[1..] ==> h in hs;
      WithScoreAll(hs[1..], v);
    }
  }

  lemma {:induction false} InsertStable(s: seq<Hit>, h: Hit, v: real)
    requires SortedByScore(s)
    ensures WithScore(Insert(s, h), v) == WithScore(s, v) + (if h.score == v then [h] else [])
  {
    if s == [] {
    } else if s[0].score >= h.score {
      InsertStable(s[1..], h, v);
      assert Insert(s, h) == [s[0]] + Insert(s[1..], h);
    } else {
      if h.score == v {
        forall x | x in s ensures x.score < v {
          var i :| 0 <= i < |s| && s[i] == x;
          assert s[0].score >= s[i].score;
        }
        WithScoreNone(s, v);
        assert WithScore([h] + s, v) == [h] + WithScore(s, v);
      } else {
        assert ([h] + s)[1..] == s;
      }
    }
  }

  /** The sort is stable: hits of equal score keep their original order. */
  lemma {:induction false} SortByScoreStable(hs: seq<Hit>, v: real)
    ensures WithScore(SortByScore(hs), v) == WithScore(hs, v)
  {
    if hs != [] {
      var init, last := hs[..|hs| - 1], hs[|hs| - 1];
      assert hs == init + [last];
      var sortedInit := SortByScore(init);
      assert SortByScore(hs) == Insert(sortedInit, last);
      SortByScoreStable(init, v);
      SortByScoreSorted(init);
      InsertStable(sortedInit, last, v);
      WithScoreAppend(init, [last], v);
      assert WithScore([last], v) == (if last.score == v then [last] else []);
    }
  }

  /** Hits that all score the same stay in their original order. */
  lemma SortByScoreTies(hs: seq<Hit>, v: real)
    requires forall h :: h in hs ==> h.score == v
    ensures SortByScore(hs) == hs
  {
    var r := SortByScore(hs);
    forall h | h in r ensures h.score == v {
      assert h in multiset(r);
    }
    SortByScoreStable(hs, v);
    WithScoreAll(hs, v);
    WithScoreAll(r, v);
  }

  /** `Take(topK)`: the first `topK` hits, none when `topK` is not positive. */
  function Take(hs: seq<Hit>, topK: int): (r: seq<Hit>)
    ensures |r| == (if topK <= 0 then 0 else if topK < |hs| then topK else |hs|)
    ensures r == hs[..|r|]
  {
    if topK <= 0 then [] else if topK < |hs| then hs[..topK] else hs
  }

  // ---------------------------------------------------------------------
  // Retrieval

  /** The scored candidates for a query vector, before ranking. */
  function Scored(rs: seq<DocumentVector>, sources: seq<string>, query: Vector, tail: CosineTail): seq<Hit> {
    ScoreAll(Candidates(rs, sources), query, tail)
  }

  /** What `RetrieveAsync(query, sources, topK)` returns over the table `rs`:
      the embedding failure, or the `topK` best-scoring candidates. */
  function RetrieveSpec(rs: seq<DocumentVector>, query: string, sources: seq<string>, topK: int,
                        api: EmbeddingApi, tail: CosineTail): Result<seq<Hit>>
  {
    match CreateEmbedding(api, query)
    case Failure(e) => Failure(e)
    case Success(q) => Success(Take(SortByScore(Scored(rs, sources, q, tail)), topK))
  }

  /** Retrieval fails exactly when embedding the query fails, with its message. */
  lemma RetrieveFails(rs: seq<DocumentVector>, query: string, sources: seq<string>, topK: int,
                      api: EmbeddingApi, tail: CosineTail)
    ensures RetrieveSpec(rs, query, sources, topK, api, tail).Failure?
        <==> CreateEmbedding(api, query).Failure?
    ensures CreateEmbedding(api, query).Failure? ==>
      RetrieveSpec(rs, query, sources, topK, api, tail).error == CreateEmbedding(api, query).error
    ensures IsBlank(query) ==> RetrieveSpec(rs, query, sources, topK, api, tail).Success?
  {
  }

  /** Every returned record is a row of the table labelled with one of the
      requested sources, scored against the query. */
  lemma RetrieveSelects(rs: seq<DocumentVector>, query: string, sources: seq<string>, topK: int,
                        api: EmbeddingApi, tail: CosineTail)
    requires CreateEmbedding(api, query).Success?
    ensures forall h :: h in RetrieveSpec(rs, query, sources, topK, api, tail).value ==>
      && h.doc in rs
      && h.doc.source in sources
      && h.score == Score(CreateEmbedding(api, query).value, h.doc.embedding, tail)
  {
    var q := CreateEmbedding(api, query).value;
    var scored := Scored(rs, sources, q, tail);
    var sorted := SortByScore(scored);
    var r := RetrieveSpec(rs, query, sources, topK, api, tail).value;
    forall h | h in r
      ensures h.doc in rs && h.doc.source in sources && h.score == Score(q, h.doc.embedding, tail)
    {
      assert h in sorted;
      assert h in multiset(scored);
      var i :| 0 <= i < |scored| && scored[i] == h;
      assert h.doc in Candidates(rs, sources);
    }
  }

  /** `min(max(topK, 0), number of candidates)` records come back. */
  lemma RetrieveCount(rs: seq<DocumentVector>, query: string, sources: seq<string>, topK: int,
                      api: EmbeddingApi, tail: CosineTail)
    requires CreateEmbedding(api, query).Success?
    ensures var n := |Candidates(rs, sources)|;
      |RetrieveSpec(rs, query, sources, topK, api, tail).value|
        == (if topK <= 0 then 0 else if topK < n then topK else n)
  {
  }

  /** In a sorted sequence, nothing after the first `n` hits outscores any
      of them. */
  lemma PrefixOutranks(sorted: seq<Hit>, n: nat)
    requires SortedByScore(sorted) && n <= |sorted|
    ensures forall x, h :: x in sorted[n..] && h in sorted[..n] ==> x.score <= h.score
  {
    forall x, h | x in sorted[n..] && h in sorted[..n] ensures x.score <= h.score {
      var j :| 0 <= j < |sorted| - n && sorted[n..][j] == x;
      var i :| 0 <= i < n && sorted[..n][i] == h;
      assert sorted[i] == h && sorted[n + j] == x;
    }
  }

  lemma TakeSorted(hs: seq<Hit>, topK: int)
    requires SortedByScore(hs)
    ensures SortedByScore(Take(hs, topK))
  {
  }

  /** The results come in non-increasing score order. */
  lemma RetrieveSorted(rs: seq<DocumentVector>, query: string, sources: seq<string>, topK: int,
                       api: EmbeddingApi, tail: CosineTail)
    requires CreateEmbedding(api, query).Success?
    ensures SortedByScore(RetrieveSpec(rs, query, sources, topK, api, tail).value)
  {
    var scored := Scored(rs, sources, CreateEmbedding(api, query).value, tail);
    SortByScoreSorted(scored);
    TakeSorted(SortByScore(scored), topK);
  }

  /** Taking a prefix of a sorted arrangement of `hs` leaves out nothing that
      outscores what was taken. */
  lemma PrefixNeverOmits(hs: seq<Hit>, sorted: seq<Hit>, n: nat)
    requires SortedByScore(sorted) && multiset(sorted) == multiset(hs) && n <= |sorted|
    ensures forall x :: x in multiset(hs) - multiset(sorted[..n]) ==>
      forall h :: h in sorted[..n] ==> x.score <= h.score
  {
    assert sorted == sorted[..n] + sorted[n..];
    assert multiset(hs) - multiset(sorted[..n]) == multiset(sorted[n..]);
    PrefixOutranks(sorted, n);
  }

  /** No scored candidate left out outscores any returned record. */
  lemma RetrieveNeverOmits(rs: seq<DocumentVector>, query: string, sources: seq<string>, topK: int,
                           api: EmbeddingApi, tail: CosineTail)
    requires CreateEmbedding(api, query).Success?
    ensures var scored := Scored(rs, sources, CreateEmbedding(api, query).value, tail);
      var r := RetrieveSpec(rs, query, sources, topK, api, tail).value;
      forall x :: x in multiset(scored) - multiset(r) ==> forall h :: h in r ==> x.score <= h.score
  {
    var scored := Scored(rs, sources, CreateEmbedding(api, query).value, tail);
    var sorted := SortByScore(scored);
    SortByScoreSorted(scored);
    var r := Take(sorted, topK);
    PrefixNeverOmits(scored, sorted, |r|);
  }

  /** A blank query is embedded as the empty vector, so every candidate scores
      0 and the first `topK` candidates come back in table order. */
  lemma RetrieveBlankQuery(rs: seq<DocumentVector>, query: string, sources: seq<string>, topK: int,
                           api: EmbeddingApi, tail: CosineTail)
    requires IsBlank(query)
    ensures RetrieveSpec(rs, query, sources, topK, api, tail)
         == Success(Take(ScoreAll(Candidates(rs, sources), [], tail), topK))
    ensures forall h :: h in RetrieveSpec(rs, query, sources, topK, api, tail).value ==> h.score == 0.0
  {
    var scored := Scored(rs, sources, [], tail);
    SortByScoreTies(scored, 0.0);
  }

  // ---------------------------------------------------------------------
  // Ingestion

  /** The index of the first chunk whose embedding fails, if one does. */
  function FirstFailure(api: EmbeddingApi, chunks: seq<string>): (r: Option<nat>)
    ensures r.None? <==> forall j :: 0 <= j < |chunks| ==> CreateEmbedding(api, chunks[j]).Success?
    ensures r.Some? ==>
      && r.value < |chunks|
      && CreateEmbedding(api, chunks[r.value]).Failure?
      && forall j :: 0 <= j < r.value ==> CreateEmbedding(api, chunks[j]).Success?
  {
    if chunks == [] then None
    else if CreateEmbedding(api, chunks[0]).Failure? then Some(0)
    else
      var rest := FirstFailure(api, chunks[1..]);
      assert forall j :: 0 < j < |chunks| ==> chunks[j] == chunks[1..][j - 1];
      if rest.None? then None else Some(rest.value + 1)
  }

  /** The record built for chunk `j`: two fresh Guids (the id and the chunk
      id), the label, the chunk and its embedding. */
  function Records(key: string, chunks: seq<string>, api: EmbeddingApi, firstGuid: Guid, now: int)
    : seq<DocumentVector>
    requires FirstFailure(api, chunks).None?
  {
    seq(|chunks|, j requires 0 <= j < |chunks| =>
      DocumentVector(firstGuid + 2 * j, key, firstGuid + 2 * j + 1, chunks[j],
                     CreateEmbedding(api, chunks[j]).value, now))
  }

  /** The table after the chunks of a document are ingested under `key`:
      the label's old records are gone, and when every chunk was embedded, one
      new record per chunk follows the others. */
  function Replace(rs: seq<DocumentVector>, key: string, chunks: seq<string>, api: EmbeddingApi,
                   firstGuid: Guid, now: int): seq<DocumentVector>
  {
    Without(rs, key) + (if FirstFailure(api, chunks).None? then Records(key, chunks, api, firstGuid, now) else [])
  }

  /** The table after `IngestDocumentAsync(key, text)`. */
  function AfterIngest(rs: seq<DocumentVector>, key: string, text: string, api: EmbeddingApi,
                       firstGuid: Guid, now: int): seq<DocumentVector>
  {
    Replace(rs, key, Chunks(text, MaxChars), api, firstGuid, now)
  }

  /** Ingestion replaces by source: records with other labels are untouched,
      and on success the label's records are exactly one per chunk, in chunk
      order, carrying the chunk's text and embedding. */
  lemma IngestReplacesSource(rs: seq<DocumentVector>, key: string, chunks: seq<string>, api: EmbeddingApi,
                             firstGuid: Guid, now: int)
    ensures Without(Replace(rs, key, chunks, api, firstGuid, now), key) == Without(rs, key)
    ensures var mine := Labelled(Replace(rs, key, chunks, api, firstGuid, now), key);
      FirstFailure(api, chunks).None? ==>
        && |mine| == |chunks|
        && forall j :: 0 <= j < |chunks| ==>
             mine[j].source == key && mine[j].text == chunks[j]
             && CreateEmbedding(api, chunks[j]) == Success(mine[j].embedding)
  {
    var added := if FirstFailure(api, chunks).None? then Records(key, chunks, api, firstGuid, now) else [];
    assert Replace(rs, key, chunks, api, firstGuid, now) == Without(rs, key) + added;
    RecordsLabelled(key, chunks, api, firstGuid, now);
    LabelledAppend(Without(rs, key), added, key);
    WithoutAppend(Without(rs, key), added, key);
    LabelledAll(added, key);
    WithoutTwice(rs, key);
    assert Without(rs, key) + [] == Without(rs, key);
  }

  /** Each new record carries its chunk, its embedding and the label. */
  lemma RecordsLabelled(key: string, chunks: seq<string>, api: EmbeddingApi, firstGuid: Guid, now: int)
    ensures FirstFailure(api, chunks).None? ==>
      var added := Records(key, chunks, api, firstGuid, now);
      && |added| == |chunks|
      && (forall d :: d in added ==> d.source == key)
      && forall j :: 0 <= j < |chunks| ==>
           added[j].source == key && added[j].text == chunks[j]
           && CreateEmbedding(api, chunks[j]) == Success(added[j].embedding)
  {
  }

  lemma {:induction false} WithoutTwice(rs: seq<DocumentVector>, key: string)
    ensures Without(Without(rs, key), key) == Without(rs, key)
    ensures Labelled(Without(rs, key), key) == []
  {
    if rs != [] {
      WithoutTwice(rs[1..], key);
      if rs[0].source != key {
        var rest := Without(rs[1..], key);
        assert ([rs[0]] + rest)[0] == rs[0];
        assert ([rs[0]] + rest)[1..] == rest;
      }
    }
  }

  /** When an embedding fails partway through, the label is left with no
      records at all, since its deletion was saved before any embedding. */
  lemma IngestFailureEmptiesSource(rs: seq<DocumentVector>, key: string, chunks: seq<string>, api: EmbeddingApi,
                                   firstGuid: Guid, now: int)
    requires FirstFailure(api, chunks).Some?
    ensures Labelled(Replace(rs, key, chunks, api, firstGuid, now), key) == []
    ensures Replace(rs, key, chunks, api, firstGuid, now) == Without(rs, key)
  {
    WithoutTwice(rs, key);
    assert Without(rs, key) + [] == Without(rs, key);
  }

  /** Ingesting a blank text only deletes. */
  lemma IngestBlankDeletes(rs: seq<DocumentVector>, key: string, text: string, api: EmbeddingApi,
                           firstGuid: Guid, now: int)
    requires IsBlank(text)
    ensures AfterIngest(rs, key, text, api, firstGuid, now) == Without(rs, key)
  {
    assert Records(key, [], api, firstGuid, now) == [];
    assert Without(rs, key) + [] == Without(rs, key);
  }

  /** After a successful ingestion, a retrieval limited to that label sees
      only the new chunks. */
  lemma RetrieveAfterIngest(rs: seq<DocumentVector>, key: string, chunks: seq<string>, api: EmbeddingApi,
                            firstGuid: Guid, now: int)
    requires FirstFailure(api, chunks).None?
    ensures Candidates(Replace(rs, key, chunks, api, firstGuid, now), [key])
         == Records(key, chunks, api, firstGuid, now)
  {
    var t := Replace(rs, key, chunks, api, firstGuid, now);
    CandidatesOfOne(t, key);
    var added := Records(key, chunks, api, firstGuid, now);
    assert forall d :: d in added ==> d.source == key;
    LabelledAppend(Without(rs, key), added, key);
    LabelledAll(added, key);
    WithoutTwice(rs, key);
  }

  lemma {:induction false} CandidatesOfOne(rs: seq<DocumentVector>, key: string)
    ensures Candidates(rs, [key]) == Labelled(rs, key)
  {
    if rs != [] {
      CandidatesOfOne(rs[1..], key);
    }
  }

  /** Every id and chunk id in `rs` is below `bound`. */
  ghost predicate IdsBelow(rs: seq<DocumentVector>, bound: Guid) {
    forall d :: d in rs ==> d.id < bound && d.chunkId < bound
  }

  lemma WithoutKeepsIds(rs: seq<DocumentVector>, key: string, bound: Guid)
    requires IdsAscending(rs) && IdsBelow(rs, bound)
    ensures IdsAscending(Without(rs, key)) && IdsBelow(Without(rs, key), bound)
  {
    WithoutAscending(rs, key);
  }

  /** The records an ingestion adds get fresh ids above every id in the
      table, in increasing order. */
  lemma IngestKeepsIds(rs: seq<DocumentVector>, key: string, chunks: seq<string>, api: EmbeddingApi,
                       g: Guid, now: int)
    requires IdsAscending(rs) && IdsBelow(rs, g)
    requires FirstFailure(api, chunks).None?
    ensures var after := Without(rs, key) + Records(key, chunks, api, g, now);
      IdsAscending(after) && IdsBelow(after, g + 2 * |chunks|)
  {
    var kept := Without(rs, key);
    var added := Records(key, chunks, api, g, now);
    WithoutAscending(rs, key);
    RecordsAscending(added, g, 0);
    forall x, y | x in kept && y in added ensures x.id < y.id {
      assert x in rs;
    }
    AscendingAppend(kept, added);
  }

  // ---------------------------------------------------------------------
  // The service

  /** `RAGService` over its `DocumentVectors` table. */
  class RagService {
    var documentVectors: seq<DocumentVector>
    /** The next Guid `Guid.NewGuid()` hands out. */
    var nextGuid: Guid
    /** The table as saved by each `SaveChangesAsync`, oldest first. */
    ghost var commits: seq<seq<DocumentVector>>

    /** Record ids are distinct and were all handed out already. */
    ghost predicate Valid()
      reads this
    {
      IdsAscending(documentVectors) && IdsBelow(documentVectors, nextGuid)
    }

    constructor (records: seq<DocumentVector>, firstGuid: Guid)
      requires IdsAscending(records) && IdsBelow(records, firstGuid)
      ensures Valid()
      ensures documentVectors == records && nextGuid == firstGuid && commits == []
    {
      documentVectors := records;
      nextGuid := firstGuid;
      commits := [];
    }

    /** `IngestDocumentAsync(sourceKey, fullText)`. The result is the number
        of chunks stored, or the embedding call's exception. */
    method IngestDocument(sourceKey: string, fullText: string, api: EmbeddingApi, now: int)
      returns (r: Result<nat>)
      requires Valid()
      modifies this
      ensures Valid()
      ensures documentVectors == AfterIngest(old(documentVectors), sourceKey, fullText, api, old(nextGuid), now)
      ensures var chunks := Chunks(fullText, MaxChars);
        match FirstFailure(api, chunks)
        case None => r == Success(|chunks|) && nextGuid == old(nextGuid) + 2 * |chunks|
        case Some(j) => r == Failure(CreateEmbedding(api, chunks[j]).error) && nextGuid >= old(nextGuid)
      ensures commits == old(commits) + [Without(old(documentVectors), sourceKey)]
                       + (if r.Success? && r.value > 0 then [documentVectors] else [])
    {
      ghost var before, g := documentVectors, nextGuid;
      documentVectors := Without(documentVectors, sourceKey);
      commits := commits + [documentVectors];

      var chunks := ChunkText(fullText, MaxChars);
      var embedded := EmbedChunks(sourceKey, chunks, api, now);
      if embedded.Failure? {
        WithoutKeepsIds(before, sourceKey, nextGuid);
        assert documentVectors + [] == documentVectors;
        return Failure(embedded.error);
      }
      var toAdd := embedded.value;
      if |toAdd| > 0 {
        documentVectors := documentVectors + toAdd;
        commits := commits + [documentVectors];
      } else {
        assert documentVectors + toAdd == documentVectors;
      }
      IngestKeepsIds(before, sourceKey, chunks, api, g, now);
      r := Success(|chunks|);
    }

    /** The loop of `IngestDocumentAsync`: embeds the chunks in order and
        builds one record per chunk with two fresh Guids, stopping at the
        first embedding call that fails. */
    method EmbedChunks(sourceKey: string, chunks: seq<string>, api: EmbeddingApi, now: int)
      returns (r: Result<seq<DocumentVector>>)
      modifies this
      ensures documentVectors == old(documentVectors) && commits == old(commits)
      ensures nextGuid >= old(nextGuid)
      ensures match FirstFailure(api, chunks)
        case None =>
          && r == Success(Records(sourceKey, chunks, api, old(nextGuid), now))
          && nextGuid == old(nextGuid) + 2 * |chunks|
        case Some(j) => r == Failure(CreateEmbedding(api, chunks[j]).error)
    {
      ghost var g := nextGuid;
      var toAdd: seq<DocumentVector> := [];
      var k := 0;
      while k < |chunks|
        invariant 0 <= k <= |chunks|
        invariant nextGuid == g + 2 * k
        invariant documentVectors == old(documentVectors) && commits == old(commits)
        invariant forall j :: 0 <= j < k ==> CreateEmbedding(api, chunks[j]).Success?
        invariant |toAdd| == k
        invariant forall j :: 0 <= j < k ==>
          toAdd[j] == DocumentVector(g + 2 * j, sourceKey, g + 2 * j + 1, chunks[j],
                                     CreateEmbedding(api, chunks[j]).value, now)
      {
        var vec := CreateEmbedding(api, chunks[k]);
        if vec.Failure? {
          assert FirstFailure(api, chunks).Some?;
          assert FirstFailure(api, chunks).value == k;
          return Failure(vec.error);
        }
        var id := nextGuid;
        var chunkId := nextGuid + 1;
        nextGuid := nextGuid + 2;
        toAdd := toAdd + [DocumentVector(id, sourceKey, chunkId, chunks[k], vec.value, now)];
        k := k + 1;
      }
      assert toAdd == Records(sourceKey, chunks, api, g, now);
      r := Success(toAdd);
    }

    /** `RetrieveAsync(query, sources, topK)`: embeds the query, scores every
        candidate in table order, then sorts and takes the best `topK`. */
    method Retrieve(query: string, sources: seq<string>, topK: int, api: EmbeddingApi, tail: CosineTail)
      returns (r: Result<seq<Hit>>)
      ensures r == RetrieveSpec(documentVectors, query, sources, topK, api, tail)
    {
      var qVec := CreateEmbedding(api, query);
      if qVec.Failure? {
        return Failure(qVec.error);
      }
      var candidates := Candidates(documentVectors, sources);
      var results: seq<Hit> := [];
      for i := 0 to |candidates|
        invariant |results| == i
        invariant forall j :: 0 <= j < i ==>
          results[j] == Hit(candidates[j], Score(qVec.value, candidates[j].embedding, tail))
      {
        var score := CosineSimilarity(qVec.value, candidates[i].embedding, tail);
        results := results + [Hit(candidates[i], score)];
      }
      assert results == ScoreAll(candidates, qVec.value, tail);
      r := Success(Take(SortByScore(results), topK));
    }
  }

  lemma {:induction false} RecordsAscending(rs: seq<DocumentVector>, g: Guid, offset: nat)
    requires forall j :: 0 <= j < |rs| ==> rs[j].id == g + 2 * (offset + j) && rs[j].chunkId == rs[j].id + 1
    ensures IdsAscending(rs)
    ensures forall d :: d in rs ==> g + 2 * offset <= d.id && d.chunkId < g + 2 * (offset + |rs|)
  {
    if rs != [] {
      assert forall j :: 0 <= j < |rs| - 1 ==> rs[1..][j] == rs[j + 1];
      RecordsAscending(rs[1..], g, offset + 1);
    }
  }
}
