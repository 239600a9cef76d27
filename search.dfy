/** The result shaping of `vector_search`, `keyword_search` and `hybrid_search`: their
    aggregation pipelines and find cursors as compositions of take, filter and sort over the
    candidates the `$vectorSearch` stage ranks (an oracle here) or over a collection's
    documents in store order. */
module Search {
  import opened Strings
  import opened Documents

  /** A document coming out of the `$vectorSearch` stage with its `vectorSearchScore`, which the
      `$set` stage stores under `score`. */
  datatype Hit = Hit(doc: Document, score: int)

  function Min(a: int, b: int): int
  {
    if a <= b then a else b
  }

  /** The first `n` elements (`$limit` / a `limit` option); a non-positive `n` keeps none.
      The store rejects a non-positive limit in a pipeline, and the callers' `except` turns
      that into `[]`, which is the same outcome. */
  function Take<T>(s: seq<T>, n: int): (r: seq<T>)
    ensures |r| == (if n <= 0 then 0 else Min(n, |s|))
    ensures r == s[..|r|]
  {
    if n <= 0 then [] else if n < |s| then s[..n] else s
  }

  /** `{"content": {"$regex": pattern, "$options": "i"}}`: the field holds a string that
      contains the pattern, ignoring case. */
  predicate MatchesContent(doc: Document, pattern: string)
  {
    "content" in doc && doc["content"].Str? && ContainsIgnoreCase(doc["content"].text, pattern)
  }

  /** The `i` option: a keyword matches exactly when its lower-case spelling does. */
  lemma MatchesContentFoldsCase(doc: Document, pattern: string)
    ensures MatchesContent(doc, pattern) <==> MatchesContent(doc, Lower(pattern))
  {
    LowerIdempotent(pattern);
    if "content" in doc && doc["content"].Str? {
      var text := doc["content"].text;
      forall i | 0 <= i <= |text| - |pattern|
        ensures MatchesAt(text, pattern, i) <==> MatchesAt(text, Lower(pattern), i)
      {
      }
    }
  }

  /** A `content` string that contains the keyword verbatim matches it. */
  lemma MatchesContentSubstring(doc: Document, before: string, pattern: string, after: string)
    requires "content" in doc && doc["content"] == Str(before + pattern + after)
    ensures MatchesContent(doc, pattern)
  {
    var text := before + pattern + after;
    assert text[|before|..|before| + |pattern|] == pattern;
    assert MatchesAt(text, pattern, |before|);
  }

  /** An empty keyword matches every document whose `content` is a string, and no other. */
  lemma MatchesContentEmpty(doc: Document)
    ensures MatchesContent(doc, "") <==> "content" in doc && doc["content"].Str?
  {
    if "content" in doc && doc["content"].Str? {
      assert MatchesAt(doc["content"].text, "", 0);
    }
  }

  /** The `$match` stage over scored candidates. */
  function FilterHits(s: seq<Hit>, pattern: string): (r: seq<Hit>)
    ensures forall x :: x in r ==> MatchesContent(x.doc, pattern)
    ensures multiset(r) <= multiset(s)
    ensures forall x :: x in s && MatchesContent(x.doc, pattern) ==> multiset(r)[x] == multiset(s)[x]
  {
    if s == [] then []
    else
      var rest := FilterHits(s[1..], pattern);
      assert s == [s[0]] + s[1..];
      if MatchesContent(s[0].doc, pattern) then [s[0]] + rest else rest
  }

  /** The query filter of a `find` over a collection's documents, in store order. */
  function FilterDocs(docs: seq<Document>, pattern: string): (r: seq<Document>)
    ensures forall d :: d in r ==> MatchesContent(d, pattern)
    ensures multiset(r) <= multiset(docs)
    ensures forall d :: d in docs && MatchesContent(d, pattern) ==> multiset(r)[d] == multiset(docs)[d]
  {
    if docs == [] then []
    else
      var rest := FilterDocs(docs[1..], pattern);
      assert docs == [docs[0]] + docs[1..];
      if MatchesContent(docs[0], pattern) then [docs[0]] + rest else rest
  }

  /** The filter keeps store order: filtering a concatenation filters each part in turn. */
  lemma {:induction false} FilterDocsAppend(a: seq<Document>, b: seq<Document>, pattern: string)
    ensures FilterDocs(a + b, pattern) == FilterDocs(a, pattern) + FilterDocs(b, pattern)
    decreases |a|
  {
    if a != [] {
      assert (a + b)[1..] == a[1..] + b;
      FilterDocsAppend(a[1..], b, pattern);
    } else {
      assert a + b == b;
    }
  }

  predicate SortedDesc(s: seq<Hit>)
  {
    forall i, j :: 0 <= i < j < |s| ==> s[i].score >= s[j].score
  }

  /** One step of the sort: `h` goes before the first element it does not score below. */
  function InsertDesc(h: Hit, s: seq<Hit>): (r: seq<Hit>)
    requires SortedDesc(s)
    ensures SortedDesc(r)
    ensures multiset(r) == multiset(s) + multiset{h}
    ensures |r| == |s| + 1 && (r[0].score == h.score || (s != [] && r[0].score == s[0].score))
  {
    if s == [] then [h]
    else if h.score >= s[0].score then
      InsertDescSorted(h, s);
      [h] + s
    else
      var rest := InsertDesc(h, s[1..]);
      ConsMultiset(s, rest, h);
      InsertDescSorted(s[0], rest);
      [s[0]] + rest
  }

  /** Putting the head back in front of the rest with `h` inserted gives `s` with `h` added. */
  lemma ConsMultiset(s: seq<Hit>, rest: seq<Hit>, h: Hit)
    requires s != []
    requires multiset(rest) == multiset(s[1..]) + multiset{h}
    ensures multiset([s[0]] + rest) == multiset(s) + multiset{h}
  {
    assert s == [s[0]] + s[1..];
  }

  /** A head that scores at least as high as the head of a sorted rest keeps it sorted. */
  lemma InsertDescSorted(x: Hit, rest: seq<Hit>)
    requires SortedDesc(rest)
    requires rest != [] ==> x.score >= rest[0].score
    ensures SortedDesc([x] + rest)
  {
    var r := [x] + rest;
    forall i, j | 0 <= i < j < |r| ensures r[i].score >= r[j].score {
      assert r[j] == rest[j - 1];
      if i > 0 {
        assert r[i] == rest[i - 1];
      } else {
        assert rest[0].score >= rest[j - 1].score;
      }
    }
  }

  /** `{"$sort": {"score": -1}}`. Equal scores come out in one fixed order here; what is proved
      about the pipelines uses only that the result is sorted and a permutation of the input. */
  function SortDesc(s: seq<Hit>): (r: seq<Hit>)
    ensures SortedDesc(r)
    ensures multiset(r) == multiset(s)
  {
    if s == [] then []
    else
      assert s == [s[0]] + s[1..];
      InsertDesc(s[0], SortDesc(s[1..]))
  }

  /** `{"$project": {"embedding": 0}}` on a scored candidate. */
  function Project(h: Hit): Hit
  {
    Hit(h.doc - {"embedding"}, h.score)
  }

  function ProjectAll(s: seq<Hit>): (r: seq<Hit>)
    ensures |r| == |s|
    ensures forall i :: 0 <= i < |s| ==> r[i] == Project(s[i])
  {
    if s == [] then [] else [Project(s[0])] + ProjectAll(s[1..])
  }

  /** The `vector_search` pipeline: `$vectorSearch` with `limit` (and as many candidates),
      `$set` of the score, `$project` dropping `embedding`. The i-th result is the i-th ranked
      candidate without its `embedding` field, and there are `limit` of them when enough are
      ranked. */
  function VectorStage(ranked: seq<Hit>, limit: int): (r: seq<Hit>)
    ensures |r| == (if limit <= 0 then 0 else Min(limit, |ranked|))
    ensures forall i :: 0 <= i < |r| ==>
              r[i].score == ranked[i].score && r[i].doc == ranked[i].doc - {"embedding"}
  {
    ProjectAll(Take(ranked, limit))
  }

  /** The `hybrid_search` pipeline, stage by stage as the source lists them: `$vectorSearch`
      with `limit * 2`, `$set` of the score, `$match` on `content`, `$sort` by descending score,
      `$limit`, `$project` dropping `embedding`. */
  function HybridPipeline(ranked: seq<Hit>, keyword: string, limit: int): seq<Hit>
  {
    ProjectAll(Take(SortDesc(FilterHits(Take(ranked, 2 * limit), keyword)), limit))
  }

  lemma {:induction false} FilterProjectCommute(s: seq<Hit>, pattern: string)
    ensures FilterHits(ProjectAll(s), pattern) == ProjectAll(FilterHits(s, pattern))
  {
    if s != [] {
      FilterProjectCommute(s[1..], pattern);
      assert ProjectAll(s)[1..] == ProjectAll(s[1..]);
      assert MatchesContent(Project(s[0]).doc, pattern) == MatchesContent(s[0].doc, pattern) by {
        assert "content" != "embedding";
      }
    }
  }

  lemma ProjectAllSorted(s: seq<Hit>)
    requires SortedDesc(s)
    ensures SortedDesc(ProjectAll(s))
  {
    var p := ProjectAll(s);
    forall i, j | 0 <= i < j < |p| ensures p[i].score >= p[j].score {
      assert p[i].score == s[i].score && p[j].score == s[j].score;
    }
  }

  lemma {:induction false} InsertProjectCommute(h: Hit, s: seq<Hit>)
    requires SortedDesc(s)
    ensures SortedDesc(ProjectAll(s))
    ensures InsertDesc(Project(h), ProjectAll(s)) == ProjectAll(InsertDesc(h, s))
  {
    ProjectAllSorted(s);
    if s != [] {
      var ps := ProjectAll(s);
      assert ps[0] == Project(s[0]);
      assert ps[1..] == ProjectAll(s[1..]);
      if h.score < s[0].score {
        assert SortedDesc(s[1..]);
        InsertProjectCommute(h, s[1..]);
        assert InsertDesc(Project(h), ps) == [ps[0]] + InsertDesc(Project(h), ps[1..]);
        assert InsertDesc(h, s) == [s[0]] + InsertDesc(h, s[1..]);
      } else {
        assert InsertDesc(Project(h), ps) == [Project(h)] + ps;
        assert InsertDesc(h, s) == [h] + s;
      }
    }
  }

  lemma {:induction false} SortProjectCommute(s: seq<Hit>)
    ensures SortDesc(ProjectAll(s)) == ProjectAll(SortDesc(s))
  {
    if s != [] {
      SortProjectCommute(s[1..]);
      assert ProjectAll(s)[1..] == ProjectAll(s[1..]);
      InsertProjectCommute(s[0], SortDesc(s[1..]));
    }
  }

  lemma TakeProjectCommute(s: seq<Hit>, n: int)
    ensures Take(ProjectAll(s), n) == ProjectAll(Take(s, n))
  {
  }

  /** Dropping `embedding` commutes with the later stages, so the hybrid pipeline is take, sort
      and filter applied to what `vector_search` returns for twice the limit. */
  lemma HybridOverVectorStage(ranked: seq<Hit>, keyword: string, limit: int)
    ensures HybridPipeline(ranked, keyword, limit)
         == Take(SortDesc(FilterHits(VectorStage(ranked, 2 * limit), keyword)), limit)
  {
    var pool := Take(ranked, 2 * limit);
    FilterProjectCommute(pool, keyword);
    SortProjectCommute(FilterHits(pool, keyword));
    TakeProjectCommute(SortDesc(FilterHits(pool, keyword)), limit);
  }

  /** What remains of `a + b` once the elements of `a` are taken out are the elements of `b`. */
  lemma LeftBehind(a: seq<Hit>, b: seq<Hit>, y: Hit)
    requires y in multiset(a + b) - multiset(a)
    ensures y in b
  {
    assert multiset(a + b) == multiset(a) + multiset(b);
    assert y in multiset(b);
  }

  /** Taking a prefix of a sorted sequence keeps its best elements: nothing after the prefix
      scores higher than anything in it. */
  lemma TakeSortedKeepsBest(s: seq<Hit>, n: int)
    requires SortedDesc(s)
    ensures var r := Take(s, n);
            forall x, y :: x in r && y in s[|r|..] ==> y.score <= x.score
  {
    var r := Take(s, n);
    forall x, y | x in r && y in s[|r|..] ensures y.score <= x.score {
      var i :| 0 <= i < |r| && r[i] == x;
      var j :| 0 <= j < |s[|r|..]| && s[|r|..][j] == y;
      assert s[i] == x && s[|r| + j] == y;
    }
  }

  /** A prefix of a sorted sequence is sorted and draws on its elements. */
  lemma TakePrefix(s: seq<Hit>, n: int)
    requires SortedDesc(s)
    ensures SortedDesc(Take(s, n))
    ensures multiset(Take(s, n)) <= multiset(s)
  {
    var r := Take(s, n);
    assert s == r + s[|r|..];
    forall i, j | 0 <= i < j < |r| ensures r[i].score >= r[j].score {
      assert r[i] == s[i] && r[j] == s[j];
    }
  }

  /** The last three stages on any candidates: the best `limit` matching candidates, sorted by
      descending score; every matching candidate left out scores no higher than any kept. */
  lemma TopMatches(pool: seq<Hit>, keyword: string, limit: int)
    ensures var matching := FilterHits(pool, keyword);
            var r := Take(SortDesc(matching), limit);
            && multiset(r) <= multiset(matching)
            && SortedDesc(r)
            && |r| == (if limit <= 0 then 0 else Min(limit, |matching|))
            && (forall x, y :: x in r && y in multiset(matching) - multiset(r) ==> y.score <= x.score)
  {
    var matching := FilterHits(pool, keyword);
    var sorted := SortDesc(matching);
    TakePrefix(sorted, limit);
    KeptAreBest(sorted, matching, limit);
  }

  /** The same for any reordering `s` of a sorted sequence: what the prefix leaves out of `s`
      scores no higher than anything kept. */
  lemma KeptAreBest(sorted: seq<Hit>, s: seq<Hit>, n: int)
    requires SortedDesc(sorted) && multiset(sorted) == multiset(s)
    ensures var r := Take(sorted, n);
            forall x, y :: x in r && y in multiset(s) - multiset(r) ==> y.score <= x.score
  {
    var r := Take(sorted, n);
    TakeSortedKeepsBest(sorted, n);
    assert sorted == r + sorted[|r|..];
    forall x: Hit, y: Hit | x in r && y in multiset(s) - multiset(r) ensures y.score <= x.score {
      LeftBehind(r, sorted[|r|..], y);
    }
  }

  /** Whatever draws on the matching candidates consists of matching candidates. */
  lemma DrawnFromMatching(pool: seq<Hit>, keyword: string, r: seq<Hit>)
    requires multiset(r) <= multiset(FilterHits(pool, keyword))
    ensures multiset(r) <= multiset(pool)
    ensures forall x :: x in r ==> x in pool && MatchesContent(x.doc, keyword)
  {
    var matching := FilterHits(pool, keyword);
    forall x | x in r ensures x in pool && MatchesContent(x.doc, keyword) {
      assert x in multiset(r);
      assert x in multiset(matching);
      assert x in multiset(pool);
    }
  }

  /** No result of the vector stage carries `embedding`. */
  lemma VectorStageDropsEmbedding(ranked: seq<Hit>, limit: int)
    ensures forall x :: x in VectorStage(ranked, limit) ==> "embedding" !in x.doc
  {
    var r := VectorStage(ranked, limit);
    forall x | x in r ensures "embedding" !in x.doc {
      var i :| 0 <= i < |r| && r[i] == x;
    }
  }

  /** What `hybrid_search` promises about its results, relative to the candidates `pool` that
      the vector stage returns for twice the limit: they are among those candidates, they all
      match the keyword, they come sorted by descending score, there are min(limit, number of
      matching candidates) of them, they are the best-scoring matching candidates, and none
      carries an `embedding` field. */
  lemma HybridPipelineProperties(ranked: seq<Hit>, keyword: string, limit: int)
    ensures var pool := VectorStage(ranked, 2 * limit);
            var matching := FilterHits(pool, keyword);
            var r := HybridPipeline(ranked, keyword, limit);
            && multiset(r) <= multiset(pool)
            && (forall x :: x in r ==> MatchesContent(x.doc, keyword))
            && SortedDesc(r)
            && |r| == (if limit <= 0 then 0 else Min(limit, |matching|))
            && (forall x, y :: x in r && y in multiset(matching) - multiset(r) ==> y.score <= x.score)
            && (forall x :: x in r ==> "embedding" !in x.doc)
  {
    var pool := VectorStage(ranked, 2 * limit);
    var r := HybridPipeline(ranked, keyword, limit);
    HybridOverVectorStage(ranked, keyword, limit);
    TopMatches(pool, keyword, limit);
    DrawnFromMatching(pool, keyword, r);
    VectorStageDropsEmbedding(ranked, 2 * limit);
  }

  /** The projections `keyword_search` applies: core.py drops `embedding`; mdb_toolkit.py keeps
      only the listed fields. */
  datatype Projection = ExcludeEmbedding | IncludeOnly(keys: set<string>)

  function ApplyProjection(p: Projection, d: Document): (r: Document)
    ensures p.ExcludeEmbedding? ==> r.Keys == d.Keys - {"embedding"}
    ensures p.IncludeOnly? ==> r.Keys == d.Keys * p.keys
    ensures forall k :: k in r ==> k in d && r[k] == d[k]
  {
    match p
    case ExcludeEmbedding => d - {"embedding"}
    case IncludeOnly(keys) => map k | k in d && k in keys :: d[k]
  }

  /** `cursor.limit(n)`: 0 means no limit; a negative `n` is taken as its absolute value. */
  function CursorLimit<T>(s: seq<T>, n: int): (r: seq<T>)
    ensures n == 0 ==> r == s
    ensures n != 0 ==> |r| == Min(if n < 0 then -n else n, |s|)
    ensures r == s[..|r|]
  {
    if n == 0 then s else Take(s, if n < 0 then -n else n)
  }

  function ProjectDocs(p: Projection, s: seq<Document>): (r: seq<Document>)
    ensures |r| == |s|
    ensures forall i :: 0 <= i < |s| ==> r[i] == ApplyProjection(p, s[i])
  {
    if s == [] then [] else [ApplyProjection(p, s[0])] + ProjectDocs(p, s[1..])
  }

  /** The `keyword_search` cursor: `find` with the `content` regex and the projection, then
      `.limit(limit)`. */
  function KeywordCursor(docs: seq<Document>, pattern: string, limit: int, p: Projection): seq<Document>
  {
    ProjectDocs(p, CursorLimit(FilterDocs(docs, pattern), limit))
  }

  /** `keyword_search` returns, in store order, the first `limit` documents whose `content`
      matches (all of them for a limit of 0), each projected; each still matches when the
      projection keeps `content`, and no result has more fields than the projection allows. */
  lemma KeywordCursorProperties(docs: seq<Document>, pattern: string, limit: int, p: Projection)
    ensures var matching := FilterDocs(docs, pattern);
            var r := KeywordCursor(docs, pattern, limit, p);
            && |r| == (if limit == 0 then |matching| else Min(if limit < 0 then -limit else limit, |matching|))
            && (forall i :: 0 <= i < |r| ==> r[i] == ApplyProjection(p, matching[i]))
            && (forall i :: 0 <= i < |r| ==> (p.ExcludeEmbedding? || "content" in p.keys) ==> MatchesContent(r[i], pattern))
            && (forall i :: 0 <= i < |r| ==> p.IncludeOnly? ==> r[i].Keys <= p.keys)
            && (forall i :: 0 <= i < |r| ==> p.ExcludeEmbedding? ==> "embedding" !in r[i])
  {
    var matching := FilterDocs(docs, pattern);
    var limited := CursorLimit(matching, limit);
    var r := KeywordCursor(docs, pattern, limit, p);
    forall i | 0 <= i < |r| ensures (p.ExcludeEmbedding? || "content" in p.keys) ==> MatchesContent(r[i], pattern) {
      assert limited[i] == matching[i];
      assert matching[i] in matching;
    }
  }
}
