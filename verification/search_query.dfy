/** Searching the index gives what scanning the corpus gives. */
module SearchQuery {
  import opened Wrappers
  import opened Text
  import opened Sorting
  import opened Search

  datatype StatusFilter = ActiveOnly | All

  datatype Query = Query(terms: seq<string>, filter: StatusFilter)

  predicate IsActiveStatus(status: Option<string>) {
    status.None? || (status.value != "superseded" && status.value != "retired")
  }

  const K1: real := 1.2
  const B: real := 0.75

  /** One term's contribution to one document's score. */
  function Bm25(nDocs: nat, df: nat, tf: nat, docLen: nat, avgdl: real, ln: real -> real): real
    requires avgdl >= 0.0
  {
    if df == 0 then 0.0
    else
      var idf := ln((nDocs as real - df as real + 0.5) / (df as real + 0.5) + 1.0);
      var ratio := if avgdl == 0.0 then 1.0 else docLen as real / avgdl;
      RatioPositive(docLen, avgdl);
      var tfTerm := tf as real * (K1 + 1.0) / (tf as real + K1 * (1.0 - B + B * ratio));
      idf * tfTerm
  }

  lemma RatioPositive(docLen: nat, avgdl: real)
    ensures avgdl > 0.0 ==> docLen as real / avgdl >= 0.0
  {
  }

  /** A document without the term gets nothing from it. */
  lemma Bm25Zero(nDocs: nat, df: nat, docLen: nat, avgdl: real, ln: real -> real)
    requires avgdl >= 0.0
    ensures Bm25(nDocs, df, 0, docLen, avgdl, ln) == 0.0
  {
    if df > 0 {
      var ratio := if avgdl == 0.0 then 1.0 else docLen as real / avgdl;
      RatioPositive(docLen, avgdl);
      NothingShared(K1 * (1.0 - B + B * ratio));
    }
  }

  lemma NothingShared(saturation: real)
    requires saturation > 0.0
    ensures 0.0 * (K1 + 1.0) / (0.0 + saturation) == 0.0
  {
  }

  /** No term ever subtracts, however common it is. */
  lemma Bm25NonNegative(nDocs: nat, df: nat, tf: nat, docLen: nat, avgdl: real, ln: real -> real)
    requires avgdl >= 0.0 && df <= nDocs
    requires ln(1.0) == 0.0 && forall x, y :: 0.0 < x <= y ==> ln(x) <= ln(y)
    ensures Bm25(nDocs, df, tf, docLen, avgdl, ln) >= 0.0
  {
    if df > 0 {
      var odds := (nDocs as real - df as real + 0.5) / (df as real + 0.5);
      assert odds >= 0.0;
      assert ln(1.0) <= ln(odds + 1.0);
      var ratio := if avgdl == 0.0 then 1.0 else docLen as real / avgdl;
      RatioPositive(docLen, avgdl);
      var tfTerm := tf as real * (K1 + 1.0) / (tf as real + K1 * (1.0 - B + B * ratio));
      assert tfTerm >= 0.0;
      NonNegativeProduct(ln(odds + 1.0), tfTerm);
    }
  }

  lemma NonNegativeProduct(a: real, b: real)
    requires a >= 0.0 && b >= 0.0
    ensures a * b >= 0.0
  {
  }

  // ---------------------------------------------------------------------
  // The plain scan.

  /** A corpus and what scoring it takes. */
  datatype Collection = Collection(corpus: Corpus, lower: string -> string, ln: real -> real) {
    /** The token count of the documents at `paths`. */
    ghost function LengthOf(paths: set<string>): nat
      requires paths <= corpus.Keys
    {
      if paths == {} then 0
      else
        var p :| p in paths;
        |TokensOf(corpus[p], lower)| + LengthOf(paths - {p})
    }

    lemma {:induction false} LengthOfAny(paths: set<string>, p: string)
      requires paths <= corpus.Keys && p in paths
      ensures LengthOf(paths) == |TokensOf(corpus[p], lower)| + LengthOf(paths - {p})
      decreases paths
    {
      var q :| q in paths && LengthOf(paths) == |TokensOf(corpus[q], lower)| + LengthOf(paths - {q});
      if p != q {
        LengthOfAny(paths - {q}, p);
        LengthOfAny(paths - {p}, q);
        assert paths - {q} - {p} == paths - {p} - {q};
      }
    }

    ghost function AverageLength(): (r: real)
      ensures r >= 0.0
    {
      if |corpus| == 0 then 0.0 else LengthOf(corpus.Keys) as real / |corpus| as real
    }

    ghost function Contribution(term: string, path: string): real
      requires path in corpus
    {
      Bm25(|corpus|, Df(corpus, term, lower), Tf(corpus[path], term, lower), |TokensOf(corpus[path], lower)|,
        AverageLength(), ln)
    }

    lemma ContributionZero(term: string, path: string)
      requires path in corpus && Tf(corpus[path], term, lower) == 0
      ensures Contribution(term, path) == 0.0
    {
      Bm25Zero(|corpus|, Df(corpus, term, lower), |TokensOf(corpus[path], lower)|, AverageLength(), ln);
    }

    /** A document's score: the contributions of the distinct terms, added up. */
    ghost function Score(terms: set<string>, path: string): real
      requires path in corpus
    {
      if terms == {} then 0.0
      else
        var t :| t in terms;
        Contribution(t, path) + Score(terms - {t}, path)
    }

    lemma {:induction false} ScoreAny(terms: set<string>, path: string, term: string)
      requires path in corpus && term in terms
      ensures Score(terms, path) == Contribution(term, path) + Score(terms - {term}, path)
      decreases terms
    {
      var t :| t in terms && Score(terms, path) == Contribution(t, path) + Score(terms - {t}, path);
      if t != term {
        ScoreAny(terms - {t}, path, term);
        ScoreAny(terms - {term}, path, t);
        assert terms - {t} - {term} == terms - {term} - {t};
      }
    }

    lemma {:induction false} ScoreZero(terms: set<string>, path: string)
      requires path in corpus && forall t :: t in terms ==> Tf(corpus[path], t, lower) == 0
      ensures Score(terms, path) == 0.0
      decreases terms
    {
      if terms != {} {
        var t :| t in terms && Score(terms, path) == Contribution(t, path) + Score(terms - {t}, path);
        ContributionZero(t, path);
        ScoreZero(terms - {t}, path);
      }
    }

    predicate Visible(path: string, filter: StatusFilter)
      requires path in corpus
    {
      filter == All || IsActiveStatus(corpus[path].status)
    }

    /** The visible documents in which some term occurs. */
    ghost predicate IsHit(terms: set<string>, filter: StatusFilter, path: string) {
      path in corpus && Visible(path, filter) && exists t :: t in terms && Tf(corpus[path], t, lower) > 0
    }
  }

  /** The scores so far are those of the scan for the terms so far. */
  ghost predicate Scored(coll: Collection, filter: StatusFilter, terms: set<string>, scores: map<string, real>) {
    && (forall p :: p in scores <==> coll.IsHit(terms, filter, p))
    && (forall p :: p in scores ==> scores[p] == coll.Score(terms, p))
  }

  /** What one more term does to one document. */
  lemma OneMoreTerm(coll: Collection, filter: StatusFilter, terms: set<string>, term: string, path: string)
    requires term !in terms && path in coll.corpus
    ensures coll.Score(terms + {term}, path) == coll.Contribution(term, path) + coll.Score(terms, path)
    ensures coll.IsHit(terms + {term}, filter, path)
            <==> || coll.IsHit(terms, filter, path)
                 || (coll.Visible(path, filter) && Tf(coll.corpus[path], term, coll.lower) > 0)
    ensures Tf(coll.corpus[path], term, coll.lower) == 0 ==> coll.Contribution(term, path) == 0.0
    ensures coll.Visible(path, filter) && !coll.IsHit(terms, filter, path) ==> coll.Score(terms, path) == 0.0
  {
    coll.ScoreAny(terms + {term}, path, term);
    assert terms + {term} - {term} == terms;
    if Tf(coll.corpus[path], term, coll.lower) == 0 {
      coll.ContributionZero(term, path);
    }
    if coll.Visible(path, filter) && !coll.IsHit(terms, filter, path) {
      coll.ScoreZero(terms, path);
    }
    if coll.IsHit(terms, filter, path) {
      var t :| t in terms && Tf(coll.corpus[path], t, coll.lower) > 0;
      assert t in terms + {term};
    }
    assert term in terms + {term};
  }

  // ---------------------------------------------------------------------
  // The search over the index.

  method TotalLength(docs: map<string, DocMeta>, ghost coll: Collection) returns (total: nat)
    requires docs.Keys == coll.corpus.Keys
    requires forall p :: p in docs ==> docs[p].length == |TokensOf(coll.corpus[p], coll.lower)|
    ensures total == coll.LengthOf(coll.corpus.Keys)
  {
    total := 0;
    var rest := docs.Keys;
    while rest != {}
      invariant rest <= docs.Keys
      invariant total + coll.LengthOf(rest) == coll.LengthOf(docs.Keys)
      decreases |rest|
    {
      var p :| p in rest;
      coll.LengthOfAny(rest, p);
      total := total + docs[p].length;
      rest := rest - {p};
    }
  }

  method AverageDocLength(docs: map<string, DocMeta>, ghost coll: Collection) returns (avgdl: real)
    requires docs.Keys == coll.corpus.Keys
    requires forall p :: p in docs ==> docs[p].length == |TokensOf(coll.corpus[p], coll.lower)|
    ensures avgdl == coll.AverageLength()
  {
    var total := TotalLength(docs, coll);
    assert |docs| == |docs.Keys| == |coll.corpus.Keys| == |coll.corpus|;
    if |docs| == 0 {
      return 0.0;
    }
    avgdl := total as real / |docs| as real;
  }

  predicate Shown(meta: DocMeta, filter: StatusFilter) {
    filter == All || IsActiveStatus(meta.status)
  }

  /** Adds the weight of every shown document of a posting list. */
  method AddPosting(docs: map<string, DocMeta>, posting: map<string, nat>, filter: StatusFilter, weight: string -> real,
                    before: map<string, real>)
    returns (scores: map<string, real>)
    requires posting.Keys <= docs.Keys
    ensures forall p :: p in scores <==> p in before || (p in posting && Shown(docs[p], filter))
    ensures forall p :: p in scores ==>
      scores[p] == (if p in before then before[p] else 0.0)
        + (if p in posting && Shown(docs[p], filter) then weight(p) else 0.0)
  {
    scores := before;
    var rest := posting.Keys;
    while rest != {}
      invariant rest <= posting.Keys
      invariant forall p :: p in scores <==> p in before || (p in posting && p !in rest && Shown(docs[p], filter))
      invariant forall p :: p in scores ==>
        scores[p] == (if p in before then before[p] else 0.0)
                     + (if p in posting && p !in rest && Shown(docs[p], filter) then weight(p) else 0.0)
      decreases |rest|
    {
      var path :| path in rest;
      rest := rest - {path};
      if filter == ActiveOnly && !IsActiveStatus(docs[path].status) {
        continue;
      }
      scores := scores[path := (if path in scores then scores[path] else 0.0) + weight(path)];
    }
  }

  /** What the search adds for a document: counts from the index alone. */
  function Weight(docs: map<string, DocMeta>, posting: map<string, nat>, avgdl: real, ln: real -> real): string -> real
    requires avgdl >= 0.0
  {
    path => if path in docs && path in posting then
        Bm25(|docs|, |posting|, posting[path], docs[path].length, avgdl, ln)
      else 0.0
  }

  lemma WeightIsContribution(postings: Postings, docs: map<string, DocMeta>, coll: Collection, term: string,
                             path: string)
    requires Indexes(postings, docs, coll.corpus, coll.lower)
    requires term in postings && path in postings[term]
    ensures path in coll.corpus
    ensures Weight(docs, postings[term], coll.AverageLength(), coll.ln)(path) == coll.Contribution(term, path)
  {
    PostingExact(postings, docs, coll.corpus, coll.lower, term);
    assert postings[term][path] == TfAt(postings, term, path) == CorpusTf(coll.corpus, term, path, coll.lower);
    assert |docs| == |docs.Keys| == |coll.corpus.Keys| == |coll.corpus|;
  }

  /** Scores one term the query has not named before. */
  method ScoreTerm(index: InMemoryIndex, coll: Collection, filter: StatusFilter, term: string, avgdl: real,
                   before: map<string, real>, ghost terms: set<string>)
    returns (scores: map<string, real>)
    requires Indexes(index.postings, index.docs, coll.corpus, coll.lower)
    requires avgdl == coll.AverageLength()
    requires term !in terms && Scored(coll, filter, terms, before)
    ensures Scored(coll, filter, terms + {term}, scores)
  {
    PostingExact(index.postings, index.docs, coll.corpus, coll.lower, term);
    if term in index.postings {
      var posting := index.postings[term];
      scores := AddPosting(index.docs, posting, filter, Weight(index.docs, posting, avgdl, coll.ln), before);
      forall p | p in posting
        ensures p in coll.corpus && Weight(index.docs, posting, avgdl, coll.ln)(p) == coll.Contribution(term, p)
      {
        WeightIsContribution(index.postings, index.docs, coll, term, p);
      }
      FinishTerm(coll, filter, terms, term, posting.Keys, before, scores);
    } else {
      scores := before;
      FinishTerm(coll, filter, terms, term, {}, before, scores);
    }
  }

  lemma FinishTerm(coll: Collection, filter: StatusFilter, terms: set<string>, term: string, posting: set<string>,
                   before: map<string, real>, scores: map<string, real>)
    requires term !in terms && Scored(coll, filter, terms, before)
    requires posting == Containing(coll.corpus, term, coll.lower)
    requires forall p :: p in scores <==> p in before || (p in posting && coll.Visible(p, filter))
    requires forall p :: p in scores ==>
      scores[p] == (if p in before then before[p] else 0.0)
                   + (if p in posting && coll.Visible(p, filter) then coll.Contribution(term, p) else 0.0)
    ensures Scored(coll, filter, terms + {term}, scores)
  {
    forall p | p in coll.corpus
      ensures p in scores <==> coll.IsHit(terms + {term}, filter, p)
      ensures p in scores ==> scores[p] == coll.Score(terms + {term}, p)
    {
      OneMoreTerm(coll, filter, terms, term, p);
    }
  }

  function Lowered(terms: seq<string>, lower: string -> string): set<string> {
    set t | t in terms :: lower(t)
  }

  method ScoreTerms(index: InMemoryIndex, coll: Collection, query: Query) returns (scores: map<string, real>)
    requires Indexes(index.postings, index.docs, coll.corpus, coll.lower)
    ensures Scored(coll, query.filter, Lowered(query.terms, coll.lower), scores)
  {
    var avgdl := AverageDocLength(index.docs, coll);
    scores := map[];
    var seen: set<string> := {};
    for k := 0 to |query.terms|
      invariant seen == Lowered(query.terms[..k], coll.lower)
      invariant Scored(coll, query.filter, seen, scores)
    {
      var token := coll.lower(query.terms[k]);
      assert query.terms[..k + 1] == query.terms[..k] + [query.terms[k]];
      assert Lowered(query.terms[..k + 1], coll.lower) == seen + {token};
      if token in seen {
        assert seen + {token} == seen;
        continue;
      }
      scores := ScoreTerm(index, coll, query.filter, token, avgdl, scores, seen);
      seen := seen + {token};
    }
    assert query.terms[..|query.terms|] == query.terms;
  }

  // ---------------------------------------------------------------------
  // The result list.

  datatype SearchResult = SearchResult(path: string, title: string, snippet: string, score: real)

  datatype Rank = Rank(path: string, score: real)

  /** Best score first, then by path. */
  predicate RankBefore(a: Rank, b: Rank) {
    a.score > b.score || (a.score == b.score && Before(a.path, b.path))
  }

  predicate ResultBefore(a: SearchResult, b: SearchResult) {
    RankBefore(Rank(a.path, a.score), Rank(b.path, b.score))
  }

  lemma RankOrder()
    ensures IsOrder(RankBefore)
  {
    TextOrder();
  }

  function Snippet(body: string): string {
    Trim(if |body| > 200 then body[..200] else body)
  }

  /** The result a hit makes. */
  ghost function ResultOf(coll: Collection, terms: set<string>, path: string): SearchResult
    requires path in coll.corpus
  {
    var doc := coll.corpus[path];
    SearchResult(path, TitleOf(doc), Snippet(doc.body), coll.Score(terms, path))
  }

  /** The brute-force answer: one result for each hit of the scan, in ranking order. */
  ghost predicate IsAnswer(results: seq<SearchResult>, coll: Collection, query: Query) {
    var terms := Lowered(query.terms, coll.lower);
    && StrictlySorted(results, ResultBefore)
    && (forall r :: r in results ==> coll.IsHit(terms, query.filter, r.path) && r == ResultOf(coll, terms, r.path))
    && (forall p :: p in coll.corpus && coll.IsHit(terms, query.filter, p) ==> ResultOf(coll, terms, p) in results)
  }

  method ListResults(docs: map<string, DocMeta>, ranks: seq<Rank>) returns (results: seq<SearchResult>)
    requires forall r :: r in ranks ==> r.path in docs
    ensures |results| == |ranks|
    ensures forall k :: 0 <= k < |ranks| ==>
      var meta := docs[ranks[k].path];
      results[k] == SearchResult(ranks[k].path, meta.title, Snippet(meta.body), ranks[k].score)
  {
    results := [];
    for k := 0 to |ranks|
      invariant |results| == k
      invariant forall i :: 0 <= i < k ==>
        var meta := docs[ranks[i].path];
        results[i] == SearchResult(ranks[i].path, meta.title, Snippet(meta.body), ranks[i].score)
    {
      var meta := docs[ranks[k].path];
      results := results + [SearchResult(ranks[k].path, meta.title, Snippet(meta.body), ranks[k].score)];
    }
  }

  method RunSearch(index: InMemoryIndex, coll: Collection, query: Query) returns (results: seq<SearchResult>)
    requires Indexes(index.postings, index.docs, coll.corpus, coll.lower)
    ensures IsAnswer(results, coll, query)
  {
    var scores := ScoreTerms(index, coll, query);
    RankOrder();
    var ranks := SortSet(set p | p in scores :: Rank(p, scores[p]), RankBefore);
    results := ListResults(index.docs, ranks);
    RankedAnswer(coll, query, Lowered(query.terms, coll.lower), scores, ranks, results);
  }

  lemma RankedAnswer(coll: Collection, query: Query, terms: set<string>, scores: map<string, real>, ranks: seq<Rank>,
                     results: seq<SearchResult>)
    requires terms == Lowered(query.terms, coll.lower) && Scored(coll, query.filter, terms, scores)
    requires StrictlySorted(ranks, RankBefore)
    requires forall r :: r in ranks <==> r.path in scores && r.score == scores[r.path]
    requires |results| == |ranks|
    requires forall k :: 0 <= k < |ranks| ==>
      && ranks[k].path in coll.corpus
      && results[k] == ResultOf(coll, terms, ranks[k].path).(score := ranks[k].score)
    ensures IsAnswer(results, coll, query)
  {
    forall p | p in coll.corpus && coll.IsHit(terms, query.filter, p)
      ensures ResultOf(coll, terms, p) in results
    {
      assert Rank(p, scores[p]) in ranks;
      var k :| 0 <= k < |ranks| && ranks[k] == Rank(p, scores[p]);
      assert results[k] == ResultOf(coll, terms, p);
    }
    forall r | r in results
      ensures coll.IsHit(terms, query.filter, r.path) && r == ResultOf(coll, terms, r.path)
    {
      var k :| 0 <= k < |results| && results[k] == r;
      assert ranks[k] in ranks;
    }
    forall i, j | 0 <= i < j < |results|
      ensures ResultBefore(results[i], results[j])
    {
      assert RankBefore(ranks[i], ranks[j]);
    }
  }

  /** There is only one brute-force answer: the order in which the index happens to be
      walked never shows. */
  lemma AnswerUnique(a: seq<SearchResult>, b: seq<SearchResult>, coll: Collection, query: Query)
    requires IsAnswer(a, coll, query) && IsAnswer(b, coll, query)
    ensures a == b
  {
    RankOrder();
    forall x, y | ResultBefore(x, y)
      ensures x != y && !ResultBefore(y, x)
    {
    }
    SortedUnique(a, b, ResultBefore);
  }

  /** With a logarithm that grows from zero at one, no score is negative. */
  lemma {:induction false} ScoreNonNegative(coll: Collection, terms: set<string>, path: string)
    requires path in coll.corpus
    requires coll.ln(1.0) == 0.0 && forall x, y :: 0.0 < x <= y ==> coll.ln(x) <= coll.ln(y)
    ensures coll.Score(terms, path) >= 0.0
    decreases terms
  {
    if terms != {} {
      var t :| t in terms && coll.Score(terms, path) == coll.Contribution(t, path) + coll.Score(terms - {t}, path);
      SubsetSize(Containing(coll.corpus, t, coll.lower), coll.corpus.Keys);
      ContributionNonNegative(coll, t, path);
      ScoreNonNegative(coll, terms - {t}, path);
    }
  }

  lemma ContributionNonNegative(coll: Collection, term: string, path: string)
    requires path in coll.corpus && Df(coll.corpus, term, coll.lower) <= |coll.corpus.Keys|
    requires coll.ln(1.0) == 0.0 && forall x, y :: 0.0 < x <= y ==> coll.ln(x) <= coll.ln(y)
    ensures coll.Contribution(term, path) >= 0.0
  {
    assert |coll.corpus| == |coll.corpus.Keys|;
    Bm25NonNegative(|coll.corpus|, Df(coll.corpus, term, coll.lower), Tf(coll.corpus[path], term, coll.lower),
                    |TokensOf(coll.corpus[path], coll.lower)|, coll.AverageLength(), coll.ln);
  }
}
