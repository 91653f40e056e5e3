/** What an answer of the search says, in terms of the documents alone. */
module SearchMeaning {
  import opened Wrappers
  import opened Text
  import opened Trimming
  import opened Sorting
  import opened Search
  import opened SearchQuery
  import opened SearchWords

  // ---------------------------------------------------------------------
  // Which documents.

  predicate IsHidden(doc: Document) {
    doc.status == Some("superseded") || doc.status == Some("retired")
  }

  /** Some term of the query, lowered, stands as a word in the document's lowered text. */
  ghost predicate HasTerm(coll: Collection, terms: seq<string>, doc: Document) {
    exists t :: t in terms && StandsIn(coll.lower(SearchableText(doc)), coll.lower(t))
  }

  ghost predicate Among(results: seq<SearchResult>, path: string) {
    exists r :: r in results && r.path == path
  }

  lemma HitHasTerm(coll: Collection, query: Query, path: string)
    ensures coll.IsHit(Lowered(query.terms, coll.lower), query.filter, path)
            <==> && path in coll.corpus && HasTerm(coll, query.terms, coll.corpus[path])
                 && (query.filter.ActiveOnly? ==> !IsHidden(coll.corpus[path]))
  {
    if path in coll.corpus {
      TermsMean(coll, query.terms, coll.corpus[path]);
    }
  }

  lemma TermsMean(coll: Collection, terms: seq<string>, doc: Document)
    ensures (exists t :: t in Lowered(terms, coll.lower) && Tf(doc, t, coll.lower) > 0)
            <==> HasTerm(coll, terms, doc)
  {
    if t :| t in Lowered(terms, coll.lower) && Tf(doc, t, coll.lower) > 0 {
      var u :| u in terms && coll.lower(u) == t;
      OccursExact(doc, t, coll.lower);
    }
    if t :| t in terms && StandsIn(coll.lower(SearchableText(doc)), coll.lower(t)) {
      OccursExact(doc, coll.lower(t), coll.lower);
      assert coll.lower(t) in Lowered(terms, coll.lower);
    }
  }

  /** A document is in the answer exactly when it has a term and, unless all statuses are
      asked for, is neither superseded nor retired. */
  lemma ShownExactly(results: seq<SearchResult>, coll: Collection, query: Query, path: string)
    requires IsAnswer(results, coll, query)
    ensures Among(results, path)
            <==> && path in coll.corpus && HasTerm(coll, query.terms, coll.corpus[path])
                 && (query.filter.ActiveOnly? ==> !IsHidden(coll.corpus[path]))
  {
    HitHasTerm(coll, query, path);
    if path in coll.corpus && coll.IsHit(Lowered(query.terms, coll.lower), query.filter, path) {
      assert ResultOf(coll, Lowered(query.terms, coll.lower), path) in results;
    }
  }

  /** Version `k` is the last one of its path. */
  ghost predicate IsLast(history: seq<Document>, k: nat, path: string) {
    && k < |history| && history[k].path == path
    && forall j :: k < j < |history| ==> history[j].path != path
  }

  /** The corpus holds the last version of each path ever added, and nothing else. */
  lemma {:induction false} LatestExact(history: seq<Document>, path: string)
    ensures path in Latest(history) <==> exists k: nat :: IsLast(history, k, path)
    ensures forall k: nat :: IsLast(history, k, path) ==> Latest(history)[path] == history[k]
  {
    if |history| > 0 {
      var n := |history| - 1;
      var front := history[..n];
      LatestExact(front, path);
      if history[n].path == path {
        assert IsLast(history, n, path);
      } else {
        assert forall k: nat :: IsLast(front, k, path) <==> IsLast(history, k, path);
      }
    }
  }

  // ---------------------------------------------------------------------
  // In what order.

  /** No document is listed twice; a better score comes first, and of two equal scores the
      path that comes first in dictionary order. */
  lemma RankedByScore(results: seq<SearchResult>, coll: Collection, query: Query, i: nat, j: nat)
    requires IsAnswer(results, coll, query) && i < j < |results|
    ensures results[i].path != results[j].path && results[i].score >= results[j].score
    ensures results[i].score == results[j].score ==> Precedes(results[i].path, results[j].path)
  {
    var a, b := results[i], results[j];
    assert a in results && b in results;
    BeforeIsPrecedes(a.path, b.path);
    BeforeTotal(a.path, b.path);
  }

  // ---------------------------------------------------------------------
  // With what title and snippet.

  /** The title shown is the document's, or its path without one; the snippet is the
      body's first 200 characters without the white space around them. */
  lemma ResultShows(results: seq<SearchResult>, coll: Collection, query: Query, r: SearchResult)
    returns (before: string, after: string)
    requires IsAnswer(results, coll, query) && r in results
    ensures r.path in coll.corpus
    ensures
      var doc := coll.corpus[r.path];
      && r.title == (if doc.title.None? then doc.path else doc.title.value)
      && Around(if |doc.body| <= 200 then doc.body else doc.body[..200], before, r.snippet, after)
  {
    var body := coll.corpus[r.path].body;
    before, after := TrimCut(if |body| <= 200 then body else body[..200]);
  }

  // ---------------------------------------------------------------------
  // With what score.

  /** A listing of a set, each element once. */
  ghost predicate Lists(listing: seq<string>, items: set<string>) {
    && (forall x :: x in listing <==> x in items)
    && (forall i, j :: 0 <= i < j < |listing| ==> listing[i] != listing[j])
  }

  lemma ListsFront(listing: seq<string>, items: set<string>)
    requires Lists(listing, items) && listing != []
    ensures
      var last := listing[|listing| - 1];
      last in items && Lists(listing[..|listing| - 1], items - {last})
  {
    var front, last := listing[..|listing| - 1], listing[|listing| - 1];
    assert listing == front + [last];
    assert last in listing;
  }

  /** The contributions of a list of terms. */
  ghost function Total(coll: Collection, path: string, terms: seq<string>): real
    requires path in coll.corpus
  {
    if |terms| == 0 then 0.0
    else Total(coll, path, terms[..|terms| - 1]) + coll.Contribution(terms[|terms| - 1], path)
  }

  lemma {:induction false} ScoreTotal(coll: Collection, path: string, terms: set<string>, listing: seq<string>)
    requires path in coll.corpus && Lists(listing, terms)
    ensures coll.Score(terms, path) == Total(coll, path, listing)
    decreases |listing|
  {
    if listing == [] {
      assert forall x :: x in terms ==> x in listing;
      assert terms == {};
    } else {
      var last := listing[|listing| - 1];
      ListsFront(listing, terms);
      coll.ScoreAny(terms, path, last);
      ScoreTotal(coll, path, terms - {last}, listing[..|listing| - 1]);
    }
  }

  /** A result's score is the contributions of the distinct lowered terms, in whatever
      order they are added. */
  lemma ResultScored(results: seq<SearchResult>, coll: Collection, query: Query, r: SearchResult, listing: seq<string>)
    requires IsAnswer(results, coll, query) && r in results
    requires Lists(listing, Lowered(query.terms, coll.lower))
    ensures r.path in coll.corpus && r.score == Total(coll, r.path, listing)
  {
    ScoreTotal(coll, r.path, Lowered(query.terms, coll.lower), listing);
  }

  function Length(coll: Collection, path: string): nat
    requires path in coll.corpus
  {
    |TokensOf(coll.corpus[path], coll.lower)|
  }

  ghost function Lengths(coll: Collection, paths: seq<string>): nat
    requires forall p :: p in paths ==> p in coll.corpus
  {
    if |paths| == 0 then 0
    else
      var front := paths[..|paths| - 1];
      assert forall p :: p in front ==> p in paths;
      Lengths(coll, front) + Length(coll, paths[|paths| - 1])
  }

  lemma {:induction false} LengthsAre(coll: Collection, paths: set<string>, listing: seq<string>)
    requires paths <= coll.corpus.Keys && Lists(listing, paths)
    ensures coll.LengthOf(paths) == Lengths(coll, listing)
    decreases |listing|
  {
    if listing == [] {
      assert forall x :: x in paths ==> x in listing;
      assert paths == {};
    } else {
      var last := listing[|listing| - 1];
      ListsFront(listing, paths);
      coll.LengthOfAny(paths, last);
      LengthsAre(coll, paths - {last}, listing[..|listing| - 1]);
    }
  }

  lemma ShareTimes(a: real, n: real)
    requires n != 0.0
    ensures a / n * n == a
  {
  }

  /** The average length is the documents' lengths shared out evenly. */
  lemma AverageExact(coll: Collection, listing: seq<string>)
    requires Lists(listing, coll.corpus.Keys) && |coll.corpus| > 0
    ensures coll.AverageLength() * |coll.corpus| as real == Lengths(coll, listing) as real
  {
    AverageShares(coll);
    LengthsAre(coll, coll.corpus.Keys, listing);
  }

  lemma AverageShares(coll: Collection)
    requires |coll.corpus| > 0
    ensures coll.AverageLength() * |coll.corpus| as real == coll.LengthOf(coll.corpus.Keys) as real
  {
    ShareTimes(coll.LengthOf(coll.corpus.Keys) as real, |coll.corpus| as real);
  }

  // ---------------------------------------------------------------------
  // What one term contributes.

  /** How rare a term is: one more than the documents there are, to half more than those
      that have it. */
  function Rarity(nDocs: nat, df: nat): real {
    (nDocs as real + 1.0) / (df as real + 0.5)
  }

  lemma TimesKeeps(a: real, b: real, c: real)
    requires a <= b && c >= 0.0
    ensures a * c <= b * c
  {
    NonNegativeProduct(b - a, c);
    assert (b - a) * c == b * c - a * c;
  }

  lemma PositiveProduct(a: real, b: real)
    requires a > 0.0 && b > 0.0
    ensures a * b > 0.0
  {
  }

  lemma TimesStrict(a: real, b: real, c: real)
    requires a < b && c > 0.0
    ensures a * c < b * c
  {
    PositiveProduct(b - a, c);
    assert (b - a) * c == b * c - a * c;
  }

  lemma DivideOut(a: real, b: real, c: real)
    requires c > 0.0
    ensures a * c <= b * c <==> a <= b
    ensures a * c == b * c <==> a == b
  {
    if a < b {
      TimesStrict(a, b, c);
    } else if b < a {
      TimesStrict(b, a, c);
    }
  }

  lemma RarityIs(nDocs: nat, df: nat)
    ensures (nDocs as real - df as real + 0.5) / (df as real + 0.5) + 1.0 == Rarity(nDocs, df)
  {
    OneMore(nDocs as real - df as real + 0.5, df as real + 0.5);
  }

  lemma OneMore(n: real, d: real)
    requires d > 0.0
    ensures n / d + 1.0 == (n + d) / d
  {
    ShareTimes(n, d);
    ShareTimes(n + d, d);
    Added(n / d, (n + d) / d, n, d);
  }

  lemma Added(x: real, y: real, n: real, d: real)
    requires d > 0.0 && x * d == n && y * d == n + d
    ensures x + 1.0 == y
  {
    assert (x + 1.0) * d == x * d + d;
    DivideOut(x + 1.0, y, d);
  }

  /** What the length costs, next to the average length, or nothing if there is none. */
  function Saturation(docLen: nat, avgdl: real): (r: real)
    requires avgdl >= 0.0
    ensures r > 0.0
  {
    if avgdl == 0.0 then 1.2
    else
      RatioPositive(docLen, avgdl);
      0.3 + 0.9 * (docLen as real / avgdl)
  }

  /** The contribution, with its division cleared. */
  lemma Bm25Exact(nDocs: nat, df: nat, tf: nat, docLen: nat, avgdl: real, ln: real -> real)
    requires avgdl >= 0.0
    ensures df == 0 ==> Bm25(nDocs, df, tf, docLen, avgdl, ln) == 0.0
    ensures df > 0 ==> Bm25(nDocs, df, tf, docLen, avgdl, ln)
                       == ln(Rarity(nDocs, df)) * Share(tf, Saturation(docLen, avgdl))
  {
    RarityIs(nDocs, df);
    if avgdl > 0.0 {
      var ratio := docLen as real / avgdl;
      assert K1 * (1.0 - B + B * ratio) == 0.3 + 0.9 * ratio;
    }
  }

  /** 2.2 times the share the occurrences have of themselves and the saturation. */
  function Share(tf: nat, saturation: real): real
    requires saturation > 0.0
  {
    2.2 * tf as real / (tf as real + saturation)
  }

  lemma ShareBounds(tf: real, saturation: real)
    requires saturation > 0.0 && tf >= 0.0
    ensures
      var r := 2.2 * tf / (tf + saturation);
      r * (tf + saturation) == 2.2 * tf && 0.0 <= r < 2.2
  {
    var r := 2.2 * tf / (tf + saturation);
    ShareTimes(2.2 * tf, tf + saturation);
    DivideOut(0.0, r, tf + saturation);
    DivideOut(2.2, r, tf + saturation);
  }

  lemma SmallerShare(tf: real, more: real, saturation: real, longer: real, r: real, q: real)
    requires 0.0 <= tf <= more && 0.0 < saturation <= longer
    requires 0.0 <= r < 2.2 && r * (tf + longer) == 2.2 * tf
    requires 0.0 <= q < 2.2 && q * (more + saturation) == 2.2 * more
    ensures r <= q
  {
    TimesKeeps(saturation, longer, r);
    TimesKeeps(tf, more, 2.2 - r);
    assert r * (tf + longer) == tf * r + longer * r;
    assert tf * (2.2 - r) == 2.2 * tf - tf * r && more * (2.2 - r) == 2.2 * more - more * r;
    assert r * (more + saturation) == more * r + saturation * r;
    assert r * (more + saturation) <= q * (more + saturation);
    DivideOut(r, q, more + saturation);
  }

  /** More occurrences in a document no longer never score less, nor does a rarer term. */
  lemma ContributionGrows(nDocs: nat, df: nat, rarer: nat, tf: nat, more: nat, docLen: nat, shorter: nat, avgdl: real,
                          ln: real -> real)
    requires avgdl >= 0.0 && rarer <= df <= nDocs && tf <= more && shorter <= docLen
    requires ln(1.0) == 0.0 && forall x, y :: 0.0 < x <= y ==> ln(x) <= ln(y)
    ensures ln(Rarity(nDocs, df)) * Share(tf, Saturation(docLen, avgdl))
            <= ln(Rarity(nDocs, rarer)) * Share(more, Saturation(shorter, avgdl))
  {
    RarityGrows(nDocs, df, rarer);
    SaturationGrows(docLen, shorter, avgdl);
    ClearedGrows(Rarity(nDocs, df), Rarity(nDocs, rarer), tf, more, Saturation(docLen, avgdl),
                 Saturation(shorter, avgdl), ln);
  }

  lemma ClearedGrows(common: real, rare: real, tf: nat, more: nat, longer: real, saturation: real, ln: real -> real)
    requires 1.0 <= common <= rare && tf <= more && 0.0 < saturation <= longer
    requires ln(1.0) == 0.0 && forall x, y :: 0.0 < x <= y ==> ln(x) <= ln(y)
    ensures ln(common) * Share(tf, longer) <= ln(rare) * Share(more, saturation)
  {
    ShareBounds(tf as real, longer);
    ShareBounds(more as real, saturation);
    SmallerShare(tf as real, more as real, saturation, longer, Share(tf, longer), Share(more, saturation));
    assert ln(1.0) <= ln(common) && ln(common) <= ln(rare);
    ProductGrows(ln(common), ln(rare), Share(tf, longer), Share(more, saturation));
  }

  lemma ProductGrows(a: real, b: real, r: real, q: real)
    requires 0.0 <= a <= b && 0.0 <= r <= q
    ensures a * r <= b * q
  {
    TimesKeeps(a, b, r);
    TimesKeeps(r, q, b);
  }

  lemma RarityGrows(nDocs: nat, df: nat, rarer: nat)
    requires rarer <= df <= nDocs
    ensures 1.0 <= Rarity(nDocs, df) <= Rarity(nDocs, rarer)
  {
    FractionGrows(nDocs as real + 1.0, df as real + 0.5, rarer as real + 0.5);
    FractionGrows(nDocs as real + 1.0, nDocs as real + 1.0, df as real + 0.5);
  }

  lemma FractionGrows(a: real, d: real, e: real)
    requires a >= 0.0 && 0.0 < e <= d
    ensures a / d <= a / e
    ensures a == d ==> a / d == 1.0
  {
    ShareTimes(a, d);
    ShareTimes(a, e);
    DivideOut(0.0, a / d, d);
    TimesKeeps(e, d, a / d);
    DivideOut(a / d, a / e, e);
  }

  lemma SaturationGrows(docLen: nat, shorter: nat, avgdl: real)
    requires avgdl >= 0.0 && shorter <= docLen
    ensures Saturation(shorter, avgdl) <= Saturation(docLen, avgdl)
  {
    if avgdl > 0.0 {
      ShareTimes(docLen as real, avgdl);
      ShareTimes(shorter as real, avgdl);
      DivideOut(shorter as real / avgdl, docLen as real / avgdl, avgdl);
    }
  }

  lemma HoldingIs(coll: Collection, term: string)
    ensures Containing(coll.corpus, term, coll.lower)
            == set p | p in coll.corpus && term in TokensOf(coll.corpus[p], coll.lower)
  {
  }

  /** What a term adds to a document's score: of so many documents, so many hold it, this
      one so often among so many words. */
  lemma ContributionExact(coll: Collection, term: string, path: string)
    requires path in coll.corpus
    ensures
      var holding := set p | p in coll.corpus && term in TokensOf(coll.corpus[p], coll.lower);
      var tokens := TokensOf(coll.corpus[path], coll.lower);
      coll.Contribution(term, path)
      == Bm25(|coll.corpus|, |holding|, multiset(tokens)[term], |tokens|, coll.AverageLength(), coll.ln)
  {
    HoldingIs(coll, term);
  }
}
