/** The in-memory search index against a plain scan of the corpus. Lowercasing and the
    logarithm are parameters; scores are reals. */
module Search {
  import opened Wrappers
  import opened Text

  datatype Document = Document(path: string, title: Option<string>, description: Option<string>, tags: seq<string>,
                               body: string, status: Option<string>)

  // ---------------------------------------------------------------------
  // Tokens.

  /** The words of `s`, the last of which is still growing as `word`. */
  function Words(s: string, word: string): seq<string>
    decreases |s|
  {
    var done := if |word| >= 2 then [word] else [];
    if s == "" then done
    else if IsAlnum(s[0]) then Words(s[1..], word + [s[0]])
    else done + Words(s[1..], "")
  }

  /** Lowercase, split on anything but letters and digits, at least two characters. */
  function Tokenize(text: string, lower: string -> string): seq<string> {
    Words(lower(text), "")
  }

  const HISTORY := "# History"

  /** The lines of a body before its history. */
  function BeforeHistory(lines: seq<string>): string {
    if |lines| == 0 || TrimEnd(lines[0]) == HISTORY then "" else lines[0] + BeforeHistory(lines[1..])
  }

  function TitleOf(doc: Document): string {
    if doc.title.Some? then doc.title.value else doc.path
  }

  function TagText(tags: seq<string>): string {
    if |tags| == 0 then "" else " " + tags[0] + TagText(tags[1..])
  }

  function SearchableText(doc: Document): string {
    TitleOf(doc) + (if doc.description.Some? then " " + doc.description.value else "") + TagText(doc.tags)
    + " " + BeforeHistory(SplitInclusive(doc.body))
  }

  function TokensOf(doc: Document, lower: string -> string): seq<string> {
    Tokenize(SearchableText(doc), lower)
  }

  function Tf(doc: Document, term: string, lower: string -> string): nat {
    multiset(TokensOf(doc, lower))[term]
  }

  // ---------------------------------------------------------------------
  // The index as a relation to the latest version of each document.

  datatype DocMeta = DocMeta(title: string, body: string, status: Option<string>, length: nat)

  type Postings = map<string, map<string, nat>>
  type Corpus = map<string, Document>

  function MetaOf(doc: Document, lower: string -> string): DocMeta {
    DocMeta(TitleOf(doc), doc.body, doc.status, |TokensOf(doc, lower)|)
  }

  /** How often the index says `term` occurs in the document at `path`. */
  function TfAt(postings: Postings, term: string, path: string): nat {
    if term in postings && path in postings[term] then postings[term][path] else 0
  }

  /** No empty posting list, no zero count. */
  ghost predicate Clean(postings: Postings) {
    forall t :: t in postings ==> postings[t] != map[] && forall p :: p in postings[t] ==> postings[t][p] > 0
  }

  function CorpusTf(corpus: Corpus, term: string, path: string, lower: string -> string): nat {
    if path in corpus then Tf(corpus[path], term, lower) else 0
  }

  ghost predicate Indexes(postings: Postings, docs: map<string, DocMeta>, corpus: Corpus, lower: string -> string) {
    && Clean(postings)
    && (forall t, p :: TfAt(postings, t, p) == CorpusTf(corpus, t, p, lower))
    && docs.Keys == corpus.Keys
    && (forall p :: p in corpus ==> docs[p] == MetaOf(corpus[p], lower))
  }

  /** The latest version of each document of a history. */
  function Latest(history: seq<Document>): Corpus {
    if |history| == 0 then map[]
    else Latest(history[..|history| - 1])[history[|history| - 1].path := history[|history| - 1]]
  }

  function NonEmpty(postings: Postings): Postings {
    map t | t in postings && postings[t] != map[] :: postings[t]
  }

  lemma StrippedTf(before: Postings, after: Postings, path: string)
    requires Clean(before)
    requires forall t :: t in after <==> t in before && before[t] - {path} != map[]
    requires forall t :: t in after ==> after[t] == before[t] - {path}
    ensures Clean(after)
    ensures forall t, p :: TfAt(after, t, p) == if p == path then 0 else TfAt(before, t, p)
  {
    forall t, p
      ensures TfAt(after, t, p) == if p == path then 0 else TfAt(before, t, p)
    {
      if t in before && t !in after && p != path {
        assert p !in before[t] - {path};
      }
    }
  }

  class InMemoryIndex {
    var postings: Postings
    var docs: map<string, DocMeta>
    const lower: string -> string

    constructor (lower: string -> string)
      ensures this.lower == lower
      ensures Indexes(postings, docs, Latest([]), lower)
    {
      postings, docs := map[], map[];
      this.lower := lower;
    }

    method Add(doc: Document, ghost corpus: Corpus)
      requires Indexes(postings, docs, corpus, lower)
      modifies this
      ensures Indexes(postings, docs, corpus[doc.path := doc], lower)
    {
      var tokens := Tokenize(SearchableText(doc), lower);
      Strip(doc.path);
      CountTokens(doc.path, tokens);
      docs := docs[doc.path := DocMeta(TitleOf(doc), doc.body, doc.status, |tokens|)];
    }

    /** Takes the path out of every posting list and drops the lists left empty. */
    method Strip(path: string)
      modifies this`postings
      requires Clean(postings)
      ensures Clean(postings)
      ensures forall t, p :: TfAt(postings, t, p) == if p == path then 0 else old(TfAt(postings, t, p))
    {
      var rest := postings.Keys;
      while rest != {}
        invariant rest <= postings.Keys == old(postings).Keys
        invariant forall t :: t in postings ==> postings[t] == if t in rest then old(postings)[t]
                  else old(postings)[t] - {path}
        decreases |rest|
      {
        var term :| term in rest;
        postings := postings[term := postings[term] - {path}];
        rest := rest - {term};
      }
      postings := NonEmpty(postings);
      StrippedTf(old(postings), postings, path);
    }

    method CountTokens(path: string, tokens: seq<string>)
      modifies this`postings
      requires Clean(postings) && forall t :: TfAt(postings, t, path) == 0
      ensures Clean(postings)
      ensures forall t, p :: TfAt(postings, t, p) == if p == path then multiset(tokens)[t]
              else old(TfAt(postings, t, p))
    {
      for k := 0 to |tokens|
        invariant Clean(postings)
        invariant forall t, p :: TfAt(postings, t, p) == if p == path then multiset(tokens[..k])[t]
                  else old(TfAt(postings, t, p))
      {
        var token := tokens[k];
        assert tokens[..k + 1] == tokens[..k] + [token];
        var posting := if token in postings then postings[token] else map[];
        var count := if path in posting then posting[path] else 0;
        postings := postings[token := posting[path := count + 1]];
      }
      assert tokens[..|tokens|] == tokens;
    }
  }

  /** After any sequence of adds, the index is that of the latest versions. */
  method IndexAll(history: seq<Document>, lower: string -> string) returns (index: InMemoryIndex)
    ensures fresh(index) && index.lower == lower
    ensures Indexes(index.postings, index.docs, Latest(history), lower)
  {
    index := new InMemoryIndex(lower);
    assert history[..0] == [];
    for k := 0 to |history|
      invariant fresh(index) && index.lower == lower
      invariant Indexes(index.postings, index.docs, Latest(history[..k]), lower)
    {
      assert history[..k + 1][..k] == history[..k];
      index.Add(history[k], Latest(history[..k]));
    }
    assert history[..|history|] == history;
  }

  // ---------------------------------------------------------------------
  // What the relation fixes.

  /** A corpus has one index: nothing of the history before the latest versions, and
      nothing of the order of adding, is left in it. */
  lemma IndexUnique(postings: Postings, docs: map<string, DocMeta>, postings': Postings, docs': map<string, DocMeta>,
                    corpus: Corpus, lower: string -> string)
    requires Indexes(postings, docs, corpus, lower) && Indexes(postings', docs', corpus, lower)
    ensures postings == postings' && docs == docs'
  {
    SameTerms(postings, postings');
    SameTerms(postings', postings);
    forall t | t in postings
      ensures postings[t] == postings'[t]
    {
      SamePaths(postings, postings', t);
    }
  }

  lemma SameTerms(a: Postings, b: Postings)
    requires Clean(a) && Clean(b) && forall t, p :: TfAt(a, t, p) == TfAt(b, t, p)
    ensures forall t :: t in a ==> t in b
  {
    forall t | t in a
      ensures t in b
    {
      var p :| p in a[t];
      assert TfAt(a, t, p) > 0;
    }
  }

  lemma SamePaths(a: Postings, b: Postings, t: string)
    requires Clean(a) && Clean(b) && forall t, p :: TfAt(a, t, p) == TfAt(b, t, p)
    requires t in a && t in b
    ensures a[t] == b[t]
  {
    forall p
      ensures p in a[t] <==> p in b[t]
      ensures p in a[t] && p in b[t] ==> a[t][p] == b[t][p]
    {
      assert TfAt(a, t, p) == TfAt(b, t, p);
    }
  }

  /** The documents a term occurs in. */
  function Containing(corpus: Corpus, term: string, lower: string -> string): set<string> {
    set p | p in corpus && Tf(corpus[p], term, lower) > 0
  }

  function Df(corpus: Corpus, term: string, lower: string -> string): nat {
    |Containing(corpus, term, lower)|
  }

  lemma {:induction false} SubsetSize<T>(a: set<T>, b: set<T>)
    requires a <= b
    ensures |a| <= |b|
  {
    assert b == a + (b - a);
  }

  /** A posting list is the documents the term occurs in, so no longer than the corpus. */
  lemma PostingExact(postings: Postings, docs: map<string, DocMeta>, corpus: Corpus, lower: string -> string,
                     term: string)
    requires Indexes(postings, docs, corpus, lower)
    ensures term in postings <==> Containing(corpus, term, lower) != {}
    ensures term in postings ==> postings[term].Keys == Containing(corpus, term, lower)
    ensures term in postings ==> |postings[term]| == Df(corpus, term, lower) <= |docs|
  {
    var paths := Containing(corpus, term, lower);
    forall p
      ensures p in paths <==> term in postings && p in postings[term]
    {
      assert TfAt(postings, term, p) == CorpusTf(corpus, term, p, lower);
    }
    if term in postings {
      assert postings[term].Keys == paths;
      assert |postings[term]| == |postings[term].Keys|;
      SubsetSize(paths, corpus.Keys);
      assert |docs| == |docs.Keys|;
    }
  }

  /** The sum of a document's counts over a set of terms. */
  ghost function CountsOver(terms: set<string>, postings: Postings, path: string): nat {
    if terms == {} then 0
    else
      var t :| t in terms;
      TfAt(postings, t, path) + CountsOver(terms - {t}, postings, path)
  }

  /** A document's counts over all its terms add up to its length. */
  lemma CountsAddUp(postings: Postings, docs: map<string, DocMeta>, corpus: Corpus, lower: string -> string,
                    path: string)
    requires Indexes(postings, docs, corpus, lower) && path in corpus
    ensures CountsOver(postings.Keys, postings, path) == docs[path].length
  {
    var m := multiset(TokensOf(corpus[path], lower));
    forall t | t in m
      ensures t in postings.Keys
    {
      assert TfAt(postings, t, path) == CorpusTf(corpus, t, path, lower);
    }
    forall t
      ensures TfAt(postings, t, path) == m[t]
    {
      assert TfAt(postings, t, path) == CorpusTf(corpus, t, path, lower);
    }
    CountsOfMultiset(postings.Keys, postings, path, m);
  }

  lemma {:induction false} CountsOfMultiset(terms: set<string>, postings: Postings, path: string, m: multiset<string>)
    requires forall t :: t in terms ==> TfAt(postings, t, path) == m[t]
    requires forall t :: t in m ==> t in terms
    ensures CountsOver(terms, postings, path) == |m|
    decreases terms
  {
    if terms == {} {
      assert m == multiset{};
    } else {
      var t :| t in terms
        && CountsOver(terms, postings, path) == TfAt(postings, t, path) + CountsOver(terms - {t}, postings, path);
      CountsOfMultiset(terms - {t}, postings, path, m[t := 0]);
    }
  }

  // ---------------------------------------------------------------------
  // History is never indexed.

  lemma {:induction false} CutAtHistory(lines: seq<string>, more: seq<string>)
    requires |more| > 0 && TrimEnd(more[0]) == HISTORY
    ensures BeforeHistory(lines + more) == BeforeHistory(lines)
  {
    if |lines| == 0 {
      assert lines + more == more;
    } else {
      assert (lines + more)[1..] == lines[1..] + more;
      CutAtHistory(lines[1..], more);
    }
  }

  /** From a history heading on, the body does not reach the index. */
  lemma HistoryNotIndexed(doc: Document, before: string, history: string)
    requires before == "" || EndsLine(before)
    requires history != "" && TrimEnd(SplitInclusive(history)[0]) == HISTORY
    ensures SearchableText(doc.(body := before + history)) == SearchableText(doc.(body := before))
  {
    if before == "" {
      assert before + history == history;
      assert SplitInclusive(before) + SplitInclusive(history) == SplitInclusive(history);
    } else {
      SplitAppend(before, history);
    }
    CutAtHistory(SplitInclusive(before), SplitInclusive(history));
  }
}
