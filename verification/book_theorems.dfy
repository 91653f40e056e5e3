/** What a reader of the catalogue relies on: its anchors lead to its headings. */
module BookTheorems {
  import opened Wrappers
  import opened Text
  import opened Book
  import opened BookAnchored
  import opened BookExtract
  import opened BookPassage
  import opened BookOutline

  // ---------------------------------------------------------------------
  // A book with a heading is not blank.

  lemma {:induction false} TrimEndWhite(s: string)
    ensures TrimEnd(s) == "" ==> AllWhite(s)
  {
    if s != "" && IsWhite(s[|s| - 1]) {
      TrimEndWhite(s[..|s| - 1]);
      assert s == s[..|s| - 1] + [s[|s| - 1]];
    }
  }

  lemma TrimBlank(s: string)
    ensures Trim(s) == "" <==> AllWhite(s)
  {
    TrimStartWhite(s);
    TrimEndWhite(TrimStart(s));
    if TrimStart(s) != "" {
      assert TrimStart(s)[0] in TrimStart(s);
    }
  }

  lemma {:induction false} WhiteLines(s: string)
    requires AllWhite(s)
    ensures forall k :: 0 <= k < |SplitInclusive(s)| ==> AllWhite(SplitInclusive(s)[k])
    decreases |s|
  {
    if s != "" {
      WhiteLines(s[LineEnd(s)..]);
    }
  }

  lemma {:induction false} NoMarksInWhite(lines: seq<Line>, k: nat, inFence: bool, offset: nat)
    requires k <= |lines| && forall i :: 0 <= i < |lines| ==> lines[i].kind == OtherLine
    ensures Marks(lines, k, inFence, offset) == []
    decreases |lines| - k
  {
    if k < |lines| {
      NoMarksInWhite(lines, k + 1, inFence, offset + |lines[k].text|);
    }
  }

  lemma MarkedNotBlank(text: string)
    requires MarksOf(text) != []
    ensures Trim(text) != ""
  {
    if Trim(text) == "" {
      TrimBlank(text);
      WhiteLines(text);
      var raw := SplitInclusive(text);
      forall i | 0 <= i < |raw|
        ensures Classify(raw)[i].kind == OtherLine
      {
        TrimStartWhite(raw[i]);
      }
      NoMarksInWhite(Classify(raw), 0, false, 0);
    }
  }

  // ---------------------------------------------------------------------
  // An id the builder sees, the extractor sees.

  lemma {:induction false} LastOfTrimStart(s: string)
    requires TrimStart(s) != ""
    ensures s != "" && s[|s| - 1] == TrimStart(s)[|TrimStart(s)| - 1]
  {
    if IsWhite(s[0]) {
      LastOfTrimStart(s[1..]);
    }
  }

  lemma IdEndsInBrace(title: string)
    requires ExplicitId(title).Some?
    ensures title != "" && title[|title| - 1] == '}'
  {
  }

  lemma IdClosesLine(trimmed: string)
    requires HeadingAnchorId(trimmed).Some?
    ensures TrimEnd(trimmed) == trimmed
  {
    var rest := trimmed[CountHashes(trimmed)..];
    IdEndsInBrace(TrimStart(rest));
    LastOfTrimStart(rest);
    EndsInBrace(trimmed, rest);
  }

  lemma EndsInBrace(s: string, rest: string)
    requires rest != "" && |rest| <= |s| && rest == s[|s| - |rest|..] && rest[|rest| - 1] == '}'
    ensures TrimEnd(s) == s
  {
    assert s[|s| - 1] == '}';
  }

  lemma ParsedId(trimmed: string, whole: string)
    requires TrimEnd(whole) == trimmed && IsOutlineHeading(trimmed) && HeadingAnchorId(trimmed).Some?
    ensures ParseHeadingLine(whole).Some? && ParseHeadingLine(whole).value.id == HeadingAnchorId(trimmed)
  {
  }

  lemma SharedId(line: string)
    requires HasId(ReadingOf(StripEol(line)).heading)
    ensures
      var scanned := ScanLine(line);
      !scanned.fence && scanned.heading.Some? && scanned.heading.value.id == ReadingOf(StripEol(line)).heading[0].id
  {
    var eol := EolOf(line);
    var trimmed := TrimStart(StripEol(line));
    assert IsOutlineHeading(trimmed) && HeadingAnchorId(trimmed).Some?;
    TrimStartAppend(StripEol(line), eol);
    TrimStartWhite(StripEol(line));
    var whole := trimmed + eol;
    assert TrimStart(line) == whole;
    SamePrefix(trimmed, eol, whole);
    IdClosesLine(trimmed);
    TrimEndAppend(trimmed, eol);
    ParsedId(trimmed, whole);
  }

  lemma {:induction false} SameFences(lines: seq<string>, k: nat)
    requires k <= |lines|
    ensures FenceUpTo(Readings(Stripped(lines)), k) == FencedAt(ScanLines(lines), k)
  {
    if k > 0 {
      SameFences(lines, k - 1);
      SameFence(lines[k - 1]);
    }
  }

  lemma SameFence(line: string)
    ensures ReadingOf(StripEol(line)).fence == ScanLine(line).fence
  {
    SameKind(line);
  }

  /** Every heading outside fences is collected. */
  lemma {:induction false} HeadingListed(scans: seq<Scanned>, k: nat, n: nat, h: BookHeading)
    requires k < n <= |scans| && h in HeadingAt(scans, k)
    ensures h in HeadingsUpTo(scans, n)
  {
    if k + 1 < n {
      HeadingListed(scans, k, n - 1, h);
    }
  }

  lemma {:induction false} IdComesFrom(readings: seq<Reading>, n: nat) returns (k: nat)
    requires n <= |readings| && HasId(EntriesUpTo(readings, n))
    ensures k < n && !FenceUpTo(readings, k) && HasId(readings[k].heading)
  {
    if HasId(EntriesUpTo(readings, n - 1)) {
      k := IdComesFrom(readings, n - 1);
    } else {
      k := n - 1;
    }
  }

  lemma ListedId(text: string, h: BookHeading)
    requires h in Headings(text) && h.heading.id.Some?
    ensures !IsPlain(text)
  {
  }

  /** An explicit id the builder finds, the extractor finds: a book the extractor
      reads by counting, the builder counts too. */
  lemma AnchoredForBoth(text: string)
    requires HasId(EntriesOf(text))
    ensures !IsPlain(text)
  {
    var raw := SplitInclusive(text);
    var readings := Readings(Lines(text));
    var k := IdComesFrom(readings, |readings|);
    var scans := ScanLines(raw);
    SameFences(raw, k);
    SharedId(raw[k]);
    assert scans[k] == ScanLine(raw[k]);
    var h := BookHeading(scans[k].heading.value, OffsetAt(scans, k));
    HeadingListed(scans, k, |scans|, h);
    ListedId(text, h);
  }

  // ---------------------------------------------------------------------
  // Anchors lead to their headings.

  function ChapterAnchorId(chapter: ChapterEntry): string {
    ChapterAnchor(chapter.index, chapter.slug)
  }

  function SectionAnchorId(chapter: ChapterEntry, section: SectionEntry, slugify: string -> string): string {
    SectionAnchor(chapter.index, section.index, slugify(section.title))
  }

  /** The text from mark `j` up to mark `k`. */
  ghost function Span(text: string, marks: seq<Mark>, j: nat, k: nat): string
    requires Ordered(marks, 0, |text|) && j <= k
  {
    SpanBounds(marks, |text|, j, k);
    text[MarkOffset(marks, j, |text|)..MarkOffset(marks, k, |text|)]
  }

  /** From a chapter's mark to the next chapter's, or to the end. */
  ghost function ChapterText(text: string, marks: seq<Mark>, c: nat): string
    requires Ordered(marks, 0, |text|) && c < |Heads(marks)|
  {
    NextHeadBounds(marks, c);
    Span(text, marks, Heads(marks)[c], NextHead(marks, c))
  }

  /** The outline has one chapter for each chapter mark, under its title, and one
      section in it for each mark up to the next chapter's. */
  lemma OutlineNames(text: string, slugify: string -> string, chapters: seq<ChapterEntry>, c: nat)
    requires OutlineOf(text, slugify) == Plain(chapters)
    ensures |chapters| == |Heads(MarksOf(text))|
    ensures c < |chapters| ==> chapters[c] == ChapterAt(MarksOf(text), c, TitleOf, slugify)
  {
    OutlineFromMarks(text, slugify);
    MarksOfOrdered(text);
    FromMarksLength(MarksOf(text), TitleOf, slugify);
    if c < |chapters| {
      FromMarksAt(MarksOf(text), c, TitleOf, slugify);
    }
  }

  /** A chapter's printed anchor, read back, gives the text from exactly its mark to
      the next chapter. */
  lemma ChapterResolves(text: string, slugify: string -> string, chapters: seq<ChapterEntry>, c: nat, maxChars: nat)
    requires IsPlain(text) && OutlineOf(text, slugify) == Plain(chapters) && c < |chapters|
    ensures c < |Heads(MarksOf(text))| && Ordered(MarksOf(text), 0, |text|)
    ensures
      var anchor := ChapterAnchorId(chapters[c]);
      Passage(anchor, text, maxChars)
      == if c + 1 < U32_LIMIT then Ok(Take(ChapterText(text, MarksOf(text), c), maxChars))
        else Err(AnchorNotFound(anchor))
  {
    OutlineNames(text, slugify, chapters, c);
    MarksOfOrdered(text);
    MarkedNotBlank(text);
    ChapterAnchorRoundTrip(c + 1, chapters[c].slug);
  }

  lemma SectionNames(marks: seq<Mark>, c: nat, j: nat, title: string -> string, slugify: string -> string)
    requires c < |Heads(marks)|
    ensures
      var sections := ChapterAt(marks, c, title, slugify).sections;
      && |sections| == NextHead(marks, c) - Heads(marks)[c] - 1
      && (j < |sections| ==>
            && Heads(marks)[c] + 1 + j < |marks|
            && sections[j] == SectionEntry(j + 1, title(marks[Heads(marks)[c] + 1 + j].line)))
  {
    NextHeadBounds(marks, c);
    SectionsLength(marks, Heads(marks)[c] + 1, NextHead(marks, c), title);
    if j < NextHead(marks, c) - Heads(marks)[c] - 1 {
      SectionsAt(marks, Heads(marks)[c] + 1, NextHead(marks, c), j, title);
    }
  }

  /** The outline's sections are the marks up to the next chapter. */
  lemma OutlineSections(text: string, slugify: string -> string, chapters: seq<ChapterEntry>, c: nat, j: nat)
    requires OutlineOf(text, slugify) == Plain(chapters) && c < |chapters|
    ensures |chapters| == |Heads(MarksOf(text))| && chapters[c].index == c + 1
    ensures |chapters[c].sections| == NextHead(MarksOf(text), c) - Heads(MarksOf(text))[c] - 1
    ensures j < |chapters[c].sections| ==> chapters[c].sections[j].index == j + 1
  {
    OutlineNames(text, slugify, chapters, c);
    SectionNames(MarksOf(text), c, j, TitleOf, slugify);
  }

  lemma SectionCounted(text: string, marks: seq<Mark>, c: nat, j: nat)
    requires Ordered(marks, 0, |text|) && c < |Heads(marks)|
    requires Heads(marks)[c] + 1 + j < NextHead(marks, c)
    ensures SectionSpan(text, marks, c + 1, j + 1)
            == Ok(Span(text, marks, Heads(marks)[c] + 1 + j, Heads(marks)[c] + 2 + j))
  {
  }

  /** In a plain book a section anchor is answered by counting, if it can be read back. */
  lemma CountedSection(text: string, n: nat, m: nat, slug: string, maxChars: nat, counted: Result<string, PassageError>)
    requires IsPlain(text) && Trim(text) != "" && n > 0 && m > 0
    requires counted == SectionByCount(text, n, m)
    ensures Passage(SectionAnchor(n, m, slug), text, maxChars)
            == if n < U32_LIMIT && m < U32_LIMIT then Capped(counted, maxChars)
               else Err(AnchorNotFound(SectionAnchor(n, m, slug)))
  {
    SectionAnchorRoundTrip(n, m, slug);
  }

  lemma SectionByMark(text: string, c: nat, j: nat)
    requires c < |Heads(MarksOf(text))| && Heads(MarksOf(text))[c] + 1 + j < NextHead(MarksOf(text), c)
    ensures Ordered(MarksOf(text), 0, |text|)
    ensures
      var mark := Heads(MarksOf(text))[c] + 1 + j;
      SectionByCount(text, c + 1, j + 1) == Ok(Span(text, MarksOf(text), mark, mark + 1))
  {
    MarksOfOrdered(text);
    SectionCounted(text, MarksOf(text), c, j);
  }

  /** A section's printed anchor gives the text from exactly its mark to the next. */
  lemma SectionResolves(text: string, slugify: string -> string, chapters: seq<ChapterEntry>, c: nat, j: nat,
                        anchor: string, maxChars: nat)
    requires IsPlain(text) && OutlineOf(text, slugify) == Plain(chapters)
    requires c < |chapters| && j < |chapters[c].sections|
    requires anchor == SectionAnchorId(chapters[c], chapters[c].sections[j], slugify)
    ensures c < |Heads(MarksOf(text))| && Ordered(MarksOf(text), 0, |text|)
    ensures Heads(MarksOf(text))[c] + 1 + j < NextHead(MarksOf(text), c)
    ensures
      var mark := Heads(MarksOf(text))[c] + 1 + j;
      Passage(anchor, text, maxChars)
      == if c + 1 < U32_LIMIT && j + 1 < U32_LIMIT then Capped(Ok(Span(text, MarksOf(text), mark, mark + 1)), maxChars)
         else Err(AnchorNotFound(anchor))
  {
    OutlineSections(text, slugify, chapters, c, j);
    var slug := slugify(chapters[c].sections[j].title);
    assert anchor == SectionAnchor(c + 1, j + 1, slug);
    MarkedNotBlank(text);
    SectionByMark(text, c, j);
    CountedSection(text, c + 1, j + 1, slug, maxChars, SectionByCount(text, c + 1, j + 1));
  }

  /** Past the outline there is nothing: the anchor is not found. */
  lemma BeyondChapters(text: string, slugify: string -> string, chapters: seq<ChapterEntry>, n: nat, slug: string,
                       maxChars: nat)
    requires IsPlain(text) && OutlineOf(text, slugify) == Plain(chapters)
    requires |chapters| < n < U32_LIMIT && Trim(text) != ""
    ensures Passage(ChapterAnchor(n, slug), text, maxChars) == Err(NoChapter(n))
  {
    OutlineNames(text, slugify, chapters, n);
    ChapterAnchorRoundTrip(n, slug);
  }

  lemma NoSectionCounted(text: string, marks: seq<Mark>, n: nat, m: nat)
    requires Ordered(marks, 0, |text|) && n > 0 && m > 0
    requires n <= |Heads(marks)| ==> NextHead(marks, n - 1) - Heads(marks)[n - 1] - 1 < m
    ensures SectionSpan(text, marks, n, m) == Err(if n <= |Heads(marks)| then NoSection(n, m) else NoChapter(n))
  {
  }

  lemma BeyondCount(text: string, slugify: string -> string, chapters: seq<ChapterEntry>, n: nat, m: nat)
    requires OutlineOf(text, slugify) == Plain(chapters) && n > 0 && m > 0
    requires n <= |chapters| ==> |chapters[n - 1].sections| < m
    ensures SectionByCount(text, n, m) == Err(if n <= |chapters| then NoSection(n, m) else NoChapter(n))
  {
    OutlineNames(text, slugify, chapters, n - 1);
    if n <= |chapters| {
      OutlineSections(text, slugify, chapters, n - 1, 0);
    }
    MarksOfOrdered(text);
    NoSectionCounted(text, MarksOf(text), n, m);
  }

  /** A section number past its chapter's sections, or in no chapter, is not found. */
  lemma BeyondSections(text: string, slugify: string -> string, chapters: seq<ChapterEntry>, n: nat, m: nat,
                       slug: string, maxChars: nat)
    requires IsPlain(text) && OutlineOf(text, slugify) == Plain(chapters)
    requires 0 < n < U32_LIMIT && 0 < m < U32_LIMIT && Trim(text) != ""
    requires n <= |chapters| ==> |chapters[n - 1].sections| < m
    ensures Passage(SectionAnchor(n, m, slug), text, maxChars)
            == Err(if n <= |chapters| then NoSection(n, m) else NoChapter(n))
  {
    BeyondCount(text, slugify, chapters, n, m);
    CountedSection(text, n, m, slug, maxChars, SectionByCount(text, n, m));
  }

  // ---------------------------------------------------------------------
  // Tiling.

  /** The chapters from `c` on, one after the other. */
  ghost function ChapterTexts(text: string, marks: seq<Mark>, c: nat): seq<string>
    requires Ordered(marks, 0, |text|) && c <= |Heads(marks)|
    decreases |Heads(marks)| - c
  {
    if c == |Heads(marks)| then [] else [ChapterText(text, marks, c)] + ChapterTexts(text, marks, c + 1)
  }

  /** Uncapped chapters tile the text from the first chapter to the end. */
  lemma {:induction false} ChaptersTile(text: string, marks: seq<Mark>, c: nat)
    requires Ordered(marks, 0, |text|) && c < |Heads(marks)|
    ensures Heads(marks)[c] < |marks| && marks[Heads(marks)[c]].offset <= |text|
    ensures Concat(ChapterTexts(text, marks, c)) == text[marks[Heads(marks)[c]].offset..]
    decreases |Heads(marks)| - c
  {
    NextHeadBounds(marks, c);
    SpanBounds(marks, |text|, Heads(marks)[c], NextHead(marks, c));
    var start, next := marks[Heads(marks)[c]].offset, MarkOffset(marks, NextHead(marks, c), |text|);
    assert text[start..next] + text[next..] == text[start..];
    if c + 1 < |Heads(marks)| {
      ChaptersTile(text, marks, c + 1);
    } else {
      assert text[next..] == "";
    }
  }

  /** The spans of the marks from `j` to before `k`. */
  ghost function Spans(text: string, marks: seq<Mark>, j: nat, k: nat): seq<string>
    requires Ordered(marks, 0, |text|) && j <= k
    decreases k - j
  {
    if j == k then [] else [Span(text, marks, j, j + 1)] + Spans(text, marks, j + 1, k)
  }

  lemma {:induction false} SpansTile(text: string, marks: seq<Mark>, j: nat, k: nat)
    requires Ordered(marks, 0, |text|) && j <= k
    ensures Concat(Spans(text, marks, j, k)) == Span(text, marks, j, k)
    decreases k - j
  {
    if j < k {
      SpansTile(text, marks, j + 1, k);
      SpanBounds(marks, |text|, j, j + 1);
      SpanBounds(marks, |text|, j + 1, k);
      var a, b, c := MarkOffset(marks, j, |text|), MarkOffset(marks, j + 1, |text|), MarkOffset(marks, k, |text|);
      assert text[a..b] + text[b..c] == text[a..c];
    }
  }

  /** A chapter is its opening followed by its sections, nothing lost or repeated. */
  lemma SectionsTile(text: string, marks: seq<Mark>, c: nat)
    requires Ordered(marks, 0, |text|) && c < |Heads(marks)|
    ensures Heads(marks)[c] + 1 <= NextHead(marks, c)
    ensures ChapterText(text, marks, c)
            == Span(text, marks, Heads(marks)[c], Heads(marks)[c] + 1)
               + Concat(Spans(text, marks, Heads(marks)[c] + 1, NextHead(marks, c)))
  {
    NextHeadBounds(marks, c);
    SpansTile(text, marks, Heads(marks)[c], NextHead(marks, c));
  }

  // ---------------------------------------------------------------------
  // Which lines are boundaries.

  /** An odd number of fence lines lies before line `k`. */
  predicate Fenced(lines: seq<Line>, k: nat)
    requires k <= |lines|
  {
    OddBefore(lines, k, (line: Line) => line.kind == FenceLine)
  }

  /** Line `k` is a chapter or section heading outside every fence. */
  predicate IsBoundary(lines: seq<Line>, k: nat)
    requires k < |lines|
  {
    !Fenced(lines, k) && lines[k].kind in {ChapterLine, SectionLine}
  }

  function BoundaryMark(lines: seq<Line>, k: nat): Mark
    requires k < |lines|
  {
    Mark(if lines[k].kind == ChapterLine then 1 else 2, OffsetOf(lines, k), lines[k].text)
  }

  lemma MarksUnroll(lines: seq<Line>, j: nat)
    requires j < |lines|
    ensures Marks(lines, j, Fenced(lines, j), OffsetOf(lines, j))
            == MarkOf(lines[j], Fenced(lines, j), OffsetOf(lines, j))
               + Marks(lines, j + 1, Fenced(lines, j + 1), OffsetOf(lines, j + 1))
  {
  }

  lemma {:induction false} BoundaryListed(lines: seq<Line>, j: nat, k: nat)
    requires j <= k < |lines| && IsBoundary(lines, k)
    ensures BoundaryMark(lines, k) in Marks(lines, j, Fenced(lines, j), OffsetOf(lines, j))
    decreases k - j
  {
    MarksUnroll(lines, j);
    if j < k {
      BoundaryListed(lines, j + 1, k);
    } else {
      assert MarkOf(lines[j], Fenced(lines, j), OffsetOf(lines, j)) == [BoundaryMark(lines, k)];
    }
  }

  lemma {:induction false} ListedBoundary(lines: seq<Line>, j: nat, mark: Mark) returns (k: nat)
    requires j <= |lines|
    requires mark in Marks(lines, j, Fenced(lines, j), OffsetOf(lines, j))
    ensures k < |lines| && IsBoundary(lines, k) && mark == BoundaryMark(lines, k)
    decreases |lines| - j
  {
    if mark in MarkOf(lines[j], Fenced(lines, j), OffsetOf(lines, j)) {
      k := j;
    } else {
      k := ListedBoundary(lines, j + 1, mark);
    }
  }

  predicate MarksBoundary(lines: seq<Line>, mark: Mark) {
    exists k :: 0 <= k < |lines| && IsBoundary(lines, k) && mark == BoundaryMark(lines, k)
  }

  /** The marks are exactly the boundary lines: a heading after an odd number of fence
      lines never bounds anything, every other one does. */
  lemma BoundariesExact(text: string, mark: Mark)
    ensures mark in MarksOf(text) <==> MarksBoundary(Classify(SplitInclusive(text)), mark)
  {
    var lines := Classify(SplitInclusive(text));
    assert Marks(lines, 0, Fenced(lines, 0), OffsetOf(lines, 0)) == MarksOf(text);
    if mark in MarksOf(text) {
      var k := ListedBoundary(lines, 0, mark);
    } else if MarksBoundary(lines, mark) {
      var k :| 0 <= k < |lines| && IsBoundary(lines, k) && mark == BoundaryMark(lines, k);
      BoundaryListed(lines, 0, k);
    }
  }
}
