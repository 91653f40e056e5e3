/**
 Where the extractor cuts, and when a counted anchor leads to its own heading: for
 every book the outline counts, whether or not the extractor finds ids in it.
 */
module BookCuts {
  import opened Wrappers
  import opened Text
  import opened Book
  import opened BookExtract
  import opened BookPassage
  import opened BookOutline
  import opened BookTheorems

  /** A stretch of the text. */
  datatype Cut = Cut(start: nat, end: nat)

  predicate InText(cut: Cut, text: string) {
    cut.start <= cut.end <= |text|
  }

  /** The passage a cut makes. */
  function CutPassage(text: string, cut: Option<Cut>, missing: PassageError): Result<string, PassageError>
    requires cut.Some? ==> InText(cut.value, text)
  {
    match cut
    case Some(c) => Ok(text[c.start..c.end])
    case None => Err(missing)
  }

  // ---------------------------------------------------------------------
  // Cuts by id.

  /** The first heading whose id names chapter `n`. */
  function ChapterHeading(headings: seq<BookHeading>, n: nat): nat {
    Position(headings, 0, h => IsChapterNumbered(h, n))
  }

  /** The first heading whose id names section `m` of chapter `n`. */
  function SectionHeading(headings: seq<BookHeading>, n: nat, m: nat): nat {
    Position(headings, 0, h => IsSectionNumbered(h, n, m))
  }

  function ChapterStop(headings: seq<BookHeading>, p: nat): nat
    requires p < |headings|
  {
    Position(headings, p + 1, IsChapterId)
  }

  function SectionStop(headings: seq<BookHeading>, p: nat): nat
    requires p < |headings|
  {
    var level := headings[p].heading.level;
    Position(headings, p + 1, (h: BookHeading) => h.heading.level <= level)
  }

  /** From heading `p` to heading `q`, or to the end. */
  function HeadingCut(headings: seq<BookHeading>, p: nat, q: nat, length: nat): Cut
    requires p < |headings|
  {
    Cut(headings[p].offset, HeadingOffset(headings, q, length))
  }

  // ---------------------------------------------------------------------
  // Cuts by counting.

  /** The stretch of chapter `c` (0-based): from its mark to the next chapter's. */
  ghost function OwnChapter(marks: seq<Mark>, c: nat, length: nat): Cut
    requires c < |Heads(marks)|
  {
    Cut(MarkOffset(marks, Heads(marks)[c], length), MarkOffset(marks, NextHead(marks, c), length))
  }

  /** The stretch of section `j` of chapter `c` (both 0-based): from its mark to the next. */
  ghost function OwnSection(marks: seq<Mark>, c: nat, j: nat, length: nat): Cut
    requires c < |Heads(marks)|
  {
    var k := Heads(marks)[c] + 1 + j;
    Cut(MarkOffset(marks, k, length), MarkOffset(marks, k + 1, length))
  }

  ghost predicate HasSection(marks: seq<Mark>, c: nat, j: nat) {
    c < |Heads(marks)| && Heads(marks)[c] + 1 + j < NextHead(marks, c)
  }

  // ---------------------------------------------------------------------
  // The extractor's cuts.

  ghost function ChapterCutIn(headings: seq<BookHeading>, marks: seq<Mark>, plain: bool, n: nat, length: nat)
    : Option<Cut>
  {
    if plain then
      if 1 <= n <= |Heads(marks)| then Some(OwnChapter(marks, n - 1, length)) else None
    else
      var p := ChapterHeading(headings, n);
      if p < |headings| then Some(HeadingCut(headings, p, ChapterStop(headings, p), length)) else None
  }

  ghost function SectionCutIn(headings: seq<BookHeading>, marks: seq<Mark>, n: nat, m: nat, length: nat): Option<Cut> {
    var p := SectionHeading(headings, n, m);
    if p < |headings| then Some(HeadingCut(headings, p, SectionStop(headings, p), length))
    else if 1 <= n && 1 <= m && HasSection(marks, n - 1, m - 1) then Some(OwnSection(marks, n - 1, m - 1, length))
    else None
  }

  /** Where chapter `n` is cut: by its id in a book with any, else by counting. */
  ghost function ChapterCut(text: string, n: nat): Option<Cut> {
    ChapterCutIn(Headings(text), MarksOf(text), IsPlain(text), n, |text|)
  }

  /** Where section `m` of chapter `n` is cut: by its id if a heading has it, else by counting. */
  ghost function SectionCut(text: string, n: nat, m: nat): Option<Cut> {
    SectionCutIn(Headings(text), MarksOf(text), n, m, |text|)
  }

  lemma HeadingCutFits(headings: seq<BookHeading>, p: nat, q: nat, length: nat)
    requires InOrder(headings, 0, length) && p < q <= |headings|
    ensures HeadingCut(headings, p, q, length).start <= HeadingCut(headings, p, q, length).end <= length
  {
  }

  lemma OwnChapterFits(marks: seq<Mark>, c: nat, length: nat)
    requires Ordered(marks, 0, length) && c < |Heads(marks)|
    ensures OwnChapter(marks, c, length).start <= OwnChapter(marks, c, length).end <= length
  {
    NextHeadBounds(marks, c);
    SpanBounds(marks, length, Heads(marks)[c], NextHead(marks, c));
  }

  lemma ChapterCutFits(text: string, n: nat)
    ensures ChapterCut(text, n).Some? ==> InText(ChapterCut(text, n).value, text)
  {
    HeadingsInOrder(text);
    MarksOfOrdered(text);
    CutInFits(Headings(text), MarksOf(text), IsPlain(text), n, |text|);
  }

  lemma CutInFits(headings: seq<BookHeading>, marks: seq<Mark>, plain: bool, n: nat, length: nat)
    requires InOrder(headings, 0, length) && Ordered(marks, 0, length)
    ensures
      var made := ChapterCutIn(headings, marks, plain, n, length);
      made.Some? ==> made.value.start <= made.value.end <= length
  {
    if plain && 1 <= n <= |Heads(marks)| {
      OwnChapterFits(marks, n - 1, length);
    } else if !plain && ChapterHeading(headings, n) < |headings| {
      HeadingCutFits(headings, ChapterHeading(headings, n), ChapterStop(headings, ChapterHeading(headings, n)), length);
    }
  }

  /** The extractor returns exactly that stretch of the text. */
  lemma ChapterCutIsPassage(text: string, n: nat)
    ensures ChapterCut(text, n).Some? ==> InText(ChapterCut(text, n).value, text)
    ensures ChapterPassage(text, n) == CutPassage(text, ChapterCut(text, n), NoChapter(n))
  {
    ChapterCutFits(text, n);
    HeadingsInOrder(text);
    MarksOfOrdered(text);
  }

  lemma NumberedNotPlain(text: string, n: nat, m: nat)
    requires SectionHeading(Headings(text), n, m) < |Headings(text)|
    ensures !IsPlain(text)
  {
    var p := SectionHeading(Headings(text), n, m);
    assert Headings(text)[p] in Headings(text);
  }

  lemma SectionCutByCount(text: string, n: nat, m: nat)
    requires SectionHeading(Headings(text), n, m) == |Headings(text)| && n > 0 && m > 0
    ensures SectionCut(text, n, m).Some? ==> InText(SectionCut(text, n, m).value, text)
    ensures SectionByCount(text, n, m)
            == CutPassage(text, SectionCut(text, n, m),
                          if n <= |Heads(MarksOf(text))| then NoSection(n, m) else NoChapter(n))
  {
    var marks := MarksOf(text);
    MarksOfOrdered(text);
    if HasSection(marks, n - 1, m - 1) {
      SpanBounds(marks, |text|, Heads(marks)[n - 1] + m, Heads(marks)[n - 1] + m + 1);
    }
  }

  lemma AnchoredSectionIs(text: string, headings: seq<BookHeading>, n: nat, m: nat)
    requires InOrder(headings, 0, |text|) && SectionHeading(headings, n, m) < |headings|
    ensures
      var p := SectionHeading(headings, n, m);
      var made := HeadingCut(headings, p, SectionStop(headings, p), |text|);
      InText(made, text) && AnchoredSection(text, headings, n, m) == Some(text[made.start..made.end])
  {
  }

  lemma SectionCutById(text: string, n: nat, m: nat)
    requires SectionHeading(Headings(text), n, m) < |Headings(text)|
    ensures !IsPlain(text) && SectionCut(text, n, m).Some? && InText(SectionCut(text, n, m).value, text)
    ensures SectionPassage(text, n, m) == CutPassage(text, SectionCut(text, n, m), NoSection(n, m))
  {
    HeadingsInOrder(text);
    NumberedNotPlain(text, n, m);
    AnchoredSectionIs(text, Headings(text), n, m);
  }

  /** The extractor returns exactly that stretch of the text. A section no id names is
      counted even in a book with ids. */
  lemma SectionCutIsPassage(text: string, n: nat, m: nat)
    requires n > 0 && m > 0
    ensures SectionCut(text, n, m).Some? ==> InText(SectionCut(text, n, m).value, text)
    ensures SectionPassage(text, n, m)
            == CutPassage(text, SectionCut(text, n, m),
                          if n <= |Heads(MarksOf(text))| then NoSection(n, m) else NoChapter(n))
  {
    HeadingsInOrder(text);
    if SectionHeading(Headings(text), n, m) < |Headings(text)| {
      SectionCutById(text, n, m);
    } else {
      SectionCutByCount(text, n, m);
    }
  }

  // ---------------------------------------------------------------------
  // When a counted anchor leads home.

  /** Heading `k` is the first to carry the number, stands where the cut starts, and the
      next chapter id, or the end of the text, where it ends. */
  ghost predicate ChapterClaimed(headings: seq<BookHeading>, n: nat, k: nat, q: nat, own: Cut, length: nat) {
    && k < q <= |headings| && headings[k].offset == own.start && HeadingOffset(headings, q, length) == own.end
    && IsChapterNumbered(headings[k], n) && (forall i :: 0 <= i < k ==> !IsChapterNumbered(headings[i], n))
    && (forall i :: k < i < q ==> !IsChapterId(headings[i])) && (q < |headings| ==> IsChapterId(headings[q]))
  }

  /** The same for a section's two numbers; it ends at the next heading of its level or above. */
  ghost predicate SectionClaimed(headings: seq<BookHeading>, n: nat, m: nat, k: nat, q: nat, own: Cut, length: nat) {
    && k < q <= |headings| && headings[k].offset == own.start && HeadingOffset(headings, q, length) == own.end
    && IsSectionNumbered(headings[k], n, m) && (forall i :: 0 <= i < k ==> !IsSectionNumbered(headings[i], n, m))
    && (forall i :: k < i < q ==> headings[i].heading.level > headings[k].heading.level)
    && (q < |headings| ==> headings[q].heading.level <= headings[k].heading.level)
  }

  ghost predicate ChapterLeads(headings: seq<BookHeading>, n: nat, own: Cut, length: nat) {
    exists k, q :: ChapterClaimed(headings, n, k, q, own, length)
  }

  ghost predicate SectionLeads(headings: seq<BookHeading>, n: nat, m: nat, own: Cut, length: nat) {
    exists k, q :: SectionClaimed(headings, n, m, k, q, own, length)
  }

  lemma ChapterCutLeads(headings: seq<BookHeading>, n: nat, own: Cut, length: nat)
    ensures
      var p := ChapterHeading(headings, n);
      p < |headings| && HeadingCut(headings, p, ChapterStop(headings, p), length) == own
      <==> ChapterLeads(headings, n, own, length)
  {
    var p := ChapterHeading(headings, n);
    if p < |headings| && HeadingCut(headings, p, ChapterStop(headings, p), length) == own {
      assert ChapterClaimed(headings, n, p, ChapterStop(headings, p), own, length);
    } else if ChapterLeads(headings, n, own, length) {
      var k, q :| ChapterClaimed(headings, n, k, q, own, length);
      ChapterClaimUnique(headings, n, k, q, own, length);
    }
  }

  lemma ChapterClaimUnique(headings: seq<BookHeading>, n: nat, k: nat, q: nat, own: Cut, length: nat)
    requires ChapterClaimed(headings, n, k, q, own, length)
    ensures ChapterHeading(headings, n) == k && ChapterStop(headings, k) == q
  {
  }

  lemma SectionCutLeads(headings: seq<BookHeading>, n: nat, m: nat, own: Cut, length: nat)
    ensures
      var p := SectionHeading(headings, n, m);
      p < |headings| && HeadingCut(headings, p, SectionStop(headings, p), length) == own
      <==> SectionLeads(headings, n, m, own, length)
  {
    var p := SectionHeading(headings, n, m);
    if p < |headings| && HeadingCut(headings, p, SectionStop(headings, p), length) == own {
      assert SectionClaimed(headings, n, m, p, SectionStop(headings, p), own, length);
    } else if SectionLeads(headings, n, m, own, length) {
      var k, q :| SectionClaimed(headings, n, m, k, q, own, length);
      SectionClaimUnique(headings, n, m, k, q, own, length);
    }
  }

  lemma SectionClaimUnique(headings: seq<BookHeading>, n: nat, m: nat, k: nat, q: nat, own: Cut, length: nat)
    requires SectionClaimed(headings, n, m, k, q, own, length)
    ensures SectionHeading(headings, n, m) == k && SectionStop(headings, k) == q
  {
  }

  /** No id carries both numbers. */
  ghost predicate Unclaimed(headings: seq<BookHeading>, n: nat, m: nat) {
    forall h :: h in headings ==> !IsSectionNumbered(h, n, m)
  }

  lemma UnclaimedSection(headings: seq<BookHeading>, n: nat, m: nat)
    ensures SectionHeading(headings, n, m) == |headings| <==> Unclaimed(headings, n, m)
  {
    var p := SectionHeading(headings, n, m);
    if p < |headings| {
      assert headings[p] in headings;
    }
  }

  /** In a book the outline counts, a chapter's anchor opens exactly its own chapter if
      and only if the extractor finds no id at all, or the chapter's own heading is the
      first whose id carries its number and the next chapter id stands on the next
      chapter's heading. */
  lemma ChapterLeadsHome(text: string, slugify: string -> string, chapters: seq<ChapterEntry>, c: nat)
    requires OutlineOf(text, slugify) == Plain(chapters) && c < |chapters|
    ensures c < |Heads(MarksOf(text))|
    ensures
      var own := OwnChapter(MarksOf(text), c, |text|);
      ChapterCut(text, c + 1) == Some(own) <==> IsPlain(text) || ChapterLeads(Headings(text), c + 1, own, |text|)
  {
    OutlineNames(text, slugify, chapters, c);
    ChapterCutLeads(Headings(text), c + 1, OwnChapter(MarksOf(text), c, |text|), |text|);
    if IsPlain(text) {
      ChapterCutCounted(text, c);
    }
  }

  lemma ChapterCutCounted(text: string, c: nat)
    requires IsPlain(text) && c < |Heads(MarksOf(text))|
    ensures ChapterCut(text, c + 1) == Some(OwnChapter(MarksOf(text), c, |text|))
  {
  }

  /** In a book the outline counts, a section's anchor opens exactly its own section if
      and only if no id carries both its numbers, or its own heading is the first whose
      id does and the next heading of its level or above is the next mark. */
  lemma SectionLeadsHome(text: string, slugify: string -> string, chapters: seq<ChapterEntry>, c: nat, j: nat)
    requires OutlineOf(text, slugify) == Plain(chapters) && c < |chapters| && j < |chapters[c].sections|
    ensures HasSection(MarksOf(text), c, j)
    ensures
      var own := OwnSection(MarksOf(text), c, j, |text|);
      SectionCut(text, c + 1, j + 1) == Some(own)
      <==> Unclaimed(Headings(text), c + 1, j + 1) || SectionLeads(Headings(text), c + 1, j + 1, own, |text|)
  {
    OutlineSections(text, slugify, chapters, c, j);
    SectionCutHome(Headings(text), MarksOf(text), c, j, |text|);
  }

  lemma SectionCutHome(headings: seq<BookHeading>, marks: seq<Mark>, c: nat, j: nat, length: nat)
    requires HasSection(marks, c, j)
    ensures
      var own := OwnSection(marks, c, j, length);
      SectionCutIn(headings, marks, c + 1, j + 1, length) == Some(own)
      <==> Unclaimed(headings, c + 1, j + 1) || SectionLeads(headings, c + 1, j + 1, own, length)
  {
    UnclaimedSection(headings, c + 1, j + 1);
    SectionCutLeads(headings, c + 1, j + 1, OwnSection(marks, c, j, length), length);
  }

  /** What a chapter's printed anchor gives, in any book the outline counts. */
  lemma ChapterAnchorGives(text: string, slugify: string -> string, chapters: seq<ChapterEntry>, c: nat, maxChars: nat)
    requires OutlineOf(text, slugify) == Plain(chapters) && c < |chapters| && c + 1 < U32_LIMIT
    ensures ChapterCut(text, c + 1).Some? ==> InText(ChapterCut(text, c + 1).value, text)
    ensures Passage(ChapterAnchorId(chapters[c]), text, maxChars)
            == Capped(CutPassage(text, ChapterCut(text, c + 1), NoChapter(c + 1)), maxChars)
  {
    OutlineNames(text, slugify, chapters, c);
    MarkedNotBlank(text);
    ChapterAnchorRoundTrip(c + 1, chapters[c].slug);
    ChapterCutIsPassage(text, c + 1);
  }

  /** What a section's printed anchor gives, in any book the outline counts. */
  lemma SectionAnchorGives(text: string, slugify: string -> string, chapters: seq<ChapterEntry>, c: nat, j: nat,
                           maxChars: nat)
    requires OutlineOf(text, slugify) == Plain(chapters) && c < |chapters| && j < |chapters[c].sections|
    requires c + 1 < U32_LIMIT && j + 1 < U32_LIMIT
    ensures SectionCut(text, c + 1, j + 1).Some? && InText(SectionCut(text, c + 1, j + 1).value, text)
    ensures Passage(SectionAnchorId(chapters[c], chapters[c].sections[j], slugify), text, maxChars)
            == Capped(CutPassage(text, SectionCut(text, c + 1, j + 1), NoSection(c + 1, j + 1)), maxChars)
  {
    OutlineSections(text, slugify, chapters, c, j);
    MarkedNotBlank(text);
    SectionAnchorRoundTrip(c + 1, j + 1, slugify(chapters[c].sections[j].title));
    SectionCutIsPassage(text, c + 1, j + 1);
  }
}
