/** Anchors of a book with explicit ids: where they lead, and which lead nowhere. */
module BookAnchoredTheorems {
  import opened Wrappers
  import opened Text
  import opened Book
  import opened BookAnchored
  import opened BookCuts
  import opened BookExtract
  import opened BookPassage
  import opened BookOutline
  import opened BookTheorems

  // ---------------------------------------------------------------------
  // An id reads as the anchor it is printed as.

  lemma SplitParts(id: string)
    ensures
      var parts := SplitOn(id, '-');
      && parts[0] == SplitOnce(id, '-').0
      && (|parts| >= 2 ==> SplitOnce(id, '-').1.Some? && parts[1] == SplitOnce(SplitOnce(id, '-').1.value, '-').0)
  {
  }

  lemma ChapterIdReads(entry: Entry)
    requires ChapterOf(entry).Some?
    ensures "ch-" <= entry.id.value && ChapterNumberOf(entry.id.value) == ChapterOf(entry)
    ensures
      var anchor := ParseAnchor(entry.id.value);
      anchor.Chapter? && Some(anchor.index) == ChapterOf(entry)
  {
    var id := entry.id.value;
    SplitParts(id);
    var rest := SplitOnce(id, '-').1.value;
    assert id == "ch" + ['-'] + rest;
    assert id[3..] == rest;
  }

  lemma SectionIdReads(entry: Entry)
    requires SectionOf(entry).Some?
    ensures SectionNumbersOf(entry.id.value) == SectionOf(entry)
    ensures
      var anchor := ParseAnchor(entry.id.value);
      var (c, m) := SectionOf(entry).value;
      && entry.id.value != ""
      && if m == 0 then anchor == Other(entry.id.value)
      else anchor.Section? && anchor.chapter == c && anchor.section == m
  {
    assert entry.id.value != "" && entry.id.value[0] == 's';
  }

  // ---------------------------------------------------------------------
  // Every id of the outline stands on a heading of the book.

  lemma {:induction false} EntryLine(readings: seq<Reading>, n: nat, e: Entry) returns (k: nat)
    requires n <= |readings| && e in EntriesUpTo(readings, n)
    ensures k < n && !FenceUpTo(readings, k) && e in readings[k].heading
  {
    if e in EntriesUpTo(readings, n - 1) {
      k := EntryLine(readings, n - 1, e);
    } else {
      k := n - 1;
    }
  }

  lemma IdOnHeading(text: string, e: Entry) returns (h: BookHeading)
    requires e in EntriesOf(text) && e.id.Some?
    ensures h in Headings(text) && h.heading.id == e.id
  {
    var raw := SplitInclusive(text);
    var readings := Readings(Lines(text));
    var scans := ScanLines(raw);
    var k := EntryLine(readings, |readings|, e);
    SameFences(raw, k);
    assert readings[k] == ReadingOf(StripEol(raw[k]));
    IdOnLine(raw[k], e);
    h := ListedHere(scans, k);
  }

  lemma ListedHere(scans: seq<Scanned>, k: nat) returns (h: BookHeading)
    requires k < |scans| && !FencedAt(scans, k) && !scans[k].fence && scans[k].heading.Some?
    ensures h in HeadingsUpTo(scans, |scans|) && h.heading == scans[k].heading.value
  {
    h := BookHeading(scans[k].heading.value, OffsetAt(scans, k));
    HeadingListed(scans, k, |scans|, h);
  }

  lemma IdOnLine(line: string, e: Entry)
    requires e in ReadingOf(StripEol(line)).heading && e.id.Some?
    ensures !ScanLine(line).fence && ScanLine(line).heading.Some? && ScanLine(line).heading.value.id == e.id
  {
    OneHeading(StripEol(line), e);
    SharedId(line);
  }

  lemma OneHeading(line: string, e: Entry)
    requires e in ReadingOf(line).heading
    ensures ReadingOf(line).heading == [e]
  {
  }

  // ---------------------------------------------------------------------
  // A book with a heading is not blank.

  lemma {:induction false} NoHeadings(scans: seq<Scanned>, k: nat)
    requires k <= |scans| && forall i :: 0 <= i < |scans| ==> scans[i].heading.None?
    ensures HeadingsUpTo(scans, k) == []
  {
    if k > 0 {
      NoHeadings(scans, k - 1);
    }
  }

  lemma HeadedNotBlank(text: string)
    requires Headings(text) != []
    ensures Trim(text) != ""
  {
    if Trim(text) == "" {
      TrimBlank(text);
      WhiteLines(text);
      var raw := SplitInclusive(text);
      forall i | 0 <= i < |raw|
        ensures ScanLines(raw)[i].heading.None?
      {
        TrimStartWhite(raw[i]);
      }
      NoHeadings(ScanLines(raw), |raw|);
    }
  }

  // ---------------------------------------------------------------------
  // Where the outline's chapters and sections come from.

  lemma {:induction false} ChapterFrom(entries: seq<Entry>, k: nat, slugify: string -> string,
                                       ch: AnchoredChapterEntry) returns (e: Entry)
    requires k <= |entries| && ch in ChaptersIn(entries, k, slugify)
    ensures e in entries && ChapterOf(e) == Some(ch.index) && e.id == Some(ch.id)
    ensures ch.title == e.title && ch.slug == slugify(e.title)
  {
    if ch in ChaptersIn(entries, k - 1, slugify) {
      e := ChapterFrom(entries, k - 1, slugify, ch);
    } else {
      e := entries[k - 1];
    }
  }

  lemma {:induction false} GatheredFrom<T>(entries: seq<Entry>, k: nat, here: Entry -> seq<T>, x: T) returns (e: Entry)
    requires k <= |entries| && x in Gathered(entries, k, here)
    ensures e in entries && x in here(e)
  {
    if x in Gathered(entries, k - 1, here) {
      e := GatheredFrom(entries, k - 1, here, x);
    } else {
      e := entries[k - 1];
    }
  }

  lemma {:induction false} GatheredHas<T>(entries: seq<Entry>, i: nat, k: nat, here: Entry -> seq<T>, x: T)
    requires i < k <= |entries| && x in here(entries[i])
    ensures x in Gathered(entries, k, here)
    decreases k
  {
    if i < k - 1 {
      GatheredHas(entries, i, k - 1, here, x);
    }
  }

  lemma SectionFrom(entries: seq<Entry>, k: nat, c: nat, s: AnchoredSectionEntry) returns (e: Entry)
    requires k <= |entries| && s in SectionsIn(entries, k, c)
    ensures e in entries && SectionOf(e) == Some((c, s.index)) && e.id == Some(s.id) && s.title == e.title
  {
    e := GatheredFrom(entries, k, SectionsUnder(c), s);
    assert s in SectionHere(e, c);
  }

  /** A chapter of the outline is one of the document's, with its sections. */
  lemma OutlineChapterAt(entries: seq<Entry>, slugify: string -> string, ch: AnchoredChapterEntry) returns (k: nat)
    requires ch in AnchoredOutline(entries, slugify)
    ensures k < |ChaptersIn(entries, |entries|, slugify)|
    ensures ch == WithSections(entries, ChaptersIn(entries, |entries|, slugify), k)
  {
    var chapters := ChaptersIn(entries, |entries|, slugify);
    SortHas(FilledUpTo(entries, chapters, |chapters|), ChapterIndex, ch);
    k := FilledFrom(entries, chapters, |chapters|, ch);
  }

  lemma OutlineChapterFrom(entries: seq<Entry>, slugify: string -> string, ch: AnchoredChapterEntry) returns (e: Entry)
    requires ch in AnchoredOutline(entries, slugify)
    ensures e in entries && ChapterOf(e) == Some(ch.index) && e.id == Some(ch.id)
    ensures ch.title == e.title && ch.slug == slugify(e.title)
  {
    var k := OutlineChapterAt(entries, slugify, ch);
    e := ChapterFrom(entries, |entries|, slugify, ChaptersIn(entries, |entries|, slugify)[k]);
  }

  lemma SectionsAreListed(entries: seq<Entry>, chapters: seq<AnchoredChapterEntry>, k: nat, s: AnchoredSectionEntry)
    requires k < |chapters| && chapters[k].sections == [] && s in WithSections(entries, chapters, k).sections
    ensures s in SectionsIn(entries, |entries|, chapters[k].index)
  {
    SortHas(SectionsIn(entries, |entries|, chapters[k].index), SectionIndex, s);
  }

  lemma OutlineSectionFrom(entries: seq<Entry>, slugify: string -> string, ch: AnchoredChapterEntry,
                           s: AnchoredSectionEntry)
    returns (e: Entry)
    requires ch in AnchoredOutline(entries, slugify) && s in ch.sections
    ensures e in entries && SectionOf(e) == Some((ch.index, s.index)) && e.id == Some(s.id) && s.title == e.title
  {
    var k := OutlineChapterAt(entries, slugify, ch);
    var chapters := ChaptersIn(entries, |entries|, slugify);
    BareChapters(entries, |entries|, slugify);
    assert chapters[k] in chapters;
    SectionsAreListed(entries, chapters, k, s);
    e := SectionFrom(entries, |entries|, ch.index, s);
  }

  lemma {:induction false} ChapterListed(entries: seq<Entry>, k: nat, slugify: string -> string, e: Entry)
    returns (j: nat)
    requires k <= |entries| && e in entries[..k] && ChapterOf(e).Some?
    ensures j < |ChaptersIn(entries, k, slugify)|
    ensures
      var ch := ChaptersIn(entries, k, slugify)[j];
      Some(ch.index) == ChapterOf(e) && Some(ch.id) == e.id && ch.title == e.title
  {
    if e == entries[k - 1] {
      j := |ChaptersIn(entries, k - 1, slugify)|;
    } else {
      assert entries[..k] == entries[..k - 1] + [entries[k - 1]];
      j := ChapterListed(entries, k - 1, slugify, e);
    }
  }

  /** The outline is in chapter order, and no heading whose id names a chapter is missing. */
  lemma OutlineComplete(entries: seq<Entry>, slugify: string -> string, e: Entry) returns (ch: AnchoredChapterEntry)
    requires e in entries && ChapterOf(e).Some?
    ensures Ascending(AnchoredOutline(entries, slugify), ChapterIndex)
    ensures ch in AnchoredOutline(entries, slugify)
    ensures Some(ch.index) == ChapterOf(e) && Some(ch.id) == e.id && ch.title == e.title
  {
    var chapters := ChaptersIn(entries, |entries|, slugify);
    var filled := FilledUpTo(entries, chapters, |chapters|);
    assert entries[..|entries|] == entries;
    var j := ChapterListed(entries, |entries|, slugify, e);
    FilledAt(entries, chapters, |chapters|, j);
    ch := filled[j];
    SortHas(filled, ChapterIndex, ch);
    SortAscends(filled, ChapterIndex);
  }

  lemma SectionIsHere(e: Entry, c: nat) returns (s: AnchoredSectionEntry)
    requires SectionOf(e).Some? && SectionOf(e).value.0 == c
    ensures s in SectionsUnder(c)(e)
    ensures s.index == SectionOf(e).value.1 && Some(s.id) == e.id && s.title == e.title
  {
    s := AnchoredSectionEntry(SectionOf(e).value.1, e.title, e.id.value);
  }

  lemma SectionListed(entries: seq<Entry>, c: nat, e: Entry, s: AnchoredSectionEntry)
    requires e in entries && s in SectionsUnder(c)(e)
    ensures s in SectionsIn(entries, |entries|, c)
  {
    var i :| 0 <= i < |entries| && entries[i] == e;
    GatheredHas(entries, i, |entries|, SectionsUnder(c), s);
  }

  lemma {:induction false} FirstOf(chapters: seq<AnchoredChapterEntry>, k: nat) returns (j: nat)
    requires k < |chapters|
    ensures j <= k && chapters[j].index == chapters[k].index && IsFirst(chapters, j)
  {
    if IsFirst(chapters, k) {
      j := k;
    } else {
      var i :| 0 <= i < k && chapters[i].index == chapters[k].index;
      j := FirstOf(chapters, i);
    }
  }

  /** No heading whose id names a section of a listed chapter is missing either: it is
      listed under the first chapter of its number. */
  lemma OutlineSectionComplete(entries: seq<Entry>, slugify: string -> string, chapter: Entry, section: Entry)
    returns (ch: AnchoredChapterEntry, s: AnchoredSectionEntry)
    requires chapter in entries && section in entries && ChapterOf(chapter).Some? && SectionOf(section).Some?
    requires SectionOf(section).value.0 == ChapterOf(chapter).value
    ensures ch in AnchoredOutline(entries, slugify) && Some(ch.index) == ChapterOf(chapter)
    ensures s in ch.sections && s.index == SectionOf(section).value.1 && Some(s.id) == section.id
            && s.title == section.title
  {
    var chapters := ChaptersIn(entries, |entries|, slugify);
    assert entries[..|entries|] == entries;
    var k := ChapterListed(entries, |entries|, slugify, chapter);
    var j := FirstOf(chapters, k);
    s := SectionIsHere(section, chapters[j].index);
    SectionListed(entries, chapters[j].index, section, s);
    SortHas(SectionsIn(entries, |entries|, chapters[j].index), SectionIndex, s);
    FilledAt(entries, chapters, |chapters|, j);
    ch := FilledUpTo(entries, chapters, |chapters|)[j];
    SortHas(FilledUpTo(entries, chapters, |chapters|), ChapterIndex, ch);
  }

  // ---------------------------------------------------------------------
  // Where the anchors lead.

  lemma NumberedCut(text: string, n: nat, h: BookHeading)
    requires h in Headings(text) && IsChapterNumbered(h, n)
    ensures !IsPlain(text) && ChapterCut(text, n).Some? && InText(ChapterCut(text, n).value, text)
  {
    ChapterCutFits(text, n);
  }

  lemma SectionNumberedCut(text: string, c: nat, m: nat, h: BookHeading)
    requires h in Headings(text) && IsSectionNumbered(h, c, m)
    ensures SectionHeading(Headings(text), c, m) < |Headings(text)|
  {
  }

  lemma ChapterIdGives(text: string, id: string, n: nat, maxChars: nat)
    requires Trim(text) != "" && ParseAnchor(id).Chapter? && ParseAnchor(id).index == n
    requires ChapterCut(text, n).Some? ==> InText(ChapterCut(text, n).value, text)
    ensures Passage(id, text, maxChars) == Capped(CutPassage(text, ChapterCut(text, n), NoChapter(n)), maxChars)
  {
    ChapterCutIsPassage(text, n);
  }

  /** Every chapter of the outline resolves by its printed id, to exactly the stretch
      from the first heading that carries its number to the next chapter id. */
  lemma AnchoredChapterResolves(text: string, slugify: string -> string, ch: AnchoredChapterEntry, maxChars: nat)
    requires OutlineOf(text, slugify).Anchored? && ch in OutlineOf(text, slugify).anchored
    ensures !IsPlain(text) && ChapterCut(text, ch.index).Some? && InText(ChapterCut(text, ch.index).value, text)
    ensures Passage(ch.id, text, maxChars)
            == Capped(CutPassage(text, ChapterCut(text, ch.index), NoChapter(ch.index)), maxChars)
  {
    var e := OutlineChapterFrom(EntriesOf(text), slugify, ch);
    var h := IdOnHeading(text, e);
    ChapterIdReads(e);
    HeadedNotBlank(text);
    NumberedCut(text, ch.index, h);
    ChapterIdGives(text, ch.id, ch.index, maxChars);
  }

  /** That is its own heading exactly when no earlier heading carries the number. */
  lemma AnchoredChapterOwn(text: string, slugify: string -> string, ch: AnchoredChapterEntry, h: BookHeading)
    requires OutlineOf(text, slugify).Anchored? && ch in OutlineOf(text, slugify).anchored
    requires h in Headings(text) && h.heading.id == Some(ch.id)
    ensures ChapterCut(text, ch.index).Some?
    ensures ChapterCut(text, ch.index).value.start == h.offset
            <==> forall g :: g in Headings(text) && g.offset < h.offset ==> !IsChapterNumbered(g, ch.index)
  {
    var e := OutlineChapterFrom(EntriesOf(text), slugify, ch);
    ChapterIdReads(e);
    NumberedCut(text, ch.index, h);
    HeadingsInOrder(text);
    FirstNumbered(Headings(text), ch.index, h, |text|);
  }

  lemma FirstWanted(headings: seq<BookHeading>, wanted: BookHeading -> bool, p: nat, k: nat, length: nat)
    requires InOrder(headings, 0, length) && p < |headings| && k < |headings|
    requires wanted(headings[p]) && wanted(headings[k]) && forall i :: 0 <= i < p ==> !wanted(headings[i])
    ensures headings[p].offset == headings[k].offset
            <==> forall g :: g in headings && g.offset < headings[k].offset ==> !wanted(g)
  {
    forall g | g in headings && wanted(g)
      ensures headings[p].offset <= g.offset
    {
      var i :| 0 <= i < |headings| && headings[i] == g;
    }
    assert headings[p] in headings;
  }

  lemma FirstNumbered(headings: seq<BookHeading>, n: nat, h: BookHeading, length: nat)
    requires InOrder(headings, 0, length) && h in headings && IsChapterNumbered(h, n)
    ensures
      var p := ChapterHeading(headings, n);
      p < |headings| && (headings[p].offset == h.offset
                         <==> forall g :: g in headings && g.offset < h.offset ==> !IsChapterNumbered(g, n))
  {
    var k :| 0 <= k < |headings| && headings[k] == h;
    FirstWanted(headings, g => IsChapterNumbered(g, n), ChapterHeading(headings, n), k, length);
  }

  lemma FirstNumberedSection(headings: seq<BookHeading>, c: nat, m: nat, h: BookHeading, length: nat)
    requires InOrder(headings, 0, length) && h in headings && IsSectionNumbered(h, c, m)
    ensures
      var p := SectionHeading(headings, c, m);
      p < |headings| && (headings[p].offset == h.offset
                         <==> forall g :: g in headings && g.offset < h.offset ==> !IsSectionNumbered(g, c, m))
  {
    var k :| 0 <= k < |headings| && headings[k] == h;
    FirstWanted(headings, g => IsSectionNumbered(g, c, m), SectionHeading(headings, c, m), k, length);
  }

  lemma SectionIdGives(text: string, id: string, c: nat, m: nat, maxChars: nat)
    requires Trim(text) != "" && id != ""
    requires
      var anchor := ParseAnchor(id);
      if m == 0 then anchor == Other(id) else anchor.Section? && anchor.chapter == c && anchor.section == m
    ensures Passage(id, text, maxChars)
            == if m == 0 then Err(AnchorNotFound(id)) else Capped(SectionPassage(text, c, m), maxChars)
  {
  }

  /** A section of the outline resolves exactly when its number is not zero, and then to
      exactly the stretch from the first heading that carries both its numbers to the
      next heading of its level or above. */
  lemma AnchoredSectionResolves(text: string, slugify: string -> string, ch: AnchoredChapterEntry,
                                s: AnchoredSectionEntry, maxChars: nat)
    requires OutlineOf(text, slugify).Anchored? && ch in OutlineOf(text, slugify).anchored && s in ch.sections
    ensures SectionHeading(Headings(text), ch.index, s.index) < |Headings(text)|
    ensures SectionCut(text, ch.index, s.index).Some? && InText(SectionCut(text, ch.index, s.index).value, text)
    ensures Passage(s.id, text, maxChars)
            == if s.index == 0 then Err(AnchorNotFound(s.id))
               else Capped(CutPassage(text, SectionCut(text, ch.index, s.index), NoSection(ch.index, s.index)),
                           maxChars)
  {
    var e := OutlineSectionFrom(EntriesOf(text), slugify, ch, s);
    var h := IdOnHeading(text, e);
    SectionIdReads(e);
    HeadedNotBlank(text);
    SectionIdGives(text, s.id, ch.index, s.index, maxChars);
    SectionNumberedCut(text, ch.index, s.index, h);
    SectionCutById(text, ch.index, s.index);
  }

  /** That is its own heading exactly when no earlier heading carries both numbers. */
  lemma AnchoredSectionOwn(text: string, slugify: string -> string, ch: AnchoredChapterEntry, s: AnchoredSectionEntry,
                           h: BookHeading)
    requires OutlineOf(text, slugify).Anchored? && ch in OutlineOf(text, slugify).anchored && s in ch.sections
    requires h in Headings(text) && h.heading.id == Some(s.id)
    ensures SectionCut(text, ch.index, s.index).Some?
    ensures SectionCut(text, ch.index, s.index).value.start == h.offset
            <==> forall g :: g in Headings(text) && g.offset < h.offset ==> !IsSectionNumbered(g, ch.index, s.index)
  {
    var e := OutlineSectionFrom(EntriesOf(text), slugify, ch, s);
    SectionIdReads(e);
    SectionNumberedCut(text, ch.index, s.index, h);
    HeadingsInOrder(text);
    FirstNumberedSection(Headings(text), ch.index, s.index, h, |text|);
  }
}
