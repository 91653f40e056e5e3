/** The outline of a book whose headings carry explicit ids. */
module BookAnchored {
  import opened Wrappers
  import opened Text
  import opened Book
  import opened BookPassage

  /** A heading found by the outline's first pass. */
  datatype Entry = Entry(id: Option<string>, title: string, level: nat)

  datatype AnchoredSectionEntry = AnchoredSectionEntry(index: nat, title: string, id: string)
  datatype AnchoredChapterEntry =
    AnchoredChapterEntry(index: nat, title: string, slug: string, sections: seq<AnchoredSectionEntry>, id: string)

  // ---------------------------------------------------------------------
  // Ids.

  predicate IsNumber(s: string) {
    s != "" && AllDigits(s)
  }

  /** `ch-<n>-<slug>`, with at least the two dashes. */
  predicate IsChapterIdText(id: string) {
    var parts := SplitOn(id, '-');
    |parts| >= 3 && parts[0] == "ch" && IsNumber(parts[1])
  }

  /** `sec-<n>-<m>-<slug>`, with at least the three dashes. */
  predicate IsSectionIdText(id: string) {
    var parts := SplitOn(id, '-');
    |parts| >= 4 && parts[0] == "sec" && IsNumber(parts[1]) && IsNumber(parts[2])
  }

  /** The chapter number an entry lists a chapter under. */
  function ChapterOf(entry: Entry): Option<nat> {
    if entry.id.None? || !IsChapterIdText(entry.id.value) then None
    else
      var n := ParseU32(SplitOn(entry.id.value, '-')[1]);
      if n.Some? && n.value > 0 then n else None
  }

  /** The chapter and section numbers an entry lists a section under. */
  function SectionOf(entry: Entry): Option<(nat, nat)> {
    if entry.id.None? || IsChapterIdText(entry.id.value) || !IsSectionIdText(entry.id.value) then None
    else
      var numbers := SectionNumbersOf(entry.id.value);
      if numbers.Some? && numbers.value.0 > 0 then numbers else None
  }

  // ---------------------------------------------------------------------
  // A stable sort.

  function Insert<T>(sorted: seq<T>, x: T, key: T -> nat): seq<T> {
    if |sorted| == 0 || key(sorted[|sorted| - 1]) <= key(x) then sorted + [x]
    else Insert(sorted[..|sorted| - 1], x, key) + [sorted[|sorted| - 1]]
  }

  /** Sorted by key, equal keys in their old order. */
  function SortByKey<T>(items: seq<T>, key: T -> nat): seq<T> {
    if |items| == 0 then []
    else Insert(SortByKey(items[..|items| - 1], key), items[|items| - 1], key)
  }

  ghost predicate Ascending<T>(items: seq<T>, key: T -> nat) {
    forall i, j :: 0 <= i < j < |items| ==> key(items[i]) <= key(items[j])
  }

  lemma {:induction false} InsertKeeps<T>(sorted: seq<T>, x: T, key: T -> nat)
    ensures multiset(Insert(sorted, x, key)) == multiset(sorted) + multiset{x}
  {
    if |sorted| > 0 && key(sorted[|sorted| - 1]) > key(x) {
      InsertKeeps(sorted[..|sorted| - 1], x, key);
      assert sorted == sorted[..|sorted| - 1] + [sorted[|sorted| - 1]];
    }
  }

  lemma InsertHas<T>(sorted: seq<T>, x: T, key: T -> nat, y: T)
    ensures y in Insert(sorted, x, key) <==> y == x || y in sorted
  {
    InsertKeeps(sorted, x, key);
    assert y in Insert(sorted, x, key) <==> y in multiset(Insert(sorted, x, key));
    assert y in sorted <==> y in multiset(sorted);
  }

  lemma {:induction false} InsertAscends<T>(sorted: seq<T>, x: T, key: T -> nat)
    requires Ascending(sorted, key)
    ensures Ascending(Insert(sorted, x, key), key)
  {
    if |sorted| > 0 && key(sorted[|sorted| - 1]) > key(x) {
      var front, last := sorted[..|sorted| - 1], sorted[|sorted| - 1];
      var inserted := Insert(front, x, key);
      InsertAscends(front, x, key);
      forall i | 0 <= i < |inserted|
        ensures key(inserted[i]) <= key(last)
      {
        InsertHas(front, x, key, inserted[i]);
        if inserted[i] != x {
          var j :| 0 <= j < |front| && front[j] == inserted[i];
          assert sorted[j] == front[j];
        }
      }
    } else if |sorted| > 0 {
      assert forall i :: 0 <= i < |sorted| ==> key(sorted[i]) <= key(sorted[|sorted| - 1]);
    }
  }

  lemma {:induction false} SortAscends<T>(items: seq<T>, key: T -> nat)
    ensures Ascending(SortByKey(items, key), key)
  {
    if |items| > 0 {
      SortAscends(items[..|items| - 1], key);
      InsertAscends(SortByKey(items[..|items| - 1], key), items[|items| - 1], key);
    }
  }

  /** Sorting loses nothing. */
  lemma {:induction false} SortKeeps<T>(items: seq<T>, key: T -> nat)
    ensures multiset(SortByKey(items, key)) == multiset(items)
  {
    if |items| > 0 {
      SortKeeps(items[..|items| - 1], key);
      InsertKeeps(SortByKey(items[..|items| - 1], key), items[|items| - 1], key);
      assert items == items[..|items| - 1] + [items[|items| - 1]];
    }
  }

  lemma SortHas<T>(items: seq<T>, key: T -> nat, y: T)
    ensures y in SortByKey(items, key) <==> y in items
  {
    SortKeeps(items, key);
    assert y in SortByKey(items, key) <==> y in multiset(SortByKey(items, key));
    assert y in items <==> y in multiset(items);
  }

  // ---------------------------------------------------------------------
  // The outline.

  /** The chapter an entry lists, still without sections, if any. */
  function ChapterHere(e: Entry, slugify: string -> string): (r: seq<AnchoredChapterEntry>)
    ensures forall ch :: ch in r ==> ChapterOf(e) == Some(ch.index) && e.id == Some(ch.id) && ch.sections == []
    ensures forall ch :: ch in r ==> ch.title == e.title && ch.slug == slugify(e.title)
  {
    if ChapterOf(e).Some? then [AnchoredChapterEntry(ChapterOf(e).value, e.title, slugify(e.title), [], e.id.value)]
    else []
  }

  /** The section of chapter `c` an entry lists, if any. */
  function SectionHere(e: Entry, c: nat): (r: seq<AnchoredSectionEntry>)
    ensures forall s :: s in r ==> SectionOf(e) == Some((c, s.index)) && e.id == Some(s.id) && s.title == e.title
  {
    if SectionOf(e).Some? && SectionOf(e).value.0 == c then
      [AnchoredSectionEntry(SectionOf(e).value.1, e.title, e.id.value)]
    else []
  }

  /** The chapters the first `k` entries list, in document order, without sections. */
  function ChaptersIn(entries: seq<Entry>, k: nat, slugify: string -> string): seq<AnchoredChapterEntry>
    requires k <= |entries|
  {
    if k == 0 then [] else ChaptersIn(entries, k - 1, slugify) + ChapterHere(entries[k - 1], slugify)
  }

  /** What the first `k` entries give, in document order. */
  function Gathered<T>(entries: seq<Entry>, k: nat, here: Entry -> seq<T>): seq<T>
    requires k <= |entries|
  {
    if k == 0 then [] else Gathered(entries, k - 1, here) + here(entries[k - 1])
  }

  function SectionsUnder(c: nat): Entry -> seq<AnchoredSectionEntry> {
    e => SectionHere(e, c)
  }

  /** The sections of chapter `c` the first `k` entries list, in document order. */
  function SectionsIn(entries: seq<Entry>, k: nat, c: nat): seq<AnchoredSectionEntry>
    requires k <= |entries|
  {
    Gathered(entries, k, SectionsUnder(c))
  }

  predicate IsFirst(chapters: seq<AnchoredChapterEntry>, k: nat)
    requires k < |chapters|
  {
    forall i :: 0 <= i < k ==> chapters[i].index != chapters[k].index
  }

  function SectionIndex(s: AnchoredSectionEntry): nat {
    s.index
  }

  function ChapterIndex(c: AnchoredChapterEntry): nat {
    c.index
  }

  /** The first chapter of each number gets the sections of that number, sorted. */
  function WithSections(entries: seq<Entry>, chapters: seq<AnchoredChapterEntry>, k: nat): AnchoredChapterEntry
    requires k < |chapters|
  {
    if IsFirst(chapters, k) then
      chapters[k].(sections := SortByKey(SectionsIn(entries, |entries|, chapters[k].index), SectionIndex))
    else chapters[k]
  }

  /** The first `k` chapters, each with its sections. */
  function FilledUpTo(entries: seq<Entry>, chapters: seq<AnchoredChapterEntry>, k: nat): seq<AnchoredChapterEntry>
    requires k <= |chapters|
  {
    if k == 0 then [] else FilledUpTo(entries, chapters, k - 1) + [WithSections(entries, chapters, k - 1)]
  }

  function AnchoredOutline(entries: seq<Entry>, slugify: string -> string): seq<AnchoredChapterEntry> {
    var chapters := ChaptersIn(entries, |entries|, slugify);
    SortByKey(FilledUpTo(entries, chapters, |chapters|), ChapterIndex)
  }

  lemma {:induction false} FilledAt(entries: seq<Entry>, chapters: seq<AnchoredChapterEntry>, k: nat, i: nat)
    requires i < k <= |chapters|
    ensures |FilledUpTo(entries, chapters, k)| == k
    ensures FilledUpTo(entries, chapters, k)[i] == WithSections(entries, chapters, i)
  {
    var front, last := FilledUpTo(entries, chapters, k - 1), WithSections(entries, chapters, k - 1);
    assert FilledUpTo(entries, chapters, k) == front + [last];
    if k > 1 {
      FilledAt(entries, chapters, k - 1, if i < k - 1 then i else 0);
    }
  }

  lemma {:induction false} FilledFrom(entries: seq<Entry>, chapters: seq<AnchoredChapterEntry>, k: nat,
                                      ch: AnchoredChapterEntry)
    returns (i: nat)
    requires k <= |chapters| && ch in FilledUpTo(entries, chapters, k)
    ensures i < k && ch == WithSections(entries, chapters, i)
  {
    if ch in FilledUpTo(entries, chapters, k - 1) {
      i := FilledFrom(entries, chapters, k - 1, ch);
    } else {
      i := k - 1;
    }
  }

  method BuildAnchored(entries: seq<Entry>, slugify: string -> string) returns (outline: seq<AnchoredChapterEntry>)
    ensures outline == AnchoredOutline(entries, slugify)
  {
    var chapters, groups := ReadEntries(entries, slugify);
    BareChapters(entries, |entries|, slugify);
    var filled := FillSections(entries, chapters, groups);
    outline := SortByKey(filled, ChapterIndex);
  }

  /** `groups` holds every chapter's sections, for chapters that have any. */
  ghost predicate Grouped(entries: seq<Entry>, k: nat, groups: map<nat, seq<AnchoredSectionEntry>>)
    requires k <= |entries|
  {
    forall c: nat :: SectionsIn(entries, k, c) == if c in groups then groups[c] else []
  }

  lemma ChapterStep(entries: seq<Entry>, k: nat, slugify: string -> string, chapters: seq<AnchoredChapterEntry>)
    requires k < |entries| && chapters == ChaptersIn(entries, k, slugify)
    ensures
      var e := entries[k];
      ChaptersIn(entries, k + 1, slugify)
      == if ChapterOf(e).None? then chapters
         else chapters + [AnchoredChapterEntry(ChapterOf(e).value, e.title, slugify(e.title), [], e.id.value)]
  {
  }

  lemma ChapterNoSection(e: Entry)
    ensures ChapterOf(e).Some? ==> SectionOf(e).None?
  {
  }

  lemma GroupStep(entries: seq<Entry>, k: nat, groups: map<nat, seq<AnchoredSectionEntry>>)
    requires k < |entries| && Grouped(entries, k, groups)
    ensures
      var section := SectionOf(entries[k]);
      if section.None? then Grouped(entries, k + 1, groups)
      else
        var c := section.value.0;
        Grouped(entries, k + 1, groups[c := (if c in groups then groups[c] else []) + SectionHere(entries[k], c)])
  {
  }

  /** One round of the first pass: the entry is a chapter, a section, or neither. */
  method ReadEntry(entries: seq<Entry>, k: nat, slugify: string -> string, chapters: seq<AnchoredChapterEntry>,
                   groups: map<nat, seq<AnchoredSectionEntry>>)
    returns (listed: seq<AnchoredChapterEntry>, grouped: map<nat, seq<AnchoredSectionEntry>>)
    requires k < |entries| && chapters == ChaptersIn(entries, k, slugify) && Grouped(entries, k, groups)
    ensures listed == ChaptersIn(entries, k + 1, slugify) && Grouped(entries, k + 1, grouped)
  {
    var e := entries[k];
    var chapter, section := ChapterOf(e), SectionOf(e);
    ChapterStep(entries, k, slugify, chapters);
    GroupStep(entries, k, groups);
    ChapterNoSection(e);
    listed, grouped := chapters, groups;
    if chapter.Some? {
      listed := chapters + [AnchoredChapterEntry(chapter.value, e.title, slugify(e.title), [], e.id.value)];
    } else if section.Some? {
      var (c, m) := section.value;
      grouped := groups[c := (if c in groups then groups[c] else []) + [AnchoredSectionEntry(m, e.title, e.id.value)]];
    }
  }

  method ReadEntries(entries: seq<Entry>, slugify: string -> string)
    returns (chapters: seq<AnchoredChapterEntry>, groups: map<nat, seq<AnchoredSectionEntry>>)
    ensures chapters == ChaptersIn(entries, |entries|, slugify)
    ensures Grouped(entries, |entries|, groups)
  {
    chapters, groups := [], map[];
    for k := 0 to |entries|
      invariant chapters == ChaptersIn(entries, k, slugify)
      invariant Grouped(entries, k, groups)
    {
      chapters, groups := ReadEntry(entries, k, slugify, chapters, groups);
    }
  }

  lemma {:induction false} BareChapters(entries: seq<Entry>, k: nat, slugify: string -> string)
    requires k <= |entries|
    ensures forall c :: c in ChaptersIn(entries, k, slugify) ==> c.sections == []
  {
    if k > 0 {
      BareChapters(entries, k - 1, slugify);
    }
  }

  /** The groups not yet given away when chapter `k` is reached. */
  function LeftOf(groups: map<nat, seq<AnchoredSectionEntry>>, chapters: seq<AnchoredChapterEntry>, k: nat)
    : map<nat, seq<AnchoredSectionEntry>>
    requires k <= |chapters|
  {
    if k == 0 then groups else LeftOf(groups, chapters, k - 1) - {chapters[k - 1].index}
  }

  lemma {:induction false} LeftHas(groups: map<nat, seq<AnchoredSectionEntry>>, chapters: seq<AnchoredChapterEntry>,
                                   k: nat, c: nat)
    requires k <= |chapters|
    ensures c in LeftOf(groups, chapters, k) <==> c in groups && forall i :: 0 <= i < k ==> chapters[i].index != c
    ensures c in LeftOf(groups, chapters, k) ==> LeftOf(groups, chapters, k)[c] == groups[c]
  {
    if k > 0 {
      LeftHas(groups, chapters, k - 1, c);
    }
  }

  /** What the loop gives chapter `k` is what it should have. */
  lemma FillOne(entries: seq<Entry>, chapters: seq<AnchoredChapterEntry>,
                groups: map<nat, seq<AnchoredSectionEntry>>, k: nat)
    requires Grouped(entries, |entries|, groups) && k < |chapters| && chapters[k].sections == []
    ensures
      var c, left := chapters[k].index, LeftOf(groups, chapters, k);
      WithSections(entries, chapters, k)
      == if c in left then chapters[k].(sections := SortByKey(left[c], SectionIndex)) else chapters[k]
  {
    var c := chapters[k].index;
    LeftHas(groups, chapters, k, c);
    assert SectionsIn(entries, |entries|, c) == if c in groups then groups[c] else [];
  }

  method FillSections(entries: seq<Entry>, chapters: seq<AnchoredChapterEntry>,
                      groups: map<nat, seq<AnchoredSectionEntry>>)
    returns (filled: seq<AnchoredChapterEntry>)
    requires Grouped(entries, |entries|, groups)
    requires forall c :: c in chapters ==> c.sections == []
    ensures filled == FilledUpTo(entries, chapters, |chapters|)
  {
    filled := [];
    var left: map<nat, seq<AnchoredSectionEntry>> := groups;
    for k := 0 to |chapters|
      invariant filled == FilledUpTo(entries, chapters, k) && left == LeftOf(groups, chapters, k)
    {
      var ch := chapters[k];
      assert ch in chapters;
      FillOne(entries, chapters, groups, k);
      if ch.index in left {
        filled := filled + [ch.(sections := SortByKey(left[ch.index], SectionIndex))];
        left := left - {ch.index};
      } else {
        filled := filled + [ch];
        assert left - {ch.index} == left;
      }
    }
  }
}
