/** Which chapters and sections an outline read by ids lists, and in what order, told from
    the headings it is built from. */
module BookAnchoredMeaning {
  import opened Wrappers
  import opened Text
  import opened TextMeaning
  import opened BookPassage
  import opened BookAnchored
  import opened Gathering

  // ---------------------------------------------------------------------
  // Ids.

  function ChapterIdOf(num: string, rest: string): string {
    "ch-" + num + "-" + rest
  }

  function SectionIdOf(num: string, sub: string, rest: string): string {
    "sec-" + num + "-" + sub + "-" + rest
  }

  /** `ch-`, digits that spell `n`, a dash, and anything. */
  ghost predicate IsChapterIdOf(id: string, n: nat) {
    n > 0 && exists num, rest :: id == ChapterIdOf(num, rest) && Numeral(num, n)
  }

  /** `sec-`, digits that spell `c`, a dash, digits that spell `m`, a dash, and anything. */
  ghost predicate IsSectionIdOf(id: string, c: nat, m: nat) {
    c > 0 && exists num, sub, rest :: id == SectionIdOf(num, sub, rest) && Numeral(num, c) && Numeral(sub, m)
  }

  /** The first two parts of a text with a dash. */
  lemma PartsOf(front: string, back: string)
    requires '-' !in front
    ensures SplitOn(front + "-" + back, '-') == [front] + SplitOn(back, '-')
  {
    assert front + "-" + back == front + ['-'] + back;
    SplitOnceAt(front, '-', back);
  }

  lemma FirstPart(s: string) returns (front: string, back: string)
    requires |SplitOn(s, '-')| >= 2
    ensures s == front + "-" + back && '-' !in front
    ensures SplitOn(s, '-') == [front] + SplitOn(back, '-')
  {
    front, back := SplitOnce(s, '-').0, SplitOnce(s, '-').1.value;
  }

  lemma ChapterPieces(id: string) returns (num: string, rest: string)
    requires IsChapterIdText(id)
    ensures id == ChapterIdOf(num, rest) && num == SplitOn(id, '-')[1] && num != "" && AllDigits(num)
  {
    var a, tail := FirstPart(id);
    num, rest := FirstPart(tail);
  }

  lemma ChapterParts(id: string, num: string, rest: string)
    requires id == ChapterIdOf(num, rest) && '-' !in num
    ensures SplitOn(id, '-') == ["ch", num] + SplitOn(rest, '-')
  {
    assert id == "ch" + "-" + (num + "-" + rest);
    PartsOf("ch", num + "-" + rest);
    PartsOf(num, rest);
  }

  lemma SectionIdHead(num: string, sub: string, rest: string)
    ensures SectionIdOf(num, sub, rest) == "sec" + "-" + (num + "-" + (sub + "-" + rest))
    ensures "sec-" <= SectionIdOf(num, sub, rest) && SectionIdOf(num, sub, rest)[4..] == num + "-" + (sub + "-" + rest)
  {
  }

  lemma SectionSplit(num: string, sub: string, rest: string)
    requires '-' !in num && '-' !in sub
    ensures SplitOn("sec" + "-" + (num + "-" + (sub + "-" + rest)), '-') == ["sec", num, sub] + SplitOn(rest, '-')
  {
    PartsOf("sec", num + "-" + (sub + "-" + rest));
    PartsOf(num, sub + "-" + rest);
    PartsOf(sub, rest);
  }

  lemma SectionIdReads(num: string, sub: string, rest: string)
    requires '-' !in num && '-' !in sub && num != "" && AllDigits(num) && sub != "" && AllDigits(sub)
    ensures IsSectionIdText(SectionIdOf(num, sub, rest)) && !IsChapterIdText(SectionIdOf(num, sub, rest))
  {
    SectionIdHead(num, sub, rest);
    SectionSplit(num, sub, rest);
  }

  lemma OncePart(front: string, back: string)
    requires '-' !in front
    ensures SplitOnce(front + "-" + back, '-') == (front, Some(back))
  {
    assert front + "-" + back == front + ['-'] + back;
    SplitOnceAt(front, '-', back);
  }

  lemma SectionIdNumbers(num: string, sub: string, rest: string)
    requires '-' !in num && '-' !in sub && num != "" && AllDigits(num) && sub != "" && AllDigits(sub)
    ensures SectionNumbersOf(SectionIdOf(num, sub, rest))
            == if ParseU32(num).None? || ParseU32(sub).None? then None
               else Some((ParseU32(num).value, ParseU32(sub).value))
  {
    SectionIdHead(num, sub, rest);
    OncePart(num, sub + "-" + rest);
    OncePart(sub, rest);
  }

  lemma SectionPieces(id: string) returns (num: string, sub: string, rest: string)
    requires IsSectionIdText(id)
    ensures id == SectionIdOf(num, sub, rest) && '-' !in num && '-' !in sub
    ensures num != "" && AllDigits(num) && sub != "" && AllDigits(sub)
  {
    var a, tail := FirstPart(id);
    var tail';
    num, tail' := FirstPart(tail);
    sub, rest := FirstPart(tail');
    SectionIdHead(num, sub, rest);
  }

  /** An entry lists chapter `n` exactly when its id is a chapter id of that number. */
  lemma ChapterExact(e: Entry, n: nat)
    ensures ChapterOf(e) == Some(n) <==> e.id.Some? && IsChapterIdOf(e.id.value, n)
  {
    if e.id.Some? {
      var id := e.id.value;
      if ChapterOf(e) == Some(n) {
        var num, rest := ChapterPieces(id);
        NumeralIs(num, n);
      }
      if IsChapterIdOf(id, n) {
        var num, rest :| id == ChapterIdOf(num, rest) && Numeral(num, n);
        NumeralIs(num, n);
        ChapterParts(id, num, rest);
      }
    }
  }

  /** An entry lists section `m` of chapter `c` exactly when its id is a section id of
      these numbers. */
  lemma SectionExact(e: Entry, c: nat, m: nat)
    ensures SectionOf(e) == Some((c, m)) <==> e.id.Some? && IsSectionIdOf(e.id.value, c, m)
  {
    if e.id.Some? {
      if SectionOf(e) == Some((c, m)) {
        SectionListed(e.id.value, c, m);
      }
      if IsSectionIdOf(e.id.value, c, m) {
        SectionRead(e, c, m);
      }
    }
  }

  lemma SectionListed(id: string, c: nat, m: nat)
    requires IsSectionIdText(id) && SectionNumbersOf(id) == Some((c, m)) && c > 0
    ensures IsSectionIdOf(id, c, m)
  {
    var num, sub, rest := SectionPieces(id);
    SectionIdNumbers(num, sub, rest);
    NumeralIs(num, c);
    NumeralIs(sub, m);
  }

  lemma SectionRead(e: Entry, c: nat, m: nat)
    requires e.id.Some? && IsSectionIdOf(e.id.value, c, m)
    ensures SectionOf(e) == Some((c, m))
  {
    var num, sub, rest :| e.id.value == SectionIdOf(num, sub, rest) && Numeral(num, c) && Numeral(sub, m);
    NumeralIs(num, c);
    NumeralIs(sub, m);
    SectionIdReads(num, sub, rest);
    SectionIdNumbers(num, sub, rest);
  }

  // ---------------------------------------------------------------------
  // The stable sort.

  /** `sorted` is `items` with the smaller keys first and equal keys in their old order:
      `ks` says where each stood. */
  ghost predicate Sorts<T>(items: seq<T>, sorted: seq<T>, key: T -> nat, ks: seq<nat>) {
    && |sorted| == |ks| == |items| && (forall i :: 0 <= i < |ks| ==> ks[i] < |items| && sorted[i] == items[ks[i]])
    && (forall k: nat :: k < |items| ==> k in ks)
    && forall i, j :: 0 <= i < j < |ks| ==> Follows(key(sorted[i]), ks[i], key(sorted[j]), ks[j])
  }

  predicate Follows(a: nat, i: nat, b: nat, j: nat) {
    a < b || (a == b && i < j)
  }

  lemma {:induction false} InsertAt<T>(sorted: seq<T>, x: T, key: T -> nat) returns (p: nat)
    requires Ascending(sorted, key)
    ensures p <= |sorted| && Insert(sorted, x, key) == sorted[..p] + [x] + sorted[p..]
    ensures forall i :: 0 <= i < p ==> key(sorted[i]) <= key(x)
    ensures forall i :: p <= i < |sorted| ==> key(sorted[i]) > key(x)
  {
    if |sorted| == 0 || key(sorted[|sorted| - 1]) <= key(x) {
      p := |sorted|;
    } else {
      var front, last := sorted[..|sorted| - 1], sorted[|sorted| - 1];
      p := InsertAt(front, x, key);
      assert sorted == front + [last];
      assert front[..p] == sorted[..p];
      assert front[p..] + [last] == sorted[p..];
      assert front[..p] + [x] + front[p..] + [last] == front[..p] + [x] + (front[p..] + [last]);
    }
  }

  lemma SortsAscends<T>(items: seq<T>, sorted: seq<T>, key: T -> nat, ks: seq<nat>)
    requires Sorts(items, sorted, key, ks)
    ensures Ascending(sorted, key)
  {
    forall i, j | 0 <= i < j < |sorted|
      ensures key(sorted[i]) <= key(sorted[j])
    {
      assert Follows(key(sorted[i]), ks[i], key(sorted[j]), ks[j]);
    }
  }

  lemma SortsOne<T>(items: seq<T>, sorted: seq<T>, key: T -> nat, ks: seq<nat>, x: T, p: nat)
    requires Sorts(items, sorted, key, ks) && p <= |sorted|
    requires forall i :: 0 <= i < p ==> key(sorted[i]) <= key(x)
    requires forall i :: p <= i < |sorted| ==> key(sorted[i]) > key(x)
    ensures Sorts(items + [x], sorted[..p] + [x] + sorted[p..], key, ks[..p] + [|items|] + ks[p..])
  {
    var all := ks[..p] + [|items|] + ks[p..];
    forall k: nat | k < |items| + 1
      ensures k in all
    {
      if k < |items| {
        assert k in ks;
        var i :| 0 <= i < |ks| && ks[i] == k;
        assert all[if i < p then i else i + 1] == k;
      } else {
        assert all[p] == k;
      }
    }
  }

  lemma SortStep<T>(front: seq<T>, last: T, key: T -> nat, ks: seq<nat>) returns (p: nat)
    requires Sorts(front, SortByKey(front, key), key, ks)
    ensures p <= |ks|
    ensures Sorts(front + [last], SortByKey(front + [last], key), key, ks[..p] + [|front|] + ks[p..])
  {
    var sorted := SortByKey(front, key);
    SortsAscends(front, sorted, key, ks);
    p := InsertAt(sorted, last, key);
    SortsOne(front, sorted, key, ks, last, p);
    SortSnoc(front, last, key);
  }

  lemma SortSnoc<T>(front: seq<T>, last: T, key: T -> nat)
    ensures SortByKey(front + [last], key) == Insert(SortByKey(front, key), last, key)
  {
    assert (front + [last])[..|front|] == front;
  }

  /** The sort is stable. */
  lemma {:induction false} SortExact<T>(items: seq<T>, key: T -> nat) returns (ks: seq<nat>)
    ensures Sorts(items, SortByKey(items, key), key, ks)
  {
    if |items| == 0 {
      ks := [];
    } else {
      var front, last := items[..|items| - 1], items[|items| - 1];
      assert items == front + [last];
      ks := SortExact(front, key);
      var p := SortStep(front, last, key, ks);
      ks := ks[..p] + [|front|] + ks[p..];
    }
  }

  // ---------------------------------------------------------------------
  // The outline.

  /** Entry `k` is a chapter heading of number `n`. */
  ghost predicate IsChapterEntry(entries: seq<Entry>, k: nat, n: nat) {
    k < |entries| && entries[k].id.Some? && IsChapterIdOf(entries[k].id.value, n)
  }

  ghost predicate IsSectionEntry(entries: seq<Entry>, k: nat, c: nat, m: nat) {
    k < |entries| && entries[k].id.Some? && IsSectionIdOf(entries[k].id.value, c, m)
  }

  ghost predicate ListsChapter(entries: seq<Entry>, k: nat, ch: AnchoredChapterEntry, slugify: string -> string) {
    && IsChapterEntry(entries, k, ch.index)
    && entries[k].id == Some(ch.id) && ch.title == entries[k].title && ch.slug == slugify(ch.title)
  }

  ghost predicate ListsSection(entries: seq<Entry>, k: nat, c: nat, sec: AnchoredSectionEntry) {
    && IsSectionEntry(entries, k, c, sec.index) && entries[k].id == Some(sec.id) && sec.title == entries[k].title
  }

  /** `ks` says which headings the chapters come from: all chapter headings, by number and
      then as they stand. */
  ghost predicate ChaptersFrom(entries: seq<Entry>, chapters: seq<AnchoredChapterEntry>, slugify: string -> string,
                               ks: seq<nat>) {
    && |ks| == |chapters| && (forall i :: 0 <= i < |ks| ==> ListsChapter(entries, ks[i], chapters[i], slugify))
    && (forall k, n :: IsChapterEntry(entries, k, n) ==> k in ks)
    && forall i, j :: 0 <= i < j < |ks| ==> Follows(chapters[i].index, ks[i], chapters[j].index, ks[j])
  }

  /** And `js` which the sections of chapter `c` come from, in the same order. */
  ghost predicate SectionsFrom(entries: seq<Entry>, c: nat, sections: seq<AnchoredSectionEntry>, js: seq<nat>) {
    && |js| == |sections| && (forall i :: 0 <= i < |js| ==> ListsSection(entries, js[i], c, sections[i]))
    && (forall k, m :: IsSectionEntry(entries, k, c, m) ==> k in js)
    && forall i, j :: 0 <= i < j < |js| ==> Follows(sections[i].index, js[i], sections[j].index, js[j])
  }

  function ChapterAt(entries: seq<Entry>, slugify: string -> string): nat -> seq<AnchoredChapterEntry> {
    (k: nat) => if k < |entries| then ChapterHere(entries[k], slugify) else []
  }

  function SectionAt(entries: seq<Entry>, c: nat): nat -> seq<AnchoredSectionEntry> {
    (k: nat) => if k < |entries| then SectionHere(entries[k], c) else []
  }

  lemma {:induction false} ChaptersGathered(entries: seq<Entry>, k: nat, slugify: string -> string)
    requires k <= |entries|
    ensures ChaptersIn(entries, k, slugify) == GatherUpTo(k, ChapterAt(entries, slugify))
  {
    if k > 0 {
      ChaptersGathered(entries, k - 1, slugify);
    }
  }

  lemma {:induction false} GatheredSame<T>(entries: seq<Entry>, k: nat, here: Entry -> seq<T>, there: nat -> seq<T>)
    requires k <= |entries| && forall i: nat :: i < |entries| ==> there(i) == here(entries[i])
    ensures Gathered(entries, k, here) == GatherUpTo(k, there)
  {
    if k > 0 {
      GatheredSame(entries, k - 1, here, there);
    }
  }

  lemma ChapterLists(entries: seq<Entry>, k: nat, slugify: string -> string)
    requires k < |entries|
    ensures |ChapterHere(entries[k], slugify)| <= 1
    ensures forall ch :: ChapterHere(entries[k], slugify) == [ch] ==> ListsChapter(entries, k, ch, slugify)
    ensures forall n :: IsChapterEntry(entries, k, n) ==> ChapterHere(entries[k], slugify) != []
  {
    forall ch | ChapterHere(entries[k], slugify) == [ch]
      ensures ListsChapter(entries, k, ch, slugify)
    {
      assert ch in ChapterHere(entries[k], slugify);
      ChapterExact(entries[k], ch.index);
    }
    forall n | IsChapterEntry(entries, k, n)
      ensures ChapterHere(entries[k], slugify) != []
    {
      ChapterExact(entries[k], n);
    }
  }

  lemma SectionLists(entries: seq<Entry>, k: nat, c: nat)
    requires k < |entries|
    ensures |SectionHere(entries[k], c)| <= 1
    ensures forall sec :: SectionHere(entries[k], c) == [sec] ==> ListsSection(entries, k, c, sec)
    ensures forall m :: IsSectionEntry(entries, k, c, m) ==> SectionHere(entries[k], c) != []
  {
    forall sec | SectionHere(entries[k], c) == [sec]
      ensures ListsSection(entries, k, c, sec)
    {
      assert sec in SectionHere(entries[k], c);
      SectionExact(entries[k], c, sec.index);
    }
    forall m | IsSectionEntry(entries, k, c, m)
      ensures SectionHere(entries[k], c) != []
    {
      SectionExact(entries[k], c, m);
    }
  }

  /** The chapter headings in the order they stand. */
  lemma ChaptersStand(entries: seq<Entry>, slugify: string -> string) returns (ks: seq<nat>)
    ensures From(ChaptersIn(entries, |entries|, slugify), ks, |entries|, ChapterAt(entries, slugify))
  {
    ChaptersGathered(entries, |entries|, slugify);
    forall k: nat | k < |entries|
      ensures |ChapterAt(entries, slugify)(k)| <= 1
    {
      ChapterLists(entries, k, slugify);
    }
    ks := Gather(|entries|, ChapterAt(entries, slugify));
  }

  lemma SectionsStand(entries: seq<Entry>, c: nat) returns (js: seq<nat>)
    ensures From(SectionsIn(entries, |entries|, c), js, |entries|, SectionAt(entries, c))
  {
    GatheredSame(entries, |entries|, SectionsUnder(c), SectionAt(entries, c));
    forall k: nat | k < |entries|
      ensures |SectionAt(entries, c)(k)| <= 1
    {
      SectionLists(entries, k, c);
    }
    js := Gather(|entries|, SectionAt(entries, c));
  }

  /** Where each sorted element stood before it was gathered. */
  function Places(ks: seq<nat>, at: seq<nat>): (r: seq<nat>)
    requires forall i :: 0 <= i < |at| ==> at[i] < |ks|
    ensures |r| == |at| && forall i :: 0 <= i < |at| ==> r[i] == ks[at[i]]
  {
    seq(|at|, i requires 0 <= i < |at| => ks[at[i]])
  }

  lemma PlacesSort<T>(items: seq<T>, sorted: seq<T>, key: T -> nat, at: seq<nat>, ks: seq<nat>)
    requires Sorts(items, sorted, key, at) && |ks| == |items|
    requires forall i, j :: 0 <= i < j < |ks| ==> ks[i] < ks[j]
    ensures forall k :: k in ks ==> k in Places(ks, at)
    ensures forall i, j :: 0 <= i < j < |at| ==>
              Follows(key(sorted[i]), Places(ks, at)[i], key(sorted[j]), Places(ks, at)[j])
  {
    forall k | k in ks
      ensures k in Places(ks, at)
    {
      var n: nat :| n < |ks| && ks[n] == k;
      assert n in at;
      var i :| 0 <= i < |at| && at[i] == n;
      assert Places(ks, at)[i] == k;
    }
    forall i, j | 0 <= i < j < |at|
      ensures Follows(key(sorted[i]), Places(ks, at)[i], key(sorted[j]), Places(ks, at)[j])
    {
      assert Follows(key(sorted[i]), at[i], key(sorted[j]), at[j]);
    }
  }

  lemma SectionsSorted(entries: seq<Entry>, c: nat) returns (js: seq<nat>)
    ensures SectionsFrom(entries, c, SortByKey(SectionsIn(entries, |entries|, c), SectionIndex), js)
  {
    var sections := SectionsIn(entries, |entries|, c);
    var stand := SectionsStand(entries, c);
    var at := SortExact(sections, SectionIndex);
    var sorted := SortByKey(sections, SectionIndex);
    PlacesSort(sections, sorted, SectionIndex, at, stand);
    js := Places(stand, at);
    forall i | 0 <= i < |js|
      ensures ListsSection(entries, js[i], c, sorted[i])
    {
      assert SectionAt(entries, c)(stand[at[i]]) == [sections[at[i]]];
      SectionLists(entries, js[i], c);
    }
    forall k, m | IsSectionEntry(entries, k, c, m)
      ensures k in js
    {
      SectionLists(entries, k, c);
      assert SectionAt(entries, c)(k) != [];
    }
    assert forall i :: 0 <= i < |sorted| ==> SectionIndex(sorted[i]) == sorted[i].index;
  }

  lemma FilledIs(entries: seq<Entry>, chapters: seq<AnchoredChapterEntry>)
    ensures
      var filled := FilledUpTo(entries, chapters, |chapters|);
      && |filled| == |chapters|
      && forall i :: 0 <= i < |chapters| ==>
           && filled[i] == WithSections(entries, chapters, i)
           && filled[i] == chapters[i].(sections := filled[i].sections)
  {
    forall i | 0 <= i < |chapters|
      ensures |FilledUpTo(entries, chapters, |chapters|)| == |chapters|
      ensures FilledUpTo(entries, chapters, |chapters|)[i] == WithSections(entries, chapters, i)
    {
      FilledAt(entries, chapters, |chapters|, i);
    }
  }

  lemma SameListed(entries: seq<Entry>, k: nat, bare: AnchoredChapterEntry, ch: AnchoredChapterEntry,
                   slugify: string -> string)
    requires ListsChapter(entries, k, bare, slugify) && ch == bare.(sections := ch.sections)
    ensures ListsChapter(entries, k, ch, slugify)
  {
  }

  /** The chapters listed are exactly the chapter headings, by number, equal numbers as
      they stand in the book. */
  lemma ChaptersExact(entries: seq<Entry>, slugify: string -> string) returns (stand: seq<nat>, at: seq<nat>)
    ensures From(ChaptersIn(entries, |entries|, slugify), stand, |entries|, ChapterAt(entries, slugify))
    ensures
      var chapters := ChaptersIn(entries, |entries|, slugify);
      && Sorts(FilledUpTo(entries, chapters, |chapters|), AnchoredOutline(entries, slugify), ChapterIndex, at)
      && (forall i :: 0 <= i < |at| ==> at[i] < |stand|)
    ensures ChaptersFrom(entries, AnchoredOutline(entries, slugify), slugify, Places(stand, at))
  {
    var chapters := ChaptersIn(entries, |entries|, slugify);
    var filled, sorted := FilledUpTo(entries, chapters, |chapters|), AnchoredOutline(entries, slugify);
    stand := ChaptersStand(entries, slugify);
    FilledIs(entries, chapters);
    at := SortExact(filled, ChapterIndex);
    PlacesSort(filled, sorted, ChapterIndex, at, stand);
    var ks := Places(stand, at);
    forall i | 0 <= i < |ks|
      ensures ListsChapter(entries, ks[i], sorted[i], slugify)
    {
      assert ChapterAt(entries, slugify)(stand[at[i]]) == [chapters[at[i]]];
      ChapterLists(entries, ks[i], slugify);
      SameListed(entries, ks[i], chapters[at[i]], sorted[i], slugify);
    }
    forall k, n | IsChapterEntry(entries, k, n)
      ensures k in ks
    {
      ChapterLists(entries, k, slugify);
      assert ChapterAt(entries, slugify)(k) != [];
    }
    assert forall i :: 0 <= i < |sorted| ==> ChapterIndex(sorted[i]) == sorted[i].index;
  }

  /** No chapter heading before `k` carries number `n`. */
  ghost predicate FirstOfNumber(entries: seq<Entry>, k: nat, n: nat) {
    forall i: nat :: i < k ==> !IsChapterEntry(entries, i, n)
  }

  lemma ChapterNumber(entries: seq<Entry>, k: nat, n: nat, ch: AnchoredChapterEntry, slugify: string -> string)
    requires k < |entries| && ChapterHere(entries[k], slugify) == [ch]
    ensures IsChapterEntry(entries, k, n) <==> ch.index == n
  {
    assert ch in ChapterHere(entries[k], slugify);
    ChapterExact(entries[k], n);
  }

  lemma FirstIs(entries: seq<Entry>, slugify: string -> string, chapters: seq<AnchoredChapterEntry>, stand: seq<nat>,
                p: nat)
    requires From(chapters, stand, |entries|, ChapterAt(entries, slugify)) && p < |chapters|
    ensures IsFirst(chapters, p) <==> FirstOfNumber(entries, stand[p], chapters[p].index)
  {
    var n := chapters[p].index;
    forall i | 0 <= i < |chapters|
      ensures IsChapterEntry(entries, stand[i], n) <==> chapters[i].index == n
    {
      assert ChapterAt(entries, slugify)(stand[i]) == [chapters[i]];
      ChapterNumber(entries, stand[i], n, chapters[i], slugify);
    }
    if !FirstOfNumber(entries, stand[p], n) {
      var k: nat :| k < stand[p] && IsChapterEntry(entries, k, n);
      var i := Stood(entries, slugify, chapters, stand, k, n);
    }
  }

  lemma Stood(entries: seq<Entry>, slugify: string -> string, chapters: seq<AnchoredChapterEntry>, stand: seq<nat>,
              k: nat, n: nat)
    returns (i: nat)
    requires From(chapters, stand, |entries|, ChapterAt(entries, slugify)) && IsChapterEntry(entries, k, n)
    ensures i < |stand| && stand[i] == k
  {
    ChapterLists(entries, k, slugify);
    assert ChapterAt(entries, slugify)(k) != [];
    i :| i < |stand| && stand[i] == k;
  }

  /** The first chapter of a number has exactly the section headings of that number, any
      later one of the same number has none. */
  lemma OutlineExact(entries: seq<Entry>, slugify: string -> string) returns (ks: seq<nat>)
    ensures ChaptersFrom(entries, AnchoredOutline(entries, slugify), slugify, ks)
    ensures forall i :: 0 <= i < |ks| ==>
              var ch := AnchoredOutline(entries, slugify)[i];
              if FirstOfNumber(entries, ks[i], ch.index) then
                exists js :: SectionsFrom(entries, ch.index, ch.sections, js)
              else ch.sections == []
  {
    var chapters := ChaptersIn(entries, |entries|, slugify);
    var outline := AnchoredOutline(entries, slugify);
    var stand, at := ChaptersExact(entries, slugify);
    ks := Places(stand, at);
    FilledIs(entries, chapters);
    BareChapters(entries, |entries|, slugify);
    forall i | 0 <= i < |ks|
      ensures if FirstOfNumber(entries, ks[i], outline[i].index) then
                exists js :: SectionsFrom(entries, outline[i].index, outline[i].sections, js)
              else outline[i].sections == []
    {
      var p := at[i];
      assert outline[i] == WithSections(entries, chapters, p) && chapters[p] in chapters;
      FirstIs(entries, slugify, chapters, stand, p);
      var js := SectionsSorted(entries, chapters[p].index);
    }
  }
}
