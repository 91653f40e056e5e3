/**
 The outline builder, and the proof that it sees the chapters and sections the
 extractor sees: it reads `lines()` where the extractor reads whole lines, looks
 for ids differently, and collects headings first and numbers them afterwards.
 */
module BookOutline {
  import opened Wrappers
  import opened Text
  import opened Book
  import opened BookAnchored
  import opened BookExtract

  datatype SectionEntry = SectionEntry(index: nat, title: string)
  datatype ChapterEntry = ChapterEntry(index: nat, title: string, slug: string, sections: seq<SectionEntry>)

  /** A book without explicit ids is counted; a book with any is read by them. */
  datatype Outline = Plain(chapters: seq<ChapterEntry>) | Anchored(anchored: seq<AnchoredChapterEntry>)

  /** The title, without the explicit id it may end in. */
  function EntryTitle(trimmed: string): string {
    var full := Title(trimmed);
    match HeadingAnchorId(trimmed)
    case None => full
    case Some(id) =>
      var suffix := "{#" + id + "}";
      if |suffix| <= |full| && full[|full| - |suffix|..] == suffix then TrimEnd(full[..|full| - |suffix|]) else full
  }

  /** What the builder sees in one line: a fence, a heading, or neither. */
  datatype Reading = Reading(fence: bool, heading: seq<Entry>)

  function ReadingOf(line: string): Reading {
    var trimmed := TrimStart(line);
    if IsFence(trimmed) then Reading(true, [])
    else if !IsOutlineHeading(trimmed) then Reading(false, [])
    else Reading(false, [Entry(HeadingAnchorId(trimmed), EntryTitle(trimmed), CountHashes(trimmed))])
  }

  function Readings(lines: seq<string>): (r: seq<Reading>)
    ensures |r| == |lines|
    ensures forall k :: 0 <= k < |lines| ==> r[k] == ReadingOf(lines[k])
  {
    seq(|lines|, k requires 0 <= k < |lines| => ReadingOf(lines[k]))
  }

  function FenceUpTo(readings: seq<Reading>, k: nat): bool
    requires k <= |readings|
  {
    OddBefore(readings, k, (reading: Reading) => reading.fence)
  }

  function EntriesUpTo(readings: seq<Reading>, k: nat): seq<Entry>
    requires k <= |readings|
  {
    if k == 0 then []
    else if FenceUpTo(readings, k - 1) then EntriesUpTo(readings, k - 1)
    else EntriesUpTo(readings, k - 1) + readings[k - 1].heading
  }

  /** What a heading adds: a chapter, a section of the last chapter, or nothing. */
  function AddTitled(chapters: seq<ChapterEntry>, level: nat, title: string,
                     slugify: string -> string): seq<ChapterEntry> {
    if level == 1 then chapters + [ChapterEntry(|chapters| + 1, title, slugify(title), [])]
    else if level == 2 && |chapters| > 0 then
      var last := chapters[|chapters| - 1];
      chapters[|chapters| - 1 := last.(sections := last.sections + [SectionEntry(|last.sections| + 1, title)])]
    else chapters
  }

  function Folded(entries: seq<Entry>, slugify: string -> string): seq<ChapterEntry> {
    if |entries| == 0 then []
    else
      var last := entries[|entries| - 1];
      AddTitled(Folded(entries[..|entries| - 1], slugify), last.level, last.title, slugify)
  }

  predicate HasId(entries: seq<Entry>) {
    exists e :: e in entries && e.id.Some?
  }

  /** The headings the first pass finds. */
  function EntriesOf(text: string): seq<Entry> {
    var readings := Readings(Lines(text));
    EntriesUpTo(readings, |readings|)
  }

  function OutlineFrom(entries: seq<Entry>, slugify: string -> string): Outline {
    if HasId(entries) then Anchored(AnchoredOutline(entries, slugify)) else Plain(Folded(entries, slugify))
  }

  function OutlineOf(text: string, slugify: string -> string): Outline {
    OutlineFrom(EntriesOf(text), slugify)
  }

  method CollectEntries(lines: seq<string>) returns (fenced: seq<Entry>)
    ensures fenced == EntriesUpTo(Readings(lines), |lines|)
  {
    ghost var readings := Readings(lines);
    fenced := [];
    var inFence := false;
    for k := 0 to |lines|
      invariant fenced == EntriesUpTo(readings, k) && inFence == FenceUpTo(readings, k)
    {
      var trimmed := TrimStart(lines[k]);
      assert readings[k] == ReadingOf(lines[k]);
      assert fenced + [] == fenced;
      if IsFence(trimmed) {
        inFence := !inFence;
        continue;
      }
      if inFence {
        continue;
      }
      var hashes := CountHashes(trimmed);
      if hashes == 0 || hashes > 6 || !(" " <= trimmed[hashes..]) {
        continue;
      }
      fenced := fenced + [Entry(HeadingAnchorId(trimmed), EntryTitle(trimmed), hashes)];
    }
  }

  method ParseOutline(text: string, slugify: string -> string) returns (outline: Outline)
    ensures outline == OutlineOf(text, slugify)
  {
    var fenced := CollectEntries(Lines(text));
    if exists e :: e in fenced && e.id.Some? {
      var anchored := BuildAnchored(fenced, slugify);
      return Anchored(anchored);
    }
    var chapters := CountEntries(fenced, slugify);
    outline := Plain(chapters);
  }

  method CountEntries(fenced: seq<Entry>, slugify: string -> string) returns (chapters: seq<ChapterEntry>)
    ensures chapters == Folded(fenced, slugify)
  {
    chapters := [];
    for k := 0 to |fenced|
      invariant chapters == Folded(fenced[..k], slugify)
    {
      var entry := fenced[k];
      assert fenced[..k + 1][..k] == fenced[..k];
      ghost var added := AddTitled(chapters, entry.level, entry.title, slugify);
      if entry.level == 1 {
        var index := |chapters| + 1;
        chapters := chapters + [ChapterEntry(index, entry.title, slugify(entry.title), [])];
      } else if entry.level == 2 {
        if |chapters| > 0 {
          var ch := chapters[|chapters| - 1];
          var sectionIndex := |ch.sections| + 1;
          var listed := ch.(sections := ch.sections + [SectionEntry(sectionIndex, entry.title)]);
          chapters := chapters[|chapters| - 1 := listed];
        }
      }
      assert chapters == added;
    }
    assert fenced[..|fenced|] == fenced;
  }

  // ---------------------------------------------------------------------
  // One line, read twice.

  /** The line terminator changes nothing a scanner looks at. */
  lemma SameKind(line: string)
    ensures
      var trimmed := TrimStart(StripEol(line));
      match KindOf(line)
      case FenceLine => IsFence(trimmed)
      case ChapterLine => !IsFence(trimmed) && IsOutlineHeading(trimmed) && CountHashes(trimmed) == 1
      case SectionLine => !IsFence(trimmed) && IsOutlineHeading(trimmed) && CountHashes(trimmed) == 2
      case OtherLine => !IsFence(trimmed) && (IsOutlineHeading(trimmed) ==> CountHashes(trimmed) > 2)
  {
    var eol := EolOf(line);
    TrimStartAppend(StripEol(line), eol);
    TrimStartWhite(StripEol(line));
    var trimmed := TrimStart(StripEol(line));
    var whole := TrimStart(line);
    assert whole == trimmed + eol || (whole == "" && trimmed == "");
    SamePrefix(trimmed, eol, whole);
    HashCount(trimmed);
  }

  lemma SamePrefix(trimmed: string, eol: string, whole: string)
    requires eol == "" || eol == "\n" || eol == "\r\n"
    requires whole == trimmed + eol || (whole == "" && trimmed == "")
    ensures IsFence(whole) == IsFence(trimmed)
    ensures ("# " <= whole) == ("# " <= trimmed)
    ensures ("## " <= whole) == ("## " <= trimmed)
  {
    NoStraddle("```", trimmed, eol, whole);
    NoStraddle("~~~", trimmed, eol, whole);
    NoStraddle("# ", trimmed, eol, whole);
    NoStraddle("## ", trimmed, eol, whole);
  }

  lemma NoStraddle(prefix: string, trimmed: string, eol: string, whole: string)
    requires prefix != "" && forall c :: c in prefix ==> c !in eol
    requires whole == trimmed + eol || (whole == "" && trimmed == "")
    ensures prefix <= whole <==> prefix <= trimmed
  {
    if |trimmed| < |prefix| {
      assert prefix[|trimmed|] in prefix;
    }
  }

  lemma HashCount(trimmed: string)
    ensures "# " <= trimmed <==> IsOutlineHeading(trimmed) && CountHashes(trimmed) == 1
    ensures "## " <= trimmed <==> IsOutlineHeading(trimmed) && CountHashes(trimmed) == 2
  {
  }

  /** The title of a whole heading line. */
  function TitleOf(line: string): string {
    Title(TrimStart(StripEol(line)))
  }

  /** The builder's reading of a line fits the extractor's. */
  ghost predicate Fits(reading: Reading, line: Line, title: string -> string) {
    && (reading.fence <==> line.kind == FenceLine)
    && |reading.heading| <= 1
    && (line.kind in {FenceLine, OtherLine} ==> reading.heading == [] || reading.heading[0].level > 2)
    && (line.kind in {ChapterLine, SectionLine} ==>
          && |reading.heading| == 1
          && reading.heading[0].level == (if line.kind == ChapterLine then 1 else 2)
          && (reading.heading[0].id.None? ==> reading.heading[0].title == title(line.text)))
  }

  lemma ReadingFits(line: string)
    ensures Fits(ReadingOf(StripEol(line)), Read(line), TitleOf)
  {
    SameKind(line);
  }

  // ---------------------------------------------------------------------
  // The outline is what the marks say.

  /** The outline entries the marks call for. */
  function FromMarks(marks: seq<Mark>, title: string -> string, slugify: string -> string): seq<ChapterEntry> {
    if |marks| == 0 then []
    else
      var last := marks[|marks| - 1];
      AddTitled(FromMarks(marks[..|marks| - 1], title, slugify), last.level, title(last.line), slugify)
  }

  lemma {:induction false} OneMore(entries: seq<Entry>, more: seq<Entry>, marks: seq<Mark>, mark: seq<Mark>,
                                   title: string -> string, slugify: string -> string)
    requires |more| <= 1 && |mark| <= 1
    requires mark == [] ==> more == [] || more[0].level > 2
    requires mark != [] ==> more != [] && more[0].level == mark[0].level && more[0].title == title(mark[0].line)
    requires Folded(entries, slugify) == FromMarks(marks, title, slugify)
    ensures Folded(entries + more, slugify) == FromMarks(marks + mark, title, slugify)
  {
    if |more| == 1 {
      assert (entries + more)[..|entries|] == entries;
    } else {
      assert entries + more == entries;
    }
    if |mark| == 1 {
      assert (marks + mark)[..|marks|] == marks;
    } else {
      assert marks + mark == marks;
    }
  }

  lemma LineAgrees(readings: seq<Reading>, k: nat, line: Line, offset: nat, done: seq<Mark>,
                   title: string -> string, slugify: string -> string)
    requires k < |readings| && Fits(readings[k], line, title)
    requires !HasId(EntriesUpTo(readings, k + 1))
    requires Folded(EntriesUpTo(readings, k), slugify) == FromMarks(done, title, slugify)
    ensures Folded(EntriesUpTo(readings, k + 1), slugify)
            == FromMarks(done + MarkOf(line, FenceUpTo(readings, k), offset), title, slugify)
  {
    var before := EntriesUpTo(readings, k);
    if FenceUpTo(readings, k) {
      assert done + [] == done;
    } else {
      var more := readings[k].heading;
      assert EntriesUpTo(readings, k + 1) == before + more;
      if more != [] {
        assert more[0] in before + more;
      }
      OneMore(before, more, done, MarkOf(line, false, offset), title, slugify);
    }
  }

  lemma FenceNext(readings: seq<Reading>, k: nat, line: Line, title: string -> string)
    requires k < |readings| && Fits(readings[k], line, title)
    ensures FenceAfter(line, FenceUpTo(readings, k)) == FenceUpTo(readings, k + 1)
  {
  }

  /** The two passes, line by line. */
  lemma {:induction false} PassesAgree(readings: seq<Reading>, lines: seq<Line>, k: nat, inFence: bool, offset: nat,
                                       done: seq<Mark>, marks: seq<Mark>, title: string -> string,
                                       slugify: string -> string)
    requires k <= |readings| == |lines|
    requires forall i :: 0 <= i < |lines| ==> Fits(readings[i], lines[i], title)
    requires inFence == FenceUpTo(readings, k)
    requires Stands(lines, k, inFence, offset, done, marks)
    requires Folded(EntriesUpTo(readings, k), slugify) == FromMarks(done, title, slugify)
    requires !HasId(EntriesUpTo(readings, |readings|))
    ensures Folded(EntriesUpTo(readings, |readings|), slugify) == FromMarks(marks, title, slugify)
    decreases |lines| - k
  {
    if k < |lines| {
      NoIdBefore(readings, k + 1);
      LineAgrees(readings, k, lines[k], offset, done, title, slugify);
      FenceNext(readings, k, lines[k], title);
      PassesAgree(readings, lines, k + 1, FenceAfter(lines[k], inFence), offset + |lines[k].text|,
                  done + MarkOf(lines[k], inFence, offset), marks, title, slugify);
    }
  }

  lemma NoIdBefore(readings: seq<Reading>, k: nat)
    requires k <= |readings| && !HasId(EntriesUpTo(readings, |readings|))
    ensures !HasId(EntriesUpTo(readings, k))
  {
    EntriesGrow(readings, k, |readings|);
    forall e | e in EntriesUpTo(readings, k)
      ensures e in EntriesUpTo(readings, |readings|)
    {
    }
  }

  lemma {:induction false} EntriesGrow(readings: seq<Reading>, j: nat, k: nat)
    requires j <= k <= |readings|
    ensures EntriesUpTo(readings, j) <= EntriesUpTo(readings, k)
    decreases k
  {
    if j < k {
      EntriesGrow(readings, j, k - 1);
    }
  }

  lemma OutlineFromMarks(text: string, slugify: string -> string)
    requires OutlineOf(text, slugify).Plain?
    ensures OutlineOf(text, slugify).chapters == FromMarks(MarksOf(text), TitleOf, slugify)
  {
    var raw := SplitInclusive(text);
    var readings, lines := Readings(Lines(text)), Classify(raw);
    forall i | 0 <= i < |raw|
      ensures Fits(readings[i], lines[i], TitleOf)
    {
      ReadingFits(raw[i]);
    }
    StandsAtStart(lines);
    PassesAgree(readings, lines, 0, false, 0, [], MarksOf(text), TitleOf, slugify);
  }

  /** The sections named by the marks from `from` to before `end`. */
  function SectionsOf(marks: seq<Mark>, from: nat, end: nat, title: string -> string): seq<SectionEntry>
    requires end <= |marks|
    decreases end
  {
    if end <= from then []
    else SectionsOf(marks, from, end - 1, title) + [SectionEntry(end - from, title(marks[end - 1].line))]
  }

  lemma {:induction false} SectionsAt(marks: seq<Mark>, from: nat, end: nat, j: nat, title: string -> string)
    requires j < end - from && end <= |marks|
    ensures |SectionsOf(marks, from, end, title)| == end - from
    ensures SectionsOf(marks, from, end, title)[j] == SectionEntry(j + 1, title(marks[from + j].line))
    decreases end
  {
    if end - 1 > from {
      SectionsAt(marks, from, end - 1, if j < end - 1 - from then j else 0, title);
    }
  }

  lemma {:induction false} SectionsLength(marks: seq<Mark>, from: nat, end: nat, title: string -> string)
    requires from <= end <= |marks|
    ensures |SectionsOf(marks, from, end, title)| == end - from
    decreases end
  {
    if from < end {
      SectionsLength(marks, from, end - 1, title);
    }
  }

  lemma {:induction false} SectionsKept(marks: seq<Mark>, mark: Mark, from: nat, end: nat, title: string -> string)
    requires end <= |marks|
    ensures SectionsOf(marks + [mark], from, end, title) == SectionsOf(marks, from, end, title)
    decreases end
  {
    if end > from {
      SectionsKept(marks, mark, from, end - 1, title);
    }
  }

  /** Chapter `c` (0-based) as the marks name it. */
  function ChapterAt(marks: seq<Mark>, c: nat, title: string -> string, slugify: string -> string): ChapterEntry
    requires c < |Heads(marks)|
  {
    NextHeadBounds(marks, c);
    var name := title(marks[Heads(marks)[c]].line);
    ChapterEntry(c + 1, name, slugify(name), SectionsOf(marks, Heads(marks)[c] + 1, NextHead(marks, c), title))
  }

  lemma ChapterKept(front: seq<Mark>, last: Mark, c: nat, title: string -> string, slugify: string -> string)
    requires c < |Heads(front)| && (c + 1 < |Heads(front)| || last.level == 1)
    ensures c < |Heads(front + [last])|
    ensures ChapterAt(front + [last], c, title, slugify) == ChapterAt(front, c, title, slugify)
  {
    HeadsSnoc(front, last);
    NextHeadBounds(front, c);
    SectionsKept(front, last, Heads(front)[c] + 1, NextHead(front, c), title);
  }

  lemma ChapterGains(front: seq<Mark>, last: Mark, c: nat, title: string -> string, slugify: string -> string)
    requires c + 1 == |Heads(front)| && last.level == 2
    ensures c < |Heads(front + [last])|
    ensures
      var before := ChapterAt(front, c, title, slugify);
      ChapterAt(front + [last], c, title, slugify)
      == before.(sections := before.sections + [SectionEntry(|before.sections| + 1, title(last.line))])
  {
    HeadsSnoc(front, last);
    NextHeadBounds(front, c);
    SectionsKept(front, last, Heads(front)[c] + 1, |front|, title);
    SectionsLength(front, Heads(front)[c] + 1, |front|, title);
  }

  lemma ChapterStarts(front: seq<Mark>, last: Mark, title: string -> string, slugify: string -> string)
    requires last.level == 1
    ensures |Heads(front + [last])| == |Heads(front)| + 1
    ensures ChapterAt(front + [last], |Heads(front)|, title, slugify)
            == ChapterEntry(|Heads(front)| + 1, title(last.line), slugify(title(last.line)), [])
  {
    HeadsSnoc(front, last);
  }

  /** The outline names every chapter mark, in order, with its sections. */
  lemma {:induction false} FromMarksAt(marks: seq<Mark>, c: nat, title: string -> string, slugify: string -> string)
    requires forall m :: m in marks ==> 1 <= m.level <= 2
    requires c < |Heads(marks)|
    ensures |FromMarks(marks, title, slugify)| == |Heads(marks)|
    ensures FromMarks(marks, title, slugify)[c] == ChapterAt(marks, c, title, slugify)
  {
    var front, last := marks[..|marks| - 1], marks[|marks| - 1];
    assert marks == front + [last];
    HeadsSnoc(front, last);
    FromMarksLength(front, title, slugify);
    if c < |Heads(front)| {
      FromMarksAt(front, c, title, slugify);
      if last.level == 2 && c + 1 == |Heads(front)| {
        ChapterGains(front, last, c, title, slugify);
      } else {
        ChapterKept(front, last, c, title, slugify);
      }
    } else {
      ChapterStarts(front, last, title, slugify);
    }
  }

  lemma {:induction false} FromMarksLength(marks: seq<Mark>, title: string -> string, slugify: string -> string)
    requires forall m :: m in marks ==> 1 <= m.level <= 2
    ensures |FromMarks(marks, title, slugify)| == |Heads(marks)|
  {
    if |marks| > 0 {
      FromMarksLength(marks[..|marks| - 1], title, slugify);
    }
  }
}
