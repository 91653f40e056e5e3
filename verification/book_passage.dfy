/** The passage extractor: explicit ids where the book has any, counting where not. */
module BookPassage {
  import opened Wrappers
  import opened Text
  import opened Book
  import BookExtract

  method CollectHeadings(text: string) returns (out: seq<BookHeading>)
    ensures out == Headings(text)
  {
    out := CollectFrom(SplitInclusive(text));
  }

  method CollectFrom(lines: seq<string>) returns (out: seq<BookHeading>)
    ensures out == HeadingsUpTo(ScanLines(lines), |lines|)
  {
    ghost var scans := ScanLines(lines);
    out := [];
    var inFence := false;
    var offset: nat := 0;
    for k := 0 to |lines|
      invariant out == HeadingsUpTo(scans, k)
      invariant inFence == FencedAt(scans, k) && offset == OffsetAt(scans, k)
    {
      var scanned := ScanLine(lines[k]);
      assert scanned == scans[k];
      if scanned.fence {
        inFence := !inFence;
      } else if !inFence && scanned.heading.Some? {
        out := out + [BookHeading(scanned.heading.value, offset)];
      }
      offset := offset + scanned.length;
    }
  }

  // ---------------------------------------------------------------------
  // Books whose headings carry ids.

  /** The number after the first dash of an id. */
  function ChapterNumberOf(id: string): Option<nat> {
    var tail := SplitOnce(id, '-').1;
    if tail.None? then None
    else
      var number := SplitOnce(tail.value, '-').0;
      if number != "" && AllDigits(number) then ParseU32(number) else None
  }

  /** Both numbers of a `sec-<c>-<s>` id. */
  function SectionNumbersOf(id: string): Option<(nat, nat)> {
    if !("sec-" <= id) then None
    else
      var (c, tail) := SplitOnce(id[4..], '-');
      if tail.None? then None
      else
        var s := SplitOnce(tail.value, '-').0;
        if c == "" || s == "" || !AllDigits(c) || !AllDigits(s) then None
        else if ParseU32(c).None? || ParseU32(s).None? then None
        else Some((ParseU32(c).value, ParseU32(s).value))
  }

  predicate IsChapterId(heading: BookHeading) {
    heading.heading.id.Some? && "ch-" <= heading.heading.id.value
  }

  predicate IsChapterNumbered(heading: BookHeading, index: nat) {
    IsChapterId(heading) && ChapterNumberOf(heading.heading.id.value) == Some(index)
  }

  predicate IsSectionNumbered(heading: BookHeading, chapter: nat, section: nat) {
    heading.heading.id.Some? && SectionNumbersOf(heading.heading.id.value) == Some((chapter, section))
  }

  /** The first heading from `k` on that satisfies `wanted`, or the end. */
  function Position(headings: seq<BookHeading>, k: nat, wanted: BookHeading -> bool): (p: nat)
    requires k <= |headings|
    ensures k <= p <= |headings|
    ensures p < |headings| ==> wanted(headings[p])
    ensures forall i :: k <= i < p ==> !wanted(headings[i])
    decreases |headings| - k
  {
    if k == |headings| || wanted(headings[k]) then k else Position(headings, k + 1, wanted)
  }

  function HeadingOffset(headings: seq<BookHeading>, k: nat, length: nat): nat {
    if k < |headings| then headings[k].offset else length
  }

  ghost predicate InOrder(headings: seq<BookHeading>, low: nat, high: nat) {
    && (forall k :: 0 <= k < |headings| ==> low <= headings[k].offset < high)
    && (forall j, k :: 0 <= j < k < |headings| ==> headings[j].offset < headings[k].offset)
  }

  lemma {:induction false} UpToInOrder(scans: seq<Scanned>, k: nat)
    requires k <= |scans| && forall i :: 0 <= i < |scans| ==> scans[i].length > 0
    ensures InOrder(HeadingsUpTo(scans, k), 0, OffsetAt(scans, k))
  {
    if k > 0 {
      UpToInOrder(scans, k - 1);
      AppendInOrder(HeadingsUpTo(scans, k - 1), HeadingAt(scans, k - 1), OffsetAt(scans, k - 1), OffsetAt(scans, k));
    }
  }

  lemma AppendInOrder(front: seq<BookHeading>, last: seq<BookHeading>, high: nat, next: nat)
    requires InOrder(front, 0, high) && high < next
    requires |last| <= 1 && (|last| == 1 ==> last[0].offset == high)
    ensures InOrder(front + last, 0, next)
  {
  }

  lemma {:induction false} ScannedStart(lines: seq<string>, k: nat)
    requires k <= |lines|
    ensures OffsetAt(ScanLines(lines), k) == LineStart(lines, k)
  {
    if k > 0 {
      ScannedStart(lines, k - 1);
    }
  }

  lemma HeadingsInOrder(text: string)
    ensures InOrder(Headings(text), 0, |text|)
  {
    var lines := SplitInclusive(text);
    LinesNonEmpty(text);
    LineStartsEnd(text);
    ScannedStart(lines, |lines|);
    UpToInOrder(ScanLines(lines), |lines|);
  }

  /** From heading `p` to heading `q`, or to the end. */
  function Between(text: string, headings: seq<BookHeading>, p: nat, q: nat): string
    requires InOrder(headings, 0, |text|)
    requires p < q <= |headings|
  {
    text[headings[p].offset..HeadingOffset(headings, q, |text|)]
  }

  function AnchoredChapter(text: string, headings: seq<BookHeading>, index: nat): Result<string, PassageError>
    requires InOrder(headings, 0, |text|)
  {
    var start := Position(headings, 0, h => IsChapterNumbered(h, index));
    if start == |headings| then Err(NoChapter(index))
    else Ok(Between(text, headings, start, Position(headings, start + 1, IsChapterId)))
  }

  function AnchoredSection(text: string, headings: seq<BookHeading>, chapter: nat, section: nat): Option<string>
    requires InOrder(headings, 0, |text|)
  {
    var start := Position(headings, 0, h => IsSectionNumbered(h, chapter, section));
    if start == |headings| then None
    else
      var level := headings[start].heading.level;
      Some(Between(text, headings, start, Position(headings, start + 1, (h: BookHeading) => h.heading.level <= level)))
  }

  // ---------------------------------------------------------------------
  // The extractor.

  function Take(s: string, count: nat): string {
    if count < |s| then s[..count] else s
  }

  function Capped(passage: Result<string, PassageError>, maxChars: nat): Result<string, PassageError> {
    match passage
    case Ok(text) => Ok(Take(text, maxChars))
    case Err(error) => Err(error)
  }

  ghost function ChapterPassage(text: string, index: nat): Result<string, PassageError> {
    HeadingsInOrder(text);
    if IsPlain(text) then ChapterByCount(text, index) else AnchoredChapter(text, Headings(text), index)
  }

  ghost function SectionPassage(text: string, chapter: nat, section: nat): Result<string, PassageError> {
    HeadingsInOrder(text);
    var anchored := AnchoredSection(text, Headings(text), chapter, section);
    if !IsPlain(text) && anchored.Some? then Ok(anchored.value) else SectionByCount(text, chapter, section)
  }

  /** What `extract_passage_capped` is for. */
  ghost function Passage(anchor: string, text: string, maxChars: nat): Result<string, PassageError> {
    if Trim(text) == "" then Err(EmptyBook)
    else
      match ParseAnchor(anchor)
      case Chapter(index, _) => Capped(ChapterPassage(text, index), maxChars)
      case Section(chapter, section, _) => Capped(SectionPassage(text, chapter, section), maxChars)
      case Other(other) => if other == "" then Ok(Take(text, maxChars)) else Err(AnchorNotFound(other))
  }

  method ExtractChapter(text: string, index: nat) returns (passage: Result<string, PassageError>)
    ensures passage == ChapterPassage(text, index)
  {
    var headings := CollectHeadings(text);
    HeadingsInOrder(text);
    if exists h :: h in headings && h.heading.id.Some? {
      passage := AnchoredChapter(text, headings, index);
    } else {
      passage := BookExtract.CountBasedChapter(text, index);
    }
  }

  method ExtractSection(text: string, chapter: nat, section: nat) returns (passage: Result<string, PassageError>)
    ensures passage == SectionPassage(text, chapter, section)
  {
    var headings := CollectHeadings(text);
    HeadingsInOrder(text);
    if exists h :: h in headings && h.heading.id.Some? {
      var anchored := AnchoredSection(text, headings, chapter, section);
      if anchored.Some? {
        return Ok(anchored.value);
      }
    }
    passage := BookExtract.CountBasedSection(text, chapter, section);
  }

  method ExtractPassageCapped(anchor: string, text: string, maxChars: nat)
    returns (passage: Result<string, PassageError>)
    ensures passage == Passage(anchor, text, maxChars)
  {
    if Trim(text) == "" {
      return Err(EmptyBook);
    }
    match ParseAnchor(anchor) {
      case Chapter(index, _) =>
        passage := ExtractChapter(text, index);
      case Section(chapter, section, _) =>
        passage := ExtractSection(text, chapter, section);
      case Other(other) =>
        if other != "" {
          return Err(AnchorNotFound(other));
        }
        passage := Ok(text);
    }
    passage := Capped(passage, maxChars);
  }
}
