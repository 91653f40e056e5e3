/**
 The two readers of a book's markdown: the outline builder of the librarian and
 the passage extractor of the core. They scan the text independently and meet
 only through a printed anchor. Offsets count characters; every slice is cut at
 the start of a line, so byte offsets cut the same text.
 */
module Book {
  import opened Wrappers
  import opened Text

  // ---------------------------------------------------------------------
  // Anchors.

  datatype Anchor =
    | Chapter(index: nat, slug: string)
    | Section(chapter: nat, section: nat, slug: string)
    | Other(text: string)

  function Rest(part: Option<string>): string {
    if part.Some? then part.value else ""
  }

  function ParseSectionAnchor(anchor: string): Anchor {
    if !("sec-" <= anchor) then Other(anchor)
    else
      var (c, tail) := SplitOnce(anchor[4..], '-');
      if tail.None? then Other(anchor)
      else
        var (m, slug) := SplitOnce(tail.value, '-');
        if ParseU32(c).None? || ParseU32(m).None? then Other(anchor)
        else if ParseU32(c).value == 0 || ParseU32(m).value == 0 then Other(anchor)
        else Section(ParseU32(c).value, ParseU32(m).value, Rest(slug))
  }

  function ParseAnchor(anchor: string): Anchor {
    if "ch-" <= anchor then
      var (num, slug) := SplitOnce(anchor[3..], '-');
      match ParseU32(num)
      case Some(index) => if index == 0 then Other(anchor) else Chapter(index, Rest(slug))
      case None => ParseSectionAnchor(anchor)
    else ParseSectionAnchor(anchor)
  }

  function ChapterAnchor(index: nat, slug: string): string {
    "ch-" + ToDecimal(index) + "-" + slug
  }

  function SectionAnchor(chapter: nat, section: nat, slug: string): string {
    "sec-" + ToDecimal(chapter) + "-" + ToDecimal(section) + "-" + slug
  }

  /** Printing and re-reading a chapter anchor, whatever its slug. */
  lemma ChapterAnchorRoundTrip(index: nat, slug: string)
    requires index > 0
    ensures ParseAnchor(ChapterAnchor(index, slug))
            == if index < U32_LIMIT then Chapter(index, slug) else Other(ChapterAnchor(index, slug))
  {
    var anchor := ChapterAnchor(index, slug);
    assert anchor[3..] == ToDecimal(index) + ['-'] + slug;
    SplitOnceAt(ToDecimal(index), '-', slug);
    PrintedU32(index);
    assert anchor[0] == 'c';
  }

  lemma SectionAnchorRoundTrip(chapter: nat, section: nat, slug: string)
    requires chapter > 0 && section > 0
    ensures ParseAnchor(SectionAnchor(chapter, section, slug))
            == if chapter < U32_LIMIT && section < U32_LIMIT then Section(chapter, section, slug)
               else Other(SectionAnchor(chapter, section, slug))
  {
    var anchor := SectionAnchor(chapter, section, slug);
    var tail := ToDecimal(section) + ['-'] + slug;
    assert anchor[4..] == ToDecimal(chapter) + ['-'] + tail;
    SplitOnceAt(ToDecimal(chapter), '-', tail);
    SplitOnceAt(ToDecimal(section), '-', slug);
    PrintedU32(chapter);
    PrintedU32(section);
    assert anchor[0] == 's';
  }

  // ---------------------------------------------------------------------
  // Heading lines.

  predicate IsFence(trimmed: string) {
    "```" <= trimmed || "~~~" <= trimmed
  }

  function CountHashes(s: string): (n: nat)
    ensures n <= |s|
    ensures forall k :: 0 <= k < n ==> s[k] == '#'
    ensures n < |s| ==> s[n] != '#'
  {
    if s == "" || s[0] != '#' then 0 else 1 + CountHashes(s[1..])
  }

  /** The start of the last `{#` in `s`. */
  function LastBraceHash(s: string): (k: Option<nat>)
    ensures k.Some? ==> k.value + 2 <= |s|
  {
    if |s| < 2 then None
    else if s[|s| - 2..] == "{#" then Some(|s| - 2)
    else LastBraceHash(s[..|s| - 1])
  }

  /** The explicit id a heading title ends in, `{#id}`; it may be empty. */
  function ExplicitId(title: string): Option<string> {
    if title == "" || title[|title| - 1] != '}' then None
    else
      var inner := title[..|title| - 1];
      match LastBraceHash(inner)
      case None => None
      case Some(k) =>
        var id := inner[k + 2..];
        Some(if id != "" && id[|id| - 1] == '}' then id[..|id| - 1] else id)
  }

  datatype Heading = Heading(level: nat, id: Option<string>)

  /** The core's reading of a heading line (start already trimmed). */
  function ParseHeadingLine(line: string): Option<Heading> {
    var trimmed := TrimEnd(line);
    var hashes := CountHashes(trimmed);
    if hashes == 0 || hashes > 6 || !(" " <= trimmed[hashes..]) then None
    else Some(Heading(hashes, ExplicitId(TrimStart(trimmed[hashes..]))))
  }

  datatype BookHeading = BookHeading(heading: Heading, offset: nat)

  /** What the core's heading pass sees in a line. */
  datatype Scanned = Scanned(fence: bool, heading: Option<Heading>, length: nat)

  function ScanLine(line: string): Scanned {
    var trimmed := TrimStart(line);
    Scanned(IsFence(trimmed), if "#" <= trimmed then ParseHeadingLine(trimmed) else None, |line|)
  }

  function ScanLines(lines: seq<string>): (r: seq<Scanned>)
    ensures |r| == |lines|
    ensures forall k :: 0 <= k < |lines| ==> r[k] == ScanLine(lines[k])
  {
    seq(|lines|, k requires 0 <= k < |lines| => ScanLine(lines[k]))
  }

  /** Whether an odd number of fence lines lies before line `k`. */
  predicate FencedAt(scans: seq<Scanned>, k: nat)
    requires k <= |scans|
  {
    OddBefore(scans, k, (scanned: Scanned) => scanned.fence)
  }

  function OffsetAt(scans: seq<Scanned>, k: nat): nat
    requires k <= |scans|
  {
    SumBefore(scans, k, (scanned: Scanned) => scanned.length)
  }

  /** The heading line `k` makes, if any. */
  function HeadingAt(scans: seq<Scanned>, k: nat): seq<BookHeading>
    requires k < |scans|
  {
    if scans[k].fence || FencedAt(scans, k) || scans[k].heading.None? then []
    else [BookHeading(scans[k].heading.value, OffsetAt(scans, k))]
  }

  /** Every heading the core recognizes outside fences before line `k`. */
  function HeadingsUpTo(scans: seq<Scanned>, k: nat): seq<BookHeading>
    requires k <= |scans|
  {
    if k == 0 then [] else HeadingsUpTo(scans, k - 1) + HeadingAt(scans, k - 1)
  }

  function Headings(text: string): seq<BookHeading> {
    var scans := ScanLines(SplitInclusive(text));
    HeadingsUpTo(scans, |scans|)
  }

  /** The core sees no explicit id anywhere: the book is read by counting. */
  predicate IsPlain(text: string) {
    forall h :: h in Headings(text) ==> h.heading.id.None?
  }

  /** The librarian's reading of the id: nothing is trimmed at the end, and an
      empty id is no id. */
  function HeadingAnchorId(trimmed: string): Option<string> {
    match ExplicitId(TrimStart(trimmed[CountHashes(trimmed)..]))
    case Some(id) => if id == "" then None else Some(id)
    case None => None
  }

  predicate IsOutlineHeading(trimmed: string) {
    var hashes := CountHashes(trimmed);
    0 < hashes <= 6 && " " <= trimmed[hashes..]
  }

  function Title(trimmed: string): string {
    Trim(TrimStart(trimmed[CountHashes(trimmed)..]))
  }

  // ---------------------------------------------------------------------
  // The reference: chapter and section marks.

  /** A `# ` or `## ` line outside fences. */
  datatype Mark = Mark(level: nat, offset: nat, line: string)

  datatype LineKind = FenceLine | ChapterLine | SectionLine | OtherLine

  function KindOf(line: string): LineKind {
    var trimmed := TrimStart(line);
    if IsFence(trimmed) then FenceLine
    else if "# " <= trimmed then ChapterLine
    else if "## " <= trimmed then SectionLine
    else OtherLine
  }

  /** A line with what the scanners see in it. */
  datatype Line = Line(kind: LineKind, text: string)

  function Read(line: string): Line {
    Line(KindOf(line), line)
  }

  function Classify(lines: seq<string>): (r: seq<Line>)
    ensures |r| == |lines|
    ensures forall k :: 0 <= k < |lines| ==> r[k] == Read(lines[k])
  {
    seq(|lines|, k requires 0 <= k < |lines| => Read(lines[k]))
  }

  function FenceAfter(line: Line, inFence: bool): bool {
    if line.kind == FenceLine then !inFence else inFence
  }

  /** The mark one line makes, if any. */
  function MarkOf(line: Line, inFence: bool, offset: nat): seq<Mark> {
    if inFence then []
    else match line.kind
      case ChapterLine => [Mark(1, offset, line.text)]
      case SectionLine => [Mark(2, offset, line.text)]
      case _ => []
  }

  /** The marks of the lines from `k` on, the first of which starts at `offset`. */
  function Marks(lines: seq<Line>, k: nat, inFence: bool, offset: nat): seq<Mark>
    requires k <= |lines|
    decreases |lines| - k
  {
    if k == |lines| then []
    else
      var rest := Marks(lines, k + 1, FenceAfter(lines[k], inFence), offset + |lines[k].text|);
      MarkOf(lines[k], inFence, offset) + rest
  }

  function MarksOf(text: string): seq<Mark> {
    Marks(Classify(SplitInclusive(text)), 0, false, 0)
  }

  /** The indices of the chapter marks. */
  function Heads(marks: seq<Mark>): seq<nat> {
    if |marks| == 0 then []
    else
      var front := Heads(marks[..|marks| - 1]);
      if marks[|marks| - 1].level == 1 then front + [|marks| - 1] else front
  }

  /** The first mark after chapter `c` (0-based): the next chapter, or the end. */
  function NextHead(marks: seq<Mark>, c: nat): nat
    requires c < |Heads(marks)|
  {
    if c + 1 < |Heads(marks)| then Heads(marks)[c + 1] else |marks|
  }

  /** Where mark `k` starts; past the last mark, the end of the text. */
  function MarkOffset(marks: seq<Mark>, k: nat, length: nat): nat {
    if k < |marks| then marks[k].offset else length
  }

  // ---------------------------------------------------------------------
  // How marks grow.

  lemma {:induction false} HeadsAppend(marks: seq<Mark>, more: seq<Mark>)
    ensures Heads(marks) <= Heads(marks + more)
    ensures forall c :: |Heads(marks)| <= c < |Heads(marks + more)| ==> Heads(marks + more)[c] >= |marks|
    decreases |more|
  {
    if |more| == 0 {
      assert marks + more == marks;
    } else {
      assert (marks + more)[..|marks + more| - 1] == marks + more[..|more| - 1];
      HeadsAppend(marks, more[..|more| - 1]);
    }
  }

  lemma HeadsSnoc(marks: seq<Mark>, mark: Mark)
    ensures Heads(marks + [mark]) == if mark.level == 1 then Heads(marks) + [|marks|] else Heads(marks)
  {
    assert (marks + [mark])[..|marks|] == marks;
  }

  lemma {:induction false} HeadsSound(marks: seq<Mark>)
    ensures forall c :: 0 <= c < |Heads(marks)| ==> Heads(marks)[c] < |marks| && marks[Heads(marks)[c]].level == 1
    ensures forall b, c :: 0 <= b < c < |Heads(marks)| ==> Heads(marks)[b] < Heads(marks)[c]
  {
    if |marks| > 0 {
      HeadsSound(marks[..|marks| - 1]);
    }
  }

  /** Every chapter mark is listed. */
  lemma {:induction false} HeadsComplete(marks: seq<Mark>, k: nat)
    requires k < |marks| && marks[k].level == 1
    ensures k in Heads(marks)
  {
    if k < |marks| - 1 {
      HeadsComplete(marks[..|marks| - 1], k);
    }
  }

  /** Marks come in order, inside the text, at level 1 or 2. */
  ghost predicate Ordered(marks: seq<Mark>, low: nat, high: nat) {
    && (forall k :: 0 <= k < |marks| ==> low <= marks[k].offset < high && 1 <= marks[k].level <= 2)
    && (forall j, k :: 0 <= j < k < |marks| ==> marks[j].offset < marks[k].offset)
  }

  /** Where line `k` starts and where the last line ends. */
  ghost predicate Lengths(lines: seq<Line>, k: nat, offset: nat, length: nat)
    requires k <= |lines|
    decreases |lines| - k
  {
    if k == |lines| then offset == length
    else lines[k].text != "" && Lengths(lines, k + 1, offset + |lines[k].text|, length)
  }

  lemma {:induction false} MarksOrdered(lines: seq<Line>, k: nat, inFence: bool, offset: nat, length: nat)
    requires k <= |lines| && Lengths(lines, k, offset, length)
    ensures offset <= length
    ensures Ordered(Marks(lines, k, inFence, offset), offset, length)
    decreases |lines| - k
  {
    if k < |lines| {
      MarksOrdered(lines, k + 1, FenceAfter(lines[k], inFence), offset + |lines[k].text|, length);
    }
  }

  lemma {:induction false} LengthsOf(text: string, k: nat)
    requires k <= |SplitInclusive(text)|
    ensures Lengths(Classify(SplitInclusive(text)), k, LineStart(SplitInclusive(text), k), |text|)
    decreases |SplitInclusive(text)| - k
  {
    LineStartsEnd(text);
    LinesNonEmpty(text);
    if k < |SplitInclusive(text)| {
      LengthsOf(text, k + 1);
    }
  }

  lemma MarksOfOrdered(text: string)
    ensures Ordered(MarksOf(text), 0, |text|)
  {
    LengthsOf(text, 0);
    MarksOrdered(Classify(SplitInclusive(text)), 0, false, 0, |text|);
  }

  lemma SpanBounds(marks: seq<Mark>, length: nat, j: nat, k: nat)
    requires Ordered(marks, 0, length)
    ensures j <= k ==> MarkOffset(marks, j, length) <= MarkOffset(marks, k, length)
    ensures j < k && j < |marks| ==> MarkOffset(marks, j, length) < MarkOffset(marks, k, length)
    ensures MarkOffset(marks, k, length) <= length
  {
  }

  lemma NextHeadBounds(marks: seq<Mark>, c: nat)
    requires c < |Heads(marks)|
    ensures Heads(marks)[c] < NextHead(marks, c) <= |marks|
    ensures forall k :: Heads(marks)[c] < k < NextHead(marks, c) ==> marks[k].level != 1
  {
    HeadsSound(marks);
    forall k | Heads(marks)[c] < k < NextHead(marks, c)
      ensures marks[k].level != 1
    {
      if marks[k].level == 1 {
        HeadsComplete(marks, k);
      }
    }
  }

  // ---------------------------------------------------------------------
  // The extractor.

  datatype PassageError = AnchorNotFound(anchor: string) | EmptyBook

  function NoChapter(n: nat): PassageError {
    AnchorNotFound("ch-" + ToDecimal(n))
  }

  function NoSection(n: nat, m: nat): PassageError {
    AnchorNotFound("sec-" + ToDecimal(n) + "-" + ToDecimal(m))
  }

  /** The text of chapter `n` (1-based): from its mark to the next chapter's. */
  ghost function ChapterSpan(text: string, marks: seq<Mark>, n: nat): Result<string, PassageError>
    requires Ordered(marks, 0, |text|)
  {
    if 1 <= n <= |Heads(marks)| then
      NextHeadBounds(marks, n - 1);
      SpanBounds(marks, |text|, Heads(marks)[n - 1], NextHead(marks, n - 1));
      Ok(text[MarkOffset(marks, Heads(marks)[n - 1], |text|)..MarkOffset(marks, NextHead(marks, n - 1), |text|)])
    else Err(NoChapter(n))
  }

  /** The text of section `m` of chapter `n` (both 1-based): from its mark to the next. */
  ghost function SectionSpan(text: string, marks: seq<Mark>, n: nat, m: nat): Result<string, PassageError>
    requires Ordered(marks, 0, |text|)
  {
    if !(1 <= n <= |Heads(marks)|) then Err(NoChapter(n))
    else
      var k := Heads(marks)[n - 1] + m;
      if 1 <= m && k < NextHead(marks, n - 1) then
        SpanBounds(marks, |text|, k, k + 1);
        Ok(text[MarkOffset(marks, k, |text|)..MarkOffset(marks, k + 1, |text|)])
      else Err(NoSection(n, m))
  }

  /** Reading by counting: what the passes over the lines must find. */
  ghost function ChapterByCount(text: string, n: nat): Result<string, PassageError> {
    MarksOfOrdered(text);
    ChapterSpan(text, MarksOf(text), n)
  }

  ghost function SectionByCount(text: string, n: nat, m: nat): Result<string, PassageError> {
    MarksOfOrdered(text);
    SectionSpan(text, MarksOf(text), n, m)
  }
}
