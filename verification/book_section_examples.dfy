/** A book the outline counts, in which a section's anchor opens another section. */
module BookSectionExamples {
  import opened Wrappers
  import opened Text
  import opened Book
  import opened BookAnchored
  import opened BookCuts
  import opened BookExamples
  import opened BookExtract
  import opened BookOutline
  import opened BookPassage
  import opened BookTheorems

  // ---------------------------------------------------------------------
  // A book of three heading lines: a chapter and two sections.

  predicate IsOneLine(line: string) {
    EndsLine(line) && forall i :: 0 <= i < |line| - 1 ==> line[i] != '\n'
  }

  lemma ThreeLines(first: string, second: string, third: string)
    requires IsOneLine(first) && IsOneLine(second)
    requires third != "" && forall i :: 0 <= i < |third| - 1 ==> third[i] != '\n'
    ensures SplitInclusive(first + (second + third)) == [first, second, third]
  {
    TwoLines(second, third);
    WholeLine(first);
    SplitAppend(first, second + third);
  }

  lemma ThreeScans(scans: seq<Scanned>, f: Heading, g: Heading, h: Heading, l: nat, m: nat, n: nat)
    requires scans == [Scanned(false, Some(f), l), Scanned(false, Some(g), m), Scanned(false, Some(h), n)]
    ensures HeadingsUpTo(scans, 3) == [BookHeading(f, 0), BookHeading(g, l), BookHeading(h, l + m)]
  {
    assert HeadingsUpTo(scans, 1) == [BookHeading(f, 0)];
    assert HeadingsUpTo(scans, 2) == [BookHeading(f, 0)] + [BookHeading(g, l)];
    assert OffsetAt(scans, 2) == l + m;
    assert HeadingsUpTo(scans, 3) == HeadingsUpTo(scans, 2) + [BookHeading(h, l + m)];
  }

  lemma ThreeScanned(lines: seq<string>, a: Scanned, b: Scanned, c: Scanned)
    requires |lines| == 3 && ScanLine(lines[0]) == a && ScanLine(lines[1]) == b && ScanLine(lines[2]) == c
    ensures ScanLines(lines) == [a, b, c]
  {
    var scans := ScanLines(lines);
    assert scans[0] == a && scans[1] == b && scans[2] == c;
  }

  lemma ThreeMarks(lines: seq<Line>, first: string, second: string, third: string)
    requires lines == [Line(ChapterLine, first), Line(SectionLine, second), Line(SectionLine, third)]
    ensures Marks(lines, 0, false, 0)
            == [Mark(1, 0, first), Mark(2, |first|, second), Mark(2, |first| + |second|, third)]
  {
    assert Marks(lines, 3, false, |first| + |second| + |third|) == [];
    assert Marks(lines, 2, false, |first| + |second|) == [Mark(2, |first| + |second|, third)];
    assert Marks(lines, 1, false, |first|) == [Mark(2, |first|, second)] + [Mark(2, |first| + |second|, third)];
  }

  lemma OneHead(a: Mark, b: Mark, c: Mark)
    requires a.level == 1 && b.level == 2 && c.level == 2
    ensures Heads([a, b, c]) == [0]
  {
    HeadsSnoc([], a);
    HeadsSnoc([a], b);
    HeadsSnoc([a, b], c);
    assert [] + [a] == [a] && [a] + [b] == [a, b] && [a, b] + [c] == [a, b, c];
  }

  lemma ThreeRead(readings: seq<Reading>, a: Reading, b: Reading, c: Reading)
    requires readings == [a, b, c] && !a.fence && !b.fence
    requires !HasId(a.heading) && !HasId(b.heading) && !HasId(c.heading)
    ensures !HasId(EntriesUpTo(readings, 3))
  {
    assert EntriesUpTo(readings, 1) == [] + a.heading;
    assert EntriesUpTo(readings, 2) == EntriesUpTo(readings, 1) + b.heading;
    assert EntriesUpTo(readings, 3) == EntriesUpTo(readings, 2) + c.heading;
    NoIds(a.heading, b.heading);
    NoIds(a.heading + b.heading, c.heading);
  }

  lemma MarksOfThree(text: string, first: string, second: string, third: string)
    requires SplitInclusive(text) == [first, second, third]
    requires KindOf(first) == ChapterLine && KindOf(second) == SectionLine && KindOf(third) == SectionLine
    ensures MarksOf(text) == [Mark(1, 0, first), Mark(2, |first|, second), Mark(2, |first| + |second|, third)]
    ensures Heads(MarksOf(text)) == [0]
  {
    ThreeMarks(Classify(SplitInclusive(text)), first, second, third);
    OneHead(Mark(1, 0, first), Mark(2, |first|, second), Mark(2, |first| + |second|, third));
  }

  lemma HeadingsOfThree(lines: seq<string>, f: Heading, g: Heading, h: Heading, l: nat, m: nat, n: nat)
    requires |lines| == 3 && ScanLine(lines[0]) == Scanned(false, Some(f), l)
    requires ScanLine(lines[1]) == Scanned(false, Some(g), m) && ScanLine(lines[2]) == Scanned(false, Some(h), n)
    ensures HeadingsUpTo(ScanLines(lines), 3) == [BookHeading(f, 0), BookHeading(g, l), BookHeading(h, l + m)]
  {
    ThreeScanned(lines, Scanned(false, Some(f), l), Scanned(false, Some(g), m), Scanned(false, Some(h), n));
    ThreeScans(ScanLines(lines), f, g, h, l, m, n);
  }

  /** The outline finds no id in the line. */
  ghost predicate Unseen(reading: Reading) {
    !reading.fence && !HasId(reading.heading)
  }

  lemma UnseenThree(text: string, slugify: string -> string)
    requires |Lines(text)| == 3
    requires Unseen(ReadingOf(Lines(text)[0])) && Unseen(ReadingOf(Lines(text)[1])) && Unseen(ReadingOf(Lines(text)[2]))
    ensures OutlineOf(text, slugify).Plain?
  {
    var readings := Readings(Lines(text));
    assert readings == [readings[0], readings[1], readings[2]];
    ThreeRead(readings, readings[0], readings[1], readings[2]);
  }

  // ---------------------------------------------------------------------
  // The wrong section.

  lemma HiddenCut(headings: seq<BookHeading>, marks: seq<Mark>, id: string, m: nat, n: nat, length: nat)
    requires headings == [BookHeading(Heading(1, None), 0), BookHeading(Heading(2, None), m),
                          BookHeading(Heading(2, Some(id)), n)]
    requires SectionNumbersOf(id) == Some((1, 1))
    ensures SectionHeading(headings, 1, 1) == 2 && SectionCutIn(headings, marks, 1, 1, length) == Some(Cut(n, length))
  {
    assert !IsSectionNumbered(headings[0], 1, 1) && !IsSectionNumbered(headings[1], 1, 1);
    assert IsSectionNumbered(headings[2], 1, 1);
  }

  lemma HiddenPassage(text: string, id: string, m: nat, n: nat)
    requires Headings(text) == [BookHeading(Heading(1, None), 0), BookHeading(Heading(2, None), m),
                                BookHeading(Heading(2, Some(id)), n)]
    requires SectionNumbersOf(id) == Some((1, 1)) && n <= |text|
    ensures SectionPassage(text, 1, 1) == Ok(text[n..|text|])
  {
    HiddenCut(Headings(text), MarksOf(text), id, m, n, |text|);
    SectionCutById(text, 1, 1);
  }

  /** Section one of chapter one has an anchor, whatever its slug, and it gives `passage`. */
  lemma FirstSectionGives(text: string, slug: string, passage: string, maxChars: nat)
    requires MarksOf(text) != [] && SectionPassage(text, 1, 1) == Ok(passage)
    ensures Passage(SectionAnchor(1, 1, slug), text, maxChars) == Capped(Ok(passage), maxChars)
  {
    MarkedNotBlank(text);
    SectionAnchorRoundTrip(1, 1, slug);
  }

  lemma TwoSections(text: string, slugify: string -> string, a: Mark, b: Mark, c: Mark)
    requires OutlineOf(text, slugify).Plain? && MarksOf(text) == [a, b, c] && Heads(MarksOf(text)) == [0]
    ensures |OutlineOf(text, slugify).chapters| == 1 && |OutlineOf(text, slugify).chapters[0].sections| == 2
    ensures HasSection(MarksOf(text), 0, 0) && OwnSection(MarksOf(text), 0, 0, |text|) == Cut(b.offset, c.offset)
  {
    OutlineNames(text, slugify, OutlineOf(text, slugify).chapters, 0);
    OutlineSections(text, slugify, OutlineOf(text, slugify).chapters, 0, 0);
  }

  /** The three lines of the book. */
  predicate AreLines(text: string, first: string, second: string, third: string) {
    && first == Hashes(1) + " " + "A" + "\n" && second == Hashes(2) + " " + "S" + "\n"
    && third == Hashes(2) + " " + ("" + "{#" + "sec-1-1" + "}") + " " && text == first + (second + third)
  }

  lemma ReadLines(text: string, first: string, second: string, third: string)
    requires AreLines(text, first, second, third)
    ensures SplitInclusive(text) == [first, second, third] && text[|first| + |second|..|text|] == third
  {
    LineOf(first, Hashes(1) + " " + "A");
    LineOf(second, Hashes(2) + " " + "S");
    Unbroken(third);
    ThreeLines(first, second, third);
  }

  lemma LineOf(line: string, body: string)
    requires line == body + "\n" && '\n' !in body
    ensures IsOneLine(line)
  {
    assert forall i :: 0 <= i < |body| ==> body[i] in body;
  }

  lemma Unbroken(line: string)
    requires line == Hashes(2) + " " + ("" + "{#" + "sec-1-1" + "}") + " "
    ensures line != "" && forall i :: 0 <= i < |line| - 1 ==> line[i] != '\n'
  {
    assert line == "## {#sec-1-1} ";
  }

  lemma ReadMarks(text: string, first: string, second: string, third: string)
    requires AreLines(text, first, second, third) && SplitInclusive(text) == [first, second, third]
    ensures MarksOf(text) == [Mark(1, 0, first), Mark(2, |first|, second), Mark(2, |first| + |second|, third)]
    ensures Heads(MarksOf(text)) == [0]
  {
    BareLine(first, 1, "A");
    BareLine(second, 2, "S");
    HiddenLine(third, "sec-1-1");
    MarksOfThree(text, first, second, third);
  }

  lemma ReadHeadings(text: string, first: string, second: string, third: string, id: string)
    requires AreLines(text, first, second, third) && SplitInclusive(text) == [first, second, third] && id == "sec-1-1"
    ensures Headings(text) == [BookHeading(Heading(1, None), 0), BookHeading(Heading(2, None), |first|),
                               BookHeading(Heading(2, Some(id)), |first| + |second|)]
  {
    BareScan(first, 1, "A");
    SecondScanned(text, first, second, third, id);
  }

  lemma SecondScanned(text: string, first: string, second: string, third: string, id: string)
    requires SplitInclusive(text) == [first, second, third] && id == "sec-1-1"
    requires ScanLine(first) == Scanned(false, Some(Heading(1, None)), |first|)
    requires second == Hashes(2) + " " + "S" + "\n" && third == Hashes(2) + " " + ("" + "{#" + id + "}") + " "
    ensures Headings(text) == [BookHeading(Heading(1, None), 0), BookHeading(Heading(2, None), |first|),
                               BookHeading(Heading(2, Some(id)), |first| + |second|)]
  {
    BareScan(second, 2, "S");
    ThirdScanned(text, first, second, third, id);
  }

  lemma ThirdScanned(text: string, first: string, second: string, third: string, id: string)
    requires SplitInclusive(text) == [first, second, third] && id == "sec-1-1"
    requires ScanLine(first) == Scanned(false, Some(Heading(1, None)), |first|)
    requires ScanLine(second) == Scanned(false, Some(Heading(2, None)), |second|)
    requires third == Hashes(2) + " " + ("" + "{#" + id + "}") + " "
    ensures Headings(text) == [BookHeading(Heading(1, None), 0), BookHeading(Heading(2, None), |first|),
                               BookHeading(Heading(2, Some(id)), |first| + |second|)]
  {
    HiddenScan(third, id);
    AllScanned(text, first, second, third, id);
  }

  lemma AllScanned(text: string, first: string, second: string, third: string, id: string)
    requires SplitInclusive(text) == [first, second, third]
    requires ScanLine(first) == Scanned(false, Some(Heading(1, None)), |first|)
    requires ScanLine(second) == Scanned(false, Some(Heading(2, None)), |second|)
    requires ScanLine(third) == Scanned(false, Some(Heading(2, Some(id))), |third|)
    ensures Headings(text) == [BookHeading(Heading(1, None), 0), BookHeading(Heading(2, None), |first|),
                               BookHeading(Heading(2, Some(id)), |first| + |second|)]
  {
    HeadingsOfThree([first, second, third], Heading(1, None), Heading(2, None), Heading(2, Some(id)),
                    |first|, |second|, |third|);
    HeadingsOver(text, [first, second, third]);
  }

  lemma HeadingsOver(text: string, lines: seq<string>)
    requires SplitInclusive(text) == lines
    ensures Headings(text) == HeadingsUpTo(ScanLines(lines), |lines|)
  {
  }

  lemma BareScan(line: string, level: nat, title: string)
    requires 1 <= level <= 2 && title in {"A", "S"} && line == Hashes(level) + " " + title + "\n"
    ensures ScanLine(line) == Scanned(false, Some(Heading(level, None)), |line|)
  {
    BareLine(line, level, title);
  }

  lemma HiddenScan(line: string, id: string)
    requires line == Hashes(2) + " " + ("" + "{#" + id + "}") + " " && id == "sec-1-1"
    ensures ScanLine(line) == Scanned(false, Some(Heading(2, Some(id))), |line|)
  {
    HiddenLine(line, id);
  }

  lemma ReadOutline(text: string, first: string, second: string, third: string, slugify: string -> string)
    requires AreLines(text, first, second, third) && SplitInclusive(text) == [first, second, third]
    ensures OutlineOf(text, slugify).Plain?
  {
    BareLine(first, 1, "A");
    BareLine(second, 2, "S");
    HiddenLine(third, "sec-1-1");
    UnseenThree(text, slugify);
  }

  /** Such a book misdirects: the outline lists both sections, and the first one's anchor,
      whatever its slug, opens the second. */
  lemma SectionMisdirects(text: string, first: string, second: string, third: string, slugify: string -> string,
                          slug: string, maxChars: nat)
    requires AreLines(text, first, second, third)
    ensures OutlineOf(text, slugify).Plain? && |OutlineOf(text, slugify).chapters| == 1
    ensures |OutlineOf(text, slugify).chapters[0].sections| == 2
    ensures HasSection(MarksOf(text), 0, 0)
    ensures OwnSection(MarksOf(text), 0, 0, |text|) == Cut(|first|, |first| + |second|)
    ensures Passage(SectionAnchor(1, 1, slug), text, maxChars) == Capped(Ok(third), maxChars)
  {
    ReadLines(text, first, second, third);
    ReadMarks(text, first, second, third);
    var id := "sec-1-1";
    ReadHeadings(text, first, second, third, id);
    ReadOutline(text, first, second, third, slugify);
    NumberedOneOne(id);
    HiddenPassage(text, id, |first|, |first| + |second|);
    FirstSectionGives(text, slug, third, maxChars);
    TwoSections(text, slugify, Mark(1, 0, first), Mark(2, |first|, second), Mark(2, |first| + |second|, third));
  }

  /** There is such a book: a space behind the id hides it from the outline. */
  lemma SectionMisdirected(slugify: string -> string, slug: string, maxChars: nat)
    returns (first: string, second: string, third: string)
    ensures first == "# A\n" && second == "## S\n" && third == "## {#sec-1-1} "
    ensures
      var text := first + (second + third);
      && OutlineOf(text, slugify).Plain? && |OutlineOf(text, slugify).chapters| == 1
      && |OutlineOf(text, slugify).chapters[0].sections| == 2
      && HasSection(MarksOf(text), 0, 0)
      && OwnSection(MarksOf(text), 0, 0, |text|) == Cut(|first|, |first| + |second|)
      && Passage(SectionAnchor(1, 1, slug), text, maxChars) == Capped(Ok(third), maxChars)
  {
    first, second, third := "# A\n", "## S\n", "## {#sec-1-1} ";
    SectionMisdirects(first + (second + third), first, second, third, slugify, slug, maxChars);
  }

  lemma BareLine(line: string, level: nat, title: string)
    requires 1 <= level <= 2 && title in {"A", "S"} && line == Hashes(level) + " " + title + "\n"
    ensures ScanLine(line) == Scanned(false, Some(Heading(level, None)), |line|) && Unseen(ReadingOf(StripEol(line)))
    ensures KindOf(line) == if level == 1 then ChapterLine else SectionLine
  {
    assert title[|title| - 1] != '}' && ExplicitId(title) == None;
    ScanHeading(line, level, title, "\n");
    UnseenLine(line, Hashes(level) + " " + title);
  }

  lemma UnseenLine(line: string, body: string)
    requires line == body + "\n" && body != "" && body[|body| - 1] !in {'}', '\r'}
    requires !IsFence(TrimStart(body))
    ensures Unseen(ReadingOf(StripEol(line)))
  {
    StripEnd(body);
    NoBraceNoId(body);
  }

  lemma HiddenLine(line: string, id: string)
    requires line == Hashes(2) + " " + ("" + "{#" + id + "}") + " " && id == "sec-1-1"
    ensures KindOf(line) == SectionLine && Unseen(ReadingOf(StripEol(line)))
    ensures ScanLine(line) == Scanned(false, Some(Heading(2, Some(id))), |line|)
  {
    SectionByBlank(line, "" + "{#" + id + "}", id);
  }

  lemma SectionByBlank(line: string, title: string, id: string)
    requires title == "" + "{#" + id + "}" && line == Hashes(2) + " " + title + " "
    requires '{' !in id && id != "" && id[|id| - 1] != '}'
    ensures KindOf(line) == SectionLine && Unseen(ReadingOf(StripEol(line)))
    ensures ScanLine(line) == Scanned(false, Some(Heading(2, Some(id))), |line|)
  {
    IdAt("", id);
    ScanHeading(line, 2, title, " ");
    NoBraceNoId(line);
    assert StripEol(line) == line;
  }

  lemma NumberedOneOne(id: string)
    requires id == "sec-1-1"
    ensures SectionNumbersOf(id) == Some((1, 1))
  {
    assert id == "sec" + "-" + (['1'] + "-" + ['1']);
    ShortSectionId('1', '1', id);
  }

  /** An id `sec-<digit>-<digit>`. */
  lemma ShortSectionId(c: char, m: char, id: string)
    requires '1' <= c <= '9' && '1' <= m <= '9' && id == "sec" + "-" + ([c] + "-" + [m])
    ensures SectionNumbersOf(id) == Some(((c - '0') as nat, (m - '0') as nat))
  {
    assert "sec-" <= id && id[4..] == [c] + "-" + [m];
    SplitDash([c], [m]);
    NoDash([m]);
    OneDigit(c);
    OneDigit(m);
  }
}
