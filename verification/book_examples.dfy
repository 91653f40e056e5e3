/** Books on which an anchor does not lead to its own heading, or leads nowhere. */
module BookExamples {
  import opened Wrappers
  import opened Text
  import opened Book
  import opened BookAnchored
  import opened BookAnchoredTheorems
  import opened BookCuts
  import opened BookExtract
  import opened BookOutline
  import opened BookPassage
  import opened BookTheorems

  // ---------------------------------------------------------------------
  // Reading a heading line.

  /** The last `{#` of a title that ends in `{#id`. */
  lemma {:induction false} LastBraceAt(head: string, id: string)
    requires '{' !in id
    ensures LastBraceHash(head + "{#" + id) == Some(|head|)
  {
    var s := head + "{#" + id;
    if id == "" {
      assert s[|s| - 2..] == "{#";
    } else {
      var front := id[..|id| - 1];
      assert s[..|s| - 1] == head + "{#" + front;
      assert s[|s| - 2] == (head + "{#" + front)[|s| - 2];
      assert front != "" ==> front[|front| - 1] in id;
      LastBraceAt(head, front);
    }
  }

  lemma IdAt(head: string, id: string)
    requires '{' !in id && (id == "" || id[|id| - 1] != '}')
    ensures ExplicitId(head + "{#" + id + "}") == Some(id)
  {
    var title := head + "{#" + id + "}";
    var inner := head + "{#" + id;
    assert title[..|title| - 1] == inner;
    LastBraceAt(head, id);
    assert inner[|head| + 2..] == id;
  }

  function Hashes(level: nat): string
    requires 1 <= level <= 2
  {
    if level == 1 then "#" else "##"
  }

  predicate IsTitle(title: string) {
    title != "" && !IsWhite(title[0]) && !IsWhite(title[|title| - 1])
  }

  lemma HashBody(level: nat, title: string, body: string)
    requires 1 <= level <= 2 && IsTitle(title) && body == Hashes(level) + " " + title
    ensures TrimStart(body) == body && TrimEnd(body) == body && !IsFence(body)
    ensures CountHashes(body) == level && body[level..] == " " + title && TrimStart(body[level..]) == title
  {
    var rest := " " + title;
    assert body[level..] == rest;
    Untrimmed(body, level, title);
    BlankTrimmed(title, rest);
    HashCount(level, rest, body);
  }

  lemma Untrimmed(body: string, level: nat, title: string)
    requires 1 <= level <= 2 && IsTitle(title) && body == Hashes(level) + " " + title
    ensures TrimStart(body) == body && TrimEnd(body) == body && !IsFence(body)
  {
    assert body[0] == '#' && body[|body| - 1] == title[|title| - 1];
  }

  lemma BlankTrimmed(title: string, rest: string)
    requires IsTitle(title) && rest == " " + title
    ensures TrimStart(rest) == title
  {
    assert rest[1..] == title;
  }

  lemma HashCount(level: nat, rest: string, body: string)
    requires 1 <= level <= 2 && rest != "" && rest[0] != '#' && body == Hashes(level) + rest
    ensures CountHashes(body) == level
  {
    assert CountHashes(rest) == 0;
    assert ("#" + rest)[1..] == rest;
    if level == 2 {
      assert body[1..] == "#" + rest;
    }
  }

  lemma ParseBody(whole: string, level: nat, title: string, body: string)
    requires TrimEnd(whole) == body && 1 <= level <= 2 && CountHashes(body) == level
    requires body[level..] == " " + title && TrimStart(body[level..]) == title
    ensures ParseHeadingLine(whole) == Some(Heading(level, ExplicitId(title)))
  {
  }

  lemma LinePrefix(line: string, level: nat, rest: string)
    requires 1 <= level <= 2 && line == Hashes(level) + " " + rest
    ensures TrimStart(line) == line && "#" <= line && !IsFence(line)
    ensures if level == 1 then "# " <= line else !("# " <= line) && "## " <= line
  {
    assert line[0] == '#';
    assert line[..level + 1] == Hashes(level) + " ";
    if level == 2 {
      assert line[1] == '#';
    }
  }

  lemma HeadingParses(line: string, level: nat, title: string, eol: string)
    requires 1 <= level <= 2 && IsTitle(title) && AllWhite(eol) && line == Hashes(level) + " " + title + eol
    ensures ParseHeadingLine(line) == Some(Heading(level, ExplicitId(title)))
  {
    var body := Hashes(level) + " " + title;
    HashBody(level, title, body);
    TrimEndAppend(body, eol);
    ParseBody(line, level, title, body);
  }

  /** A heading line as the extractor reads it. */
  lemma ScanHeading(line: string, level: nat, title: string, eol: string)
    requires 1 <= level <= 2 && IsTitle(title) && AllWhite(eol) && line == Hashes(level) + " " + title + eol
    ensures ScanLine(line) == Scanned(false, Some(Heading(level, ExplicitId(title))), |line|)
    ensures KindOf(line) == if level == 1 then ChapterLine else SectionLine
  {
    HeadingParses(line, level, title, eol);
    assert line == Hashes(level) + " " + (title + eol);
    LinePrefix(line, level, title + eol);
    ScanParsed(line, Heading(level, ExplicitId(title)));
    KindMarked(line, level);
  }

  lemma ScanParsed(line: string, h: Heading)
    requires TrimStart(line) == line && "#" <= line && !IsFence(line) && ParseHeadingLine(line) == Some(h)
    ensures ScanLine(line) == Scanned(false, Some(h), |line|)
  {
  }

  lemma KindMarked(line: string, level: nat)
    requires TrimStart(line) == line && !IsFence(line)
    requires if level == 1 then "# " <= line else !("# " <= line) && "## " <= line
    ensures KindOf(line) == if level == 1 then ChapterLine else SectionLine
  {
  }

  lemma StripEnd(body: string)
    requires body != "" && body[|body| - 1] != '\r'
    ensures StripEol(body + "\n") == body
  {
    assert (body + "\n")[..|body|] == body;
  }

  /** A heading line with an id as the outline reads it. */
  lemma ReadHeading(line: string, level: nat, title: string, id: string)
    requires 1 <= level <= 2 && IsTitle(title) && line == Hashes(level) + " " + title + "\n"
    requires ExplicitId(title) == Some(id) && id != ""
    ensures exists name :: ReadingOf(StripEol(line)) == Reading(false, [Entry(Some(id), name, level)])
  {
    var body := Hashes(level) + " " + title;
    HashBody(level, title, body);
    assert body[|body| - 1] == title[|title| - 1];
    StripEnd(body);
    assert line == body + "\n";
    assert ReadingOf(body) == Reading(false, [Entry(Some(id), EntryTitle(body), level)]);
  }

  /** A line that does not end in a brace has no id for the outline. */
  lemma NoBraceNoId(line: string)
    requires line != "" && line[|line| - 1] != '}'
    ensures !HasId(ReadingOf(line).heading)
  {
    var trimmed := TrimStart(line);
    if trimmed != "" {
      LastOfTrimStart(line);
      NoBraceTitle(trimmed);
    }
  }

  lemma NoBraceTitle(trimmed: string)
    requires trimmed != "" && trimmed[|trimmed| - 1] != '}'
    ensures HeadingAnchorId(trimmed) == None
  {
    var rest := trimmed[CountHashes(trimmed)..];
    if TrimStart(rest) != "" {
      LastOfTrimStart(rest);
    }
  }

  // ---------------------------------------------------------------------
  // A book of two heading lines.

  lemma TwoLines(first: string, second: string)
    requires EndsLine(first) && forall i :: 0 <= i < |first| - 1 ==> first[i] != '\n'
    requires second != "" && forall i :: 0 <= i < |second| - 1 ==> second[i] != '\n'
    ensures SplitInclusive(first + second) == [first, second]
  {
    WholeLine(first);
    WholeLine(second);
    SplitAppend(first, second);
  }

  lemma TwoScans(scans: seq<Scanned>, h: Heading, g: Heading, m: nat, n: nat)
    requires scans == [Scanned(false, Some(h), m), Scanned(false, Some(g), n)]
    ensures HeadingsUpTo(scans, 2) == [BookHeading(h, 0), BookHeading(g, m)]
    ensures OffsetAt(scans, 2) == m + n
  {
    assert HeadingsUpTo(scans, 1) == [BookHeading(h, 0)];
    assert HeadingsUpTo(scans, 2) == [BookHeading(h, 0)] + [BookHeading(g, m)];
  }

  lemma TwoScanned(lines: seq<string>, first: string, second: string, h: Heading, g: Heading)
    requires lines == [first, second]
    requires ScanLine(first) == Scanned(false, Some(h), |first|)
             && ScanLine(second) == Scanned(false, Some(g), |second|)
    ensures HeadingsUpTo(ScanLines(lines), |lines|) == [BookHeading(h, 0), BookHeading(g, |first|)]
  {
    TwoScans(ScanLines(lines), h, g, |first|, |second|);
  }

  lemma TwoHeadings(text: string, first: string, second: string, h: Heading, g: Heading)
    requires SplitInclusive(text) == [first, second]
    requires ScanLine(first) == Scanned(false, Some(h), |first|)
             && ScanLine(second) == Scanned(false, Some(g), |second|)
    ensures Headings(text) == [BookHeading(h, 0), BookHeading(g, |first|)]
  {
    TwoScanned(SplitInclusive(text), first, second, h, g);
  }

  lemma TwoMarks(lines: seq<Line>, first: string, second: string)
    requires lines == [Line(ChapterLine, first), Line(ChapterLine, second)]
    ensures Marks(lines, 0, false, 0) == [Mark(1, 0, first), Mark(1, |first|, second)]
  {
    assert Marks(lines, 2, false, |first| + |second|) == [];
    assert Marks(lines, 1, false, |first|) == [Mark(1, |first|, second)];
  }

  lemma TwoHeads(a: Mark, b: Mark)
    requires a.level == 1 && b.level == 1
    ensures Heads([a, b]) == [0, 1]
  {
    HeadsSnoc([], a);
    HeadsSnoc([a], b);
    assert [] + [a] == [a] && [a] + [b] == [a, b];
  }

  /** The two lines of a book, as the outline reads them. */
  lemma TwoEntries(text: string, first: string, second: string, a: Reading, b: Reading)
    requires SplitInclusive(text) == [first, second]
    requires ReadingOf(StripEol(first)) == a && ReadingOf(StripEol(second)) == b && !a.fence
    ensures EntriesOf(text) == a.heading + b.heading
  {
    var readings := Readings(Lines(text));
    assert readings == [a, b];
    TwoRead(readings, a, b);
  }

  lemma TwoRead(readings: seq<Reading>, a: Reading, b: Reading)
    requires readings == [a, b] && !a.fence
    ensures EntriesUpTo(readings, 2) == a.heading + b.heading
  {
    assert EntriesUpTo(readings, 1) == [] + a.heading;
  }

  // ---------------------------------------------------------------------
  // Numbers of ids.

  lemma SplitDash(front: string, rest: string)
    requires '-' !in front
    ensures SplitOnce(front + "-" + rest, '-') == (front, Some(rest))
    ensures SplitOn(front + "-" + rest, '-') == [front] + SplitOn(rest, '-')
  {
    SplitOnceAt(front, '-', rest);
    assert front + ['-'] + rest == front + "-" + rest;
  }

  lemma NoDash(s: string)
    requires '-' !in s
    ensures SplitOnce(s, '-') == (s, None) && SplitOn(s, '-') == [s]
  {
    SplitOnceNowhere(s, '-');
  }

  lemma OneDigit(c: char)
    requires '0' <= c <= '9'
    ensures IsNumber([c]) && ParseU32([c]) == Some((c - '0') as nat)
  {
    assert [c][..0] == "";
    assert DecimalValue([c]) == 10 * DecimalValue("") + (c - '0') as nat;
  }

  /** An id `ch-<digit>-<rest>`. */
  lemma ChapterId(c: char, rest: string, e: Entry)
    requires '1' <= c <= '9' && '-' !in rest && e.id == Some("ch" + "-" + ([c] + "-" + rest))
    ensures ChapterOf(e) == Some((c - '0') as nat)
  {
    SplitDash("ch", [c] + "-" + rest);
    SplitDash([c], rest);
    NoDash(rest);
    OneDigit(c);
  }

  /** An id `ch-<digit>`, which is a chapter's for the extractor only. */
  lemma ShortChapterId(c: char)
    requires '1' <= c <= '9'
    ensures
      var id := "ch" + "-" + [c];
      "ch-" <= id && ChapterNumberOf(id) == Some((c - '0') as nat)
  {
    SplitDash("ch", [c]);
    NoDash([c]);
    OneDigit(c);
  }

  /** An id `sec-<digit>-<digit>-<rest>`. */
  lemma SectionId(c: char, m: char, rest: string, e: Entry)
    requires '1' <= c <= '9' && '0' <= m <= '9' && '-' !in rest
    requires e.id == Some("sec" + "-" + ([c] + "-" + ([m] + "-" + rest)))
    ensures SectionOf(e) == Some(((c - '0') as nat, (m - '0') as nat))
  {
    var id := e.id.value;
    SectionIdParts(c, m, rest, id);
    OneDigit(c);
    OneDigit(m);
    assert SectionNumbersOf(id) == Some(((c - '0') as nat, (m - '0') as nat));
  }

  lemma SectionIdParts(c: char, m: char, rest: string, id: string)
    requires c != '-' && m != '-' && '-' !in rest
    requires id == "sec" + "-" + ([c] + "-" + ([m] + "-" + rest))
    ensures "sec-" <= id && SplitOnce(id[4..], '-') == ([c], Some([m] + "-" + rest))
    ensures SplitOnce([m] + "-" + rest, '-') == ([m], Some(rest))
    ensures SplitOn(id, '-') == ["sec", [c], [m], rest]
  {
    var tail := [c] + "-" + ([m] + "-" + rest);
    SplitDash("sec", tail);
    SplitDash([c], [m] + "-" + rest);
    SplitDash([m], rest);
    NoDash(rest);
    assert id[4..] == tail;
  }

  // ---------------------------------------------------------------------
  // The wrong chapter.

  /** Two chapter headings, the second with an id only the extractor sees, and that id
      carries number one: the outline counts both, and the first one's anchor opens the
      second. */
  lemma Misdirects(text: string, first: string, second: string, id: string, slugify: string -> string, slug: string,
                   maxChars: nat)
    requires SplitInclusive(text) == [first, second]
    requires KindOf(first) == ChapterLine && KindOf(second) == ChapterLine
    requires ScanLine(first) == Scanned(false, Some(Heading(1, None)), |first|)
    requires ScanLine(second) == Scanned(false, Some(Heading(1, Some(id))), |second|)
    requires "ch-" <= id && ChapterNumberOf(id) == Some(1)
    requires !HasId(ReadingOf(StripEol(first)).heading) && !HasId(ReadingOf(StripEol(second)).heading)
    requires !ReadingOf(StripEol(first)).fence
    ensures OutlineOf(text, slugify).Plain? && |OutlineOf(text, slugify).chapters| == 2
    ensures |Heads(MarksOf(text))| == 2 && OwnChapter(MarksOf(text), 0, |text|) == Cut(0, |first|)
    ensures ChapterCut(text, 1) == Some(Cut(|first|, |text|))
    ensures Passage(ChapterAnchor(1, slug), text, maxChars) == Capped(Ok(second), maxChars)
  {
    MisdirectedOutline(text, first, second, slugify);
    TwoHeadings(text, first, second, Heading(1, None), Heading(1, Some(id)));
    MisdirectedCut(text, id, |first|);
    MarkedNotBlank(text);
    ChapterAnchorRoundTrip(1, slug);
    ChapterCutIsPassage(text, 1);
    SecondHalf(text, first, second);
  }

  lemma SecondHalf(text: string, first: string, second: string)
    requires SplitInclusive(text) == [first, second]
    ensures text == first + second && |first| <= |text| && text[|first|..|text|] == second
  {
    ConcatSplit(text);
    assert Concat([first, second]) == first + Concat([second]);
    assert Concat([second]) == second + "";
  }

  lemma MisdirectedOutline(text: string, first: string, second: string, slugify: string -> string)
    requires SplitInclusive(text) == [first, second]
    requires KindOf(first) == ChapterLine && KindOf(second) == ChapterLine
    requires !HasId(ReadingOf(StripEol(first)).heading) && !HasId(ReadingOf(StripEol(second)).heading)
    requires !ReadingOf(StripEol(first)).fence
    ensures MarksOf(text) == [Mark(1, 0, first), Mark(1, |first|, second)] && Heads(MarksOf(text)) == [0, 1]
    ensures OutlineOf(text, slugify).Plain? && |OutlineOf(text, slugify).chapters| == 2
  {
    TwoMarks(Classify(SplitInclusive(text)), first, second);
    TwoHeads(Mark(1, 0, first), Mark(1, |first|, second));
    var a, b := ReadingOf(StripEol(first)), ReadingOf(StripEol(second));
    TwoEntries(text, first, second, a, b);
    NoIds(a.heading, b.heading);
    OutlineNames(text, slugify, OutlineOf(text, slugify).chapters, 0);
  }

  lemma NoIds(a: seq<Entry>, b: seq<Entry>)
    requires !HasId(a) && !HasId(b)
    ensures !HasId(a + b)
  {
  }

  lemma MisdirectedCut(text: string, id: string, start: nat)
    requires Headings(text) == [BookHeading(Heading(1, None), 0), BookHeading(Heading(1, Some(id)), start)]
    requires "ch-" <= id && ChapterNumberOf(id) == Some(1)
    ensures !IsPlain(text) && ChapterCut(text, 1) == Some(Cut(start, |text|))
  {
    var headings := Headings(text);
    assert headings[1] in headings;
    assert !IsChapterNumbered(headings[0], 1) && IsChapterNumbered(headings[1], 1);
  }

  /** There is such a book: a space behind the id hides it from the outline. */
  lemma Misdirected(slugify: string -> string, slug: string, maxChars: nat) returns (first: string, second: string)
    ensures first == "# A\n" && second == "# {#ch-1} "
    ensures
      var text := first + second;
      && OutlineOf(text, slugify).Plain? && |OutlineOf(text, slugify).chapters| == 2
      && |Heads(MarksOf(text))| == 2 && OwnChapter(MarksOf(text), 0, |text|) == Cut(0, |first|)
      && Passage(ChapterAnchor(1, slug), text, maxChars) == Capped(Ok(second), maxChars)
  {
    first, second := "# A\n", "# {#ch-1} ";
    var id := "ch-1";
    TwoLines(first, second);
    MisdirectedFirst(first);
    MisdirectedSecond(second, id);
    Misdirects(first + second, first, second, id, slugify, slug, maxChars);
  }

  lemma MisdirectedFirst(line: string)
    requires line == "# A\n"
    ensures KindOf(line) == ChapterLine && ScanLine(line) == Scanned(false, Some(Heading(1, None)), |line|)
    ensures !ReadingOf(StripEol(line)).fence && !HasId(ReadingOf(StripEol(line)).heading)
  {
    assert line == Hashes(1) + " " + "A" + "\n";
    ScanHeading(line, 1, "A", "\n");
    SameKind(line);
    NoBraceNoId(StripEol(line));
  }

  lemma MisdirectedSecond(line: string, id: string)
    requires line == "# {#ch-1} " && id == "ch-1"
    ensures KindOf(line) == ChapterLine && ScanLine(line) == Scanned(false, Some(Heading(1, Some(id))), |line|)
    ensures !HasId(ReadingOf(StripEol(line)).heading) && "ch-" <= id && ChapterNumberOf(id) == Some(1)
  {
    var title := "" + "{#" + id + "}";
    assert line == Hashes(1) + " " + title + " ";
    HiddenByBlank(line, title, id);
    NumberedOne(id);
  }

  lemma NumberedOne(id: string)
    requires id == "ch-1"
    ensures "ch-" <= id && ChapterNumberOf(id) == Some(1)
  {
    ShortChapterId('1');
    assert "ch" + "-" + ['1'] == id;
  }

  lemma HiddenByBlank(line: string, title: string, id: string)
    requires title == "" + "{#" + id + "}" && line == Hashes(1) + " " + title + " "
    requires '{' !in id && id != "" && id[|id| - 1] != '}'
    ensures KindOf(line) == ChapterLine && ScanLine(line) == Scanned(false, Some(Heading(1, Some(id))), |line|)
    ensures !HasId(ReadingOf(StripEol(line)).heading)
  {
    IdAt("", id);
    ScanHeading(line, 1, title, " ");
    NoBraceNoId(line);
  }

  // ---------------------------------------------------------------------
  // A listed section that is no anchor, and two chapters with one number.

  lemma ZeroListed(text: string, first: string, second: string, a: Entry, b: Entry, slugify: string -> string)
    returns (ch: AnchoredChapterEntry, s: AnchoredSectionEntry)
    requires SplitInclusive(text) == [first, second]
    requires ReadingOf(StripEol(first)) == Reading(false, [a]) && ReadingOf(StripEol(second)) == Reading(false, [b])
    requires a.id.Some? && b.id.Some? && ChapterOf(a) == Some(1) && SectionOf(b) == Some((1, 0))
    ensures OutlineOf(text, slugify).Anchored? && ch in OutlineOf(text, slugify).anchored
    ensures s in ch.sections && s.index == 0 && Some(s.id) == b.id
  {
    TwoEntries(text, first, second, Reading(false, [a]), Reading(false, [b]));
    assert EntriesOf(text) == [a, b];
    assert a in EntriesOf(text) && b in EntriesOf(text);
    ch, s := OutlineSectionComplete(EntriesOf(text), slugify, a, b);
  }

  /** A chapter line and a section line of that chapter numbered zero. */
  lemma ListsZero(text: string, first: string, second: string, a: Entry, b: Entry, slugify: string -> string,
                  maxChars: nat)
    returns (ch: AnchoredChapterEntry, s: AnchoredSectionEntry)
    requires SplitInclusive(text) == [first, second]
    requires ReadingOf(StripEol(first)) == Reading(false, [a]) && ReadingOf(StripEol(second)) == Reading(false, [b])
    requires a.id.Some? && b.id.Some? && ChapterOf(a) == Some(1) && SectionOf(b) == Some((1, 0))
    ensures OutlineOf(text, slugify).Anchored? && ch in OutlineOf(text, slugify).anchored
    ensures s in ch.sections && s.index == 0 && Some(s.id) == b.id
    ensures Passage(s.id, text, maxChars) == Err(AnchorNotFound(s.id))
  {
    ch, s := ZeroListed(text, first, second, a, b, slugify);
    AnchoredSectionResolves(text, slugify, ch, s, maxChars);
  }

  /** There is such a book: its outline lists section zero, whose anchor is not found. */
  lemma ZeroSection(slugify: string -> string, maxChars: nat)
    returns (first: string, second: string, ch: AnchoredChapterEntry, s: AnchoredSectionEntry)
    ensures first == "# A {#ch-1-a}\n" && second == "## S {#sec-1-0-s}\n"
    ensures
      var text := first + second;
      && OutlineOf(text, slugify).Anchored? && ch in OutlineOf(text, slugify).anchored
      && s in ch.sections && s.index == 0
      && Passage(s.id, text, maxChars) == Err(AnchorNotFound(s.id))
  {
    first, second := "# A {#ch-1-a}\n", "## S {#sec-1-0-s}\n";
    ChapterTextIs("A", 'a', first);
    ch, s := ZeroSectionIn(first, second, slugify, maxChars);
  }

  lemma ZeroSectionIn(first: string, second: string, slugify: string -> string, maxChars: nat)
    returns (ch: AnchoredChapterEntry, s: AnchoredSectionEntry)
    requires first == ChapterText("A", 'a') && second == SectionText()
    ensures
      var text := first + second;
      && OutlineOf(text, slugify).Anchored? && ch in OutlineOf(text, slugify).anchored
      && s in ch.sections && s.index == 0
      && Passage(s.id, text, maxChars) == Err(AnchorNotFound(s.id))
  {
    TwoLines(first, second);
    var a := ChapterEntryOf(first, "A", 'a');
    var b := SectionEntryOf(second);
    ch, s := ListsZero(first + second, first, second, a, b, slugify, maxChars);
  }

  /** A heading line that carries an id, as both readers see it. */
  lemma EntryOf(line: string, level: nat, head: string, id: string) returns (e: Entry)
    requires 1 <= level <= 2 && head != "" && !IsWhite(head[0])
    requires '{' !in id && id != "" && id[|id| - 1] != '}'
    requires line == Hashes(level) + " " + (head + "{#" + id + "}") + "\n"
    ensures ReadingOf(StripEol(line)) == Reading(false, [e]) && e.id == Some(id)
    ensures ScanLine(line) == Scanned(false, Some(Heading(level, e.id)), |line|)
  {
    var title := head + "{#" + id + "}";
    IdAt(head, id);
    ScanHeading(line, level, title, "\n");
    ReadHeading(line, level, title, id);
    var name :| ReadingOf(StripEol(line)) == Reading(false, [Entry(Some(id), name, level)]);
    e := Entry(Some(id), name, level);
  }

  function ChapterIdText(letter: char): string {
    "ch" + "-" + ("1" + "-" + [letter])
  }

  /** The line `# X {#ch-1-x}`. */
  function ChapterText(title: string, letter: char): string {
    Hashes(1) + " " + (title + " " + "{#" + ChapterIdText(letter) + "}") + "\n"
  }

  lemma ChapterTextIs(title: string, letter: char, line: string)
    requires line == "# " + title + " {#ch-1-" + [letter] + "}\n"
    ensures line == ChapterText(title, letter)
  {
    assert "ch" + "-" + ("1" + "-" + [letter]) == "ch-1-" + [letter];
    assert title + " " + "{#" + ("ch-1-" + [letter]) + "}" == title + (" {#ch-1-" + [letter] + "}");
  }

  lemma ChapterEntryOf(line: string, title: string, letter: char) returns (e: Entry)
    requires title in {"A", "B"} && letter in {'a', 'b'} && line == ChapterText(title, letter)
    ensures ReadingOf(StripEol(line)) == Reading(false, [e]) && ChapterOf(e) == Some(1)
    ensures e.id == Some(ChapterIdText(letter)) && ScanLine(line) == Scanned(false, Some(Heading(1, e.id)), |line|)
  {
    ChapterIdFits(letter);
    e := EntryOf(line, 1, title + " ", ChapterIdText(letter));
    ListedUnder(letter, e);
  }

  lemma ChapterIdFits(letter: char)
    requires letter in {'a', 'b'}
    ensures
      var id := ChapterIdText(letter);
      '{' !in id && id != "" && id[|id| - 1] != '}'
  {
    assert ChapterIdText(letter) == "ch-1-" + [letter];
  }

  lemma ListedUnder(letter: char, e: Entry)
    requires letter in {'a', 'b'} && e.id == Some(ChapterIdText(letter))
    ensures ChapterOf(e) == Some(1)
  {
    ChapterId('1', [letter], e);
  }

  function SectionIdText(): string {
    "sec" + "-" + ("1" + "-" + ("0" + "-" + "s"))
  }

  /** The line `## S {#sec-1-0-s}`. */
  function SectionText(): string {
    Hashes(2) + " " + ("S" + " " + "{#" + SectionIdText() + "}") + "\n"
  }

  lemma SectionEntryOf(line: string) returns (e: Entry)
    requires line == SectionText()
    ensures ReadingOf(StripEol(line)) == Reading(false, [e]) && e.id.Some? && SectionOf(e) == Some((1, 0))
  {
    SectionIdFits();
    e := EntryOf(line, 2, "S" + " ", SectionIdText());
    ListedZero(e);
  }

  lemma ListedZero(e: Entry)
    requires e.id == Some(SectionIdText())
    ensures SectionOf(e) == Some((1, 0))
  {
    SectionId('1', '0', "s", e);
  }

  lemma SectionIdFits()
    ensures
      var id := SectionIdText();
      '{' !in id && id != "" && id[|id| - 1] != '}'
  {
    assert SectionIdText() == "sec-1-0-s";
  }

  /** Two chapter lines whose ids carry the same number: the second one's own id opens
      the first. */
  lemma SharesNumber(text: string, first: string, second: string, a: Entry, b: Entry, slugify: string -> string,
                     maxChars: nat)
    returns (ch: AnchoredChapterEntry)
    requires SplitInclusive(text) == [first, second]
    requires ReadingOf(StripEol(first)) == Reading(false, [a]) && ReadingOf(StripEol(second)) == Reading(false, [b])
    requires a.id.Some? && b.id.Some? && ChapterOf(a) == Some(1) && ChapterOf(b) == Some(1)
    requires ScanLine(first) == Scanned(false, Some(Heading(1, a.id)), |first|)
    requires ScanLine(second) == Scanned(false, Some(Heading(1, b.id)), |second|)
    ensures OutlineOf(text, slugify).Anchored? && ch in OutlineOf(text, slugify).anchored && Some(ch.id) == b.id
    ensures Passage(ch.id, text, maxChars) == Capped(Ok(first), maxChars)
  {
    ch := SharedListed(text, first, second, a, b, slugify);
    SharedHeadings(text, first, second, a, b);
    AnchoredChapterResolves(text, slugify, ch, maxChars);
    SecondHalf(text, first, second);
  }

  lemma SharedListed(text: string, first: string, second: string, a: Entry, b: Entry, slugify: string -> string)
    returns (ch: AnchoredChapterEntry)
    requires SplitInclusive(text) == [first, second]
    requires ReadingOf(StripEol(first)) == Reading(false, [a]) && ReadingOf(StripEol(second)) == Reading(false, [b])
    requires b.id.Some? && ChapterOf(b).Some?
    ensures OutlineOf(text, slugify).Anchored? && ch in OutlineOf(text, slugify).anchored
    ensures Some(ch.id) == b.id && Some(ch.index) == ChapterOf(b)
  {
    TwoEntries(text, first, second, Reading(false, [a]), Reading(false, [b]));
    assert EntriesOf(text) == [a, b];
    assert b in EntriesOf(text);
    ch := OutlineComplete(EntriesOf(text), slugify, b);
  }

  lemma SharedHeadings(text: string, first: string, second: string, a: Entry, b: Entry)
    requires SplitInclusive(text) == [first, second]
    requires a.id.Some? && b.id.Some? && ChapterOf(a) == Some(1) && ChapterOf(b) == Some(1)
    requires ScanLine(first) == Scanned(false, Some(Heading(1, a.id)), |first|)
    requires ScanLine(second) == Scanned(false, Some(Heading(1, b.id)), |second|)
    ensures ChapterCut(text, 1) == Some(Cut(0, |first|))
  {
    TwoHeadings(text, first, second, Heading(1, a.id), Heading(1, b.id));
    ChapterIdReads(a);
    ChapterIdReads(b);
    SharedCut(text, a.id.value, b.id.value, |first|);
  }

  lemma SharedCut(text: string, a: string, b: string, start: nat)
    requires Headings(text) == [BookHeading(Heading(1, Some(a)), 0), BookHeading(Heading(1, Some(b)), start)]
    requires "ch-" <= a && ChapterNumberOf(a) == Some(1) && "ch-" <= b
    ensures !IsPlain(text) && ChapterCut(text, 1) == Some(Cut(0, start))
  {
    var headings := Headings(text);
    assert headings[0] in headings;
    assert IsChapterNumbered(headings[0], 1) && IsChapterId(headings[1]);
  }

  /** There is such a book: the second chapter's anchor opens the first. */
  lemma SameNumber(slugify: string -> string, maxChars: nat)
    returns (first: string, second: string, ch: AnchoredChapterEntry)
    ensures first == "# A {#ch-1-a}\n" && second == "# B {#ch-1-b}\n"
    ensures
      var text := first + second;
      && OutlineOf(text, slugify).Anchored? && ch in OutlineOf(text, slugify).anchored && ch.id == ChapterIdText('b')
      && Passage(ch.id, text, maxChars) == Capped(Ok(first), maxChars)
  {
    first, second := "# A {#ch-1-a}\n", "# B {#ch-1-b}\n";
    ChapterTextIs("A", 'a', first);
    ChapterTextIs("B", 'b', second);
    ch := SameNumberIn(first, second, slugify, maxChars);
  }

  lemma SameNumberIn(first: string, second: string, slugify: string -> string, maxChars: nat)
    returns (ch: AnchoredChapterEntry)
    requires first == ChapterText("A", 'a') && second == ChapterText("B", 'b')
    ensures
      var text := first + second;
      && OutlineOf(text, slugify).Anchored? && ch in OutlineOf(text, slugify).anchored && ch.id == ChapterIdText('b')
      && Passage(ch.id, text, maxChars) == Capped(Ok(first), maxChars)
  {
    ChapterTextIs("A", 'a', first);
    ChapterTextIs("B", 'b', second);
    TwoLines(first, second);
    var a := ChapterEntryOf(first, "A", 'a');
    var b := ChapterEntryOf(second, "B", 'b');
    ch := SharesNumber(first + second, first, second, a, b, slugify, maxChars);
  }

  // ---------------------------------------------------------------------
  // An empty id.

  const HIDDEN_ID := "# T {#}"

  lemma HiddenIdLine()
    ensures SplitInclusive(HIDDEN_ID) == [HIDDEN_ID]
    ensures KindOf(HIDDEN_ID) == ChapterLine
    ensures StripEol(HIDDEN_ID) == HIDDEN_ID && TrimStart(HIDDEN_ID) == HIDDEN_ID && TrimEnd(HIDDEN_ID) == HIDDEN_ID
  {
    assert LineEnd(HIDDEN_ID) == 7 by {
      assert HIDDEN_ID[1..] == " T {#}" && HIDDEN_ID[1..][1..] == "T {#}" && HIDDEN_ID[1..][1..][1..] == " {#}";
      assert " {#}"[1..] == "{#}" && "{#}"[1..] == "#}" && "#}"[1..] == "}";
      assert LineEnd("}") == 1 && LineEnd("#}") == 2 && LineEnd("{#}") == 3 && LineEnd(" {#}") == 4;
      assert LineEnd("T {#}") == 5 && LineEnd(" T {#}") == 6;
    }
    assert HIDDEN_ID[..7] == HIDDEN_ID && HIDDEN_ID[7..] == "";
  }

  lemma HiddenIdHeading()
    ensures CountHashes(HIDDEN_ID) == 1 && HIDDEN_ID[1..] == " T {#}"
    ensures TrimStart(" T {#}") == "T {#}" && Trim("T {#}") == "T {#}"
    ensures ExplicitId("T {#}") == Some("")
  {
    assert HIDDEN_ID[1..][0] == ' ' && CountHashes(HIDDEN_ID[1..]) == 0;
    assert " T {#}"[1..] == "T {#}";
    assert "T {#}"[..4] == "T {#" && "T {#"[2..] == "{#" && LastBraceHash("T {#") == Some(2) && "T {#"[4..] == "";
  }

  /** Such a book: the catalogue lists one chapter, and its anchor leads nowhere. */
  lemma HiddenIdExample(slugify: string -> string, maxChars: nat)
    ensures OutlineOf(HIDDEN_ID, slugify) == Plain([ChapterEntry(1, "T {#}", slugify("T {#}"), [])])
    ensures !IsPlain(HIDDEN_ID)
    ensures Passage(ChapterAnchor(1, slugify("T {#}")), HIDDEN_ID, maxChars) == Err(NoChapter(1))
  {
    HiddenIdLine();
    HiddenIdHeading();
    HiddenIdOutline(slugify);
    HiddenIdPassage(slugify("T {#}"), maxChars);
  }

  lemma HiddenIdOutline(slugify: string -> string)
    requires SplitInclusive(HIDDEN_ID) == [HIDDEN_ID] && StripEol(HIDDEN_ID) == HIDDEN_ID
    requires ReadingOf(HIDDEN_ID) == Reading(false, [Entry(None, "T {#}", 1)])
    ensures OutlineOf(HIDDEN_ID, slugify) == Plain([ChapterEntry(1, "T {#}", slugify("T {#}"), [])])
  {
    var entries := [Entry(None, "T {#}", 1)];
    assert Lines(HIDDEN_ID) == [HIDDEN_ID];
    assert EntriesUpTo(Readings([HIDDEN_ID]), 1) == entries;
    assert entries[..0] == [];
    assert Folded(entries, slugify) == [ChapterEntry(1, "T {#}", slugify("T {#}"), [])];
  }

  lemma HiddenIdPassage(slug: string, maxChars: nat)
    requires SplitInclusive(HIDDEN_ID) == [HIDDEN_ID] && TrimStart(HIDDEN_ID) == HIDDEN_ID && Trim(HIDDEN_ID) != ""
    requires ParseHeadingLine(HIDDEN_ID) == Some(Heading(1, Some("")))
    ensures !IsPlain(HIDDEN_ID)
    ensures Passage(ChapterAnchor(1, slug), HIDDEN_ID, maxChars) == Err(NoChapter(1))
  {
    var heading := BookHeading(Heading(1, Some("")), 0);
    assert HeadingsUpTo(ScanLines([HIDDEN_ID]), 1) == [heading];
    NotNumbered(HIDDEN_ID, heading, 1, slug, maxChars);
  }

  /** A book whose one heading has an id that names no chapter. */
  lemma NotNumbered(text: string, heading: BookHeading, n: nat, slug: string, maxChars: nat)
    requires Headings(text) == [heading] && heading.heading.id.Some? && !("ch-" <= heading.heading.id.value)
    requires Trim(text) != "" && 0 < n < U32_LIMIT
    ensures !IsPlain(text)
    ensures Passage(ChapterAnchor(n, slug), text, maxChars) == Err(NoChapter(n))
  {
    assert heading in Headings(text);
    HeadingsInOrder(text);
    ChapterAnchorRoundTrip(n, slug);
  }
}
