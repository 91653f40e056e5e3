/** What the extractor reads in an anchor and in a line, told character by character, and
    what the cap leaves of a passage. */
module BookReading {
  import opened Wrappers
  import opened Text
  import opened TextMeaning
  import opened Book
  import opened BookExtract
  import opened BookPassage
  import opened BookOutline
  import opened BookCuts
  import opened BookTitles
  import Trimming

  // ---------------------------------------------------------------------
  // Anchors.

  /** `rest` is the number, with a slug behind a dash or with nothing behind it. */
  predicate Numbered(rest: string, num: string, slug: string) {
    '-' !in num && (rest == num + "-" + slug || (slug == "" && rest == num))
  }

  lemma NumberedIs(rest: string, num: string, slug: string)
    ensures Numbered(rest, num, slug) <==> SplitOnce(rest, '-').0 == num && Rest(SplitOnce(rest, '-').1) == slug
  {
    if Numbered(rest, num, slug) {
      if rest == num {
        SplitOnceNowhere(rest, '-');
      } else {
        assert rest == num + ['-'] + slug;
        SplitOnceAt(num, '-', slug);
      }
    }
  }

  ghost predicate SpellsChapter(anchor: string, n: nat, slug: string) {
    n > 0 && exists num :: ChapterText(anchor, num, slug) && ParseU32(num) == Some(n)
  }

  predicate ChapterText(anchor: string, num: string, slug: string) {
    "ch-" <= anchor && Numbered(anchor[3..], num, slug)
  }

  ghost predicate SpellsSection(anchor: string, n: nat, m: nat, slug: string) {
    n > 0 && m > 0
    && exists c, num :: SectionText(anchor, c, num, slug) && ParseU32(c) == Some(n) && ParseU32(num) == Some(m)
  }

  predicate SectionText(anchor: string, c: string, num: string, slug: string) {
    && "sec-" <= anchor && '-' !in c && |anchor| > 4 + |c| && anchor[4..5 + |c|] == c + "-"
    && Numbered(anchor[5 + |c|..], num, slug)
  }

  /** An anchor names a chapter exactly when it reads `ch-`, a number from 1 on, and
      perhaps a dash and a slug. */
  lemma ChapterAnchorExact(anchor: string, n: nat, slug: string)
    ensures ParseAnchor(anchor) == Chapter(n, slug) <==> SpellsChapter(anchor, n, slug)
  {
    if "ch-" <= anchor {
      NumberedIs(anchor[3..], SplitOnce(anchor[3..], '-').0, Rest(SplitOnce(anchor[3..], '-').1));
      if SpellsChapter(anchor, n, slug) {
        var num :| ChapterText(anchor, num, slug) && ParseU32(num) == Some(n);
        NumberedIs(anchor[3..], num, slug);
      }
      if ParseAnchor(anchor) == Chapter(n, slug) {
        assert ChapterText(anchor, SplitOnce(anchor[3..], '-').0, slug);
      }
    }
  }

  lemma SectionTextIs(anchor: string, c: string, num: string, slug: string)
    requires "sec-" <= anchor
    ensures
      var (front, tail) := SplitOnce(anchor[4..], '-');
      SectionText(anchor, c, num, slug) <==> front == c && tail.Some? && Numbered(tail.value, num, slug)
  {
    var (front, tail) := SplitOnce(anchor[4..], '-');
    if SectionText(anchor, c, num, slug) {
      assert anchor[4..] == c + ['-'] + anchor[5 + |c|..];
      SplitOnceAt(c, '-', anchor[5 + |c|..]);
    }
    if front == c && tail.Some? {
      assert anchor == "sec-" + anchor[4..];
      assert anchor[4..5 + |c|] == c + "-" && anchor[5 + |c|..] == tail.value;
    }
  }

  /** And a section exactly when it reads `sec-`, two such numbers with a dash between,
      and perhaps a dash and a slug. */
  lemma SectionAnchorExact(anchor: string, n: nat, m: nat, slug: string)
    ensures ParseAnchor(anchor) == Section(n, m, slug) <==> SpellsSection(anchor, n, m, slug)
  {
    if "ch-" <= anchor {
      assert anchor[0] == 'c';
    } else if "sec-" <= anchor {
      var (front, tail) := SplitOnce(anchor[4..], '-');
      if tail.Some? {
        var (num, rest) := SplitOnce(tail.value, '-');
        NumberedIs(tail.value, num, Rest(rest));
        SectionTextIs(anchor, front, num, Rest(rest));
      }
      if SpellsSection(anchor, n, m, slug) {
        var c, num :| SectionText(anchor, c, num, slug) && ParseU32(c) == Some(n) && ParseU32(num) == Some(m);
        SectionTextIs(anchor, c, num, slug);
        NumberedIs(tail.value, num, slug);
      }
    }
  }

  /** Every other anchor is taken as it is. */
  lemma OtherAnchor(anchor: string)
    requires ParseAnchor(anchor).Other?
    ensures ParseAnchor(anchor).text == anchor
  {
  }

  // ---------------------------------------------------------------------
  // Ids.

  /** The heading's id reads `ch-`, digits that spell `n`, and perhaps a dash and more. */
  ghost predicate NamesChapter(h: BookHeading, n: nat) {
    h.heading.id.Some? && exists num, slug :: ChapterText(h.heading.id.value, num, slug) && Numeral(num, n)
  }

  ghost predicate NamesSection(h: BookHeading, n: nat, m: nat) {
    h.heading.id.Some?
    && exists c, num, slug :: SectionText(h.heading.id.value, c, num, slug) && Numeral(c, n) && Numeral(num, m)
  }

  predicate NamesSomeChapter(h: BookHeading) {
    h.heading.id.Some? && |h.heading.id.value| >= 3 && h.heading.id.value[..3] == "ch-"
  }

  lemma ChapterNumberIs(id: string)
    requires "ch-" <= id
    ensures
      var num := SplitOnce(id[3..], '-').0;
      ChapterNumberOf(id) == if num != "" && AllDigits(num) then ParseU32(num) else None
  {
    assert id == "ch" + ['-'] + id[3..];
    SplitOnceAt("ch", '-', id[3..]);
  }

  lemma ChapterNumberRead(id: string, n: nat)
    requires "ch-" <= id && ChapterNumberOf(id) == Some(n)
    ensures exists num, slug :: ChapterText(id, num, slug) && Numeral(num, n)
  {
    var num, slug := SplitOnce(id[3..], '-').0, Rest(SplitOnce(id[3..], '-').1);
    ChapterNumberIs(id);
    NumberedIs(id[3..], num, slug);
    NumeralIs(num, n);
    assert ChapterText(id, num, slug);
  }

  lemma ChapterNumberFound(id: string, n: nat, num: string, slug: string)
    requires ChapterText(id, num, slug) && Numeral(num, n)
    ensures ChapterNumberOf(id) == Some(n)
  {
    ChapterNumberIs(id);
    NumberedIs(id[3..], num, slug);
    NumeralIs(num, n);
  }

  lemma ChapterNumberedExact(h: BookHeading, n: nat)
    ensures IsChapterNumbered(h, n) <==> NamesChapter(h, n)
  {
    if IsChapterNumbered(h, n) {
      ChapterNumberRead(h.heading.id.value, n);
    }
    if NamesChapter(h, n) {
      var num, slug :| ChapterText(h.heading.id.value, num, slug) && Numeral(num, n);
      ChapterNumberFound(h.heading.id.value, n, num, slug);
    }
  }

  lemma SectionNumberedExact(h: BookHeading, n: nat, m: nat)
    ensures IsSectionNumbered(h, n, m) <==> NamesSection(h, n, m)
  {
    if h.heading.id.Some? {
      SectionNumbersExact(h.heading.id.value, n, m);
    }
  }

  lemma SectionNumbersExact(id: string, n: nat, m: nat)
    ensures SectionNumbersOf(id) == Some((n, m))
            <==> exists c, num, slug :: SectionText(id, c, num, slug) && Numeral(c, n) && Numeral(num, m)
  {
    if SectionNumbersOf(id) == Some((n, m)) {
      SectionNumbersRead(id, n, m);
    }
    if c, num, slug :| SectionText(id, c, num, slug) && Numeral(c, n) && Numeral(num, m) {
      SectionTextIs(id, c, num, slug);
      NumberedIs(SplitOnce(id[4..], '-').1.value, num, slug);
      NumeralIs(c, n);
      NumeralIs(num, m);
    }
  }

  lemma SectionNumbersRead(id: string, n: nat, m: nat)
    requires SectionNumbersOf(id) == Some((n, m))
    ensures exists c, num, slug :: SectionText(id, c, num, slug) && Numeral(c, n) && Numeral(num, m)
  {
    var (c, tail) := SplitOnce(id[4..], '-');
    var num, slug := SplitOnce(tail.value, '-').0, Rest(SplitOnce(tail.value, '-').1);
    NumberedIs(tail.value, num, slug);
    SectionTextIs(id, c, num, slug);
    NumeralIs(c, n);
    NumeralIs(num, m);
  }

  // ---------------------------------------------------------------------
  // The cuts of a book with ids.

  /** From heading `p` to heading `q`, or to the end of the text. */
  ghost predicate Cuts(headings: seq<BookHeading>, p: nat, q: nat, length: nat, cut: Cut) {
    && p < q <= |headings| && cut.start == headings[p].offset
    && cut.end == if q < |headings| then headings[q].offset else length
  }

  /** The first heading that names the chapter, up to the next one that names any. */
  ghost predicate CutsChapter(headings: seq<BookHeading>, n: nat, p: nat, q: nat, length: nat, cut: Cut) {
    && Cuts(headings, p, q, length, cut)
    && NamesChapter(headings[p], n) && (forall i :: 0 <= i < p ==> !NamesChapter(headings[i], n))
    && (forall i :: p < i < q ==> !NamesSomeChapter(headings[i])) && (q < |headings| ==> NamesSomeChapter(headings[q]))
  }

  /** The first heading that names the section, up to the next one of its level or above. */
  ghost predicate CutsSection(headings: seq<BookHeading>, n: nat, m: nat, p: nat, q: nat, length: nat, cut: Cut) {
    && Cuts(headings, p, q, length, cut)
    && NamesSection(headings[p], n, m) && (forall i :: 0 <= i < p ==> !NamesSection(headings[i], n, m))
    && (forall i :: p < i < q ==> headings[i].heading.level > headings[p].heading.level)
    && (q < |headings| ==> headings[q].heading.level <= headings[p].heading.level)
  }

  lemma SomeChapterIs(h: BookHeading)
    ensures IsChapterId(h) <==> NamesSomeChapter(h)
  {
  }

  /** A chapter in a book with ids. */
  lemma ChapterCutExact(text: string, n: nat) returns (p: nat, q: nat)
    requires !IsPlain(text)
    ensures ChapterCut(text, n).Some? ==> CutsChapter(Headings(text), n, p, q, |text|, ChapterCut(text, n).value)
    ensures ChapterCut(text, n).None? ==> forall h :: h in Headings(text) ==> !NamesChapter(h, n)
  {
    p, q := ChapterCutAt(Headings(text), MarksOf(text), n, |text|);
  }

  lemma ChapterCutAt(headings: seq<BookHeading>, marks: seq<Mark>, n: nat, length: nat) returns (p: nat, q: nat)
    ensures
      var cut := ChapterCutIn(headings, marks, false, n, length);
      && (cut.Some? ==> CutsChapter(headings, n, p, q, length, cut.value))
      && (cut.None? ==> forall h :: h in headings ==> !NamesChapter(h, n))
  {
    forall h
      ensures IsChapterNumbered(h, n) <==> NamesChapter(h, n)
      ensures IsChapterId(h) <==> NamesSomeChapter(h)
    {
      ChapterNumberedExact(h, n);
      SomeChapterIs(h);
    }
    p, q := ChapterHeading(headings, n), 0;
    if p < |headings| {
      q := ChapterStop(headings, p);
    }
  }

  /** A section some id names. */
  lemma SectionCutExact(text: string, n: nat, m: nat) returns (p: nat, q: nat)
    ensures (exists h :: h in Headings(text) && NamesSection(h, n, m)) ==>
              && SectionCut(text, n, m).Some?
              && CutsSection(Headings(text), n, m, p, q, |text|, SectionCut(text, n, m).value)
  {
    p, q := SectionCutAt(Headings(text), MarksOf(text), n, m, |text|);
  }

  lemma SectionCutAt(headings: seq<BookHeading>, marks: seq<Mark>, n: nat, m: nat, length: nat)
    returns (p: nat, q: nat)
    ensures
      var cut := SectionCutIn(headings, marks, n, m, length);
      (exists h :: h in headings && NamesSection(h, n, m)) ==>
        cut.Some? && CutsSection(headings, n, m, p, q, length, cut.value)
  {
    forall h
      ensures IsSectionNumbered(h, n, m) <==> NamesSection(h, n, m)
    {
      SectionNumberedExact(h, n, m);
    }
    p, q := SectionHeading(headings, n, m), 0;
    if p < |headings| {
      q := SectionStop(headings, p);
    }
  }

  // ---------------------------------------------------------------------
  // The cap.

  /** What a cap leaves: a beginning, all of it if it fits, and else as much as fits. */
  predicate IsCapOf(full: string, capped: string, maxChars: nat) {
    capped <= full && |capped| == if |full| <= maxChars then |full| else maxChars
  }

  /** What an anchor asks for, before the cap. */
  ghost predicate Gives(anchor: string, text: string, full: Result<string, PassageError>) {
    if AllWhite(text) then full == Err(EmptyBook)
    else
      match ParseAnchor(anchor)
      case Chapter(n, _) => GivesCut(text, ChapterCut(text, n), NoChapter(n), full)
      case Section(n, m, _) =>
        GivesCut(text, SectionCut(text, n, m),
                 if n <= |Heads(MarksOf(text))| then NoSection(n, m) else NoChapter(n), full)
      case Other(other) => full == if other == "" then Ok(text) else Err(AnchorNotFound(other))
  }

  ghost predicate GivesCut(text: string, cut: Option<Cut>, missing: PassageError, full: Result<string, PassageError>) {
    if cut.Some? then InText(cut.value, text) && full == Ok(text[cut.value.start..cut.value.end])
    else full == Err(missing)
  }

  /** What is reported missing: the chapter, or the section of a chapter that is there. */
  lemma MissingNamed(n: nat, m: nat)
    ensures NoChapter(n) == AnchorNotFound("ch-" + ToDecimal(n))
    ensures NoSection(n, m) == AnchorNotFound("sec-" + ToDecimal(n) + "-" + ToDecimal(m))
  {
  }

  lemma AskedChapter(text: string, n: nat)
    ensures GivesCut(text, ChapterCut(text, n), NoChapter(n), ChapterPassage(text, n))
  {
    ChapterCutIsPassage(text, n);
  }

  lemma AskedSection(text: string, n: nat, m: nat)
    requires n > 0 && m > 0
    ensures GivesCut(text, SectionCut(text, n, m),
                     if n <= |Heads(MarksOf(text))| then NoSection(n, m) else NoChapter(n), SectionPassage(text, n, m))
  {
    SectionCutIsPassage(text, n, m);
  }

  lemma Asked(anchor: string, text: string, maxChars: nat) returns (full: Result<string, PassageError>)
    ensures Gives(anchor, text, full) && Passage(anchor, text, maxChars) == Capped(full, maxChars)
  {
    Blank(text);
    if AllWhite(text) {
      full := Err(EmptyBook);
    } else {
      match ParseAnchor(anchor)
      case Chapter(n, _) =>
        AskedChapter(text, n);
        full := ChapterPassage(text, n);
      case Section(n, m, _) =>
        AskedSection(text, n, m);
        full := SectionPassage(text, n, m);
      case Other(other) =>
        full := if other == "" then Ok(text) else Err(AnchorNotFound(other));
    }
  }

  lemma CapIs(full: Result<string, PassageError>, maxChars: nat)
    ensures full.Ok? ==> Capped(full, maxChars).Ok? && IsCapOf(full.value, Capped(full, maxChars).value, maxChars)
    ensures full.Err? ==> Capped(full, maxChars) == full
  {
  }

  /** A passage is the stretch its anchor asks for, up to the cap; an error is that
      stretch's. */
  lemma PassageExact(anchor: string, text: string, maxChars: nat) returns (full: Result<string, PassageError>)
    ensures Gives(anchor, text, full)
    ensures full.Ok? ==> Passage(anchor, text, maxChars).Ok?
                         && IsCapOf(full.value, Passage(anchor, text, maxChars).value, maxChars)
    ensures full.Err? ==> Passage(anchor, text, maxChars) == full
  {
    full := Asked(anchor, text, maxChars);
    CapIs(full, maxChars);
  }

  lemma Blank(text: string)
    ensures Trim(text) == "" <==> AllWhite(text)
  {
    TrimStartWhite(text);
    if TrimStart(text) != "" {
      StartKept(TrimStart(text));
    }
  }

  lemma {:induction false} StartKept(s: string)
    requires s != "" && !IsWhite(s[0])
    ensures TrimEnd(s) != ""
  {
    if IsWhite(s[|s| - 1]) {
      StartKept(s[..|s| - 1]);
    }
  }

  // ---------------------------------------------------------------------
  // Lines.

  /** Three backticks or three tildes. */
  predicate IsTicks(s: string) {
    |s| >= 3 && s[0] == s[1] == s[2] && (s[0] == '`' || s[0] == '~')
  }

  /** A line with white space in front of `ink`. */
  ghost predicate Shows(line: string, ink: string) {
    && (exists before :: AllWhite(before) && line == before + ink)
    && (ink != "" ==> !IsWhite(ink[0]))
  }

  /** What the counting readers make of a line. */
  lemma KindExact(line: string, ink: string)
    requires Shows(line, ink)
    ensures KindOf(line) == if IsTicks(ink) then FenceLine
                            else if |ink| >= 2 && ink[0] == '#' && ink[1] == ' ' then ChapterLine
                            else if |ink| >= 3 && ink[0] == '#' && ink[1] == '#' && ink[2] == ' ' then SectionLine
                            else OtherLine
  {
    InkIs(line, ink);
    Ticked(ink);
    if |ink| >= 2 {
      assert "# " <= ink <==> ink[0] == '#' && ink[1] == ' ';
    }
    if |ink| >= 3 {
      assert "## " <= ink <==> ink[0] == '#' && ink[1] == '#' && ink[2] == ' ';
    }
  }

  lemma Ticked(ink: string)
    ensures IsFence(ink) <==> IsTicks(ink)
  {
    if |ink| >= 3 {
      assert "```" <= ink <==> ink[0] == ink[1] == ink[2] == '`';
      assert "~~~" <= ink <==> ink[0] == ink[1] == ink[2] == '~';
    }
  }

  lemma InkIs(line: string, ink: string)
    requires Shows(line, ink)
    ensures TrimStart(line) == ink
  {
    var before :| AllWhite(before) && line == before + ink;
    Trimming.StartOf(before, ink);
  }
}
