/** Which headings the two readers of a book find: every one outside fences, in order, with
    the id and the title its line shows. */
module BookHeadings {
  import opened Wrappers
  import opened Text
  import opened Trimming
  import opened Gathering
  import opened Book
  import opened BookAnchored
  import opened BookOutline
  import opened BookTitles
  import BookReading

  // ---------------------------------------------------------------------
  // Ids.

  /** `{#` stands at `k`, in front of the brace the title ends in. */
  predicate Opens(title: string, k: nat) {
    k + 3 <= |title| && title[k] == '{' && title[k + 1] == '#'
  }

  predicate OpensLast(title: string, k: nat) {
    Opens(title, k) && forall i: nat :: k < i < |title| ==> !Opens(title, i)
  }

  function WithoutBrace(s: string): string {
    if s != "" && s[|s| - 1] == '}' then s[..|s| - 1] else s
  }

  /** The id: from the last `{#` to the brace at the end, less one more brace, if the title
      ends in one. */
  ghost predicate ReadsId(title: string, id: Option<string>) {
    if id.None? then title == "" || title[|title| - 1] != '}' || forall k: nat :: k < |title| ==> !Opens(title, k)
    else
      && title != "" && title[|title| - 1] == '}'
      && exists k: nat :: OpensLast(title, k) && id.value == WithoutBrace(title[k + 2..|title| - 1])
  }

  predicate OpensIn(s: string, k: nat) {
    k + 2 <= |s| && s[k] == '{' && s[k + 1] == '#'
  }

  lemma {:induction false} LastBraceMeans(s: string)
    ensures LastBraceHash(s).None? ==> forall i: nat :: !OpensIn(s, i)
    ensures LastBraceHash(s).Some? ==>
              OpensIn(s, LastBraceHash(s).value) && forall i: nat :: LastBraceHash(s).value < i ==> !OpensIn(s, i)
  {
    if |s| >= 2 {
      var front, end: nat := s[..|s| - 1], |s| - 2;
      assert s[end..] == "{#" <==> OpensIn(s, end);
      if s[end..] != "{#" {
        LastBraceMeans(front);
        assert forall i: nat :: OpensIn(s, i) ==> i == end || OpensIn(front, i);
      }
    }
  }

  lemma IdExact(title: string)
    ensures ReadsId(title, ExplicitId(title))
  {
    if title != "" && title[|title| - 1] == '}' {
      var inner := title[..|title| - 1];
      LastBraceMeans(inner);
      assert forall i: nat :: Opens(title, i) <==> OpensIn(inner, i);
      match LastBraceHash(inner)
      case None =>
      case Some(k) =>
        assert OpensLast(title, k);
        assert inner[k + 2..] == title[k + 2..|title| - 1];
    }
  }

  lemma IdThere(title: string, id: Option<string>)
    requires ReadsId(title, id)
    ensures id.Some? <==> title != "" && title[|title| - 1] == '}' && exists k: nat :: k < |title| && Opens(title, k)
  {
  }

  lemma IdUnique(title: string, one: Option<string>, other: Option<string>)
    requires ReadsId(title, one) && ReadsId(title, other)
    ensures one == other
  {
    IdThere(title, one);
    IdThere(title, other);
    if one.Some? && other.Some? {
      var j: nat :| OpensLast(title, j) && one.value == WithoutBrace(title[j + 2..|title| - 1]);
      var k: nat :| OpensLast(title, k) && other.value == WithoutBrace(title[k + 2..|title| - 1]);
    }
  }

  // ---------------------------------------------------------------------
  // The extractor's headings.

  predicate IsFenceLine(line: string) {
    BookReading.IsTicks(TrimStart(line))
  }

  ghost predicate Unfenced(lines: seq<string>, k: nat) {
    k < |lines| && !IsFenceLine(lines[k]) && !OddBefore(lines, k, IsFenceLine)
  }

  /** A line that is, white space around it aside, one to six `#`, a space and more. */
  ghost predicate CoreHeading(line: string, level: nat, text: string, id: Option<string>) {
    Trim(line) == Hash(level) + text && 1 <= level <= 6 && " " <= text && ReadsId(TrimStart(text), id)
  }

  ghost predicate HeadingStands(lines: seq<string>, k: nat, h: BookHeading) {
    && Unfenced(lines, k) && h.offset == LineStart(lines, k)
    && exists text :: CoreHeading(lines[k], h.heading.level, text, h.heading.id)
  }

  lemma {:induction false} StartsHash(s: string)
    requires TrimEnd(s) != ""
    ensures s != "" && TrimEnd(s)[0] == s[0]
  {
  }

  lemma CoreRead(line: string, level: nat, text: string, id: Option<string>)
    requires CoreHeading(line, level, text, id)
    ensures ScanLine(line).heading == Some(Heading(level, id))
  {
    var trimmed := TrimStart(line);
    HashesCounted(level, text);
    assert (Hash(level) + text)[level..] == text;
    assert TrimEnd(trimmed)[0] == '#';
    IdExact(TrimStart(text));
    IdUnique(TrimStart(text), id, ExplicitId(TrimStart(text)));
  }

  lemma CoreFound(line: string)
    requires ScanLine(line).heading.Some?
    ensures
      var h := ScanLine(line).heading.value;
      exists text :: CoreHeading(line, h.level, text, h.id)
  {
    var trimmed := TrimEnd(TrimStart(line));
    var level := CountHashes(trimmed);
    assert trimmed[..level] == Hash(level);
    assert trimmed == trimmed[..level] + trimmed[level..];
    IdExact(TrimStart(trimmed[level..]));
    assert CoreHeading(line, level, trimmed[level..], ScanLine(line).heading.value.id);
  }

  function HereIn(scans: seq<Scanned>): nat -> seq<BookHeading> {
    (k: nat) => if k < |scans| then HeadingAt(scans, k) else []
  }

  lemma {:induction false} HeadingsGathered(scans: seq<Scanned>, k: nat)
    requires k <= |scans|
    ensures HeadingsUpTo(scans, k) == GatherUpTo(k, HereIn(scans))
  {
    if k > 0 {
      HeadingsGathered(scans, k - 1);
    }
  }

  lemma {:induction false} ScansAgree(lines: seq<string>, k: nat)
    requires k <= |lines|
    ensures FencedAt(ScanLines(lines), k) == OddBefore(lines, k, IsFenceLine)
    ensures OffsetAt(ScanLines(lines), k) == LineStart(lines, k)
  {
    if k > 0 {
      ScansAgree(lines, k - 1);
      BookReading.Ticked(TrimStart(lines[k - 1]));
    }
  }

  lemma HeadingIs(lines: seq<string>, k: nat, h: BookHeading)
    requires k < |lines|
    ensures HeadingAt(ScanLines(lines), k) == [h] <==> HeadingStands(lines, k, h)
  {
    ScansAgree(lines, k);
    BookReading.Ticked(TrimStart(lines[k]));
    assert ScanLines(lines)[k] == ScanLine(lines[k]);
    if ScanLine(lines[k]).heading.Some? {
      CoreFound(lines[k]);
    }
    if HeadingStands(lines, k, h) {
      var text :| CoreHeading(lines[k], h.heading.level, text, h.heading.id);
      CoreRead(lines[k], h.heading.level, text, h.heading.id);
    }
  }

  /** The extractor's headings are exactly those that stand in the text, in order: `ks`
      says on which lines. */
  lemma HeadingsExact(text: string) returns (ks: seq<nat>)
    ensures |ks| == |Headings(text)| && forall i, j :: 0 <= i < j < |ks| ==> ks[i] < ks[j]
    ensures forall i :: 0 <= i < |ks| ==> HeadingStands(SplitInclusive(text), ks[i], Headings(text)[i])
    ensures forall k, h :: HeadingStands(SplitInclusive(text), k, h) ==> k in ks
  {
    var lines := SplitInclusive(text);
    var scans := ScanLines(lines);
    HeadingsGathered(scans, |scans|);
    ks := Gather(|scans|, HereIn(scans));
    forall i | 0 <= i < |ks|
      ensures HeadingStands(lines, ks[i], Headings(text)[i])
    {
      HeadingIs(lines, ks[i], Headings(text)[i]);
    }
    forall k, h | HeadingStands(lines, k, h)
      ensures k in ks
    {
      HeadingIs(lines, k, h);
      assert HereIn(scans)(k) != [];
    }
  }

  // ---------------------------------------------------------------------
  // The outline's entries.

  /** The outline takes an empty id for none. */
  ghost predicate ReadsFilledId(title: string, id: Option<string>) {
    if id.Some? then id.value != "" && ReadsId(title, id) else ReadsId(title, None) || ReadsId(title, Some(""))
  }

  ghost predicate OutlineHeading(line: string, text: string, e: Entry) {
    && IsHeadingLine(line, e.level, text) && ReadsFilledId(TrimStart(text), e.id)
    && IsTitleOf(text, if e.id.Some? && EndsInId(text, e.id.value) then e.id else None, e.title)
  }

  ghost predicate EntryStands(lines: seq<string>, k: nat, e: Entry) {
    Unfenced(lines, k) && exists text :: OutlineHeading(lines[k], text, e)
  }

  lemma FilledId(trimmed: string, text: string, id: Option<string>)
    requires trimmed[CountHashes(trimmed)..] == text
    ensures ReadsFilledId(TrimStart(text), id) <==> id == HeadingAnchorId(trimmed)
  {
    var title := TrimStart(text);
    IdExact(title);
    if ReadsFilledId(title, id) {
      IdUnique(title, ExplicitId(title), if id.None? && !ReadsId(title, None) then Some("") else id);
    }
  }

  lemma EntryRead(line: string, text: string, e: Entry)
    requires OutlineHeading(line, text, e) && !IsFence(TrimStart(line))
    ensures ReadingOf(line) == Reading(false, [e])
  {
    var trimmed := TrimStart(line);
    HeadingRead(line, e.level, text);
    FilledId(trimmed, text, e.id);
    EntryTitled(trimmed, text);
    TitleUnique(text, if e.id.Some? && EndsInId(text, e.id.value) then e.id else None, e.title, EntryTitle(trimmed));
  }

  lemma EntryFound(line: string, e: Entry)
    requires ReadingOf(line).heading == [e]
    ensures !IsFence(TrimStart(line)) && exists text :: OutlineHeading(line, text, e)
  {
    HeadingOrNot(line);
    var level, text :| IsHeadingLine(line, level, text);
    HeadingRead(line, level, text);
    FilledId(TrimStart(line), text, e.id);
    EntryTitled(TrimStart(line), text);
    assert OutlineHeading(line, text, e);
  }

  function EntryIn(readings: seq<Reading>): nat -> seq<Entry> {
    (k: nat) => if k < |readings| && !FenceUpTo(readings, k) then readings[k].heading else []
  }

  lemma {:induction false} EntriesGathered(readings: seq<Reading>, k: nat)
    requires k <= |readings|
    ensures EntriesUpTo(readings, k) == GatherUpTo(k, EntryIn(readings))
  {
    if k > 0 {
      EntriesGathered(readings, k - 1);
      assert EntriesUpTo(readings, k - 1) + [] == EntriesUpTo(readings, k - 1);
    }
  }

  lemma {:induction false} ReadingsAgree(lines: seq<string>, k: nat)
    requires k <= |lines|
    ensures FenceUpTo(Readings(lines), k) == OddBefore(lines, k, IsFenceLine)
  {
    if k > 0 {
      ReadingsAgree(lines, k - 1);
      BookReading.Ticked(TrimStart(lines[k - 1]));
    }
  }

  lemma EntryIs(lines: seq<string>, k: nat, e: Entry)
    requires k < |lines|
    ensures EntryIn(Readings(lines))(k) == [e] <==> EntryStands(lines, k, e)
  {
    ReadingsAgree(lines, k);
    BookReading.Ticked(TrimStart(lines[k]));
    assert Readings(lines)[k] == ReadingOf(lines[k]);
    if ReadingOf(lines[k]).heading == [e] {
      EntryFound(lines[k], e);
    }
    if EntryStands(lines, k, e) {
      var text :| OutlineHeading(lines[k], text, e);
      EntryRead(lines[k], text, e);
    }
  }

  lemma AtMostOne(line: string)
    ensures |ReadingOf(line).heading| <= 1
  {
  }

  /** The outline is built from exactly the headings that stand in the text, in order. */
  lemma EntriesExact(text: string) returns (ks: seq<nat>)
    ensures |ks| == |EntriesOf(text)| && forall i, j :: 0 <= i < j < |ks| ==> ks[i] < ks[j]
    ensures forall i :: 0 <= i < |ks| ==> EntryStands(Lines(text), ks[i], EntriesOf(text)[i])
    ensures forall k, e :: EntryStands(Lines(text), k, e) ==> k in ks
  {
    var lines := Lines(text);
    var readings := Readings(lines);
    EntriesGathered(readings, |readings|);
    forall k: nat | k < |readings|
      ensures |EntryIn(readings)(k)| <= 1
    {
      AtMostOne(lines[k]);
    }
    ks := Gather(|readings|, EntryIn(readings));
    forall i | 0 <= i < |ks|
      ensures EntryStands(lines, ks[i], EntriesOf(text)[i])
    {
      EntryIs(lines, ks[i], EntriesOf(text)[i]);
    }
    forall k, e | EntryStands(lines, k, e)
      ensures k in ks
    {
      EntryIs(lines, k, e);
      assert EntryIn(readings)(k) != [];
    }
  }
}
