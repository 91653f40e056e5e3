/** What the readers of a book make of a heading line, told from the line itself. */
module BookTitles {
  import opened Wrappers
  import opened Text
  import opened Trimming
  import opened Book
  import opened BookAnchored
  import opened BookAnchoredTheorems
  import opened BookExamples
  import opened BookOutline

  // ---------------------------------------------------------------------
  // Titles.

  /** A heading line: white space, one to six `#`, a space, and the text behind them. */
  ghost predicate IsHeadingLine(line: string, level: nat, text: string) {
    && TrimStart(line) == Hash(level) + text && 1 <= level <= 6 && " " <= text
  }

  function Hash(level: nat): (r: string)
    ensures |r| == level && forall k :: 0 <= k < level ==> r[k] == '#'
  {
    seq(level, _ => '#')
  }

  lemma {:induction false} HashesCounted(level: nat, text: string)
    requires text != "" && text[0] != '#'
    ensures CountHashes(Hash(level) + text) == level
  {
    if level == 0 {
      assert Hash(0) + text == text;
    } else {
      assert (Hash(level) + text)[1..] == Hash(level - 1) + text;
      HashesCounted(level - 1, text);
    }
  }

  /** The title as the catalogue shows it: what stands behind the `#`, without the white
      space around it and without the id it ends in. */
  ghost predicate IsTitleOf(text: string, id: Option<string>, title: string) {
    exists before, after :: CutsTitle(text, id, title, before, after)
  }

  ghost predicate CutsTitle(text: string, id: Option<string>, title: string, before: string, after: string) {
    && AllWhite(before) && AllWhite(after)
    && (title != "" ==> !IsWhite(title[0]) && !IsWhite(title[|title| - 1]))
    && text == before + title + after + (if id.Some? then "{#" + id.value + "}" else "")
  }

  /** The id is what stands between the last `{#` and the brace the text ends in. */
  ghost predicate EndsInId(text: string, id: string) {
    id != "" && |text| >= |id| + 3 && text[|text| - |id| - 3..] == "{#" + id + "}"
  }

  lemma HeadingRead(line: string, level: nat, text: string)
    requires IsHeadingLine(line, level, text) && !IsFence(TrimStart(line))
    ensures CountHashes(TrimStart(line)) == level && TrimStart(line)[level..] == text
    ensures ReadingOf(line)
            == Reading(false, [Entry(HeadingAnchorId(TrimStart(line)), EntryTitle(TrimStart(line)), level)])
  {
    HashesCounted(level, text);
    assert (Hash(level) + text)[level..] == text;
  }

  /** Every line but a fence and a heading of one to six `#` and a space is passed over. */
  lemma HeadingOrNot(line: string)
    ensures !ReadingOf(line).fence && ReadingOf(line).heading != [] ==>
              exists level, text :: IsHeadingLine(line, level, text)
  {
    var trimmed := TrimStart(line);
    if !ReadingOf(line).fence && ReadingOf(line).heading != [] {
      var level := CountHashes(trimmed);
      assert trimmed[..level] == Hash(level);
      assert trimmed == trimmed[..level] + trimmed[level..];
      assert IsHeadingLine(line, level, trimmed[level..]);
    }
  }

  /** The title of a heading without an id. */
  lemma PlainTitle(trimmed: string, text: string)
    requires trimmed[CountHashes(trimmed)..] == text && HeadingAnchorId(trimmed).None?
    ensures EntryTitle(trimmed) == Trim(text)
  {
    TrimTwice(text);
  }

  lemma {:induction false} EndKept(text: string)
    requires text != "" && !IsWhite(text[|text| - 1])
    ensures TrimStart(text) != "" && TrimStart(text)[|TrimStart(text)| - 1] == text[|text| - 1]
    ensures TrimEnd(text) == text
  {
    if IsWhite(text[0]) {
      EndKept(text[1..]);
    }
  }

  /** What the builder makes of a text that ends in the id it reads from it. */
  lemma TitleStripped(trimmed: string, text: string, id: string)
    requires trimmed[CountHashes(trimmed)..] == text && HeadingAnchorId(trimmed) == Some(id)
    ensures
      var full, suffix := Trim(text), "{#" + id + "}";
      EntryTitle(trimmed) == if |suffix| <= |full| && full[|full| - |suffix|..] == suffix
                             then TrimEnd(full[..|full| - |suffix|]) else full
  {
    TrimTwice(text);
  }

  lemma IdEndsInBrace(trimmed: string, text: string, id: string)
    requires trimmed[CountHashes(trimmed)..] == text && HeadingAnchorId(trimmed) == Some(id)
    ensures TrimStart(text) != "" && TrimStart(text)[|TrimStart(text)| - 1] == '}'
  {
  }

  /** White space in front does not reach into the id. */
  lemma SuffixInside(before: string, full: string, suffix: string, text: string)
    requires text == before + full && AllWhite(before) && |suffix| <= |text|
    requires text[|text| - |suffix|..] == suffix && suffix != "" && !IsWhite(suffix[0])
    ensures |suffix| <= |full| && full[|full| - |suffix|..] == suffix
  {
    var k := |text| - |suffix|;
    assert text[k] == text[k..][0];
    forall i | 0 <= i < |before|
      ensures IsWhite(text[i])
    {
      assert before[i] in before && text[i] == before[i];
    }
  }

  /** A text that ends in no white space loses none at its end. */
  lemma OnlyStartCut(text: string) returns (before: string)
    requires text != "" && !IsWhite(text[|text| - 1])
    ensures text == before + Trim(text) && AllWhite(before)
  {
    EndKept(text);
    EndKept(TrimStart(text));
    before := StartCut(text);
  }

  /** A text that ends in its id: the title is what is left before it. */
  lemma IdTitle(text: string, id: string)
    requires EndsInId(text, id)
    ensures
      var full, suffix := Trim(text), "{#" + id + "}";
      && |suffix| <= |full| && full[|full| - |suffix|..] == suffix
      && IsTitleOf(text, Some(id), TrimEnd(full[..|full| - |suffix|]))
  {
    var suffix := "{#" + id + "}";
    assert text[|text| - |suffix|..][|suffix| - 1] == '}' && text[|text| - 1] == '}';
    var before := OnlyStartCut(text);
    SuffixInside(before, Trim(text), suffix, text);
    TitleBefore(text, Trim(text), before, id, suffix);
  }

  lemma TitleBefore(text: string, full: string, before: string, id: string, suffix: string)
    requires text == before + full && AllWhite(before) && (full != "" ==> !IsWhite(full[0]))
    requires suffix == "{#" + id + "}" && |suffix| <= |full| && full[|full| - |suffix|..] == suffix
    ensures IsTitleOf(text, Some(id), TrimEnd(full[..|full| - |suffix|]))
  {
    var head := full[..|full| - |suffix|];
    var after := EndCut(head);
    assert full == head + suffix;
    assert text == before + TrimEnd(head) + after + suffix;
    assert CutsTitle(text, Some(id), TrimEnd(head), before, after);
  }

  /** A text that does not end in the id read from it: nothing is taken off. */
  lemma OddTitle(text: string, id: string)
    requires TrimStart(text) != "" && TrimStart(text)[|TrimStart(text)| - 1] == '}' && !EndsInId(text, id) && id != ""
    ensures
      var full, suffix := Trim(text), "{#" + id + "}";
      !(|suffix| <= |full| && full[|full| - |suffix|..] == suffix)
  {
    StartKeepsEnd(text);
    var before := OnlyStartCut(text);
    NotEnds(text, before, Trim(text), id);
  }

  lemma NotEnds(text: string, before: string, full: string, id: string)
    requires text == before + full && !EndsInId(text, id) && id != ""
    ensures !(|id| + 3 <= |full| && full[|full| - |id| - 3..] == "{#" + id + "}")
  {
    if |id| + 3 <= |full| {
      assert text[|text| - |id| - 3..] == full[|full| - |id| - 3..];
    }
  }

  lemma StartKeepsEnd(text: string)
    requires TrimStart(text) != ""
    ensures text != "" && text[|text| - 1] == TrimStart(text)[|TrimStart(text)| - 1]
  {
    var before := StartCut(text);
  }

  /** The title of a heading line, whatever the line: its text without the id it ends in,
      if it ends in the id the builder reads from it, and else its whole text. */
  lemma TitleExact(line: string, level: nat, text: string)
    requires IsHeadingLine(line, level, text) && !IsFence(TrimStart(line))
    ensures |ReadingOf(line).heading| == 1 && ReadingOf(line).heading[0].level == level
    ensures
      var e := ReadingOf(line).heading[0];
      IsTitleOf(text, if e.id.Some? && EndsInId(text, e.id.value) then e.id else None, e.title)
  {
    HeadingRead(line, level, text);
    EntryTitled(TrimStart(line), text);
  }

  lemma EntryTitled(trimmed: string, text: string)
    requires trimmed[CountHashes(trimmed)..] == text
    ensures
      var id := HeadingAnchorId(trimmed);
      IsTitleOf(text, if id.Some? && EndsInId(text, id.value) then id else None, EntryTitle(trimmed))
  {
    var before, after := TrimCut(text);
    assert CutsTitle(text, None, Trim(text), before, after);
    match HeadingAnchorId(trimmed)
    case None => PlainTitle(trimmed, text);
    case Some(id) =>
      TitleStripped(trimmed, text, id);
      if EndsInId(text, id) {
        IdTitle(text, id);
      } else {
        IdEndsInBrace(trimmed, text, id);
        OddTitle(text, id);
      }
  }

  // ---------------------------------------------------------------------
  // There is one such title.

  lemma TitleUnique(text: string, id: Option<string>, one: string, other: string)
    requires IsTitleOf(text, id, one) && IsTitleOf(text, id, other)
    ensures one == other
  {
    var b, a :| CutsTitle(text, id, one, b, a);
    var d, c :| CutsTitle(text, id, other, d, c);
    var suffix := if id.Some? then "{#" + id.value + "}" else "";
    var core := text[..|text| - |suffix|];
    assert core == b + one + a && core == d + other + c;
    TrimIs(core, b, one, a);
    TrimIs(core, d, other, c);
  }

  /** A text that ends in `{#id}` behind white space: the id it is read with. */
  lemma IdRead(trimmed: string, before: string, middle: string, id: string)
    requires AllWhite(before) && middle != "" && !IsWhite(middle[0])
    requires id != "" && '{' !in id && id[|id| - 1] != '}'
    requires trimmed[CountHashes(trimmed)..] == before + (middle + "{#" + id + "}")
    ensures HeadingAnchorId(trimmed) == Some(id)
  {
    StartOf(before, middle + "{#" + id + "}");
    IdAt(middle, id);
  }

  lemma TitleCut(text: string, before: string, title: string, after: string, id: string)
    requires text == before + title + after + "{#" + id + "}" && AllWhite(before) && AllWhite(after)
    requires title != "" && !IsWhite(title[0]) && !IsWhite(title[|title| - 1]) && id != ""
    ensures EndsInId(text, id) && IsTitleOf(text, Some(id), title)
  {
    assert text == before + title + after + ("{#" + id + "}");
    assert CutsTitle(text, Some(id), title, before, after);
  }

  /** A heading written as `#`s, white space, a title, perhaps white space, and `{#id}` is
      read as exactly that level, title and id. */
  lemma HeadingWithId(line: string, level: nat, before: string, title: string, after: string, id: string)
    requires 1 <= level <= 6 && " " <= before && AllWhite(before) && AllWhite(after)
    requires title != "" && !IsWhite(title[0]) && !IsWhite(title[|title| - 1])
    requires id != "" && '{' !in id && id[|id| - 1] != '}'
    requires TrimStart(line) == Hash(level) + (before + title + after + "{#" + id + "}")
    ensures ReadingOf(line) == Reading(false, [Entry(Some(id), title, level)])
  {
    var text := before + title + after + "{#" + id + "}";
    assert text == before + ((title + after) + "{#" + id + "}");
    IdTitled(line, level, text, before, title, after, id);
  }

  lemma IdTitled(line: string, level: nat, text: string, before: string, title: string, after: string, id: string)
    requires IsHeadingLine(line, level, text) && AllWhite(before) && AllWhite(after)
    requires title != "" && !IsWhite(title[0]) && !IsWhite(title[|title| - 1])
    requires id != "" && '{' !in id && id[|id| - 1] != '}'
    requires text == before + title + after + "{#" + id + "}"
    requires text == before + ((title + after) + "{#" + id + "}")
    ensures ReadingOf(line) == Reading(false, [Entry(Some(id), title, level)])
  {
    HashLineNoFence(TrimStart(line), level, text);
    HeadingRead(line, level, text);
    IdRead(TrimStart(line), before, title + after, id);
    TitleCut(text, before, title, after, id);
    EntryTitled(TrimStart(line), text);
    TitleUnique(text, Some(id), title, EntryTitle(TrimStart(line)));
  }

  lemma HashLineNoFence(trimmed: string, level: nat, text: string)
    requires trimmed == Hash(level) + text && 1 <= level
    ensures !IsFence(trimmed)
  {
    assert trimmed[0] == '#';
  }

  /** A heading whose text ends in no brace has no id, and its whole text for a title. */
  lemma HeadingWithoutId(line: string, level: nat, before: string, title: string, after: string)
    requires 1 <= level <= 6 && " " <= before && AllWhite(before) && AllWhite(after)
    requires title != "" && !IsWhite(title[0]) && !IsWhite(title[|title| - 1])
    requires after != "" || title[|title| - 1] != '}'
    requires TrimStart(line) == Hash(level) + (before + title + after)
    ensures ReadingOf(line) == Reading(false, [Entry(None, title, level)])
  {
    assert before + title + after == before + (title + after);
    PlainTitled(line, level, before + title + after, before, title, after);
  }

  lemma PlainTitled(line: string, level: nat, text: string, before: string, title: string, after: string)
    requires IsHeadingLine(line, level, text) && AllWhite(before) && AllWhite(after)
    requires title != "" && !IsWhite(title[0]) && !IsWhite(title[|title| - 1])
    requires after != "" || title[|title| - 1] != '}'
    requires text == before + (title + after) && text == before + title + after
    ensures ReadingOf(line) == Reading(false, [Entry(None, title, level)])
  {
    HashLineNoFence(TrimStart(line), level, text);
    HeadingRead(line, level, text);
    StartOf(before, title + after);
    NoBrace(title + after, after);
    EntryTitled(TrimStart(line), text);
    assert CutsTitle(text, None, title, before, after);
    TitleUnique(text, None, title, EntryTitle(TrimStart(line)));
  }

  lemma NoBrace(text: string, after: string)
    requires text != "" && AllWhite(after) && |after| <= |text| && text[|text| - |after|..] == after
    requires after != "" || text[|text| - 1] != '}'
    ensures ExplicitId(text) == None
  {
    if after != "" {
      assert text[|text| - 1] == after[|after| - 1] && after[|after| - 1] in after;
    }
  }

  // ---------------------------------------------------------------------
  // The titles of an outline.

  lemma {:induction false} EntryRead(readings: seq<Reading>, k: nat, e: Entry) returns (n: nat)
    requires k <= |readings| && e in EntriesUpTo(readings, k)
    ensures n < k && e in readings[n].heading && !FenceUpTo(readings, n)
  {
    if e in EntriesUpTo(readings, k - 1) {
      n := EntryRead(readings, k - 1, e);
    } else {
      n := k - 1;
    }
  }

  /** Line `n` is an unfenced heading with this title, and with this id if any. */
  ghost predicate Names(lines: seq<string>, n: nat, id: Option<string>, title: string) {
    && n < |lines| && !OddBefore(lines, n, (line: string) => IsFence(TrimStart(line)))
    && exists level, text :: NamesAs(lines[n], level, text, id, title)
  }

  ghost predicate NamesAs(line: string, level: nat, text: string, id: Option<string>, title: string) {
    && IsHeadingLine(line, level, text)
    && (id.Some? ==> HeadingAnchorId(TrimStart(line)) == id)
    && IsTitleOf(text, if id.Some? && EndsInId(text, id.value) then id else None, title)
  }

  lemma {:induction false} SameFence(lines: seq<string>, k: nat)
    requires k <= |lines|
    ensures FenceUpTo(Readings(lines), k) == OddBefore(lines, k, (line: string) => IsFence(TrimStart(line)))
  {
    if k > 0 {
      SameFence(lines, k - 1);
      assert Readings(lines)[k - 1].fence == IsFence(TrimStart(lines[k - 1]));
    }
  }

  lemma EntryNamed(text: string, e: Entry) returns (n: nat)
    requires e in EntriesOf(text)
    ensures Names(Lines(text), n, e.id, e.title)
  {
    var lines := Lines(text);
    n := EntryRead(Readings(lines), |lines|, e);
    SameFence(lines, n);
    HeadingOrNot(lines[n]);
    OneRead(lines[n], e);
    var level, t :| IsHeadingLine(lines[n], level, t);
    TitleExact(lines[n], level, t);
    HeadingRead(lines[n], level, t);
    assert NamesAs(lines[n], level, t, e.id, e.title);
  }

  lemma OneRead(line: string, e: Entry)
    requires e in ReadingOf(line).heading
    ensures !IsFence(TrimStart(line)) && !ReadingOf(line).fence && ReadingOf(line).heading == [e]
  {
  }

  /** Every chapter of an outline read by ids has the title of an unfenced heading that
      carries its id, and the slug of that title. */
  lemma AnchoredChapterTitle(text: string, slugify: string -> string, ch: AnchoredChapterEntry) returns (n: nat)
    requires OutlineOf(text, slugify).Anchored? && ch in OutlineOf(text, slugify).anchored
    ensures Names(Lines(text), n, Some(ch.id), ch.title) && ch.slug == slugify(ch.title)
  {
    var e := OutlineChapterFrom(EntriesOf(text), slugify, ch);
    n := EntryNamed(text, e);
  }

  /** So has every section. */
  lemma AnchoredSectionTitle(text: string, slugify: string -> string, ch: AnchoredChapterEntry, s: AnchoredSectionEntry)
    returns (n: nat)
    requires OutlineOf(text, slugify).Anchored? && ch in OutlineOf(text, slugify).anchored && s in ch.sections
    ensures Names(Lines(text), n, Some(s.id), s.title)
  {
    var e := OutlineSectionFrom(EntriesOf(text), slugify, ch, s);
    n := EntryNamed(text, e);
  }

  lemma {:induction false} FoldedFrom(entries: seq<Entry>, slugify: string -> string, ch: ChapterEntry)
    returns (e: Entry)
    requires ch in Folded(entries, slugify)
    ensures e in entries && e.level == 1 && ch.title == e.title && ch.slug == slugify(e.title)
  {
    var front, last := entries[..|entries| - 1], entries[|entries| - 1];
    var before := Folded(front, slugify);
    if last.level == 1 && ch == ChapterEntry(|before| + 1, last.title, slugify(last.title), []) {
      e := last;
    } else if ch in before {
      e := FoldedFrom(front, slugify, ch);
    } else {
      e := FoldedFrom(front, slugify, before[|before| - 1]);
    }
  }

  lemma {:induction false} FoldedSectionFrom(entries: seq<Entry>, slugify: string -> string, ch: ChapterEntry,
                                             sec: SectionEntry)
    returns (e: Entry)
    requires ch in Folded(entries, slugify) && sec in ch.sections
    ensures e in entries && e.level == 2 && sec.title == e.title
  {
    var front, last := entries[..|entries| - 1], entries[|entries| - 1];
    var before := Folded(front, slugify);
    if ch in before {
      e := FoldedSectionFrom(front, slugify, ch, sec);
    } else if sec in before[|before| - 1].sections {
      e := FoldedSectionFrom(front, slugify, before[|before| - 1], sec);
    } else {
      e := last;
    }
  }

  lemma NoIds(text: string, slugify: string -> string, e: Entry)
    requires OutlineOf(text, slugify).Plain? && e in EntriesOf(text)
    ensures e.id.None?
  {
  }

  /** Every chapter of a counted outline has the title of an unfenced heading, and its slug. */
  lemma PlainChapterTitle(text: string, slugify: string -> string, ch: ChapterEntry) returns (n: nat)
    requires OutlineOf(text, slugify).Plain? && ch in OutlineOf(text, slugify).chapters
    ensures Names(Lines(text), n, None, ch.title) && ch.slug == slugify(ch.title)
  {
    var e := FoldedFrom(EntriesOf(text), slugify, ch);
    NoIds(text, slugify, e);
    n := EntryNamed(text, e);
  }

  /** So has every section. */
  lemma PlainSectionTitle(text: string, slugify: string -> string, ch: ChapterEntry, sec: SectionEntry) returns (n: nat)
    requires OutlineOf(text, slugify).Plain? && ch in OutlineOf(text, slugify).chapters && sec in ch.sections
    ensures Names(Lines(text), n, None, sec.title)
  {
    var e := FoldedSectionFrom(EntriesOf(text), slugify, ch, sec);
    NoIds(text, slugify, e);
    n := EntryNamed(text, e);
  }
}
