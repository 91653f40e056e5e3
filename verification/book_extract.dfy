/** The passage extractor as the code runs it: one pass over the lines, counting. */
module BookExtract {
  import opened Wrappers
  import opened Text
  import opened Book

  /** The scan stands before line `k`, at `offset`; `done` are the marks behind it. */
  ghost predicate Stands(lines: seq<Line>, k: nat, inFence: bool, offset: nat, done: seq<Mark>, marks: seq<Mark>)
    decreases |lines| - k
  {
    if k >= |lines| then k == |lines| && done == marks
    else Stands(lines, k + 1, FenceAfter(lines[k], inFence), offset + |lines[k].text|,
                done + MarkOf(lines[k], inFence, offset), marks)
  }

  lemma {:induction false} StandsBefore(lines: seq<Line>, k: nat, inFence: bool, offset: nat, done: seq<Mark>,
                                        marks: seq<Mark>)
    requires k <= |lines| && marks == done + Marks(lines, k, inFence, offset)
    ensures Stands(lines, k, inFence, offset, done, marks)
    decreases |lines| - k
  {
    if k < |lines| {
      var mark := MarkOf(lines[k], inFence, offset);
      var rest := Marks(lines, k + 1, FenceAfter(lines[k], inFence), offset + |lines[k].text|);
      assert done + (mark + rest) == (done + mark) + rest;
      StandsBefore(lines, k + 1, FenceAfter(lines[k], inFence), offset + |lines[k].text|, done + mark, marks);
    }
  }

  lemma {:induction false} StandsPrefix(lines: seq<Line>, k: nat, inFence: bool, offset: nat, done: seq<Mark>,
                                        marks: seq<Mark>)
    requires Stands(lines, k, inFence, offset, done, marks)
    ensures done <= marks
    decreases |lines| - k
  {
    if k < |lines| {
      StandsPrefix(lines, k + 1, FenceAfter(lines[k], inFence), offset + |lines[k].text|,
                   done + MarkOf(lines[k], inFence, offset), marks);
    }
  }

  lemma PassLine(lines: seq<Line>, k: nat, inFence: bool, offset: nat, done: seq<Mark>, marks: seq<Mark>)
    requires Stands(lines, k, inFence, offset, done, marks) && k < |lines|
    ensures
      var passed := done + MarkOf(lines[k], inFence, offset);
      && passed <= marks
      && Heads(passed) <= Heads(marks)
      && (!inFence && lines[k].kind == ChapterLine ==>
            |Heads(done)| < |Heads(marks)| && Heads(marks)[|Heads(done)|] == |done|)
      && Heads(passed) == if !inFence && lines[k].kind == ChapterLine then Heads(done) + [|done|] else Heads(done)
  {
    var mark := MarkOf(lines[k], inFence, offset);
    var passed := done + mark;
    StandsPrefix(lines, k + 1, FenceAfter(lines[k], inFence), offset + |lines[k].text|, passed, marks);
    if |mark| == 1 {
      HeadsSnoc(done, mark[0]);
    } else {
      assert done + mark == done;
    }
    assert marks == passed + marks[|passed|..];
    HeadsAppend(passed, marks[|passed|..]);
  }

  /** The slice from a start that may not have been found. */
  function SliceOr(text: string, start: Option<nat>, end: nat, missing: PassageError): Result<string, PassageError>
    requires start.Some? ==> start.value <= end <= |text|
  {
    match start
    case Some(s) => Ok(text[s..end])
    case None => Err(missing)
  }

  /** Where the wanted chapter starts, as far as `seen` chapters tell. */
  ghost function StartOf(marks: seq<Mark>, seen: nat, index: nat, length: nat): Option<nat> {
    if 1 <= index <= seen <= |Heads(marks)| then Some(MarkOffset(marks, Heads(marks)[index - 1], length)) else None
  }

  /** The scan may stop at the chapter after the wanted one, or at the end. */
  lemma ChapterFound(text: string, marks: seq<Mark>, index: nat, seen: nat, end: nat)
    requires Ordered(marks, 0, |text|)
    requires seen <= |Heads(marks)|
    requires (seen == index + 1 && end == MarkOffset(marks, Heads(marks)[index], |text|))
             || (seen == |Heads(marks)| <= index && end == |text|)
    ensures
      var start := StartOf(marks, seen, index, |text|);
      && (start.Some? ==> start.value <= end <= |text|)
      && ChapterSpan(text, marks, index) == SliceOr(text, start, end, NoChapter(index))
  {
    if 1 <= index <= seen {
      NextHeadBounds(marks, index - 1);
      SpanBounds(marks, |text|, Heads(marks)[index - 1], NextHead(marks, index - 1));
    }
  }

  /** The single pass over the lines, counting chapters. */
  method ScanForChapter(text: string, lines: seq<Line>, index: nat, ghost marks: seq<Mark>)
    returns (passage: Result<string, PassageError>)
    requires Stands(lines, 0, false, 0, [], marks)
    requires Ordered(marks, 0, |text|)
    ensures passage == ChapterSpan(text, marks, index)
  {
    var seen := 0;
    var start: Option<nat> := None;
    var offset: nat := 0;
    var inFence := false;
    ghost var done: seq<Mark> := [];
    for k := 0 to |lines|
      invariant Stands(lines, k, inFence, offset, done, marks)
      invariant seen == |Heads(done)| <= index && Heads(done) <= Heads(marks)
      invariant start == StartOf(marks, seen, index, |text|)
    {
      var current := lines[k];
      PassLine(lines, k, inFence, offset, done, marks);
      done := done + MarkOf(current, inFence, offset);
      if current.kind == FenceLine {
        inFence := !inFence;
      } else if !inFence && current.kind == ChapterLine {
        seen := seen + 1;
        if seen == index {
          start := Some(offset);
        } else if seen > index {
          ChapterFound(text, marks, index, seen, offset);
          return SliceOr(text, start, offset, NoChapter(index));
        }
      }
      offset := offset + |current.text|;
    }
    ChapterFound(text, marks, index, seen, |text|);
    passage := SliceOr(text, start, |text|, NoChapter(index));
  }

  method CountBasedChapter(text: string, index: nat) returns (passage: Result<string, PassageError>)
    ensures passage == ChapterByCount(text, index)
  {
    var lines := Classify(SplitInclusive(text));
    MarksOfOrdered(text);
    StandsAtStart(lines);
    passage := ScanForChapter(text, lines, index, Marks(lines, 0, false, 0));
  }

  lemma StandsAtStart(lines: seq<Line>)
    ensures Stands(lines, 0, false, 0, [], Marks(lines, 0, false, 0))
  {
    var marks := Marks(lines, 0, false, 0);
    assert [] + marks == marks;
    StandsBefore(lines, 0, false, 0, [], marks);
  }

  function OffsetOf(lines: seq<Line>, k: nat): nat
    requires k <= |lines|
  {
    SumBefore(lines, k, (line: Line) => |line.text|)
  }

  lemma {:induction false} ClassifiedStart(raw: seq<string>, k: nat)
    requires k <= |raw|
    ensures OffsetOf(Classify(raw), k) == LineStart(raw, k)
  {
    if k > 0 {
      ClassifiedStart(raw, k - 1);
    }
  }

  /** The first pass of the section search: the line the chapter starts on. */
  method FindChapterLine(lines: seq<Line>, chapter: nat, ghost marks: seq<Mark>)
    returns (start: Option<nat>, ghost line: nat, ghost before: seq<Mark>)
    requires Stands(lines, 0, false, 0, [], marks)
    ensures start.Some? <==> 1 <= chapter <= |Heads(marks)|
    ensures start.Some? ==>
              && line < |lines| && lines[line].kind == ChapterLine
              && start.value == OffsetOf(lines, line)
              && Stands(lines, line, false, start.value, before, marks)
              && Heads(marks)[chapter - 1] == |before|
  {
    var seen := 0;
    var offset: nat := 0;
    var inFence := false;
    ghost var done: seq<Mark> := [];
    line, before := 0, [];
    for k := 0 to |lines|
      invariant offset == OffsetOf(lines, k)
      invariant Stands(lines, k, inFence, offset, done, marks)
      invariant seen == |Heads(done)|
      invariant chapter == 0 || seen < chapter
    {
      var current := lines[k];
      PassLine(lines, k, inFence, offset, done, marks);
      before := done;
      done := done + MarkOf(current, inFence, offset);
      if current.kind == FenceLine {
        inFence := !inFence;
      } else if !inFence && current.kind == ChapterLine {
        seen := seen + 1;
        if seen == chapter {
          return Some(offset), k, before;
        }
      }
      offset := offset + |current.text|;
    }
    start := None;
  }

  ghost predicate SectionsPassed(marks: seq<Mark>, head: nat, seen: nat) {
    seen == 0 || (head + seen < |marks| && marks[head + seen].level == 2 && SectionsPassed(marks, head, seen - 1))
  }

  lemma {:induction false} PassedAt(marks: seq<Mark>, head: nat, seen: nat, i: nat)
    requires SectionsPassed(marks, head, seen) && head < i <= head + seen
    ensures i < |marks| && marks[i].level == 2
  {
    if i < head + seen {
      PassedAt(marks, head, seen - 1, i);
    }
  }

  /** Where the wanted section starts, as far as `seen` sections tell. */
  ghost function SectionStart(marks: seq<Mark>, head: nat, seen: nat, m: nat, length: nat): Option<nat> {
    if 1 <= m <= seen then Some(MarkOffset(marks, head + m, length)) else None
  }

  /** Where a pass that has seen `seen` sections may stop: at the section after the
      wanted one, at the next chapter, or at the end of the text. */
  ghost predicate StopsAt(marks: seq<Mark>, head: nat, seen: nat, m: nat, end: nat, length: nat) {
    && head + seen < |marks| && SectionsPassed(marks, head, seen)
    && ( || (seen == m + 1 && end == MarkOffset(marks, head + seen, length))
         || (seen <= m && end == MarkOffset(marks, head + seen + 1, length)
             && (head + seen + 1 == |marks| || marks[head + seen + 1].level == 1)))
  }

  /** Whichever way the pass stopped, what it found is the wanted section's span. `head`
      is the chapter's mark. */
  lemma SectionFound(text: string, marks: seq<Mark>, n: nat, m: nat, head: nat, seen: nat, end: nat)
    requires Ordered(marks, 0, |text|)
    requires 1 <= n <= |Heads(marks)| && Heads(marks)[n - 1] == head
    requires StopsAt(marks, head, seen, m, end, |text|)
    ensures
      var start := SectionStart(marks, head, seen, m, |text|);
      && end <= |text| && (start.Some? ==> start.value <= end)
      && SectionSpan(text, marks, n, m) == SliceOr(text, start, end, NoSection(n, m))
  {
    NextHeadBounds(marks, n - 1);
    SpanBounds(marks, |text|, head + m, head + m + 1);
    HeadsSound(marks);
    var next := NextHead(marks, n - 1);
    if next <= head + seen {
      PassedAt(marks, head, seen, next);
    }
  }

  /** The pass has left the chapter line and `count` section lines behind. */
  ghost predicate Within(marks: seq<Mark>, done: nat, head: nat, count: nat) {
    done == head + count + 1 <= |marks| && SectionsPassed(marks, head, count)
  }

  lemma PassChapterLine(lines: seq<Line>, offset: nat, before: seq<Mark>, marks: seq<Mark>)
    requires |lines| > 0 && lines[0].kind == ChapterLine
    requires Stands(lines, 0, false, offset, before, marks)
    ensures Within(marks, |before + MarkOf(lines[0], false, offset)|, |before|, 0)
  {
    PassLine(lines, 0, false, offset, before, marks);
  }

  lemma PassWithin(lines: seq<Line>, k: nat, inFence: bool, offset: nat, done: seq<Mark>, marks: seq<Mark>,
                   head: nat, count: nat)
    requires Stands(lines, k, inFence, offset, done, marks) && k < |lines|
    requires Within(marks, |done|, head, count)
    ensures
      var passed := |done + MarkOf(lines[k], inFence, offset)|;
      if inFence || lines[k].kind in {FenceLine, OtherLine} then Within(marks, passed, head, count)
      else
        && |done| < |marks| && marks[|done|].offset == offset
        && (lines[k].kind == ChapterLine ==> marks[|done|].level == 1)
        && (lines[k].kind == SectionLine ==> Within(marks, passed, head, count + 1))
  {
    PassLine(lines, k, inFence, offset, done, marks);
    var passed := done + MarkOf(lines[k], inFence, offset);
    if !inFence && lines[k].kind in {ChapterLine, SectionLine} {
      assert passed[|done|] == marks[|done|];
    }
  }

  /** The second pass, over the chapter's own line and all after it. `base` is where
      they start in the whole text; `start` and `end` count from there. */
  method ScanForSection(lines: seq<Line>, section: nat, length: nat,
                        ghost base: nat, ghost marks: seq<Mark>, ghost before: seq<Mark>)
    returns (start: Option<nat>, end: nat, ghost seen: nat)
    requires Stands(lines, 0, false, base, before, marks)
    requires |lines| > 0 && lines[0].kind == ChapterLine && forall line :: line in lines ==> line.text != ""
    ensures Shifted(start, base) == SectionStart(marks, |before|, seen, section, base + length)
    ensures StopsAt(marks, |before|, seen, section, base + end, base + length)
  {
    ghost var head := |before|;
    var count := 0;
    start := None;
    var offset: nat := 0;
    var inFence := false;
    ghost var done := before;
    for k := 0 to |lines|
      invariant Stands(lines, k, inFence, base + offset, done, marks)
      invariant k == 0 ==> offset == count == 0 && done == before && !inFence
      invariant k > 0 ==> offset > 0 && Within(marks, |done|, head, count)
      invariant count <= section
      invariant Shifted(start, base) == SectionStart(marks, head, count, section, base + length)
    {
      var current := lines[k];
      if k == 0 {
        PassChapterLine(lines, base, before, marks);
      } else {
        PassWithin(lines, k, inFence, base + offset, done, marks, head, count);
      }
      done := done + MarkOf(current, inFence, base + offset);
      if current.kind == FenceLine {
        inFence := !inFence;
      } else if !inFence && offset > 0 && current.kind == ChapterLine {
        return start, offset, count;
      } else if !inFence && current.kind == SectionLine {
        count := count + 1;
        if count == section {
          start := Some(offset);
        } else if count > section {
          return start, offset, count;
        }
      }
      offset := offset + |current.text|;
    }
    end, seen := length, count;
  }

  ghost function Shifted(start: Option<nat>, base: nat): Option<nat> {
    if start.Some? then Some(base + start.value) else None
  }

  lemma SectionFoundHere(text: string, base: nat, marks: seq<Mark>, n: nat, m: nat,
                         head: nat, seen: nat, start: Option<nat>, end: nat)
    requires base <= |text| && Ordered(marks, 0, |text|)
    requires 1 <= n <= |Heads(marks)| && Heads(marks)[n - 1] == head
    requires StopsAt(marks, head, seen, m, base + end, |text|)
    requires Shifted(start, base) == SectionStart(marks, head, seen, m, |text|)
    ensures start.Some? ==> start.value <= end <= |text| - base
    ensures SectionSpan(text, marks, n, m) == SliceOr(text[base..], start, end, NoSection(n, m))
  {
    SectionFound(text, marks, n, m, head, seen, base + end);
    SliceShift(text, base, start, end, NoSection(n, m));
  }

  lemma SliceShift(text: string, base: nat, start: Option<nat>, end: nat, missing: PassageError)
    requires base + end <= |text| && (start.Some? ==> start.value <= end)
    ensures SliceOr(text[base..], start, end, missing) == SliceOr(text, Shifted(start, base), base + end, missing)
  {
    if start.Some? {
      assert text[base..][start.value..end] == text[base + start.value..base + end];
    }
  }

  method CountBasedSection(text: string, chapter: nat, section: nat) returns (passage: Result<string, PassageError>)
    ensures passage == SectionByCount(text, chapter, section)
  {
    var raw := SplitInclusive(text);
    ghost var marks := MarksOf(text);
    MarksOfOrdered(text);
    StandsAtStart(Classify(raw));
    var chapterStart, line, before := FindChapterLine(Classify(raw), chapter, marks);
    if chapterStart.None? {
      return Err(NoChapter(chapter));
    }
    var base := chapterStart.value;
    TailStands(text, line, base, before, marks);
    var chapterText := text[base..];
    var start, end, seen :=
      ScanForSection(Classify(SplitInclusive(chapterText)), section, |chapterText|, base, marks, before);
    SectionFoundHere(text, base, marks, chapter, section, |before|, seen, start, end);
    passage := SliceOr(chapterText, start, end, NoSection(chapter, section));
  }

  /** Splitting the text from a line on gives the lines from there on. */
  lemma TailStands(text: string, line: nat, base: nat, before: seq<Mark>, marks: seq<Mark>)
    requires
      var lines := Classify(SplitInclusive(text));
      && line < |lines| && lines[line].kind == ChapterLine && base == OffsetOf(lines, line)
      && Stands(lines, line, false, base, before, marks)
    ensures base <= |text|
    ensures
      var tail := Classify(SplitInclusive(text[base..]));
      && Stands(tail, 0, false, base, before, marks)
      && |tail| > 0 && tail[0].kind == ChapterLine && forall l :: l in tail ==> l.text != ""
  {
    var raw := SplitInclusive(text);
    ClassifiedStart(raw, line);
    SplitDrops(text, line);
    LinesNonEmpty(text[base..]);
    assert Classify(raw[line..]) == Classify(raw)[line..];
    StandsInTail(Classify(raw), line, 0, false, base, before, marks);
  }

  lemma {:induction false} StandsInTail(lines: seq<Line>, j: nat, k: nat, inFence: bool, offset: nat,
                                        done: seq<Mark>, marks: seq<Mark>)
    requires j + k <= |lines| && Stands(lines, j + k, inFence, offset, done, marks)
    ensures Stands(lines[j..], k, inFence, offset, done, marks)
    decreases |lines| - j - k
  {
    if j + k < |lines| {
      StandsInTail(lines, j, k + 1, FenceAfter(lines[j + k], inFence), offset + |lines[j + k].text|,
                   done + MarkOf(lines[j + k], inFence, offset), marks);
    }
  }
}
