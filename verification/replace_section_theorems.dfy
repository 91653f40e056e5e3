/** When replacing a section twice is replacing it once. */
module SectionEditTheorems {
  import opened Text
  import opened SectionEdit

  // ---------------------------------------------------------------------
  // Lines of text built from whole lines.

  lemma LinesAppend(a: string, b: string)
    requires EndsLine(a)
    ensures Lines(a + b) == Lines(a) + Lines(b)
  {
    SplitAppend(a, b);
  }

  /** One carriage return goes when a line is read back. */
  function Chomp(line: string): string {
    if line != "" && line[|line| - 1] == '\r' then line[..|line| - 1] else line
  }

  lemma LineReadBack(line: string)
    requires '\n' !in line
    ensures Lines(line + "\n") == [Chomp(line)]
  {
    var s := line + "\n";
    LineEndStops(s);
    assert s[..|s|] == s && s[|s|..] == "";
    assert SplitInclusive(s) == [s];
    assert StripEol(s) == Chomp(line);
  }

  lemma {:induction false} NoNewlines(s: string)
    ensures forall k :: 0 <= k < |Lines(s)| ==> '\n' !in Lines(s)[k]
    decreases |s|
  {
    if s != "" {
      var line := s[..LineEnd(s)];
      LineEndStops(s);
      NoNewlines(s[LineEnd(s)..]);
      assert '\n' !in StripEol(line);
      assert Lines(s) == [StripEol(line)] + Lines(s[LineEnd(s)..]);
    }
  }

  // ---------------------------------------------------------------------
  // Reading back what the edit wrote.

  function Reread(chunks: seq<Chunk>, section: seq<string>): seq<string> {
    if |chunks| == 0 then []
    else (if chunks[0].Kept? then [Chomp(chunks[0].line)] else section) + Reread(chunks[1..], section)
  }

  lemma {:induction false} LinesRender(chunks: seq<Chunk>, section: string)
    requires EndsLine(section) && forall c :: c in chunks && c.Kept? ==> '\n' !in c.line
    ensures Lines(Render(chunks, section)) == Reread(chunks, Lines(section))
  {
    if |chunks| > 0 {
      LinesRender(chunks[1..], section);
      if chunks[0].Kept? {
        assert chunks[0] in chunks;
        LineReadBack(chunks[0].line);
        LinesAppend(chunks[0].line + "\n", Render(chunks[1..], section));
      } else {
        LinesAppend(section, Render(chunks[1..], section));
      }
    }
  }

  /** What follows a section in the output is a section or a line that opens another. */
  ghost predicate WellPlaced(chunks: seq<Chunk>, inTarget: bool, isTarget: string -> bool, opens: string -> bool) {
    |chunks| > 0 ==>
      && (chunks[0].Kept? ==> !isTarget(chunks[0].line) && (inTarget ==> opens(chunks[0].line)))
      && WellPlaced(chunks[1..], chunks[0] == Section, isTarget, opens)
  }

  lemma {:induction false} ChunksWellPlaced(lines: seq<string>, inTarget: bool, isTarget: string -> bool,
                                            opens: string -> bool)
    ensures WellPlaced(Chunks(lines, inTarget, isTarget, opens), inTarget, isTarget, opens)
    ensures forall c :: c in Chunks(lines, inTarget, isTarget, opens) && c.Kept? ==> c.line in lines
  {
    if |lines| > 0 {
      ChunksWellPlaced(lines[1..], true, isTarget, opens);
      ChunksWellPlaced(lines[1..], false, isTarget, opens);
      if !isTarget(lines[0]) && inTarget && !opens(lines[0]) {
      } else {
        var first := Chunks(lines, inTarget, isTarget, opens)[0];
        assert Chunks(lines, inTarget, isTarget, opens)[1..] == Chunks(lines[1..], first == Section, isTarget, opens);
      }
    }
  }

  lemma {:induction false} PlaceLast(chunks: seq<Chunk>, inTarget: bool, isTarget: string -> bool,
                                     opens: string -> bool)
    requires WellPlaced(chunks, inTarget, isTarget, opens)
    ensures WellPlaced(chunks + [Section], inTarget, isTarget, opens)
  {
    if |chunks| > 0 {
      PlaceLast(chunks[1..], chunks[0] == Section, isTarget, opens);
      assert (chunks + [Section])[1..] == chunks[1..] + [Section];
    } else {
      assert (chunks + [Section])[1..] == [];
    }
  }

  lemma {:induction false} ContentDropped(lines: seq<string>, rest: seq<string>, isTarget: string -> bool,
                                          opens: string -> bool)
    requires forall l :: l in lines ==> !isTarget(l) && !opens(l)
    ensures Chunks(lines + rest, true, isTarget, opens) == Chunks(rest, true, isTarget, opens)
  {
    if |lines| == 0 {
      assert lines + rest == rest;
    } else {
      assert (lines + rest)[1..] == lines[1..] + rest;
      ContentDropped(lines[1..], rest, isTarget, opens);
    }
  }

  function Chomped(chunks: seq<Chunk>): seq<Chunk> {
    if |chunks| == 0 then []
    else [if chunks[0].Kept? then Kept(Chomp(chunks[0].line)) else Section] + Chomped(chunks[1..])
  }

  /** The second pass finds the chunks of the first, each kept line read back. */
  lemma {:induction false} SecondPass(chunks: seq<Chunk>, inTarget: bool, head: string, content: seq<string>,
                                      isTarget: string -> bool, opens: string -> bool)
    requires WellPlaced(chunks, inTarget, isTarget, opens)
    requires isTarget(head) && forall l :: l in content ==> !isTarget(l) && !opens(l)
    requires forall c :: c in chunks && c.Kept? ==>
               isTarget(Chomp(c.line)) == isTarget(c.line) && opens(Chomp(c.line)) == opens(c.line)
    ensures Chunks(Reread(chunks, [head] + content), inTarget, isTarget, opens) == Chomped(chunks)
  {
    if |chunks| > 0 {
      var rest := Reread(chunks[1..], [head] + content);
      SecondPass(chunks[1..], chunks[0] == Section, head, content, isTarget, opens);
      if chunks[0].Kept? {
        assert chunks[0] in chunks;
        assert ([Chomp(chunks[0].line)] + rest)[1..] == rest;
      } else {
        assert ([head] + content + rest)[1..] == content + rest;
        ContentDropped(content, rest, isTarget, opens);
      }
    }
  }

  // ---------------------------------------------------------------------
  // A carriage return at the end of a line matters to nothing but the line.

  lemma ReturnTrim(line: string)
    ensures Trim(line + "\r") == Trim(line)
  {
    TrimStartAppend(line, "\r");
    TrimStartWhite(line);
    TrimEndAppend(TrimStart(line), "\r");
  }

  lemma StartsHash(line: string)
    ensures "# " <= line <==> |line| >= 2 && line[0] == '#' && line[1] == ' '
  {
    if |line| >= 2 {
      assert line[..2] == [line[0], line[1]];
    }
  }

  lemma ReturnOpens(line: string)
    ensures "# " <= line + "\r" <==> "# " <= line
  {
    StartsHash(line);
    StartsHash(line + "\r");
  }

  lemma ChompTrim(line: string)
    ensures Trim(Chomp(line)) == Trim(line)
    ensures "# " <= Chomp(line) <==> "# " <= line
  {
    if Chomp(line) != line {
      assert line == Chomp(line) + "\r";
      ReturnTrim(Chomp(line));
      ReturnOpens(Chomp(line));
    }
  }

  /** A heading that is one trimmed line, not empty. */
  predicate PlainHeading(heading: string) {
    heading != "" && Trim(heading) == heading && '\n' !in heading
  }

  /** Content that opens no other section and does not repeat the heading. */
  predicate PlainContent(heading: string, content: string) {
    forall l :: l in Lines(content) ==> !Opens(l) && !IsTarget(heading, l)
  }

  lemma HeadingIsTarget(heading: string)
    requires PlainHeading(heading)
    ensures IsTarget(heading, SectionStart(heading)) && Chomp(SectionStart(heading)) == SectionStart(heading)
    ensures '\n' !in SectionStart(heading)
  {
    var start := SectionStart(heading);
    assert start[|start| - 1] == heading[|heading| - 1];
    assert TrimStart(start) == start;
  }

  /** Each line of the content as written is a line of it, perhaps without a carriage
      return, or empty. */
  lemma {:induction false} ContentReadBack(content: string, l: string) returns (m: string)
    requires l in Lines(content + "\n")
    ensures l == "" || (m in Lines(content) && (l == m || l == Chomp(m)))
    decreases |content|
  {
    m := l;
    if content == "" {
      LineReadBack("");
      assert content + "\n" == "\n";
    } else {
      var end := LineEnd(content);
      LineEndStops(content);
      var first, rest := content[..end], content[end..];
      assert content == first + rest;
      if EndsLine(first) {
        assert content + "\n" == first + (rest + "\n");
        LinesAppend(first, rest + "\n");
        LinesAppend(first, rest);
        if l !in Lines(first) {
          m := ContentReadBack(rest, l);
        }
      } else {
        assert '\n' !in content;
        LineReadBack(content);
        assert content[..|content|] == content && content[|content|..] == "";
        assert SplitInclusive(content) == [content];
        assert Lines(content) == [content];
        m := content;
      }
    }
  }

  // ---------------------------------------------------------------------
  // Twice is once, exactly when no kept line ends in a carriage return.

  lemma SectionLines(heading: string, content: string)
    requires PlainHeading(heading) && PlainContent(heading, content)
    ensures EndsLine(SectionText(heading, content))
    ensures Lines(SectionText(heading, content)) == [SectionStart(heading)] + Lines(content + "\n")
    ensures forall l :: l in Lines(content + "\n") ==> !IsTarget(heading, l) && !Opens(l)
  {
    HeadingIsTarget(heading);
    var head := SectionStart(heading) + "\n";
    assert SectionText(heading, content) == head + (content + "\n");
    LinesAppend(head, content + "\n");
    LineReadBack(SectionStart(heading));
    forall l | l in Lines(content + "\n")
      ensures !IsTarget(heading, l) && !Opens(l)
    {
      var m := ContentReadBack(content, l);
      ChompTrim(m);
    }
  }

  lemma {:induction false} ChompedHasSection(chunks: seq<Chunk>)
    ensures Section in Chomped(chunks) <==> Section in chunks
  {
    if |chunks| > 0 {
      ChompedHasSection(chunks[1..]);
    }
  }

  /** The edit's output, edited again, is the same chunks with each kept line read back. */
  lemma EditedTwice(body: string, heading: string, content: string)
    requires PlainHeading(heading) && PlainContent(heading, content)
    ensures Edited(Replaced(body, heading, content), heading) == Chomped(Edited(body, heading))
  {
    var isTarget := (line: string) => IsTarget(heading, line);
    var chunks := Edited(body, heading);
    var section := SectionText(heading, content);
    NoNewlines(body);
    ChunksWellPlaced(Lines(body), false, isTarget, Opens);
    PlaceLast(BodyChunks(body, heading), false, isTarget, Opens);
    SectionLines(heading, content);
    LinesRender(chunks, section);
    HeadingIsTarget(heading);
    forall c | c in chunks && c.Kept?
      ensures isTarget(Chomp(c.line)) == isTarget(c.line) && Opens(Chomp(c.line)) == Opens(c.line)
    {
      ChompTrim(c.line);
    }
    SecondPass(chunks, false, SectionStart(heading), Lines(content + "\n"), isTarget, Opens);
    ChompedHasSection(chunks);
  }

  lemma {:induction false} ChompedShrinks(chunks: seq<Chunk>, section: string)
    ensures |Render(Chomped(chunks), section)| <= |Render(chunks, section)|
    ensures |Render(Chomped(chunks), section)| == |Render(chunks, section)|
            <==> forall l :: l in KeptLines(chunks) ==> Chomp(l) == l
    ensures (forall l :: l in KeptLines(chunks) ==> Chomp(l) == l) ==> Chomped(chunks) == chunks
  {
    if |chunks| > 0 {
      ChompedShrinks(chunks[1..], section);
      var first := if chunks[0].Kept? then [chunks[0].line] else [];
      assert KeptLines(chunks) == first + KeptLines(chunks[1..]);
      assert forall l :: l in KeptLines(chunks) <==> l in first || l in KeptLines(chunks[1..]);
    }
  }

  lemma {:induction false} KeptAppend(chunks: seq<Chunk>)
    ensures KeptLines(chunks + [Section]) == KeptLines(chunks)
  {
    if |chunks| > 0 {
      assert (chunks + [Section])[1..] == chunks[1..] + [Section];
      KeptAppend(chunks[1..]);
    } else {
      assert (chunks + [Section])[1..] == [];
    }
  }

  /** The lines of the body outside the section. */
  function OutsideLines(body: string, heading: string): seq<string> {
    Outside(Lines(body), 0, line => IsTarget(heading, line), Opens)
  }

  /** Every line outside the section is written, in order, whether the section was there
      or had to be appended. */
  lemma EditKeepsOutside(body: string, heading: string)
    ensures KeptLines(Edited(body, heading)) == OutsideLines(body, heading)
  {
    assert Lines(body)[0..] == Lines(body);
    KeepsOutside(Lines(body), 0, false, line => IsTarget(heading, line), Opens);
    KeptAppend(BodyChunks(body, heading));
  }

  /** Applying the edit twice equals applying it once exactly when no line outside the
      section ends in a carriage return. */
  lemma ReplaceTwice(body: string, heading: string, content: string)
    requires PlainHeading(heading) && PlainContent(heading, content)
    ensures
      var once := Replaced(body, heading, content);
      Replaced(once, heading, content) == once <==> forall l :: l in OutsideLines(body, heading) ==> Chomp(l) == l
  {
    EditedTwice(body, heading, content);
    EditKeepsOutside(body, heading);
    ChompedShrinks(Edited(body, heading), SectionText(heading, content));
  }

  lemma ReturnOutside()
    ensures Lines("a\r\r\n") == ["a\r"] && !IsTarget("h", "a\r")
  {
    LineReadBack("a\r\r");
    assert "a\r\r\n" == "a\r\r" + "\n";
    assert "a\r\r"[..2] == "a\r";
    assert TrimStart("a\r") == "a\r";
    assert TrimEnd("a\r") != "" ==> TrimEnd("a\r")[0] == 'a';
  }

  /** A body where twice is not once: its only line ends in a carriage return of its own. */
  lemma ReplaceTwiceDiffers()
    ensures PlainHeading("h") && PlainContent("h", "c")
    ensures Replaced(Replaced("a\r\r\n", "h", "c"), "h", "c") != Replaced("a\r\r\n", "h", "c")
  {
    assert TrimStart("h") == "h" && TrimStart("c") == "c";
    WholeLine("c");
    assert Lines("c") == ["c"];
    ReturnOutside();
    assert Outside(["a\r"], 0, line => IsTarget("h", line), Opens) == ["a\r"];
    assert "a\r" in OutsideLines("a\r\r\n", "h");
    ReplaceTwice("a\r\r\n", "h", "c");
  }
}
