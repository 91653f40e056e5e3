/** Replacing one top-level section of a markdown body, line by line. */
module SectionEdit {
  import opened Text

  /** What the edit writes, in order: a line of the body, or the new section. */
  datatype Chunk = Kept(line: string) | Section

  /** The edit over `lines`, given which lines are the wanted heading and which open
      another top-level section. */
  function Chunks(lines: seq<string>, inTarget: bool, isTarget: string -> bool, opens: string -> bool): seq<Chunk> {
    if |lines| == 0 then []
    else if isTarget(lines[0]) then [Section] + Chunks(lines[1..], true, isTarget, opens)
    else if inTarget && !opens(lines[0]) then Chunks(lines[1..], true, isTarget, opens)
    else [Kept(lines[0])] + Chunks(lines[1..], false, isTarget, opens)
  }

  function SectionStart(heading: string): string {
    "# " + heading
  }

  predicate IsTarget(heading: string, line: string) {
    Trim(line) == SectionStart(heading)
  }

  predicate Opens(line: string) {
    "# " <= line
  }

  function Render(chunks: seq<Chunk>, section: string): string {
    if |chunks| == 0 then ""
    else (if chunks[0].Kept? then chunks[0].line + "\n" else section) + Render(chunks[1..], section)
  }

  /** The new section as written. */
  function SectionText(heading: string, content: string): string {
    SectionStart(heading) + "\n" + content + "\n"
  }

  function BodyChunks(body: string, heading: string): seq<Chunk> {
    Chunks(Lines(body), false, line => IsTarget(heading, line), Opens)
  }

  /** The edit: every such section replaced, or the section appended if there is none. */
  function Edited(body: string, heading: string): seq<Chunk> {
    var chunks := BodyChunks(body, heading);
    if Section in chunks then chunks else chunks + [Section]
  }

  function Replaced(body: string, heading: string, content: string): string {
    Render(Edited(body, heading), SectionText(heading, content))
  }

  // ---------------------------------------------------------------------
  // The loop.

  function Piece(chunk: Chunk, section: string): string {
    if chunk.Kept? then chunk.line + "\n" else section
  }

  lemma {:induction false} RenderOne(chunks: seq<Chunk>, chunk: Chunk, section: string)
    ensures Render(chunks + [chunk], section) == Render(chunks, section) + Piece(chunk, section)
  {
    if |chunks| == 0 {
      assert chunks + [chunk] == [chunk];
      assert Render([chunk], section) == Piece(chunk, section) + Render([], section);
    } else {
      assert (chunks + [chunk])[1..] == chunks[1..] + [chunk];
      RenderOne(chunks[1..], chunk, section);
    }
  }

  /** With `done` written, the edit of the lines from `k` on will end with `all`. */
  ghost predicate Editing(lines: seq<string>, k: nat, inTarget: bool, done: seq<Chunk>, all: seq<Chunk>,
                          isTarget: string -> bool, opens: string -> bool)
    decreases |lines| - k
  {
    if k >= |lines| then k == |lines| && done == all
    else if isTarget(lines[k]) then Editing(lines, k + 1, true, done + [Section], all, isTarget, opens)
    else if inTarget && !opens(lines[k]) then Editing(lines, k + 1, true, done, all, isTarget, opens)
    else Editing(lines, k + 1, false, done + [Kept(lines[k])], all, isTarget, opens)
  }

  lemma {:induction false} EditingAll(lines: seq<string>, k: nat, inTarget: bool, done: seq<Chunk>,
                                      isTarget: string -> bool, opens: string -> bool)
    requires k <= |lines|
    ensures Editing(lines, k, inTarget, done, done + Chunks(lines[k..], inTarget, isTarget, opens), isTarget, opens)
    decreases |lines| - k
  {
    if k == |lines| {
      assert done + [] == done;
    } else {
      assert lines[k..][1..] == lines[k + 1..];
      var rest := Chunks(lines[k + 1..], isTarget(lines[k]) || (inTarget && !opens(lines[k])), isTarget, opens);
      if isTarget(lines[k]) {
        assert done + ([Section] + rest) == (done + [Section]) + rest;
        EditingAll(lines, k + 1, true, done + [Section], isTarget, opens);
      } else if inTarget && !opens(lines[k]) {
        EditingAll(lines, k + 1, true, done, isTarget, opens);
      } else {
        assert done + ([Kept(lines[k])] + rest) == (done + [Kept(lines[k])]) + rest;
        EditingAll(lines, k + 1, false, done + [Kept(lines[k])], isTarget, opens);
      }
    }
  }

  lemma SectionPieces(out: string, heading: string, content: string)
    ensures out + SectionStart(heading) + "\n" + content + "\n" == out + SectionText(heading, content)
  {
  }

  method ReplaceSection(body: string, heading: string, content: string) returns (out: string)
    ensures out == Replaced(body, heading, content)
  {
    var replaced: bool;
    ghost var chunks;
    var section := SectionText(heading, content);
    out, replaced, chunks := EditLines(Lines(body), line => IsTarget(heading, line), Opens, section);
    if !replaced {
      EndsInNewline(chunks, section);
      RenderOne(chunks, Section, section);
      SectionPieces(out, heading, content);
      if out != "" && out[|out| - 1] != '\n' {
        out := out + "\n";
      }
      out := out + SectionStart(heading) + "\n" + content + "\n";
    }
  }

  method EditLines(lines: seq<string>, isTarget: string -> bool, opens: string -> bool, section: string)
    returns (out: string, replaced: bool, ghost chunks: seq<Chunk>)
    ensures chunks == Chunks(lines, false, isTarget, opens)
    ensures replaced <==> Section in chunks
    ensures out == Render(chunks, section)
  {
    out, replaced, chunks := "", false, [];
    var inTarget := false;
    ghost var all := Chunks(lines, false, isTarget, opens);
    EditingAll(lines, 0, false, [], isTarget, opens);
    assert lines[0..] == lines && [] + all == all;
    for k := 0 to |lines|
      invariant Editing(lines, k, inTarget, chunks, all, isTarget, opens)
      invariant replaced <==> Section in chunks
      invariant out == Render(chunks, section)
    {
      var line := lines[k];
      if isTarget(line) {
        inTarget := true;
        replaced := true;
        RenderOne(chunks, Section, section);
        chunks := chunks + [Section];
        out := out + section;
        continue;
      }
      if inTarget && opens(line) {
        inTarget := false;
      }
      if !inTarget {
        RenderOne(chunks, Kept(line), section);
        chunks := chunks + [Kept(line)];
        out := out + (line + "\n");
      }
    }
  }

  /** Rendered text ends in a newline, so the append never needs one of its own. */
  lemma {:induction false} EndsInNewline(chunks: seq<Chunk>, section: string)
    requires section != "" && section[|section| - 1] == '\n'
    ensures
      var out := Render(chunks, section);
      out != "" ==> out[|out| - 1] == '\n'
  {
    if |chunks| > 0 {
      EndsInNewline(chunks[1..], section);
    }
  }

  // ---------------------------------------------------------------------
  // What is kept.

  /** The last heading at or before line `k` that matters is the wanted one. */
  predicate InTargetSection(lines: seq<string>, k: nat, isTarget: string -> bool, opens: string -> bool)
    requires k < |lines|
  {
    exists t :: 0 <= t <= k && isTarget(lines[t]) && forall j :: t < j <= k ==> isTarget(lines[j]) || !opens(lines[j])
  }

  /** The lines outside the wanted sections, in order. */
  function Outside(lines: seq<string>, k: nat, isTarget: string -> bool, opens: string -> bool): seq<string>
    requires k <= |lines|
    decreases |lines| - k
  {
    if k == |lines| then []
    else
      var rest := Outside(lines, k + 1, isTarget, opens);
      if InTargetSection(lines, k, isTarget, opens) then rest else [lines[k]] + rest
  }

  function KeptLines(chunks: seq<Chunk>): seq<string> {
    if |chunks| == 0 then []
    else (if chunks[0].Kept? then [chunks[0].line] else []) + KeptLines(chunks[1..])
  }

  /** Every line outside the wanted sections is written, in order, and no other. */
  lemma {:induction false} KeepsOutside(lines: seq<string>, k: nat, inTarget: bool, isTarget: string -> bool,
                                        opens: string -> bool)
    requires k <= |lines|
    requires inTarget == (k > 0 && InTargetSection(lines, k - 1, isTarget, opens))
    ensures KeptLines(Chunks(lines[k..], inTarget, isTarget, opens)) == Outside(lines, k, isTarget, opens)
    decreases |lines| - k
  {
    if k < |lines| {
      assert lines[k..][1..] == lines[k + 1..];
      TargetStep(lines, k, isTarget, opens);
      KeepsOutside(lines, k + 1, InTargetSection(lines, k, isTarget, opens), isTarget, opens);
    }
  }

  lemma TargetStep(lines: seq<string>, k: nat, isTarget: string -> bool, opens: string -> bool)
    requires k < |lines|
    ensures InTargetSection(lines, k, isTarget, opens)
            <==> isTarget(lines[k]) || (k > 0 && InTargetSection(lines, k - 1, isTarget, opens) && !opens(lines[k]))
  {
  }
}
