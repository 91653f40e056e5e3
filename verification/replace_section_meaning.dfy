/** What replacing a section writes, line by line of the body. */
module SectionEditMeaning {
  import opened Text
  import opened SectionEdit
  import opened SectionEditTheorems

  /** The line is, white space around it aside, `# ` and the heading. */
  predicate IsHeading(line: string, heading: string) {
    Trim(line) == "# " + heading
  }

  /** The line opens a top-level section: it starts with `# `. */
  predicate OpensSection(line: string) {
    |line| >= 2 && line[0] == '#' && line[1] == ' '
  }

  /** Line `k` lies in the section: the heading stands at or before it, and no line between
      them, itself included, opens another. */
  ghost predicate InSection(lines: seq<string>, k: nat, heading: string) {
    exists t: nat :: HeadsUpTo(lines, t, k, heading)
  }

  ghost predicate HeadsUpTo(lines: seq<string>, t: nat, k: nat, heading: string) {
    && t <= k < |lines| && IsHeading(lines[t], heading)
    && forall j :: t < j <= k ==> IsHeading(lines[j], heading) || !OpensSection(lines[j])
  }

  /** The heading, the content, and a newline behind each. */
  function NewSection(heading: string, content: string): string {
    "# " + heading + "\n" + content + "\n"
  }

  /** What is written for line `k`: the new section for the heading, nothing for the rest
      of the section, and any other line as it is. */
  ghost function Writes(lines: seq<string>, k: nat, heading: string, content: string): string
    requires k < |lines|
  {
    if IsHeading(lines[k], heading) then NewSection(heading, content)
    else if InSection(lines, k, heading) then ""
    else lines[k] + "\n"
  }

  ghost function WritesFrom(lines: seq<string>, k: nat, heading: string, content: string): string
    requires k <= |lines|
    decreases |lines| - k
  {
    if k == |lines| then "" else Writes(lines, k, heading, content) + WritesFrom(lines, k + 1, heading, content)
  }

  lemma OpensIs(line: string)
    ensures Opens(line) <==> OpensSection(line)
  {
    if |line| >= 2 {
      assert "# " <= line <==> line[0] == '#' && line[1] == ' ';
    }
  }

  lemma InIs(lines: seq<string>, k: nat, heading: string)
    requires k < |lines|
    ensures InSection(lines, k, heading)
            <==> InTargetSection(lines, k, line => IsTarget(heading, line), Opens)
  {
    forall j | 0 <= j < |lines|
      ensures Opens(lines[j]) <==> OpensSection(lines[j])
    {
      OpensIs(lines[j]);
    }
    if InSection(lines, k, heading) {
      var t: nat :| HeadsUpTo(lines, t, k, heading);
    }
    if t :| 0 <= t <= k && IsTarget(heading, lines[t])
            && forall j :: t < j <= k ==> IsTarget(heading, lines[j]) || !Opens(lines[j]) {
      assert HeadsUpTo(lines, t, k, heading);
    }
  }

  lemma InStep(lines: seq<string>, k: nat, heading: string)
    requires k < |lines|
    ensures InSection(lines, k, heading)
            <==> IsHeading(lines[k], heading) || (k > 0 && InSection(lines, k - 1, heading) && !Opens(lines[k]))
  {
    InIs(lines, k, heading);
    if k > 0 {
      InIs(lines, k - 1, heading);
    }
    TargetStep(lines, k, line => IsTarget(heading, line), Opens);
  }

  lemma {:induction false} RenderWrites(lines: seq<string>, k: nat, inTarget: bool, heading: string, content: string)
    requires k <= |lines| && inTarget == (k > 0 && InSection(lines, k - 1, heading))
    ensures Render(Chunks(lines[k..], inTarget, line => IsTarget(heading, line), Opens), SectionText(heading, content))
            == WritesFrom(lines, k, heading, content)
    decreases |lines| - k
  {
    if k < |lines| {
      assert lines[k..][1..] == lines[k + 1..];
      RenderWrites(lines, k + 1, InSection(lines, k, heading), heading, content);
      InStep(lines, k, heading);
    }
  }

  lemma {:induction false} SectionThere(lines: seq<string>, inTarget: bool, isTarget: string -> bool,
                                        opens: string -> bool)
    ensures Section in Chunks(lines, inTarget, isTarget, opens) <==> exists l :: l in lines && isTarget(l)
  {
    if |lines| > 0 {
      SectionThere(lines[1..], true, isTarget, opens);
      SectionThere(lines[1..], false, isTarget, opens);
      assert forall l :: l in lines <==> l == lines[0] || l in lines[1..];
    }
  }

  /** The edit writes what it writes for each line, in order, and the new section behind
      them all if the heading stands nowhere. */
  lemma ReplaceExact(body: string, heading: string, content: string)
    ensures Replaced(body, heading, content)
            == WritesFrom(Lines(body), 0, heading, content)
               + if exists l :: l in Lines(body) && IsHeading(l, heading) then "" else NewSection(heading, content)
  {
    var lines := Lines(body);
    assert lines[0..] == lines;
    RenderWrites(lines, 0, false, heading, content);
    SectionThere(lines, false, line => IsTarget(heading, line), Opens);
    var chunks := BodyChunks(body, heading);
    RenderOne(chunks, Section, SectionText(heading, content));
  }
}
