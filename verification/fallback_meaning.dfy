/** What the derived title and path of an add are, told from the texts they come from. */
module FallbackMeaning {
  import opened Wrappers
  import opened Text
  import opened TextMeaning
  import opened TextRuns
  import opened Trimming
  import opened Fallback

  // ---------------------------------------------------------------------
  // Slugs.

  predicate IsLowered(c: char, lowered: char) {
    if 'A' <= c <= 'Z' then lowered as int == c as int + 32 else lowered == c
  }

  function Lowered(s: string): (r: string)
    ensures |r| == |s| && forall i :: 0 <= i < |s| ==> IsLowered(s[i], r[i])
  {
    seq(|s|, i requires 0 <= i < |s| => LowerAscii(s[i]))
  }

  function AllLowered(runs: seq<string>): (r: seq<string>)
    ensures |r| == |runs| && forall i :: 0 <= i < |runs| ==> r[i] == Lowered(runs[i])
  {
    seq(|runs|, i requires 0 <= i < |runs| => Lowered(runs[i]))
  }

  /** A slug is the runs of letters and digits in the first 64 characters, lowered, with a
      dash between each two. */
  ghost predicate IsSlugOf(s: string, slug: string) {
    exists runs :: AreRuns(if |s| <= 64 then s else s[..64], 1, runs) && slug == Join(AllLowered(runs), '-')
  }

  predicate AllAlnum(s: string) {
    forall i :: 0 <= i < |s| ==> IsAlnum(s[i])
  }

  lemma {:induction false} RunsFilled(s: string, run: string)
    ensures forall i :: 0 <= i < |RunList(s, run, 1)| ==> RunList(s, run, 1)[i] != ""
    decreases |s|
  {
    if s != "" {
      RunsFilled(s[1..], if IsAlnum(s[0]) then run + [s[0]] else "");
    }
  }

  lemma NoDashEnd(s: string)
    requires AllAlnum(s)
    ensures TrimRight(Lowered(s), '-') == Lowered(s)
  {
    if s != "" {
      assert IsAlnum(s[|s| - 1]);
    }
  }

  lemma {:induction false} TrimRightBehind(front: string, dashed: string)
    requires front == "" || front[|front| - 1] != '-'
    ensures TrimRight(front + "-" + dashed, '-')
            == if TrimRight(dashed, '-') == "" then front else front + "-" + TrimRight(dashed, '-')
    decreases |dashed|
  {
    var s := front + "-" + dashed;
    if dashed == "" {
      assert s[..|s| - 1] == front;
    } else if dashed[|dashed| - 1] == '-' {
      assert s[..|s| - 1] == front + "-" + dashed[..|dashed| - 1];
      TrimRightBehind(front, dashed[..|dashed| - 1]);
    }
  }

  lemma JoinFirst(first: string, rest: seq<string>, c: char)
    ensures Join([first] + rest, c) == if rest == [] then first else first + [c] + Join(rest, c)
  {
    assert ([first] + rest)[1..] == rest;
  }

  lemma JoinFilled(parts: seq<string>, c: char)
    requires forall i :: 0 <= i < |parts| ==> parts[i] != ""
    ensures Join(parts, c) == "" <==> parts == []
  {
  }

  lemma LoweredFilled(runs: seq<string>)
    requires forall i :: 0 <= i < |runs| ==> runs[i] != ""
    ensures forall i :: 0 <= i < |runs| ==> AllLowered(runs)[i] != ""
  {
  }

  lemma RunGrows(s: string, run: string)
    requires s != "" && IsAlnum(s[0])
    ensures Lowered(run) + Dashed(s, run == "") == Lowered(run + [s[0]]) + Dashed(s[1..], false)
    ensures RunList(s, run, 1) == RunList(s[1..], run + [s[0]], 1)
  {
    assert Lowered(run + [s[0]]) == Lowered(run) + [LowerAscii(s[0])];
    assert Lowered(run) + ([LowerAscii(s[0])] + Dashed(s[1..], false))
        == Lowered(run) + [LowerAscii(s[0])] + Dashed(s[1..], false);
  }

  lemma NoRunYet(s: string)
    requires s != "" && !IsAlnum(s[0])
    ensures Lowered("") + Dashed(s, true) == Dashed(s[1..], true)
    ensures RunList(s, "", 1) == RunList(s[1..], "", 1)
  {
    assert [] + RunList(s[1..], "", 1) == RunList(s[1..], "", 1);
  }

  lemma RunEnds(run: string)
    requires AllAlnum(run)
    ensures TrimRight(Lowered(run) + Dashed("", run == ""), '-') == Join(AllLowered(RunList("", run, 1)), '-')
  {
    assert Lowered(run) + "" == Lowered(run);
    NoDashEnd(run);
    if run == "" {
      assert AllLowered(RunList("", run, 1)) == [];
    } else {
      assert AllLowered([run]) == [Lowered(run)];
    }
  }

  /** The text dashed, the run before it still growing. */
  lemma {:induction false} DashedRuns(s: string, run: string)
    requires AllAlnum(run)
    ensures TrimRight(Lowered(run) + Dashed(s, run == ""), '-') == Join(AllLowered(RunList(s, run, 1)), '-')
    decreases |s|
  {
    if s == "" {
      RunEnds(run);
    } else if IsAlnum(s[0]) {
      DashedRuns(s[1..], run + [s[0]]);
      RunGrows(s, run);
    } else {
      DashedRuns(s[1..], "");
      assert Lowered("") + Dashed(s[1..], true) == Dashed(s[1..], true);
      if run == "" {
        NoRunYet(s);
      } else {
        RunDone(s, run);
      }
    }
  }

  lemma RunListDone(s: string, run: string)
    requires s != "" && !IsAlnum(s[0]) && run != ""
    ensures RunList(s, run, 1) == [run] + RunList(s[1..], "", 1)
  {
  }

  lemma JoinedDone(front: string, dashed: string, rest: seq<string>)
    requires front != "" && front[|front| - 1] != '-' && TrimRight(dashed, '-') == Join(rest, '-')
    requires forall i :: 0 <= i < |rest| ==> rest[i] != ""
    ensures TrimRight(front + ("-" + dashed), '-') == Join([front] + rest, '-')
  {
    JoinFilled(rest, '-');
    JoinFirst(front, rest, '-');
    Dashing(front, dashed, Join(rest, '-'));
  }

  lemma Dashing(front: string, dashed: string, joined: string)
    requires front != "" && front[|front| - 1] != '-' && TrimRight(dashed, '-') == joined
    ensures TrimRight(front + ("-" + dashed), '-') == if joined == "" then front else front + ['-'] + joined
  {
    TrimRightBehind(front, dashed);
    assert front + ("-" + dashed) == front + "-" + dashed;
  }

  lemma RunDone(s: string, run: string)
    requires s != "" && !IsAlnum(s[0]) && run != "" && AllAlnum(run)
    requires TrimRight(Dashed(s[1..], true), '-') == Join(AllLowered(RunList(s[1..], "", 1)), '-')
    ensures TrimRight(Lowered(run) + Dashed(s, false), '-') == Join(AllLowered(RunList(s, run, 1)), '-')
  {
    var rest := RunList(s[1..], "", 1);
    assert IsAlnum(run[|run| - 1]);
    RunsFilled(s[1..], "");
    LoweredFilled(rest);
    JoinedDone(Lowered(run), Dashed(s[1..], true), AllLowered(rest));
    RunListDone(s, run);
    assert AllLowered([run] + rest) == [Lowered(run)] + AllLowered(rest);
  }

  lemma SlugExact(s: string)
    ensures IsSlugOf(s, Slugify(s))
  {
    var head := if |s| <= 64 then s else s[..64];
    var dashed := Dashed(head, true);
    DashedShape(head, true);
    assert TrimLeft(dashed, '-') == dashed;
    DashedRuns(head, "");
    assert Lowered("") + dashed == dashed;
    RunListed(head, 1);
    assert AreRuns(head, 1, RunList(head, "", 1));
  }

  /** There is one such slug. */
  lemma SlugUnique(s: string, one: string, other: string)
    requires IsSlugOf(s, one) && IsSlugOf(s, other)
    ensures one == other
  {
    var head := if |s| <= 64 then s else s[..64];
    var a :| AreRuns(head, 1, a) && one == Join(AllLowered(a), '-');
    var b :| AreRuns(head, 1, b) && other == Join(AllLowered(b), '-');
    RunsUnique(head, 1, a, b);
  }

  // ---------------------------------------------------------------------
  // The title.

  /** The first line that is not all white space: up to 80 characters of it, without the
      white space around them; `untitled` if every line is blank. */
  ghost predicate IsTitleOf(content: string, title: string) {
    var lines := Lines(content);
    || (title == "untitled" && forall i :: 0 <= i < |lines| ==> AllWhite(lines[i]))
    || (exists k, before, after :: CutsTitle(lines, k, before, title, after))
  }

  ghost predicate CutsTitle(lines: seq<string>, k: nat, before: string, title: string, after: string) {
    && k < |lines| && !AllWhite(lines[k]) && (forall i :: 0 <= i < k ==> AllWhite(lines[i]))
    && Around(if |lines[k]| <= 80 then lines[k] else lines[k][..80], before, title, after)
  }

  lemma BlankIs(line: string)
    ensures Trim(line) == "" <==> AllWhite(line)
  {
    var before, after := TrimCut(line);
    if AllWhite(line) {
      TrimStartWhite(line);
    }
    assert forall c :: c in line ==> c in before || c in Trim(line) || c in after;
  }

  lemma {:induction false} FirstFilledAt(lines: seq<string>) returns (k: nat)
    ensures k <= |lines| && forall i :: 0 <= i < k ==> AllWhite(lines[i])
    ensures if k == |lines| then FirstFilled(lines) == "untitled"
            else !AllWhite(lines[k]) && FirstFilled(lines) == lines[k]
  {
    if |lines| == 0 {
      k := 0;
    } else {
      BlankIs(lines[0]);
      if AllWhite(lines[0]) {
        var rest := FirstFilledAt(lines[1..]);
        k := rest + 1;
      } else {
        k := 0;
      }
    }
  }

  lemma TitleExact(content: string)
    ensures IsTitleOf(content, DeriveTitle(content))
  {
    var lines := Lines(content);
    var k := FirstFilledAt(lines);
    var before, after := TrimCut(Limit(FirstFilled(lines), 80));
    if k == |lines| {
      TrimIs("untitled", "", "untitled", "");
    } else {
      assert CutsTitle(lines, k, before, DeriveTitle(content), after);
    }
  }

  // ---------------------------------------------------------------------
  // The path.

  /** The slugs of the parts, those that have one. */
  function Slugs(parts: seq<string>): (r: seq<string>)
    ensures forall i :: 0 <= i < |r| ==> r[i] != ""
  {
    if |parts| == 0 then []
    else (if Slugify(parts[0]) == "" then [] else [Slugify(parts[0])]) + Slugs(parts[1..])
  }

  lemma {:induction false} JoinSlugsAre(parts: seq<string>)
    ensures JoinSlugs(parts) == Join(Slugs(parts), '/')
  {
    if |parts| > 0 {
      JoinSlugsAre(parts[1..]);
      JoinFilled(Slugs(parts[1..]), '/');
      if Slugify(parts[0]) != "" {
        JoinFirst(Slugify(parts[0]), Slugs(parts[1..]), '/');
      } else {
        assert [] + Slugs(parts[1..]) == Slugs(parts[1..]);
      }
    }
  }

  lemma {:induction false} SlugsAppend(parts: seq<string>, more: seq<string>)
    ensures Slugs(parts + more) == Slugs(parts) + Slugs(more)
  {
    if |parts| == 0 {
      assert parts + more == more;
    } else {
      assert (parts + more)[1..] == parts[1..] + more;
      SlugsAppend(parts[1..], more);
    }
  }

  lemma NoSlug()
    ensures Slugify("") == "" && Slugs([""]) == []
  {
  }

  lemma {:induction false} LeftSlashes(p: string)
    ensures Slugs(SplitOn(TrimLeft(p, '/'), '/')) == Slugs(SplitOn(p, '/'))
  {
    if p != "" && p[0] == '/' {
      LeftSlashes(p[1..]);
      NoSlug();
      assert SplitOn(p, '/') == [""] + SplitOn(p[1..], '/');
      SlugsAppend([""], SplitOn(p[1..], '/'));
    }
  }

  lemma {:induction false} SplitOnEnd(p: string, c: char)
    ensures SplitOn(p + [c], c) == SplitOn(p, c) + [""]
    decreases |p|
  {
    var (front, back) := SplitOnce(p, c);
    if back.None? {
      SplitOnceAt(p, c, "");
      assert p + [c] + "" == p + [c];
      SplitOnceNowhere("", c);
    } else {
      assert p + [c] == front + [c] + (back.value + [c]);
      SplitOnceAt(front, c, back.value + [c]);
      SplitOnEnd(back.value, c);
    }
  }

  lemma {:induction false} RightSlashes(p: string)
    ensures Slugs(SplitOn(TrimRight(p, '/'), '/')) == Slugs(SplitOn(p, '/'))
  {
    if p != "" && p[|p| - 1] == '/' {
      var front := p[..|p| - 1];
      RightSlashes(front);
      NoSlug();
      assert p == front + ['/'];
      SplitOnEnd(front, '/');
      SlugsAppend(SplitOn(front, '/'), [""]);
    }
  }

  /** A path hint is slugged part by part: what has no slug, as the nothing between two
      slashes, leaves none behind. */
  lemma HintExact(hint: string)
    ensures PathSlug(hint) == Join(Slugs(SplitOn(hint, '/')), '/')
  {
    LeftSlashes(hint);
    RightSlashes(TrimLeft(hint, '/'));
    JoinSlugsAre(SplitOn(TrimRight(TrimLeft(hint, '/'), '/'), '/'));
  }

  /** The path: a slash, the shelf's slug and a slash if there is one, then the hint's slugs
      or, without any, the title's, and the extension. */
  lemma PathExact(pathHint: Option<string>, shelf: Option<string>, content: string)
    returns (shelfSlug: string, hintSlug: string, title: string, titleSlug: string)
    ensures shelf.Some? ==> IsSlugOf(shelf.value, shelfSlug)
    ensures pathHint.Some? ==> hintSlug == Join(Slugs(SplitOn(pathHint.value, '/')), '/')
    ensures IsTitleOf(content, title) && IsSlugOf(title, titleSlug)
    ensures DerivePath(pathHint, shelf, content)
            == "/" + (if shelf.None? || shelfSlug == "" then "" else shelfSlug + "/")
               + (if pathHint.None? || hintSlug == "" then titleSlug else hintSlug) + ".md"
  {
    shelfSlug := if shelf.Some? then Slugify(shelf.value) else "";
    hintSlug := if pathHint.Some? then PathSlug(pathHint.value) else "";
    title := DeriveTitle(content);
    titleSlug := Slugify(title);
    TitleExact(content);
    SlugExact(title);
    if shelf.Some? {
      SlugExact(shelf.value);
    }
    if pathHint.Some? {
      HintExact(pathHint.value);
    }
  }

  /** The second path tried and all later ones: a dash and the number in front of the
      extension. */
  lemma CandidateExact(pathHint: Option<string>, shelf: Option<string>, content: string, k: nat)
    ensures
      var base := DerivePath(pathHint, shelf, content);
      && (k <= 1 ==> Candidate(base, k) == base)
      && (k >= 2 ==> |base| >= 3 && Candidate(base, k) == base[..|base| - 3] + "-" + ToDecimal(k) + ".md")
  {
    var stem := DerivedStem(pathHint, shelf, content);
    DerivedTrim(pathHint, shelf, content);
    assert (stem + ".md")[..|stem|] == stem;
  }

  // ---------------------------------------------------------------------
  // The concept.

  /** The kind: the one asked for, without the white space around it, or a note. */
  lemma KindExact(conceptType: Option<string>) returns (before: string, after: string)
    ensures conceptType.None? || AllWhite(conceptType.value) ==> KindOf(conceptType) == "Note"
    ensures conceptType.Some? && !AllWhite(conceptType.value) ==>
              Around(conceptType.value, before, KindOf(conceptType), after)
  {
    before, after := "", "";
    if conceptType.Some? {
      BlankIs(conceptType.value);
      before, after := TrimCut(conceptType.value);
    }
  }
}
