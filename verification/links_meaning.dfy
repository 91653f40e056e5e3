/** What the link scanner gives back: which matches, in what order, and what masking makes
    of each line. */
module LinksMeaning {
  import opened Wrappers
  import opened Text
  import opened Links

  // ---------------------------------------------------------------------
  // The matches.

  /** A link: its opening bracket, its closing bracket and its closing parenthesis. */
  datatype Found = Found(open: nat, close: nat, end: nat)

  /** `[`, text without `]`, `](`, a target from `/` on without white space and
      parentheses, and `)`. */
  ghost predicate Stands(s: string, f: Found) {
    && f.open < f.close && f.close + 2 < f.end < |s|
    && s[f.open] == '[' && s[f.close] == ']' && s[f.close + 1] == '(' && s[f.close + 2] == '/' && s[f.end] == ')'
    && (forall p :: f.open < p < f.close ==> s[p] != ']')
    && (forall p :: f.close + 2 < p < f.end ==> !IsWhite(s[p]) && s[p] != '(' && s[p] != ')')
  }

  lemma StandsLink(s: string, f: Found)
    ensures Stands(s, f) <==> IsLink(s, f.open, f.close, f.end)
  {
    if f.open < f.close && f.close + 2 < f.end < |s| {
      assert forall p :: f.close + 2 < p < f.end ==>
        (EndsTarget(s[p]) <==> IsWhite(s[p]) || s[p] == '(' || s[p] == ')');
    }
  }

  ghost function LinksIn(s: string): Found -> bool {
    (f: Found) => Stands(s, f)
  }

  /** The links from `from` on that the scanner takes: left to right, apart, and every
      other link opens inside one of them. */
  ghost predicate Taken(links: Found -> bool, from: nat, all: seq<Found>) {
    && (forall i :: 0 <= i < |all| ==> from <= all[i].open && links(all[i]))
    && (forall i, j :: 0 <= i < j < |all| ==> all[i].end < all[j].open)
    && (forall p: nat :: from <= p && OpensSome(links, p) ==> OpensIn(all, p))
  }

  ghost predicate OpensSome(links: Found -> bool, p: nat) {
    exists f :: links(f) && f.open == p
  }

  predicate OpensIn(all: seq<Found>, p: nat) {
    exists i :: 0 <= i < |all| && all[i].open <= p <= all[i].end
  }

  predicate IsMarkdown(target: string) {
    |target| >= 3 && target[|target| - 3] == '.' && target[|target| - 2] == 'm' && target[|target| - 1] == 'd'
  }

  /** What stands between the parentheses, if it ends in `.md`. */
  function MarkdownTarget(s: string): Found -> seq<string> {
    (f: Found) =>
      if f.close + 2 <= f.end <= |s| && IsMarkdown(s[f.close + 2..f.end]) then [s[f.close + 2..f.end]] else []
  }

  /** What these links show, in order. */
  function Shown(all: seq<Found>, shows: Found -> seq<string>): seq<string> {
    if |all| == 0 then [] else Shown(all[..|all| - 1], shows) + shows(all[|all| - 1])
  }

  lemma CaptureIs(s: string, f: Found)
    requires Stands(s, f)
    ensures Capture(s[f.close + 2..f.end]) == MarkdownTarget(s)(f)
  {
    var target := s[f.close + 2..f.end];
    assert target[0] == '/';
    if |target| >= 3 {
      assert target[|target| - 3..] == ".md" <==> IsMarkdown(target);
    }
  }

  lemma ShownOne(all: seq<Found>, shows: Found -> seq<string>, f: Found)
    ensures Shown(all + [f], shows) == Shown(all, shows) + shows(f)
  {
    assert (all + [f])[..|all|] == all;
  }

  lemma LinkHere(s: string, i: nat) returns (f: Found)
    requires i < |s| && MatchAt(s, i).Some?
    ensures Stands(s, f) && f.open == i && MatchAt(s, i).value == (f.close + 2, f.end)
  {
    f := Found(i, MatchAt(s, i).value.0 - 2, MatchAt(s, i).value.1);
    BracketFirst(s, i + 1);
    TargetClear(s, f.close + 3);
    MatchExact(s, i, f.close, f.end);
    StandsLink(s, f);
  }

  lemma NoLinkAt(s: string, i: nat)
    requires i < |s| && MatchAt(s, i).None?
    ensures !OpensSome(LinksIn(s), i)
  {
    forall f: Found | Stands(s, f)
      ensures f.open != i
    {
      StandsLink(s, f);
      MatchExact(s, i, f.close, f.end);
    }
  }

  lemma TakenSkip(links: Found -> bool, i: nat, all: seq<Found>)
    requires Taken(links, i + 1, all) && !OpensSome(links, i)
    ensures Taken(links, i, all)
  {
  }

  lemma OpensCons(f: Found, all: seq<Found>, p: nat)
    ensures OpensIn([f] + all, p) <==> f.open <= p <= f.end || OpensIn(all, p)
  {
    var more := [f] + all;
    if OpensIn(all, p) {
      var i :| 0 <= i < |all| && all[i].open <= p <= all[i].end;
      assert more[i + 1] == all[i];
    }
    if f.open <= p <= f.end {
      assert more[0].open <= p <= more[0].end;
    }
  }

  lemma TakenOne(links: Found -> bool, f: Found, all: seq<Found>)
    requires links(f) && f.open <= f.end && Taken(links, f.end + 1, all)
    ensures Taken(links, f.open, [f] + all)
  {
    var more := [f] + all;
    forall p: nat | f.open <= p && OpensSome(links, p)
      ensures OpensIn(more, p)
    {
      OpensCons(f, all, p);
    }
    forall i | 0 <= i < |more|
      ensures f.open <= more[i].open && links(more[i])
    {
      assert i > 0 ==> more[i] == all[i - 1];
    }
    forall i, j | 0 <= i < j < |more|
      ensures more[i].end < more[j].open
    {
      assert more[j] == all[j - 1] && (i > 0 ==> more[i] == all[i - 1]);
    }
  }

  /** The scan, given what matches where and what a match shows. */
  function ScanFrom(n: nat, i: nat, found: seq<string>, matcher: nat -> Option<Found>, shows: Found -> seq<string>)
    : seq<string>
    decreases n - i
  {
    if i >= n then found
    else if matcher(i).None? || matcher(i).value.end < i then ScanFrom(n, i + 1, found, matcher, shows)
    else ScanFrom(n, matcher(i).value.end + 1, found + shows(matcher(i).value), matcher, shows)
  }

  function MatchIn(s: string): nat -> Option<Found> {
    (i: nat) =>
      if i < |s| && MatchAt(s, i).Some? && MatchAt(s, i).value.0 >= 2 then
        Some(Found(i, MatchAt(s, i).value.0 - 2, MatchAt(s, i).value.1))
      else None
  }

  lemma TargetsStep(s: string, i: nat, found: seq<string>, from: nat, end: nat)
    requires i < |s| && MatchAt(s, i) == Some((from, end)) && from <= end < |s|
    ensures Targets(s, i, found) == Targets(s, end + 1, found + Capture(s[from..end]))
  {
  }

  lemma TargetsSkip(s: string, i: nat, found: seq<string>)
    requires i < |s| && MatchAt(s, i).None?
    ensures Targets(s, i, found) == Targets(s, i + 1, found)
  {
  }

  lemma ScanStep(n: nat, i: nat, found: seq<string>, matcher: nat -> Option<Found>, shows: Found -> seq<string>,
                 f: Found)
    requires i < n && matcher(i) == Some(f) && f.end >= i
    ensures ScanFrom(n, i, found, matcher, shows) == ScanFrom(n, f.end + 1, found + shows(f), matcher, shows)
  {
  }

  lemma ScanSkip(n: nat, i: nat, found: seq<string>, matcher: nat -> Option<Found>, shows: Found -> seq<string>)
    requires i < n && matcher(i).None?
    ensures ScanFrom(n, i, found, matcher, shows) == ScanFrom(n, i + 1, found, matcher, shows)
  {
  }

  lemma SkipBoth(s: string, i: nat, found: seq<string>)
    requires i < |s| && MatchIn(s)(i).None?
    ensures Targets(s, i, found) == Targets(s, i + 1, found)
    ensures ScanFrom(|s|, i, found, MatchIn(s), MarkdownTarget(s))
            == ScanFrom(|s|, i + 1, found, MatchIn(s), MarkdownTarget(s))
  {
    MatchInIs(s, i);
    TargetsSkip(s, i, found);
    ScanSkip(|s|, i, found, MatchIn(s), MarkdownTarget(s));
  }

  lemma StepBoth(s: string, i: nat, found: seq<string>) returns (next: nat, more: seq<string>)
    requires i < |s| && MatchIn(s)(i).Some?
    ensures i < next <= |s| && Targets(s, i, found) == Targets(s, next, more)
    ensures ScanFrom(|s|, i, found, MatchIn(s), MarkdownTarget(s))
            == ScanFrom(|s|, next, more, MatchIn(s), MarkdownTarget(s))
  {
    var f := MatchFound(s, i);
    TargetsStep(s, i, found, f.close + 2, f.end);
    ScanStep(|s|, i, found, MatchIn(s), MarkdownTarget(s), f);
    next, more := f.end + 1, found + MarkdownTarget(s)(f);
  }

  lemma {:induction false} TargetsScan(s: string, i: nat, found: seq<string>)
    requires i <= |s|
    ensures Targets(s, i, found) == ScanFrom(|s|, i, found, MatchIn(s), MarkdownTarget(s))
    decreases |s| - i
  {
    if i < |s| {
      if MatchIn(s)(i).None? {
        SkipBoth(s, i, found);
        TargetsScan(s, i + 1, found);
      } else {
        var next, more := StepBoth(s, i, found);
        TargetsScan(s, next, more);
      }
    }
  }

  lemma MatchInIs(s: string, i: nat)
    requires i < |s|
    ensures MatchIn(s)(i).None? <==> MatchAt(s, i).None?
  {
    if MatchAt(s, i).Some? {
      var f := LinkHere(s, i);
    }
  }

  lemma MatchFound(s: string, i: nat) returns (f: Found)
    requires i < |s| && MatchIn(s)(i).Some?
    ensures f == MatchIn(s)(i).value && i < f.end < |s| && f.close + 2 <= f.end
    ensures MatchAt(s, i) == Some((f.close + 2, f.end)) && Capture(s[f.close + 2..f.end]) == MarkdownTarget(s)(f)
  {
    f := LinkHere(s, i);
    CaptureIs(s, f);
  }

  /** A match is a link, and where nothing matches no link opens. */
  ghost predicate Finds(n: nat, matcher: nat -> Option<Found>, links: Found -> bool) {
    forall i: nat :: i < n ==>
      if matcher(i).Some? then
        matcher(i).value.open == i && i <= matcher(i).value.end < n && links(matcher(i).value)
      else !OpensSome(links, i)
  }

  lemma FindsLinks(s: string)
    ensures Finds(|s|, MatchIn(s), LinksIn(s))
  {
    forall i: nat | i < |s|
      ensures if MatchIn(s)(i).Some? then
                && MatchIn(s)(i).value.open == i && i <= MatchIn(s)(i).value.end < |s|
                && LinksIn(s)(MatchIn(s)(i).value)
              else !OpensSome(LinksIn(s), i)
    {
      if MatchAt(s, i).None? {
        NoLinkAt(s, i);
      } else {
        var f := LinkHere(s, i);
      }
    }
  }

  lemma {:induction false} ScanTakes(n: nat, i: nat, before: seq<Found>, matcher: nat -> Option<Found>,
                                     shows: Found -> seq<string>, links: Found -> bool)
    returns (all: seq<Found>)
    requires i <= n && Finds(n, matcher, links) && forall f :: links(f) ==> f.open < n
    ensures Taken(links, i, all)
    ensures ScanFrom(n, i, Shown(before, shows), matcher, shows) == Shown(before + all, shows)
    decreases n - i
  {
    if i == n {
      all := [];
      assert before + all == before;
    } else if matcher(i).None? {
      ScanSkip(n, i, Shown(before, shows), matcher, shows);
      all := ScanTakes(n, i + 1, before, matcher, shows, links);
      TakenSkip(links, i, all);
    } else {
      var f := matcher(i).value;
      ShownOne(before, shows, f);
      ScanStep(n, i, Shown(before, shows), matcher, shows, f);
      var rest := ScanTakes(n, f.end + 1, before + [f], matcher, shows, links);
      TakenOne(links, f, rest);
      assert before + ([f] + rest) == before + [f] + rest;
      all := [f] + rest;
    }
  }

  /** The scanner gives the markdown targets of the links it takes in the masked body. */
  lemma ScanExact(body: string) returns (all: seq<Found>)
    ensures Taken(LinksIn(MaskCode(body)), 0, all)
    ensures ScanLinks(body) == Shown(all, MarkdownTarget(MaskCode(body)))
  {
    all := TargetsTaken(MaskCode(body));
  }

  lemma TargetsTaken(s: string) returns (all: seq<Found>)
    ensures Taken(LinksIn(s), 0, all) && Targets(s, 0, []) == Shown(all, MarkdownTarget(s))
  {
    TargetsScan(s, 0, []);
    FindsLinks(s);
    all := ScanTakes(|s|, 0, [], MatchIn(s), MarkdownTarget(s), LinksIn(s));
    assert [] + all == all;
  }

  // ---------------------------------------------------------------------
  // The mask, line by line.

  /** A line whose first characters that are not white space are three backticks. */
  predicate StartsFence(line: string) {
    |TrimStart(line)| >= 3 && forall i :: 0 <= i < 3 ==> TrimStart(line)[i] == '`'
  }

  /** How many characters of `s` are `low` or above. */
  function Above(s: string, low: char): nat {
    if s == "" then 0 else (if s[0] >= low then 1 else 0) + Above(s[1..], low)
  }

  /** A byte for each character, and one more from U+0080, U+0800 and U+10000 on. */
  function Bytes(s: string): nat {
    |s| + Above(s, '\U{80}') + Above(s, '\U{800}') + Above(s, '\U{10000}')
  }

  lemma {:induction false} BytesAre(s: string)
    ensures ByteLength(s) == Bytes(s)
  {
    if s != "" {
      BytesAre(s[1..]);
    }
  }

  /** What masking makes of line `n`: of code, a space for each byte; of any other line the
      line, its code spans blanked. */
  ghost predicate IsMaskOf(lines: seq<string>, n: nat, mask: string) {
    && n < |lines|
    && if StartsFence(lines[n]) || OddBefore(lines, n, StartsFence) then
         |mask| == Bytes(lines[n]) && forall p :: 0 <= p < |mask| ==> mask[p] == ' '
       else
         && |mask| == |lines[n]|
         && forall p :: 0 <= p < |mask| ==> mask[p] == if Covered(Spans(lines[n], 0), p) then ' ' else lines[n][p]
  }

  lemma FenceIs(line: string)
    ensures IsFenceLine(line) <==> StartsFence(line)
  {
    var ink := TrimStart(line);
    if |ink| >= 3 {
      assert "```" <= ink <==> ink[0] == '`' && ink[1] == '`' && ink[2] == '`';
    }
  }

  lemma {:induction false} FencesAre(lines: seq<string>, k: nat)
    requires k <= |lines|
    ensures FenceBefore(lines, k) == OddBefore(lines, k, StartsFence)
  {
    if k > 0 {
      FencesAre(lines, k - 1);
      FenceIs(lines[k - 1]);
    }
  }

  lemma LineMasked(lines: seq<string>, n: nat)
    requires n < |lines|
    ensures IsMaskOf(lines, n, MaskLine(lines[n], FenceBefore(lines, n)))
  {
    FencesAre(lines, n);
    FenceIs(lines[n]);
    BytesAre(lines[n]);
    MaskInlineExact(lines[n]);
  }

  function Masks(lines: seq<string>, k: nat): (r: seq<string>)
    requires k <= |lines|
    ensures |r| == k && forall n :: 0 <= n < k ==> r[n] == MaskLine(lines[n], FenceBefore(lines, n))
  {
    seq(k, n requires 0 <= n < k => MaskLine(lines[n], FenceBefore(lines, n)))
  }

  lemma ConcatOne(before: seq<string>, last: string)
    ensures Concat(before + [last]) == Concat(before) + last
  {
    ConcatAppend(before, [last]);
    assert Concat([last]) == last + Concat([]);
  }

  lemma {:induction false} MasksConcat(lines: seq<string>, k: nat)
    requires k <= |lines|
    ensures MaskedUpTo(lines, k) == Concat(Masks(lines, k))
  {
    if k > 0 {
      MasksConcat(lines, k - 1);
      ConcatOne(Masks(lines, k - 1), MaskLine(lines[k - 1], FenceBefore(lines, k - 1)));
      assert Masks(lines, k) == Masks(lines, k - 1) + [MaskLine(lines[k - 1], FenceBefore(lines, k - 1))];
    }
  }

  /** The masked body is its lines, each masked. */
  lemma MaskExact(body: string) returns (masks: seq<string>)
    ensures |masks| == |SplitInclusive(body)| && MaskCode(body) == Concat(masks)
    ensures forall n :: 0 <= n < |masks| ==> IsMaskOf(SplitInclusive(body), n, masks[n])
  {
    var lines := SplitInclusive(body);
    masks := Masks(lines, |lines|);
    MasksConcat(lines, |lines|);
    forall n | 0 <= n < |lines|
      ensures IsMaskOf(lines, n, masks[n])
    {
      LineMasked(lines, n);
    }
  }
}
