/** Code masking and the link scanner. */
module Links {
  import opened Wrappers
  import opened Text

  // ---------------------------------------------------------------------
  // Code spans of one line.

  /** The end of the run of backticks at `k`. */
  function RunEnd(s: string, k: nat): (end: nat)
    requires k <= |s|
    ensures k <= end <= |s|
    ensures end < |s| ==> s[end] != '`'
    decreases |s| - k
  {
    if k < |s| && s[k] == '`' then RunEnd(s, k + 1) else k
  }

  /** The end of the first run of exactly `n` backticks at or after `k`. */
  function FindClose(s: string, k: nat, n: nat): (end: Option<nat>)
    requires k <= |s|
    ensures end.Some? ==> k < end.value <= |s| || (n == 0 && end.value <= |s|)
    decreases |s| - k
  {
    if k == |s| then None
    else if s[k] != '`' then FindClose(s, k + 1, n)
    else if RunEnd(s, k) - k == n then Some(RunEnd(s, k))
    else FindClose(s, RunEnd(s, k), n)
  }

  /** Where the span opened by the run at `k` ends; unclosed, the end of the line. */
  function SpanEnd(s: string, k: nat): (end: nat)
    requires k < |s| && s[k] == '`'
    ensures k < end <= |s|
  {
    match FindClose(s, RunEnd(s, k), RunEnd(s, k) - k)
    case Some(end) => end
    case None => |s|
  }

  function Spaces(n: nat): (r: string)
    ensures |r| == n
    ensures forall p :: 0 <= p < n ==> r[p] == ' '
  {
    seq(n, _ => ' ')
  }

  /** The line from `k` on, its code spans blanked. */
  function Mask(s: string, k: nat): (r: string)
    requires k <= |s|
    ensures |r| == |s| - k
    decreases |s| - k
  {
    if k == |s| then ""
    else if s[k] == '`' then Spaces(SpanEnd(s, k) - k) + Mask(s, SpanEnd(s, k))
    else [s[k]] + Mask(s, k + 1)
  }

  function MaskInline(line: string): string {
    Mask(line, 0)
  }

  method MaskInlineCode(line: string) returns (out: string)
    ensures out == MaskInline(line)
  {
    out := "";
    var i: nat := 0;
    while i < |line|
      invariant i <= |line|
      invariant out + Mask(line, i) == Mask(line, 0)
      decreases |line| - i
    {
      if line[i] == '`' {
        var runStart := i;
        i := ScanRun(line, i);
        var closed := ScanForClose(line, i, i - runStart);
        var end := if closed.Some? then closed.value else |line|;
        assert end == SpanEnd(line, runStart);
        assert out + (Spaces(end - runStart) + Mask(line, end)) == (out + Spaces(end - runStart)) + Mask(line, end);
        var blanks := Blank(end - runStart);
        out := out + blanks;
        i := end;
      } else {
        assert out + ([line[i]] + Mask(line, i + 1)) == (out + [line[i]]) + Mask(line, i + 1);
        out := out + [line[i]];
        i := i + 1;
      }
    }
    assert out + "" == out;
  }

  method ScanRun(line: string, start: nat) returns (i: nat)
    requires start <= |line|
    ensures i == RunEnd(line, start)
  {
    i := start;
    while i < |line| && line[i] == '`'
      invariant start <= i <= |line|
      invariant RunEnd(line, start) == RunEnd(line, i)
    {
      i := i + 1;
    }
  }

  method ScanForClose(line: string, start: nat, runLen: nat) returns (closed: Option<nat>)
    requires start <= |line|
    ensures closed == FindClose(line, start, runLen)
  {
    var j := start;
    closed := None;
    while j < |line|
      invariant start <= j <= |line|
      invariant FindClose(line, start, runLen) == FindClose(line, j, runLen)
    {
      if line[j] == '`' {
        var closeStart := j;
        j := ScanRun(line, j);
        if j - closeStart == runLen {
          return Some(j);
        }
      } else {
        j := j + 1;
      }
    }
  }

  method Blank(n: nat) returns (out: string)
    ensures out == Spaces(n)
  {
    out := "";
    for k := 0 to n
      invariant out == Spaces(k)
    {
      out := out + " ";
    }
  }

  // ---------------------------------------------------------------------
  // What a code span is, in words of runs alone.

  /** A whole run of `n` backticks at `a`: not part of a longer one. */
  ghost predicate IsRun(s: string, a: nat, n: nat) {
    && 0 < n && a + n <= |s|
    && (forall p :: a <= p < a + n ==> s[p] == '`')
    && (a > 0 ==> s[a - 1] != '`')
    && (a + n < |s| ==> s[a + n] != '`')
  }

  /** No whole run of `n` backticks starts in `[from, before)`. */
  ghost predicate NoRun(s: string, from: nat, before: nat, n: nat) {
    forall a: nat :: from <= a < before ==> !IsRun(s, a, n)
  }

  /** A span whose opening run of `n` ends at `r` ends at `e`: behind the next whole run
      of `n` backticks, or at the end of the line if there is none. */
  ghost predicate Closes(s: string, r: nat, n: nat, e: nat) {
    || (r + n <= e && IsRun(s, e - n, n) && NoRun(s, r, e - n, n))
    || (e == |s| && NoRun(s, r, |s|, n))
  }

  /** `[i, e)` is a code span. */
  ghost predicate IsSpan(s: string, i: nat, e: nat) {
    exists n: nat :: IsRun(s, i, n) && Closes(s, i + n, n, e)
  }

  lemma {:induction false} AllTicks(s: string, k: nat)
    requires k <= |s|
    ensures forall p :: k <= p < RunEnd(s, k) ==> s[p] == '`'
    decreases |s| - k
  {
    if k < |s| && s[k] == '`' {
      AllTicks(s, k + 1);
    }
  }

  /** A run is the only one that starts anywhere in it. */
  lemma OnlyRun(s: string, k: nat, n: nat)
    requires k < |s| && s[k] == '`' && (k > 0 ==> s[k - 1] != '`')
    ensures IsRun(s, k, RunEnd(s, k) - k)
    ensures RunEnd(s, k) - k != n ==> NoRun(s, k, RunEnd(s, k), n)
  {
    var r := RunEnd(s, k);
    AllTicks(s, k);
    forall a: nat | k <= a < r && IsRun(s, a, n)
      ensures r - k == n
    {
    }
  }

  lemma ClosesEarlier(s: string, from: nat, r: nat, n: nat, e: nat)
    requires 0 < n && from <= r <= |s| && NoRun(s, from, r, n) && Closes(s, r, n, e)
    ensures Closes(s, from, n, e)
  {
  }

  lemma {:induction false} FindCloseMeans(s: string, k: nat, n: nat)
    requires 0 < n && k <= |s| && (0 < k < |s| && s[k] == '`' ==> s[k - 1] != '`')
    ensures Closes(s, k, n, match FindClose(s, k, n) case Some(e) => e case None => |s|)
    decreases |s| - k
  {
    if k < |s| {
      if s[k] != '`' {
        FindCloseMeans(s, k + 1, n);
        assert NoRun(s, k, k + 1, n);
        ClosesEarlier(s, k, k + 1, n, match FindClose(s, k, n) case Some(e) => e case None => |s|);
      } else {
        OnlyRun(s, k, n);
        if RunEnd(s, k) - k != n {
          FindCloseMeans(s, RunEnd(s, k), n);
          ClosesEarlier(s, k, RunEnd(s, k), n, match FindClose(s, k, n) case Some(e) => e case None => |s|);
        }
      }
    }
  }

  lemma SpanEndMeans(s: string, k: nat)
    requires k < |s| && s[k] == '`' && (k > 0 ==> s[k - 1] != '`')
    ensures IsSpan(s, k, SpanEnd(s, k))
  {
    OnlyRun(s, k, 0);
    FindCloseMeans(s, RunEnd(s, k), RunEnd(s, k) - k);
  }

  datatype Span = Span(start: nat, end: nat)

  /** The spans from `k` on. */
  function Spans(s: string, k: nat): seq<Span>
    requires k <= |s|
    decreases |s| - k
  {
    if k == |s| then []
    else if s[k] == '`' then [Span(k, SpanEnd(s, k))] + Spans(s, SpanEnd(s, k))
    else Spans(s, k + 1)
  }

  predicate Covered(spans: seq<Span>, p: nat) {
    exists i :: 0 <= i < |spans| && spans[i].start <= p < spans[i].end
  }

  /** The spans are code spans, in order and apart, and every backtick is in one. */
  lemma {:induction false} SpansExact(s: string, k: nat)
    requires k <= |s| && (0 < k < |s| && s[k] == '`' ==> s[k - 1] != '`')
    ensures forall i :: 0 <= i < |Spans(s, k)| ==>
              k <= Spans(s, k)[i].start && IsSpan(s, Spans(s, k)[i].start, Spans(s, k)[i].end)
    ensures forall i, j :: 0 <= i < j < |Spans(s, k)| ==> Spans(s, k)[i].end <= Spans(s, k)[j].start
    ensures forall p :: k <= p < |s| && s[p] == '`' ==> Covered(Spans(s, k), p)
    decreases |s| - k
  {
    if k < |s| {
      if s[k] == '`' {
        SpanEndMeans(s, k);
        var rest := Spans(s, SpanEnd(s, k));
        SpansExact(s, SpanEnd(s, k));
        CoveredCons(Span(k, SpanEnd(s, k)), rest);
      } else {
        SpansExact(s, k + 1);
      }
    }
  }

  lemma CoveredCons(first: Span, rest: seq<Span>)
    ensures forall p: nat :: Covered([first] + rest, p) <==> first.start <= p < first.end || Covered(rest, p)
  {
    forall p: nat
      ensures Covered([first] + rest, p) <==> first.start <= p < first.end || Covered(rest, p)
    {
      var all := [first] + rest;
      if Covered(rest, p) {
        var i :| 0 <= i < |rest| && rest[i].start <= p < rest[i].end;
        assert all[i + 1] == rest[i];
      }
      if first.start <= p < first.end {
        assert all[0].start <= p < all[0].end;
      }
    }
  }

  lemma CoveredFrom(s: string, k: nat, p: nat)
    requires k <= |s| && (0 < k < |s| && s[k] == '`' ==> s[k - 1] != '`')
    ensures p < k ==> !Covered(Spans(s, k), p)
    ensures k < |s| && s[k] == '`' ==>
              (Covered(Spans(s, k), p) <==> k <= p < SpanEnd(s, k) || Covered(Spans(s, SpanEnd(s, k)), p))
  {
    SpansExact(s, k);
    if k < |s| && s[k] == '`' {
      CoveredCons(Span(k, SpanEnd(s, k)), Spans(s, SpanEnd(s, k)));
    }
  }

  lemma SpanEndApart(s: string, k: nat)
    requires k < |s| && s[k] == '`' && (k > 0 ==> s[k - 1] != '`')
    ensures var e := SpanEnd(s, k); e < |s| ==> s[e] != '`'
  {
    SpanEndMeans(s, k);
  }

  /** Masking blanks exactly the spans. */
  lemma {:induction false} MaskAt(s: string, k: nat, p: nat)
    requires k <= p < |s| && (0 < k < |s| && s[k] == '`' ==> s[k - 1] != '`')
    ensures Mask(s, k)[p - k] == if Covered(Spans(s, k), p) then ' ' else s[p]
    decreases |s| - k
  {
    CoveredFrom(s, k, p);
    if s[k] == '`' {
      var end := SpanEnd(s, k);
      if p >= end {
        SpanEndApart(s, k);
        MaskAt(s, end, p);
        assert Mask(s, k)[p - k] == Mask(s, end)[p - end];
      }
    } else if p > k {
      MaskAt(s, k + 1, p);
    } else {
      CoveredFrom(s, k + 1, p);
    }
  }

  /** Inline masking keeps the length, blanks exactly the code spans, and leaves no
      backtick. */
  lemma MaskInlineExact(line: string)
    ensures |MaskInline(line)| == |line|
    ensures forall p :: 0 <= p < |line| ==> MaskInline(line)[p] == if Covered(Spans(line, 0), p) then ' ' else line[p]
    ensures '`' !in MaskInline(line)
  {
    SpansExact(line, 0);
    forall p | 0 <= p < |line|
      ensures MaskInline(line)[p] == if Covered(Spans(line, 0), p) then ' ' else line[p]
    {
      MaskAt(line, 0, p);
    }
  }

  // ---------------------------------------------------------------------
  // Masking a body.

  /** The bytes a character takes in UTF-8. */
  function Utf8Length(c: char): nat {
    if c < '\U{80}' then 1 else if c < '\U{800}' then 2 else if c < '\U{10000}' then 3 else 4
  }

  function ByteLength(s: string): nat {
    if s == "" then 0 else Utf8Length(s[0]) + ByteLength(s[1..])
  }

  function IsFenceLine(line: string): bool {
    "```" <= TrimStart(line)
  }

  /** A line masked: a fence line, and any line inside a fence, becomes one space for
      each of its bytes, its newline included. */
  function MaskLine(line: string, inFence: bool): string {
    if inFence || IsFenceLine(line) then Spaces(ByteLength(line)) else MaskInline(line)
  }

  function FenceBefore(lines: seq<string>, k: nat): bool
    requires k <= |lines|
  {
    OddBefore(lines, k, IsFenceLine)
  }

  function MaskedUpTo(lines: seq<string>, k: nat): string
    requires k <= |lines|
  {
    if k == 0 then "" else MaskedUpTo(lines, k - 1) + MaskLine(lines[k - 1], FenceBefore(lines, k - 1))
  }

  function MaskCode(body: string): string {
    MaskedUpTo(SplitInclusive(body), |SplitInclusive(body)|)
  }

  method MaskBody(body: string) returns (out: string)
    ensures out == MaskCode(body)
  {
    out := MaskLines(SplitInclusive(body));
  }

  method MaskLines(lines: seq<string>) returns (out: string)
    ensures out == MaskedUpTo(lines, |lines|)
  {
    out := "";
    var inFence := false;
    for k := 0 to |lines|
      invariant out == MaskedUpTo(lines, k) && inFence == FenceBefore(lines, k)
    {
      var line := lines[k];
      if IsFenceLine(line) {
        inFence := !inFence;
        var blanks := Blank(ByteLength(line));
        out := out + blanks;
        continue;
      }
      if inFence {
        var blanks := Blank(ByteLength(line));
        out := out + blanks;
        continue;
      }
      var masked := MaskInlineCode(line);
      out := out + masked;
    }
  }

  /** No backtick survives. */
  lemma {:induction false} NoBackticks(lines: seq<string>, k: nat)
    requires k <= |lines|
    ensures '`' !in MaskedUpTo(lines, k)
  {
    if k > 0 {
      NoBackticks(lines, k - 1);
      NoBackticksInLine(lines[k - 1], FenceBefore(lines, k - 1));
      InNeither(MaskedUpTo(lines, k - 1), MaskLine(lines[k - 1], FenceBefore(lines, k - 1)), '`');
    }
  }

  lemma InNeither(a: string, b: string, c: char)
    requires c !in a && c !in b
    ensures c !in a + b
  {
  }

  lemma NoBackticksInLine(line: string, inFence: bool)
    ensures '`' !in MaskLine(line, inFence)
  {
    if !inFence && !IsFenceLine(line) {
      MaskInlineExact(line);
    }
  }

  lemma {:induction false} MaskPlain(line: string, k: nat)
    requires k <= |line| && '`' !in line
    ensures Mask(line, k) == line[k..]
    decreases |line| - k
  {
    if k < |line| {
      assert line[k] in line;
      MaskPlain(line, k + 1);
    }
  }

  lemma {:induction false} TrimStartTail(s: string)
    ensures forall c :: c in TrimStart(s) ==> c in s
  {
    if s != "" && IsWhite(s[0]) {
      TrimStartTail(s[1..]);
    }
  }

  lemma PlainLine(line: string)
    requires '`' !in line
    ensures MaskLine(line, false) == line && !IsFenceLine(line)
  {
    MaskPlain(line, 0);
    TrimStartTail(line);
    assert TrimStart(line) != "" ==> TrimStart(line)[0] in TrimStart(line);
  }

  /** Text without backticks is its own masking. */
  lemma {:induction false} PlainLines(lines: seq<string>, k: nat)
    requires k <= |lines| && forall l :: l in lines ==> '`' !in l
    ensures MaskedUpTo(lines, k) == Concat(lines[..k]) && !FenceBefore(lines, k)
  {
    if k > 0 {
      PlainLines(lines, k - 1);
      PlainLine(lines[k - 1]);
      assert lines[..k] == lines[..k - 1] + [lines[k - 1]];
      ConcatAppend(lines[..k - 1], [lines[k - 1]]);
      assert Concat([lines[k - 1]]) == lines[k - 1];
    }
  }

  lemma {:induction false} PartsOfText(s: string, l: string)
    requires l in SplitInclusive(s)
    ensures forall c :: c in l ==> c in s
    decreases |s|
  {
    if l != s[..LineEnd(s)] {
      PartsOfText(s[LineEnd(s)..], l);
    }
  }

  /** Masking twice is masking once. */
  lemma MaskIdempotent(body: string)
    ensures MaskCode(MaskCode(body)) == MaskCode(body)
  {
    var masked := MaskCode(body);
    var lines := SplitInclusive(masked);
    NoBackticks(SplitInclusive(body), |SplitInclusive(body)|);
    forall l | l in lines
      ensures '`' !in l
    {
      PartsOfText(masked, l);
    }
    PlainLines(lines, |lines|);
    assert lines[..|lines|] == lines;
    ConcatSplit(masked);
  }

  // ---------------------------------------------------------------------
  // The link pattern: `[text](/target)`.

  function FirstBracket(s: string, k: nat): (r: nat)
    requires k <= |s|
    ensures k <= r <= |s|
    ensures r < |s| ==> s[r] == ']'
    decreases |s| - k
  {
    if k == |s| || s[k] == ']' then k else FirstBracket(s, k + 1)
  }

  predicate EndsTarget(c: char) {
    IsWhite(c) || c == '(' || c == ')'
  }

  function TargetEnd(s: string, k: nat): (r: nat)
    requires k <= |s|
    ensures k <= r <= |s|
    ensures r < |s| ==> EndsTarget(s[r])
    decreases |s| - k
  {
    if k == |s| || EndsTarget(s[k]) then k else TargetEnd(s, k + 1)
  }

  /** The match that starts at `i`, as where its target starts and ends. */
  function MatchAt(s: string, i: nat): (r: Option<(nat, nat)>)
    requires i < |s|
    ensures r.Some? ==> i < r.value.0 < r.value.1 < |s|
  {
    if s[i] != '[' then None
    else
      var j := FirstBracket(s, i + 1);
      if j + 2 >= |s| || s[j + 1] != '(' || s[j + 2] != '/' then None
      else
        var k := TargetEnd(s, j + 3);
        if k < |s| && s[k] == ')' then Some((j + 2, k)) else None
  }

  /** The pattern said without a scan: text without a bracket, then a target from a
      slash to the parenthesis, with no space or parenthesis inside. */
  ghost predicate IsLink(s: string, i: nat, j: nat, k: nat) {
    && i < j && j + 2 < k < |s|
    && s[i] == '[' && s[j] == ']' && s[j + 1] == '(' && s[j + 2] == '/' && s[k] == ')'
    && (forall p :: i < p < j ==> s[p] != ']')
    && (forall p :: j + 2 < p < k ==> !EndsTarget(s[p]))
  }

  lemma {:induction false} BracketFirst(s: string, k: nat)
    requires k <= |s|
    ensures forall p :: k <= p < FirstBracket(s, k) ==> s[p] != ']'
    decreases |s| - k
  {
    if k < |s| && s[k] != ']' {
      BracketFirst(s, k + 1);
    }
  }

  lemma {:induction false} TargetClear(s: string, k: nat)
    requires k <= |s|
    ensures forall p :: k <= p < TargetEnd(s, k) ==> !EndsTarget(s[p])
    decreases |s| - k
  {
    if k < |s| && !EndsTarget(s[k]) {
      TargetClear(s, k + 1);
    }
  }

  lemma MatchExact(s: string, i: nat, j: nat, k: nat)
    requires i < |s|
    ensures IsLink(s, i, j, k) <==> MatchAt(s, i) == Some((j + 2, k))
  {
    BracketFirst(s, i + 1);
    if IsLink(s, i, j, k) {
      assert FirstBracket(s, i + 1) == j;
    }
    if j + 3 <= |s| {
      TargetClear(s, j + 3);
      if IsLink(s, i, j, k) {
        assert EndsTarget(s[k]);
        assert TargetEnd(s, j + 3) == k;
      }
    }
  }

  predicate IsMarkdownPath(target: string) {
    "/" <= target && |target| >= 3 && target[|target| - 3..] == ".md"
  }

  function Capture(target: string): seq<string> {
    if IsMarkdownPath(target) then [target] else []
  }

  /** With `found` so far, the targets of the matches from `i` on, left to right, none
      overlapping. */
  function Targets(s: string, i: nat, found: seq<string>): seq<string>
    requires i <= |s|
    decreases |s| - i
  {
    if i == |s| then found
    else
      match MatchAt(s, i)
      case None => Targets(s, i + 1, found)
      case Some((from, end)) => Targets(s, end + 1, found + Capture(s[from..end]))
  }

  function ScanLinks(body: string): seq<string> {
    Targets(MaskCode(body), 0, [])
  }

  method Scan(body: string) returns (out: seq<string>)
    ensures out == ScanLinks(body)
  {
    var masked := MaskBody(body);
    out := Captures(masked);
  }

  method Captures(masked: string) returns (out: seq<string>)
    ensures out == Targets(masked, 0, [])
  {
    out := [];
    var i: nat := 0;
    while i < |masked|
      invariant i <= |masked|
      invariant Targets(masked, i, out) == Targets(masked, 0, [])
      decreases |masked| - i
    {
      var found := MatchAt(masked, i);
      if found.Some? {
        var target := masked[found.value.0..found.value.1];
        assert out + [] == out;
        if IsMarkdownPath(target) {
          out := out + [target];
        }
        i := found.value.1 + 1;
      } else {
        i := i + 1;
      }
    }
  }

  /** Scanning a masked body finds the links of the body. */
  lemma ScanMasked(body: string)
    ensures ScanLinks(MaskCode(body)) == ScanLinks(body)
  {
    MaskIdempotent(body);
  }

  lemma LinkNotSpace(s: string, i: nat, j: nat, k: nat, p: nat)
    requires IsLink(s, i, j, k) && (p == i || j <= p <= k)
    ensures p < |s| && s[p] != ' '
  {
    if j + 2 < p < k {
      assert !EndsTarget(s[p]);
    }
  }

  /** Character `q` of line `n` is text outside code: no fence line, no fenced line, no span. */
  ghost predicate OutsideCode(lines: seq<string>, n: nat, q: nat) {
    && n < |lines| && q < |lines[n]|
    && !IsFenceLine(lines[n]) && !FenceBefore(lines, n) && !Covered(Spans(lines[n], 0), q)
  }

  lemma InkInLine(line: string, inFence: bool, q: nat)
    requires q < |MaskLine(line, inFence)| && MaskLine(line, inFence)[q] != ' '
    ensures !inFence && !IsFenceLine(line)
    ensures q < |line| && !Covered(Spans(line, 0), q) && MaskLine(line, inFence)[q] == line[q]
  {
    if !inFence && !IsFenceLine(line) {
      MaskAt(line, 0, q);
    }
  }

  /** What masking leaves to see stands outside code in the text, unchanged. */
  lemma {:induction false} InkOutsideCode(lines: seq<string>, k: nat, p: nat) returns (n: nat, q: nat)
    requires k <= |lines| && p < |MaskedUpTo(lines, k)| && MaskedUpTo(lines, k)[p] != ' '
    ensures n < k && OutsideCode(lines, n, q) && p == |MaskedUpTo(lines, n)| + q
    ensures MaskedUpTo(lines, k)[p] == lines[n][q]
  {
    var front := MaskedUpTo(lines, k - 1);
    if p < |front| {
      n, q := InkOutsideCode(lines, k - 1, p);
    } else {
      n, q := k - 1, p - |front|;
      InkInLine(lines[n], FenceBefore(lines, n), q);
    }
  }

  /** Every part of a scanned link but its text, which may run over several lines, is
      text of the body outside fences and code spans. */
  lemma LinkOutsideCode(body: string, i: nat, j: nat, k: nat, p: nat) returns (n: nat, q: nat)
    requires IsLink(MaskCode(body), i, j, k) && (p == i || j <= p <= k)
    ensures
      var lines := SplitInclusive(body);
      && OutsideCode(lines, n, q) && p == |MaskedUpTo(lines, n)| + q
      && p < |MaskCode(body)| && MaskCode(body)[p] == lines[n][q]
  {
    LinkNotSpace(MaskCode(body), i, j, k, p);
    n, q := InkOutsideCode(SplitInclusive(body), |SplitInclusive(body)|, p);
  }
}
