/** Whitespace, lines and numerals, as the standard string functions define them. */
module Text {
  import opened Wrappers

  /** The Unicode White_Space property. */
  predicate IsWhite(c: char) {
    || '\U{9}' <= c <= '\U{D}' || c == ' ' || c == '\U{85}' || c == '\U{A0}' || c == '\U{1680}'
    || '\U{2000}' <= c <= '\U{200A}' || c == '\U{2028}' || c == '\U{2029}' || c == '\U{202F}'
    || c == '\U{205F}' || c == '\U{3000}'
  }

  predicate AllWhite(s: string) {
    forall c :: c in s ==> IsWhite(c)
  }

  function TrimStart(s: string): (r: string)
    ensures |r| <= |s|
    ensures r != "" ==> !IsWhite(r[0])
  {
    if s == "" || !IsWhite(s[0]) then s else TrimStart(s[1..])
  }

  function TrimEnd(s: string): (r: string)
    ensures |r| <= |s|
    ensures r <= s
    ensures r != "" ==> !IsWhite(r[|r| - 1])
  {
    if s == "" || !IsWhite(s[|s| - 1]) then s else TrimEnd(s[..|s| - 1])
  }

  function Trim(s: string): string {
    TrimEnd(TrimStart(s))
  }

  /** The length of the first line, its newline included. */
  function LineEnd(s: string): (k: nat)
    requires s != ""
    ensures 0 < k <= |s|
  {
    if s[0] == '\n' || |s| == 1 then 1 else 1 + LineEnd(s[1..])
  }

  /** The lines of `s`, each with its newline. */
  function SplitInclusive(s: string): seq<string> {
    if s == "" then [] else [s[..LineEnd(s)]] + SplitInclusive(s[LineEnd(s)..])
  }

  /** A line without its `\n` or `\r\n`. */
  function StripEol(line: string): (r: string)
    ensures r <= line
  {
    if line == "" || line[|line| - 1] != '\n' then line
    else if |line| >= 2 && line[|line| - 2] == '\r' then line[..|line| - 2]
    else line[..|line| - 1]
  }

  function Stripped(lines: seq<string>): (r: seq<string>)
    ensures |r| == |lines|
    ensures forall k :: 0 <= k < |lines| ==> r[k] == StripEol(lines[k])
  {
    seq(|lines|, k requires 0 <= k < |lines| => StripEol(lines[k]))
  }

  /** `str::lines`. */
  function Lines(s: string): seq<string> {
    Stripped(SplitInclusive(s))
  }

  function Concat(parts: seq<string>): string {
    if |parts| == 0 then "" else parts[0] + Concat(parts[1..])
  }

  /** Whether an odd number of the first `k` items is marked. */
  predicate OddBefore<T>(items: seq<T>, k: nat, marked: T -> bool)
    requires k <= |items|
  {
    k > 0 && OddBefore(items, k - 1, marked) != marked(items[k - 1])
  }

  /** What the first `k` items measure together. */
  function SumBefore<T>(items: seq<T>, k: nat, size: T -> nat): nat
    requires k <= |items|
  {
    if k == 0 then 0 else SumBefore(items, k - 1, size) + size(items[k - 1])
  }

  /** Where line `k` starts. */
  function LineStart(lines: seq<string>, k: nat): nat
    requires k <= |lines|
  {
    SumBefore(lines, k, (line: string) => |line|)
  }

  function ToDecimal(n: nat): (r: string)
    ensures r != "" && AllDigits(r)
  {
    if n < 10 then [Digit(n)] else ToDecimal(n / 10) + [Digit(n % 10)]
  }

  function Digit(n: nat): (c: char)
    requires n < 10
    ensures '0' <= c <= '9'
  {
    '0' + n as char
  }

  predicate AllDigits(s: string) {
    forall k :: 0 <= k < |s| ==> '0' <= s[k] <= '9'
  }

  function DecimalValue(s: string): nat
    requires AllDigits(s)
  {
    if s == "" then 0
    else 10 * DecimalValue(s[..|s| - 1]) + (s[|s| - 1] - '0') as nat
  }

  const U32_LIMIT: nat := 0x1_0000_0000

  /** `parse::<u32>`: an optional plus sign, then digits within range. */
  function ParseU32(s: string): Option<nat> {
    var digits := if s != "" && s[0] == '+' then s[1..] else s;
    if digits == "" || !AllDigits(digits) || DecimalValue(digits) >= U32_LIMIT then None
    else Some(DecimalValue(digits))
  }

  predicate IsAlnum(c: char) {
    'a' <= c <= 'z' || 'A' <= c <= 'Z' || '0' <= c <= '9'
  }

  function LowerAscii(c: char): char {
    if 'A' <= c <= 'Z' then 'a' + (c - 'A') else c
  }

  /** `split_once` at the first `c`. */
  function SplitOnce(s: string, c: char): (r: (string, Option<string>))
    ensures c !in r.0
    ensures r.1.None? ==> s == r.0
    ensures r.1.Some? ==> s == r.0 + [c] + r.1.value
  {
    if s == "" then ("", None)
    else if s[0] == c then ("", Some(s[1..]))
    else
      var (front, back) := SplitOnce(s[1..], c);
      ([s[0]] + front, back)
  }

  /** `split`: the parts between the separators. */
  function SplitOn(s: string, c: char): (r: seq<string>)
    ensures |r| >= 1
    decreases |s|
  {
    var (front, back) := SplitOnce(s, c);
    if back.None? then [front] else [front] + SplitOn(back.value, c)
  }

  // ---------------------------------------------------------------------

  lemma {:induction false} DecimalRoundTrip(n: nat)
    ensures DecimalValue(ToDecimal(n)) == n
  {
    if n >= 10 {
      DecimalRoundTrip(n / 10);
      assert ToDecimal(n)[..|ToDecimal(n)| - 1] == ToDecimal(n / 10);
    } else {
      assert ToDecimal(n)[..0] == "";
    }
  }

  /** A printed u32 parses back, and nothing larger parses at all. */
  lemma PrintedU32(n: nat)
    ensures ParseU32(ToDecimal(n)) == if n < U32_LIMIT then Some(n) else None
  {
    DecimalRoundTrip(n);
  }

  lemma {:induction false} SplitOnceAt(front: string, c: char, back: string)
    requires c !in front
    ensures SplitOnce(front + [c] + back, c) == (front, Some(back))
  {
    var s := front + [c] + back;
    if front == "" {
      assert s[1..] == back;
    } else {
      assert front[0] in front && s[0] == front[0];
      assert s[1..] == front[1..] + [c] + back;
      SplitOnceAt(front[1..], c, back);
      assert [front[0]] + front[1..] == front;
    }
  }

  lemma {:induction false} SplitOnceNowhere(s: string, c: char)
    requires c !in s
    ensures SplitOnce(s, c) == (s, None)
  {
    if s != "" {
      SplitOnceNowhere(s[1..], c);
    }
  }

  lemma {:induction false} ConcatAppend(parts: seq<string>, more: seq<string>)
    ensures Concat(parts + more) == Concat(parts) + Concat(more)
  {
    if |parts| == 0 {
      assert parts + more == more;
    } else {
      assert (parts + more)[1..] == parts[1..] + more;
      ConcatAppend(parts[1..], more);
    }
  }

  /** Splitting loses nothing. */
  lemma {:induction false} ConcatSplit(s: string)
    ensures Concat(SplitInclusive(s)) == s
    decreases |s|
  {
    if s != "" {
      ConcatSplit(s[LineEnd(s)..]);
    }
  }

  /** Dropping whole lines commutes with splitting, and line `k` is where it should be. */
  lemma {:induction false} SplitDrops(s: string, k: nat)
    requires k <= |SplitInclusive(s)|
    ensures LineStart(SplitInclusive(s), k) <= |s|
    ensures SplitInclusive(s[LineStart(SplitInclusive(s), k)..]) == SplitInclusive(s)[k..]
    ensures k < |SplitInclusive(s)| ==>
              && LineStart(SplitInclusive(s), k) < |s|
              && SplitInclusive(s)[k] <= s[LineStart(SplitInclusive(s), k)..]
    decreases k
  {
    var lines := SplitInclusive(s);
    if k > 0 {
      SplitDrops(s, k - 1);
      var tail := s[LineStart(lines, k - 1)..];
      assert SplitInclusive(tail)[0] == lines[k - 1];
      assert lines[k - 1] == tail[..LineEnd(tail)];
      assert tail[LineEnd(tail)..] == s[LineStart(lines, k)..];
      assert SplitInclusive(tail)[1..] == lines[k..];
    }
    if k < |lines| {
      var rest := s[LineStart(lines, k)..];
      assert SplitInclusive(rest)[0] == lines[k];
    }
  }

  lemma LineStartsEnd(s: string)
    ensures LineStart(SplitInclusive(s), |SplitInclusive(s)|) == |s|
  {
    var n := |SplitInclusive(s)|;
    SplitDrops(s, n);
    assert SplitInclusive(s[LineStart(SplitInclusive(s), n)..]) == [];
  }

  lemma {:induction false} LinesNonEmpty(s: string)
    ensures forall k :: 0 <= k < |SplitInclusive(s)| ==> SplitInclusive(s)[k] != ""
    decreases |s|
  {
    if s != "" {
      LinesNonEmpty(s[LineEnd(s)..]);
    }
  }

  lemma {:induction false} TrimStartWhite(s: string)
    ensures TrimStart(s) == "" <==> AllWhite(s)
  {
    if s != "" && IsWhite(s[0]) {
      TrimStartWhite(s[1..]);
      assert forall c :: c in s <==> c == s[0] || c in s[1..];
    } else if s != "" {
      assert s[0] in s;
    }
  }

  /** Trailing whitespace matters to `trim_start` only when there is nothing else. */
  lemma {:induction false} TrimStartAppend(s: string, tail: string)
    requires AllWhite(tail)
    ensures TrimStart(s + tail) == if AllWhite(s) then "" else TrimStart(s) + tail
  {
    if s == "" {
      assert s + tail == tail;
      TrimStartWhite(tail);
    } else if IsWhite(s[0]) {
      assert (s + tail)[1..] == s[1..] + tail;
      TrimStartAppend(s[1..], tail);
      assert forall c :: c in s <==> c == s[0] || c in s[1..];
    } else {
      assert s[0] in s;
      assert (s + tail)[0] == s[0];
    }
  }

  lemma {:induction false} TrimEndAppend(s: string, tail: string)
    requires AllWhite(tail)
    ensures TrimEnd(s + tail) == TrimEnd(s)
    decreases |tail|
  {
    if tail == "" {
      assert s + tail == s;
    } else {
      var last := tail[|tail| - 1];
      assert last in tail;
      assert (s + tail)[..|s + tail| - 1] == s + tail[..|tail| - 1];
      TrimEndAppend(s, tail[..|tail| - 1]);
    }
  }

  /** What a line loses to `StripEol` is a line terminator or nothing. */
  lemma EolOf(line: string) returns (eol: string)
    ensures line == StripEol(line) + eol
    ensures eol == "" || eol == "\n" || eol == "\r\n"
    ensures AllWhite(eol)
  {
    eol := line[|StripEol(line)|..];
  }

  predicate EndsLine(s: string) {
    s != "" && s[|s| - 1] == '\n'
  }

  lemma {:induction false} LineEndAppend(a: string, b: string)
    requires EndsLine(a)
    ensures LineEnd(a + b) == LineEnd(a)
  {
    if a[0] != '\n' && |a| > 1 {
      assert (a + b)[1..] == a[1..] + b;
      LineEndAppend(a[1..], b);
    }
  }

  lemma {:induction false} SplitAppend(a: string, b: string)
    requires EndsLine(a)
    ensures SplitInclusive(a + b) == SplitInclusive(a) + SplitInclusive(b)
    decreases |a|
  {
    var end := LineEnd(a);
    LineEndAppend(a, b);
    assert (a + b)[..end] == a[..end];
    assert (a + b)[end..] == a[end..] + b;
    if end < |a| {
      SplitAppend(a[end..], b);
      assert SplitInclusive(a) == [a[..end]] + SplitInclusive(a[end..]);
    } else {
      assert a[end..] == "" && a[end..] + b == b;
      assert SplitInclusive(a) == [a[..end]];
    }
  }

  lemma {:induction false} LineEndStops(a: string)
    requires a != ""
    ensures LineEnd(a) < |a| ==> a[LineEnd(a) - 1] == '\n'
    ensures forall i :: 0 <= i < LineEnd(a) - 1 ==> a[i] != '\n'
  {
    if a[0] != '\n' && |a| > 1 {
      LineEndStops(a[1..]);
    }
  }

  /** Text with no newline but perhaps at its end is one line. */
  lemma WholeLine(line: string)
    requires line != "" && forall i :: 0 <= i < |line| - 1 ==> line[i] != '\n'
    ensures SplitInclusive(line) == [line]
  {
    LineEndStops(line);
    assert line[..|line|] == line && line[|line|..] == "";
  }
}
