/** What lines, parts and numerals are, said without the functions that read them. */
module TextMeaning {
  import opened Wrappers
  import opened Text

  // ---------------------------------------------------------------------
  // Lines.

  /** One line with its newline, if it has one. */
  predicate IsLine(line: string, last: bool) {
    && line != "" && (forall i :: 0 <= i < |line| - 1 ==> line[i] != '\n')
    && (!last ==> line[|line| - 1] == '\n')
  }

  /** Splitting cuts the text behind each newline, and nowhere else. */
  lemma {:induction false} SplitExact(s: string)
    ensures Concat(SplitInclusive(s)) == s
    ensures forall k :: 0 <= k < |SplitInclusive(s)| ==>
              IsLine(SplitInclusive(s)[k], k == |SplitInclusive(s)| - 1)
    decreases |s|
  {
    if s != "" {
      LineEndStops(s);
      SplitExact(s[LineEnd(s)..]);
    }
  }

  /** A line loses `\r\n` or `\n` at its end, and nothing else. */
  lemma StripExact(line: string)
    ensures
      var r := StripEol(line);
      || line == r + "\r\n"
      || (line == r + "\n" && (r != "" ==> r[|r| - 1] != '\r'))
      || (line == r && (r != "" ==> r[|r| - 1] != '\n'))
  {
  }

  // ---------------------------------------------------------------------
  // Parts.

  function Join(parts: seq<string>, c: char): string {
    if |parts| == 0 then ""
    else if |parts| == 1 then parts[0]
    else parts[0] + [c] + Join(parts[1..], c)
  }

  /** The parts are what stands between the separators. */
  lemma {:induction false} SplitOnExact(s: string, c: char)
    ensures Join(SplitOn(s, c), c) == s && forall part :: part in SplitOn(s, c) ==> c !in part
    decreases |s|
  {
    var (front, back) := SplitOnce(s, c);
    if back.Some? {
      SplitOnExact(back.value, c);
      assert SplitOn(s, c)[1..] == SplitOn(back.value, c);
    }
  }

  // ---------------------------------------------------------------------
  // Numerals.

  function Zeros(n: nat): (r: string)
    ensures |r| == n && AllDigits(r)
  {
    seq(n, _ => '0')
  }

  /** Zeros, and the number as printed; zero itself may be all zeros. */
  ghost predicate Spells(digits: string, n: nat) {
    digits != "" && exists z: nat :: SpellsBehind(digits, n, z)
  }

  ghost predicate SpellsBehind(digits: string, n: nat, z: nat) {
    digits == Zeros(z) + if n == 0 then "" else ToDecimal(n)
  }

  lemma {:induction false} ZerosFirst(z: nat, rest: string)
    requires AllDigits(rest)
    ensures AllDigits(Zeros(z) + rest) && DecimalValue(Zeros(z) + rest) == DecimalValue(rest)
    decreases |rest|
  {
    var s := Zeros(z) + rest;
    if rest == "" {
      assert s == Zeros(z);
      OnlyZeros(z);
    } else {
      assert s[..|s| - 1] == Zeros(z) + rest[..|rest| - 1];
      ZerosFirst(z, rest[..|rest| - 1]);
    }
  }

  lemma {:induction false} OnlyZeros(z: nat)
    ensures DecimalValue(Zeros(z)) == 0
  {
    if z > 0 {
      assert Zeros(z)[..z - 1] == Zeros(z - 1);
      OnlyZeros(z - 1);
    }
  }

  lemma DigitMore(front: string, n: nat, last: char, z: nat) returns (more: nat)
    requires SpellsBehind(front, n, z) && '0' <= last <= '9'
    ensures SpellsBehind(front + [last], 10 * n + (last - '0') as nat, more)
  {
    var digits := front + [last];
    more := z;
    if n > 0 {
      LastDigit(n, last);
      assert digits == Zeros(z) + (ToDecimal(n) + [last]);
    } else if last == '0' {
      more := z + 1;
      assert digits == Zeros(z + 1) + "";
    } else {
      assert ToDecimal((last - '0') as nat) == [last];
      assert digits == Zeros(z) + [last];
    }
  }

  lemma ValueMore(front: string, last: char)
    requires AllDigits(front + [last])
    ensures AllDigits(front) && '0' <= last <= '9'
    ensures DecimalValue(front + [last]) == 10 * DecimalValue(front) + (last - '0') as nat
  {
    var digits := front + [last];
    assert digits[..|front|] == front && digits[|front|] == last;
    assert forall k :: 0 <= k < |front| ==> front[k] == digits[k];
  }

  lemma {:induction false} ValueSpelled(digits: string) returns (z: nat)
    requires AllDigits(digits)
    ensures SpellsBehind(digits, DecimalValue(digits), z)
  {
    if digits == "" {
      z := 0;
    } else {
      var front, last := digits[..|digits| - 1], digits[|digits| - 1];
      assert digits == front + [last];
      ValueMore(front, last);
      z := ValueSpelled(front);
      z := DigitMore(front, DecimalValue(front), last, z);
    }
  }

  lemma LastDigit(n: nat, last: char)
    requires n > 0 && '0' <= last <= '9'
    ensures ToDecimal(10 * n + (last - '0') as nat) == ToDecimal(n) + [last]
  {
    var m := 10 * n + (last - '0') as nat;
    assert m / 10 == n && m % 10 == (last - '0') as nat;
  }

  /** A string reads as a number below 2^32 when it spells it, a plus sign perhaps in front. */
  lemma NumeralExact(s: string, n: nat)
    ensures ParseU32(s) == Some(n)
            <==> n < 0x1_0000_0000 && (Spells(s, n) || (s != "" && s[0] == '+' && Spells(s[1..], n)))
  {
    var digits := if s != "" && s[0] == '+' then s[1..] else s;
    if digits != "" && AllDigits(digits) {
      var z := ValueSpelled(digits);
    }
    if Spells(s, n) {
      SpelledValue(s, n);
    }
    if s != "" && Spells(s[1..], n) {
      SpelledValue(s[1..], n);
    }
  }

  lemma SpelledValue(digits: string, n: nat)
    requires Spells(digits, n)
    ensures AllDigits(digits) && DecimalValue(digits) == n
  {
    var rest := if n == 0 then "" else ToDecimal(n);
    var z: nat :| SpellsBehind(digits, n, z);
    ZerosFirst(z, rest);
    DecimalRoundTrip(n);
  }

  /** Digits that spell a number below 2^32. */
  ghost predicate Numeral(digits: string, n: nat) {
    n < 0x1_0000_0000 && Spells(digits, n)
  }

  lemma NumeralIs(digits: string, n: nat)
    ensures Numeral(digits, n) <==> digits != "" && AllDigits(digits) && ParseU32(digits) == Some(n)
    ensures Numeral(digits, n) ==> '-' !in digits
  {
    NumeralExact(digits, n);
    if Spells(digits, n) {
      SpelledValue(digits, n);
    }
  }

  // ---------------------------------------------------------------------
  // Counts.

  function MarkedBefore<T>(items: seq<T>, k: nat, marked: T -> bool): set<nat>
    requires k <= |items|
  {
    set i: nat | i < k && marked(items[i])
  }

  lemma MarkedOneMore<T>(items: seq<T>, k: nat, marked: T -> bool)
    requires k < |items|
    ensures |MarkedBefore(items, k + 1, marked)| == |MarkedBefore(items, k, marked)| + if marked(items[k]) then 1 else 0
  {
    var before, after := MarkedBefore(items, k, marked), MarkedBefore(items, k + 1, marked);
    assert k !in before;
    if marked(items[k]) {
      assert after == before + {k};
    } else {
      assert after == before;
    }
  }

  lemma {:induction false} OddExact<T>(items: seq<T>, k: nat, marked: T -> bool)
    requires k <= |items|
    ensures OddBefore(items, k, marked) <==> |MarkedBefore(items, k, marked)| % 2 == 1
  {
    if k == 0 {
      assert MarkedBefore(items, 0, marked) == {};
    } else {
      OddExact(items, k - 1, marked);
      MarkedOneMore(items, k - 1, marked);
    }
  }

  /** A line starts behind all the lines before it. */
  lemma {:induction false} StartExact(lines: seq<string>, k: nat)
    requires k <= |lines|
    ensures LineStart(lines, k) == |Concat(lines[..k])|
  {
    if k > 0 {
      StartExact(lines, k - 1);
      ConcatAppend(lines[..k - 1], [lines[k - 1]]);
      assert lines[..k] == lines[..k - 1] + [lines[k - 1]];
      assert Concat([lines[k - 1]]) == lines[k - 1] + Concat([]);
    }
  }
}
