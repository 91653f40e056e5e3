/** What trimming leaves, said without the loop that trims. */
module Trimming {
  import opened Text

  /** `middle` is `s` without the white space around it. */
  ghost predicate Around(s: string, before: string, middle: string, after: string) {
    && s == before + middle + after && AllWhite(before) && AllWhite(after)
    && (middle != "" ==> !IsWhite(middle[0]) && !IsWhite(middle[|middle| - 1]))
  }

  lemma {:induction false} StartCut(s: string) returns (before: string)
    ensures s == before + TrimStart(s) && AllWhite(before)
  {
    if s == "" || !IsWhite(s[0]) {
      before := "";
    } else {
      var rest := StartCut(s[1..]);
      before := [s[0]] + rest;
      assert s == [s[0]] + s[1..];
    }
  }

  lemma {:induction false} EndCut(s: string) returns (after: string)
    ensures s == TrimEnd(s) + after && AllWhite(after)
  {
    if s == "" || !IsWhite(s[|s| - 1]) {
      after := "";
    } else {
      var rest := EndCut(s[..|s| - 1]);
      after := rest + [s[|s| - 1]];
      assert s == s[..|s| - 1] + [s[|s| - 1]];
    }
  }

  lemma TrimCut(s: string) returns (before: string, after: string)
    ensures Around(s, before, Trim(s), after)
  {
    before := StartCut(s);
    after := EndCut(TrimStart(s));
    var middle := Trim(s);
    if middle != "" {
      assert middle[0] == TrimStart(s)[0];
    }
  }

  lemma {:induction false} StartOf(before: string, rest: string)
    requires AllWhite(before) && (rest != "" ==> !IsWhite(rest[0]))
    ensures TrimStart(before + rest) == rest
  {
    if before == "" {
      assert before + rest == rest;
    } else {
      assert before[0] in before && (before + rest)[1..] == before[1..] + rest;
      StartOf(before[1..], rest);
    }
  }

  lemma TrimIs(s: string, before: string, middle: string, after: string)
    requires Around(s, before, middle, after)
    ensures Trim(s) == middle
  {
    if middle == "" {
      assert forall c :: c in s ==> c in before || c in after;
      TrimStartWhite(s);
      assert TrimStart(s) == "";
    } else {
      assert s == before + (middle + after);
      StartOf(before, middle + after);
      TrimEndAppend(middle, after);
      assert TrimEnd(middle) == middle;
    }
  }

  lemma {:induction false} TrimTwice(s: string)
    ensures TrimStart(TrimStart(s)) == TrimStart(s)
  {
    if s != "" && IsWhite(s[0]) {
      TrimTwice(s[1..]);
    }
  }
}
