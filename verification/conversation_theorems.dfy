/** What the trim keeps, whatever the conversation. */
module ConversationTheorems {
  import opened Conversation

  /** `b` is where a unit starts (or the end), counting units from `start`. */
  predicate Reaches(turns: seq<Turn>, start: nat, b: nat)
    decreases |turns| - start
  {
    start == b || (start < |turns| && Reaches(turns, UnitEnd(turns, start), b))
  }

  lemma {:induction false} ReachesAhead(turns: seq<Turn>, start: nat, b: nat)
    requires start <= |turns| && Reaches(turns, start, b)
    ensures start <= b <= |turns|
    decreases |turns| - start
  {
    if start != b {
      ReachesAhead(turns, UnitEnd(turns, start), b);
    }
  }

  /** The trim stops at a unit boundary, the first one from which the rest fits or
      whose unit may not go. */
  lemma {:induction false} TrimMinimal(turns: seq<Turn>, start: nat)
    requires start < |turns|
    ensures
      var kept := TrimStart(turns, start);
      && Reaches(turns, start, kept) && kept < |turns|
      && (Fits(turns, kept) || !MayDrop(turns, kept))
      && forall b :: start <= b < kept && Reaches(turns, start, b) ==> !Fits(turns, b) && MayDrop(turns, b)
    decreases |turns| - start
  {
    if MayDrop(turns, start) && !Fits(turns, start) {
      var next := UnitEnd(turns, start);
      TrimMinimal(turns, next);
      forall b | start <= b < TrimStart(turns, start) && Reaches(turns, start, b)
        ensures !Fits(turns, b) && MayDrop(turns, b)
      {
        if b != start {
          ReachesAhead(turns, next, b);
        }
      }
    }
  }

  /** Nothing at or after the last user turn is ever dropped. */
  lemma {:induction false} TrimKeepsLastUser(turns: seq<Turn>, start: nat, i: nat)
    requires start <= i < |turns| && turns[i].User?
    requires forall j :: i < j < |turns| ==> !turns[j].User?
    ensures TrimStart(turns, start) <= i
    decreases |turns| - start
  {
    if MayDrop(turns, start) && !Fits(turns, start) {
      var next := UnitEnd(turns, start);
      if i < next {
        assert HasUser(turns, start, next);
      }
      TrimKeepsLastUser(turns, next, i);
    }
  }

  lemma TrimNonEmpty(turns: seq<Turn>)
    requires turns != []
    ensures Trimmed(turns) != []
  {
    TrimMinimal(turns, 0);
  }

  // ---------------------------------------------------------------------
  // The units of a kept suffix are the last units of the whole.

  lemma {:induction false} ResultsShift(turns: seq<Turn>, s: nat, k: nat)
    requires s + k <= |turns|
    ensures ResultsEnd(turns[s..], k) + s == ResultsEnd(turns, s + k)
    decreases |turns| - s - k
  {
    if s + k < |turns| && turns[s + k].ToolResult? {
      ResultsShift(turns, s, k + 1);
    }
  }

  lemma UnitShift(turns: seq<Turn>, s: nat, k: nat)
    requires s + k < |turns|
    ensures UnitEnd(turns[s..], k) + s == UnitEnd(turns, s + k)
  {
    ResultsShift(turns, s, k + 1);
  }

  lemma {:induction false} BytesShift(turns: seq<Turn>, s: nat, from: nat, end: nat)
    requires from <= end && s + end <= |turns|
    ensures BytesBetween(turns[s..], from, end) == BytesBetween(turns, s + from, s + end)
    decreases end
  {
    if from < end {
      BytesShift(turns, s, from, end - 1);
    }
  }

  lemma UserShift(turns: seq<Turn>, s: nat, from: nat, end: nat)
    requires s + end <= |turns|
    ensures HasUser(turns[s..], from, end) <==> HasUser(turns, s + from, s + end)
  {
    if HasUser(turns, s + from, s + end) {
      var i :| s + from <= i < s + end && turns[i].User?;
      assert turns[s..][i - s].User?;
    }
  }

  /** Trimming twice is trimming once. */
  lemma TrimIdempotent(turns: seq<Turn>)
    ensures Trimmed(Trimmed(turns)) == Trimmed(turns)
  {
    if turns != [] {
      TrimMinimal(turns, 0);
      var s := TrimStart(turns, 0);
      var kept := turns[s..];
      UnitShift(turns, s, 0);
      var end := UnitEnd(kept, 0);
      BytesShift(turns, s, 0, |kept|);
      UserShift(turns, s, 0, end);
      UserShift(turns, s, end, |kept|);
      assert TrimStart(kept, 0) == 0;
    }
  }

  // ---------------------------------------------------------------------
  // The tool protocol.

  /** The results right after the tool-call turn at `i` answer its calls, one each, in order. */
  predicate Answered(turns: seq<Turn>, i: nat)
    requires i < |turns| && turns[i].ToolCalls?
  {
    var calls := turns[i].calls;
    && ResultsEnd(turns, i + 1) == i + 1 + |calls|
    && forall j :: 0 <= j < |calls| ==> turns[i + 1 + j].callId == calls[j].id
  }

  /** Every tool-call turn is answered, and no result stands anywhere else. */
  predicate Paired(turns: seq<Turn>) {
    && (forall i :: 0 <= i < |turns| && turns[i].ToolCalls? ==> Answered(turns, i))
    && (forall i :: 0 <= i < |turns| && turns[i].ToolResult? ==>
          i > 0 && (turns[i - 1].ToolResult? || turns[i - 1].ToolCalls?))
  }

  /** No unit starts with a tool result. */
  lemma {:induction false} BoundaryOutsideBlocks(turns: seq<Turn>, start: nat, b: nat)
    requires Paired(turns) && start < |turns| && !turns[start].ToolResult?
    requires Reaches(turns, start, b) && b < |turns|
    ensures !turns[b].ToolResult?
    decreases |turns| - start
  {
    if start != b {
      var next := UnitEnd(turns, start);
      ReachesAhead(turns, next, b);
      BoundaryOutsideBlocks(turns, next, b);
    }
  }

  lemma SuffixPaired(turns: seq<Turn>, s: nat)
    requires Paired(turns) && s <= |turns| && (s < |turns| ==> !turns[s].ToolResult?)
    ensures Paired(turns[s..])
  {
    var kept := turns[s..];
    forall i | 0 <= i < |kept| && kept[i].ToolCalls?
      ensures Answered(kept, i)
    {
      assert Answered(turns, s + i);
      ResultsShift(turns, s, i + 1);
    }
  }

  /** Trimming keeps every tool call together with its results. */
  lemma TrimPaired(turns: seq<Turn>)
    requires Paired(turns)
    ensures Paired(Trimmed(turns))
  {
    if turns != [] {
      TrimMinimal(turns, 0);
      BoundaryOutsideBlocks(turns, 0, TrimStart(turns, 0));
      SuffixPaired(turns, TrimStart(turns, 0));
    }
  }
}
