/**
 The conversation the agent loop builds and the trim that fits it to the model's
 context. Text is a sequence of bytes, since that is what the budget counts.
 */
module Conversation {
  import opened Wrappers

  newtype byte = x: int | 0 <= x < 256

  type Bytes = seq<byte>

  datatype ToolCall = ToolCall(id: Bytes, name: Bytes, arguments: Bytes)

  datatype Turn =
    | User(text: Bytes)
    | Assistant(text: Bytes)
    | ToolCalls(calls: seq<ToolCall>)
    | ToolResult(callId: Bytes, result: Bytes)

  // ---------------------------------------------------------------------
  // Units.

  /** The end of the run of tool results that starts at `k`. */
  function ResultsEnd(turns: seq<Turn>, k: nat): (end: nat)
    requires k <= |turns|
    ensures k <= end <= |turns|
    ensures forall i :: k <= i < end ==> turns[i].ToolResult?
    ensures end < |turns| ==> !turns[end].ToolResult?
    decreases |turns| - k
  {
    if k < |turns| && turns[k].ToolResult? then ResultsEnd(turns, k + 1) else k
  }

  /** The end of the unit that starts at `start`. */
  function UnitEnd(turns: seq<Turn>, start: nat): (end: nat)
    requires start < |turns|
    ensures start < end <= |turns|
  {
    match turns[start]
    case User(_) => if start + 1 < |turns| && turns[start + 1].Assistant? then start + 2 else start + 1
    case ToolCalls(_) => ResultsEnd(turns, start + 1)
    case _ => start + 1
  }

  method FindUnitEnd(turns: seq<Turn>, start: nat) returns (end: nat)
    requires start < |turns|
    ensures end == UnitEnd(turns, start)
  {
    match turns[start] {
      case User(_) =>
        if start + 1 < |turns| && turns[start + 1].Assistant? {
          return start + 2;
        }
        return start + 1;
      case ToolCalls(_) =>
        end := start + 1;
        while end < |turns| && turns[end].ToolResult?
          invariant start + 1 <= end <= |turns|
          invariant ResultsEnd(turns, start + 1) == ResultsEnd(turns, end)
        {
          end := end + 1;
        }
      case _ =>
        return start + 1;
    }
  }

  function CallBytes(calls: seq<ToolCall>): nat {
    if |calls| == 0 then 0
    else
      var last := calls[|calls| - 1];
      CallBytes(calls[..|calls| - 1]) + |last.id| + |last.name| + |last.arguments|
  }

  function TurnBytes(turn: Turn): nat {
    match turn
    case User(text) => |text|
    case Assistant(text) => |text|
    case ToolCalls(calls) => CallBytes(calls)
    case ToolResult(callId, result) => |callId| + |result|
  }

  function BytesBetween(turns: seq<Turn>, from: nat, end: nat): nat
    requires from <= end <= |turns|
    decreases end
  {
    if from == end then 0 else BytesBetween(turns, from, end - 1) + TurnBytes(turns[end - 1])
  }

  const CONTEXT_TOKENS_BUDGET: nat := 96_000

  function EstTokens(textBytes: nat): nat {
    textBytes / 4
  }

  predicate HasUser(turns: seq<Turn>, from: nat, end: nat)
    requires end <= |turns|
  {
    exists i :: from <= i < end && turns[i].User?
  }

  // ---------------------------------------------------------------------
  // The trim, stated one unit at a time.

  predicate Fits(turns: seq<Turn>, start: nat)
    requires start <= |turns|
  {
    EstTokens(BytesBetween(turns, start, |turns|)) <= CONTEXT_TOKENS_BUDGET
  }

  /** The unit at `start` may go: it is not the last one and does not hold the last
      user message. */
  predicate MayDrop(turns: seq<Turn>, start: nat)
    requires start < |turns|
  {
    var end := UnitEnd(turns, start);
    end < |turns| && (HasUser(turns, start, end) ==> HasUser(turns, end, |turns|))
  }

  /** Where the kept conversation starts: drop the oldest unit while the rest is over
      budget and it may go. */
  function TrimStart(turns: seq<Turn>, start: nat): (kept: nat)
    requires start <= |turns|
    ensures start <= kept <= |turns|
    decreases |turns| - start
  {
    if start < |turns| && MayDrop(turns, start) && !Fits(turns, start) then TrimStart(turns, UnitEnd(turns, start))
    else start
  }

  function Trimmed(turns: seq<Turn>): seq<Turn> {
    turns[TrimStart(turns, 0)..]
  }

  // ---------------------------------------------------------------------
  // The trim as the code computes it: list all units, weigh them, then count.

  datatype Unit = Unit(start: nat, end: nat)

  /** The units so far cover exactly the turns before `upto`. */
  ghost predicate Tiles(turns: seq<Turn>, units: seq<Unit>, upto: nat) {
    && (forall k :: 0 <= k < |units| ==> units[k].start < |turns| && units[k].end == UnitEnd(turns, units[k].start))
    && (forall k :: 0 <= k < |units| - 1 ==> units[k].end == units[k + 1].start)
    && (if |units| == 0 then upto == 0 else units[0].start == 0 && units[|units| - 1].end == upto)
  }

  function UnitBytes(turns: seq<Turn>, units: seq<Unit>): (r: seq<nat>)
    requires forall k :: 0 <= k < |units| ==> units[k].start <= units[k].end <= |turns|
    ensures |r| == |units|
    ensures forall k :: 0 <= k < |units| ==> r[k] == BytesBetween(turns, units[k].start, units[k].end)
  {
    seq(|units|, k requires 0 <= k < |units| => BytesBetween(turns, units[k].start, units[k].end))
  }

  function Sum(weights: seq<nat>): nat {
    if |weights| == 0 then 0 else weights[0] + Sum(weights[1..])
  }

  /** The last unit with a user turn. */
  function LastUserUnit(turns: seq<Turn>, units: seq<Unit>): (r: nat)
    requires forall k :: 0 <= k < |units| ==> units[k].end <= |turns|
    ensures r <= |units|
    ensures r < |units| ==> HasUser(turns, units[r].start, units[r].end)
    ensures r < |units| ==> forall k :: r < k < |units| ==> !HasUser(turns, units[k].start, units[k].end)
    ensures r == |units| ==> forall k :: 0 <= k < |units| ==> !HasUser(turns, units[k].start, units[k].end)
  {
    LastUserUnitBefore(turns, units, |units|)
  }

  function LastUserUnitBefore(turns: seq<Turn>, units: seq<Unit>, n: nat): (r: nat)
    requires n <= |units| && forall k :: 0 <= k < |units| ==> units[k].end <= |turns|
    requires forall k :: n <= k < |units| ==> !HasUser(turns, units[k].start, units[k].end)
    ensures r <= |units|
    ensures r < |units| ==> HasUser(turns, units[r].start, units[r].end)
    ensures r < |units| ==> forall k :: r < k < |units| ==> !HasUser(turns, units[k].start, units[k].end)
    ensures r == |units| ==> forall k :: 0 <= k < |units| ==> !HasUser(turns, units[k].start, units[k].end)
  {
    if n == 0 then |units|
    else if HasUser(turns, units[n - 1].start, units[n - 1].end) then n - 1
    else LastUserUnitBefore(turns, units, n - 1)
  }

  method ListUnits(turns: seq<Turn>) returns (units: seq<Unit>)
    ensures Tiles(turns, units, |turns|)
  {
    units := [];
    var start: nat := 0;
    while start < |turns|
      invariant start <= |turns| && Tiles(turns, units, start)
    {
      var end := FindUnitEnd(turns, start);
      units := units + [Unit(start, end)];
      start := end;
    }
  }

  method TrimConversation(turns: seq<Turn>) returns (kept: seq<Turn>)
    ensures kept == Trimmed(turns)
  {
    var units := ListUnits(turns);
    var unitBytes := UnitBytes(turns, units);
    // With no user turn, `lastUserUnit` is the number of units.
    var lastUserUnit := LastUserUnit(turns, units);
    var droppableMax := Min(lastUserUnit, if |units| == 0 then 0 else |units| - 1);
    if |units| == 0 {
      return [];
    }
    var drop := 0;
    var remainingBytes := Sum(unitBytes);
    assert unitBytes[0..] == unitBytes;
    while drop < droppableMax && EstTokens(remainingBytes) > CONTEXT_TOKENS_BUDGET
      invariant drop <= droppableMax
      invariant remainingBytes == Sum(unitBytes[drop..])
      invariant TrimStart(turns, 0) == TrimStart(turns, units[drop].start)
    {
      SumIsBytes(turns, units, drop);
      DroppableMeans(turns, units, drop);
      assert unitBytes[drop..][1..] == unitBytes[drop + 1..];
      remainingBytes := remainingBytes - unitBytes[drop];
      drop := drop + 1;
    }
    SumIsBytes(turns, units, drop);
    DroppableMeans(turns, units, drop);
    kept := turns[units[drop].start..];
  }

  lemma {:induction false} BytesSplit(turns: seq<Turn>, from: nat, mid: nat, end: nat)
    requires from <= mid <= end <= |turns|
    ensures BytesBetween(turns, from, end) == BytesBetween(turns, from, mid) + BytesBetween(turns, mid, end)
    decreases end
  {
    if mid < end {
      BytesSplit(turns, from, mid, end - 1);
    }
  }

  /** The weights of the units from `k` on are the bytes from there to the end. */
  lemma {:induction false} SumIsBytes(turns: seq<Turn>, units: seq<Unit>, k: nat)
    requires Tiles(turns, units, |turns|) && k < |units|
    ensures Sum(UnitBytes(turns, units)[k..]) == BytesBetween(turns, units[k].start, |turns|)
    decreases |units| - k
  {
    var weights := UnitBytes(turns, units);
    assert weights[k..][1..] == weights[k + 1..];
    if k + 1 < |units| {
      SumIsBytes(turns, units, k + 1);
      BytesSplit(turns, units[k].start, units[k].end, |turns|);
    } else {
      assert weights[k..] == [weights[k]];
    }
  }

  /** A turn at or after unit `k` lies in one of the units from `k` on. */
  lemma {:induction false} UnitOf(turns: seq<Turn>, units: seq<Unit>, k: nat, i: nat) returns (u: nat)
    requires Tiles(turns, units, |turns|) && k < |units| && units[k].start <= i < |turns|
    ensures k <= u < |units| && units[u].start <= i < units[u].end
    decreases |units| - k
  {
    if i < units[k].end {
      u := k;
    } else {
      u := UnitOf(turns, units, k + 1, i);
    }
  }

  lemma {:induction false} UnitsAscend(turns: seq<Turn>, units: seq<Unit>, j: nat, k: nat)
    requires Tiles(turns, units, |turns|) && j < k < |units|
    ensures units[j].end <= units[k].start
    decreases k
  {
    if j + 1 < k {
      UnitsAscend(turns, units, j, k - 1);
    }
  }

  /** The count the code computes allows dropping exactly the units that may go. */
  lemma DroppableMeans(turns: seq<Turn>, units: seq<Unit>, d: nat)
    requires Tiles(turns, units, |turns|) && d < |units| && d <= LastUserUnit(turns, units)
    ensures d < Min(LastUserUnit(turns, units), |units| - 1) <==> MayDrop(turns, units[d].start)
  {
    var last := LastUserUnit(turns, units);
    if d + 1 < |units| {
      assert units[d].end == units[d + 1].start;
      if d < last < |units| {
        UnitsAscend(turns, units, d, last);
        var i :| units[last].start <= i < units[last].end && turns[i].User?;
        assert HasUser(turns, units[d].end, |turns|);
      }
      if HasUser(turns, units[d].end, |turns|) {
        var i :| units[d].end <= i < |turns| && turns[i].User?;
        var u := UnitOf(turns, units, d + 1, i);
        assert HasUser(turns, units[u].start, units[u].end);
      }
    }
  }
}
