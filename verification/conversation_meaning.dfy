/** What the trim does, in terms of the bytes and the turns alone. */
module ConversationMeaning {
  import opened Conversation
  import opened ConversationTheorems

  // ---------------------------------------------------------------------
  // Bytes.

  /** Everything a call says. */
  function CallText(call: ToolCall): Bytes {
    call.id + call.name + call.arguments
  }

  function CallsText(calls: seq<ToolCall>): Bytes {
    if |calls| == 0 then [] else CallsText(calls[..|calls| - 1]) + CallText(calls[|calls| - 1])
  }

  /** Everything a turn says. */
  function TurnText(turn: Turn): Bytes {
    match turn
    case User(text) => text
    case Assistant(text) => text
    case ToolCalls(calls) => CallsText(calls)
    case ToolResult(callId, result) => callId + result
  }

  function AllText(turns: seq<Turn>): Bytes {
    if |turns| == 0 then [] else AllText(turns[..|turns| - 1]) + TurnText(turns[|turns| - 1])
  }

  lemma {:induction false} CallBytesAre(calls: seq<ToolCall>)
    ensures CallBytes(calls) == |CallsText(calls)|
  {
    if |calls| > 0 {
      CallBytesAre(calls[..|calls| - 1]);
    }
  }

  lemma TurnBytesAre(turn: Turn)
    ensures TurnBytes(turn) == |TurnText(turn)|
  {
    if turn.ToolCalls? {
      CallBytesAre(turn.calls);
    }
  }

  lemma {:induction false} BytesAre(turns: seq<Turn>, end: nat)
    requires end <= |turns|
    ensures BytesBetween(turns, 0, end) == |AllText(turns[..end])|
  {
    if end > 0 {
      BytesAre(turns, end - 1);
      TurnBytesAre(turns[end - 1]);
      assert turns[..end][..end - 1] == turns[..end - 1];
    }
  }

  /** Turns fit when all they say is at most 384 003 bytes long: 96 000 tokens of four
      bytes, and what rounds down to the last of them. */
  lemma FitsExact(turns: seq<Turn>, start: nat)
    requires start <= |turns|
    ensures Fits(turns, start) <==> |AllText(turns[start..])| <= 384_003
  {
    var kept := turns[start..];
    BytesShift(turns, start, 0, |kept|);
    BytesAre(kept, |kept|);
    assert kept[..|kept|] == kept;
  }

  // ---------------------------------------------------------------------
  // Units.

  /** One unit: a user turn and the answer right behind it, if there is one; tool calls and
      all results right behind them; any other turn on its own. */
  predicate IsUnit(turns: seq<Turn>, start: nat, end: nat) {
    && start < end <= |turns|
    && if turns[start].User? then end == start + (if start + 1 < |turns| && turns[start + 1].Assistant? then 2 else 1)
       else if turns[start].ToolCalls? then
         && (forall i :: start < i < end ==> turns[i].ToolResult?) && (end < |turns| ==> !turns[end].ToolResult?)
       else end == start + 1
  }

  lemma UnitIs(turns: seq<Turn>, start: nat, end: nat)
    requires start < |turns|
    ensures IsUnit(turns, start, end) <==> end == UnitEnd(turns, start)
  {
  }

  // ---------------------------------------------------------------------
  // What goes.

  predicate IsLastUser(turns: seq<Turn>, i: nat) {
    i < |turns| && turns[i].User? && forall j :: i < j < |turns| ==> !turns[j].User?
  }

  /** The unit holds the last user turn of all. */
  ghost predicate HoldsLastUser(turns: seq<Turn>, start: nat, end: nat) {
    exists i: nat :: start <= i < end && IsLastUser(turns, i)
  }

  lemma {:induction false} LastUserOf(turns: seq<Turn>, start: nat, end: nat) returns (i: nat)
    requires end <= |turns| && HasUser(turns, start, end) && !HasUser(turns, end, |turns|)
    ensures start <= i < end && IsLastUser(turns, i)
    decreases end
  {
    if turns[end - 1].User? {
      i := end - 1;
      forall j | i < j < |turns|
        ensures !turns[j].User?
      {
      }
    } else {
      assert !HasUser(turns, end - 1, |turns|);
      i := LastUserOf(turns, start, end - 1);
    }
  }

  lemma MayDropExact(turns: seq<Turn>, start: nat, end: nat)
    requires IsUnit(turns, start, end)
    ensures MayDrop(turns, start) <==> end < |turns| && !HoldsLastUser(turns, start, end)
  {
    UnitIs(turns, start, end);
    if HasUser(turns, start, end) && !HasUser(turns, end, |turns|) {
      var i := LastUserOf(turns, start, end);
    }
    if HoldsLastUser(turns, start, end) {
      var i: nat :| start <= i < end && IsLastUser(turns, i);
      assert HasUser(turns, start, end);
    }
  }

  /** `units` says where the units from the first turn to `kept` start, and `kept` last. */
  ghost predicate Steps(turns: seq<Turn>, units: seq<nat>, kept: nat) {
    && units != [] && units[0] == 0 && units[|units| - 1] == kept
    && forall k :: 0 <= k < |units| - 1 ==> IsUnit(turns, units[k], units[k + 1])
  }

  /** From here the trim goes no further: all that is left fits, or is one unit, or its
      first unit holds the last user turn. */
  ghost predicate Stays(turns: seq<Turn>, start: nat, end: nat) {
    && IsUnit(turns, start, end)
    && (|AllText(turns[start..])| <= 384_003 || end == |turns| || HoldsLastUser(turns, start, end))
  }

  lemma {:induction false} TrimSteps(turns: seq<Turn>, units: seq<nat>, start: nat) returns (all: seq<nat>)
    requires start < |turns| && Steps(turns, units, start)
    requires forall k :: 0 <= k < |units| - 1 ==> !Stays(turns, units[k], units[k + 1])
    ensures Steps(turns, all, TrimStart(turns, start)) && TrimStart(turns, start) < |turns|
    ensures forall k :: 0 <= k < |all| - 1 ==> !Stays(turns, all[k], all[k + 1])
    ensures Stays(turns, TrimStart(turns, start), UnitEnd(turns, TrimStart(turns, start)))
    decreases |turns| - start
  {
    var end := UnitEnd(turns, start);
    UnitIs(turns, start, end);
    MayDropExact(turns, start, end);
    FitsExact(turns, start);
    if MayDrop(turns, start) && !Fits(turns, start) {
      all := TrimSteps(turns, units + [end], end);
    } else {
      all := units;
    }
  }

  /** The trim drops whole units from the front, and stops at the first from which all
      fits, which is the last one, or which holds the last user turn. */
  lemma TrimExact(turns: seq<Turn>) returns (units: seq<nat>, kept: nat, end: nat)
    requires turns != []
    ensures Steps(turns, units, kept) && kept < |turns| && Trimmed(turns) == turns[kept..]
    ensures Stays(turns, kept, end) && forall k :: 0 <= k < |units| - 1 ==> !Stays(turns, units[k], units[k + 1])
  {
    kept := TrimStart(turns, 0);
    units := TrimSteps(turns, [0], 0);
    end := UnitEnd(turns, kept);
  }
}
