/** What a run of the agent leaves in its conversation, told turn by turn. */
module AgentResults {
  import opened Wrappers
  import opened Conversation
  import opened ConversationTheorems
  import opened Agent

  // ---------------------------------------------------------------------
  // One turn.

  /** What the model is told of a tool's outcome: its text, or its error as JSON. */
  function Told(env: Env, outcome: ToolOutcome): Bytes {
    if outcome.Ok? then outcome.value.0 else env.errorJson(outcome.error)
  }

  /** The path a tool reports as written, if it succeeds and wrote one. */
  function PathsOf(outcome: ToolOutcome): seq<Bytes> {
    if outcome.Ok? && outcome.value.1.Some? then [outcome.value.1.value] else []
  }

  /** The `j`-th turn behind the calls at `b` is the result of the `j`-th call, run on the
      turns before it. */
  ghost predicate IsResultOf(env: Env, turns: seq<Turn>, b: nat, j: nat) {
    && b + 1 + j < |turns| && turns[b].ToolCalls? && j < |turns[b].calls|
    && var call := turns[b].calls[j];
       turns[b + 1 + j] == ToolResult(call.id, Told(env, env.tool(turns[..b + 1 + j], call)))
  }

  /** The turn at `i` holds the calls the client replies with in step `n`, handed the turns
      before `i`. */
  ghost predicate IsReply(env: Env, turns: seq<Turn>, i: nat, n: nat) {
    && i < |turns| && turns[i].ToolCalls?
    && env.ask(n, turns[..i]) == Calls(turns[i].calls)
  }

  lemma ResultStays(env: Env, turns: seq<Turn>, more: seq<Turn>, b: nat, j: nat)
    requires IsResultOf(env, turns, b, j)
    ensures IsResultOf(env, turns + more, b, j)
  {
    assert (turns + more)[..b + 1 + j] == turns[..b + 1 + j];
  }

  lemma ReplyStays(env: Env, turns: seq<Turn>, more: seq<Turn>, i: nat, n: nat)
    requires IsReply(env, turns, i, n)
    ensures IsReply(env, turns + more, i, n)
  {
    assert (turns + more)[..i] == turns[..i];
  }

  // ---------------------------------------------------------------------
  // One block.

  /** One call answered: its result at the end, and its path behind the others. */
  lemma CallAnswered(env: Env, before: Progress, call: ToolCall)
    ensures
      var outcome, after := env.tool(before.turns, call), AfterCall(env, before, call);
      && after.turns == before.turns + [ToolResult(call.id, Told(env, outcome))]
      && after.files == before.files + PathsOf(outcome)
  {
  }

  /** The outcome of call `j` of a block that starts at `b`. */
  function OutcomeAt(env: Env, turns: seq<Turn>, b: nat, calls: seq<ToolCall>, j: nat): ToolOutcome
    requires j < |calls| && b + 1 + j <= |turns|
  {
    env.tool(turns[..b + 1 + j], calls[j])
  }

  /** The paths the first `k` outcomes of a block report, in order. */
  function BlockPaths(env: Env, turns: seq<Turn>, b: nat, calls: seq<ToolCall>, k: nat): seq<Bytes>
    requires k <= |calls| && b + k <= |turns|
  {
    if k == 0 then [] else BlockPaths(env, turns, b, calls, k - 1) + PathsOf(OutcomeAt(env, turns, b, calls, k - 1))
  }

  lemma {:induction false} BlockPathsStay(env: Env, turns: seq<Turn>, more: seq<Turn>, b: nat, calls: seq<ToolCall>,
                                          k: nat)
    requires k <= |calls| && b + k <= |turns|
    ensures BlockPaths(env, turns + more, b, calls, k) == BlockPaths(env, turns, b, calls, k)
  {
    if k > 0 {
      BlockPathsStay(env, turns, more, b, calls, k - 1);
      assert (turns + more)[..b + k] == turns[..b + k];
    }
  }

  /** After a call turn the `j`-th result is what the `j`-th call gives, run on all that
      stands before it; the files grow by the paths written, in order. */
  lemma {:induction false} BlockAnswered(env: Env, before: Progress, calls: seq<ToolCall>, k: nat)
    requires k <= |calls|
    ensures
      var after, b := AfterCalls(env, before, calls, k), |before.turns|;
      && |after.turns| == b + 1 + k && before.turns + [ToolCalls(calls)] <= after.turns
      && (forall j :: 0 <= j < k ==> IsResultOf(env, after.turns, b, j))
      && after.files == before.files + BlockPaths(env, after.turns, b, calls, k)
  {
    if k > 0 {
      BlockAnswered(env, before, calls, k - 1);
      BlockGrows(env, before, AfterCalls(env, before, calls, k - 1), calls, k - 1);
    }
  }

  lemma BlockGrows(env: Env, before: Progress, sofar: Progress, calls: seq<ToolCall>, k: nat)
    requires k < |calls|
    requires |sofar.turns| == |before.turns| + 1 + k && before.turns + [ToolCalls(calls)] <= sofar.turns
    requires forall j :: 0 <= j < k ==> IsResultOf(env, sofar.turns, |before.turns|, j)
    requires sofar.files == before.files + BlockPaths(env, sofar.turns, |before.turns|, calls, k)
    ensures
      var after, b := AfterCall(env, sofar, calls[k]), |before.turns|;
      && |after.turns| == b + 2 + k && before.turns + [ToolCalls(calls)] <= after.turns
      && (forall j :: 0 <= j < k + 1 ==> IsResultOf(env, after.turns, b, j))
      && after.files == before.files + BlockPaths(env, after.turns, b, calls, k + 1)
  {
    var outcome, b := env.tool(sofar.turns, calls[k]), |before.turns|;
    var result := [ToolResult(calls[k].id, Told(env, outcome))];
    var turns := sofar.turns + result;
    CallAnswered(env, sofar, calls[k]);
    assert turns[..b + 1 + k] == sofar.turns;
    assert turns[b] == (before.turns + [ToolCalls(calls)])[b];
    BlockPathsStay(env, sofar.turns, result, b, calls, k);
    forall j | 0 <= j < k
      ensures IsResultOf(env, turns, b, j)
    {
      ResultStays(env, sofar.turns, result, b, j);
    }
  }

  // ---------------------------------------------------------------------
  // A whole run.

  /** `blocks` says where the replies stand: the first at `from`, each behind the results
      of the one before, and the last one's results end the turns. */
  ghost predicate IsRecord(env: Env, turns: seq<Turn>, from: nat, files: seq<Bytes>, blocks: seq<nat>) {
    && (forall n :: 0 <= n < |blocks| ==> IsBlock(env, turns, n, blocks[n], EndOf(turns, blocks, n)))
    && (if blocks == [] then from == |turns| else blocks[0] == from)
    && files == AllPaths(env, turns, blocks)
  }

  function EndOf(turns: seq<Turn>, blocks: seq<nat>, n: nat): nat
    requires n < |blocks|
  {
    if n + 1 < |blocks| then blocks[n + 1] else |turns|
  }

  /** The block `n` from `b` to `end`: the reply to request `n`, and one result for each
      of its calls. */
  ghost predicate IsBlock(env: Env, turns: seq<Turn>, n: nat, b: nat, end: nat) {
    && b < end <= |turns| && IsReply(env, turns, b, n) && end == b + 1 + |turns[b].calls|
    && forall j :: 0 <= j < |turns[b].calls| ==> IsResultOf(env, turns, b, j)
  }

  /** A reply with all its results among the turns. */
  predicate Whole(turns: seq<Turn>, b: nat) {
    b < |turns| && turns[b].ToolCalls? && b + |turns[b].calls| < |turns|
  }

  /** The paths the calls of each block wrote, in order. */
  function AllPaths(env: Env, turns: seq<Turn>, blocks: seq<nat>): seq<Bytes> {
    if |blocks| == 0 then []
    else
      var b := blocks[|blocks| - 1];
      AllPaths(env, turns, blocks[..|blocks| - 1])
      + if Whole(turns, b) then BlockPaths(env, turns, b, turns[b].calls, |turns[b].calls|) else []
  }

  lemma BlockStays(env: Env, turns: seq<Turn>, more: seq<Turn>, n: nat, b: nat, end: nat)
    requires IsBlock(env, turns, n, b, end)
    ensures IsBlock(env, turns + more, n, b, end)
  {
    ReplyStays(env, turns, more, b, n);
    forall j | 0 <= j < |turns[b].calls|
      ensures IsResultOf(env, turns + more, b, j)
    {
      ResultStays(env, turns, more, b, j);
    }
  }

  lemma {:induction false} AllPathsStay(env: Env, turns: seq<Turn>, more: seq<Turn>, blocks: seq<nat>)
    requires forall k :: 0 <= k < |blocks| ==> Whole(turns, blocks[k])
    ensures AllPaths(env, turns + more, blocks) == AllPaths(env, turns, blocks)
  {
    if |blocks| > 0 {
      var front, b := blocks[..|blocks| - 1], blocks[|blocks| - 1];
      AllPathsStay(env, turns, more, front);
      BlockPathsStay(env, turns, more, b, turns[b].calls, |turns[b].calls|);
      assert Whole(turns + more, b) && (turns + more)[b] == turns[b];
    }
  }

  lemma PathsGrow(env: Env, turns: seq<Turn>, more: seq<Turn>, blocks: seq<nat>, calls: seq<ToolCall>)
    requires forall k :: 0 <= k < |blocks| ==> Whole(turns, blocks[k])
    requires Whole(turns + more, |turns|) && (turns + more)[|turns|].calls == calls
    ensures AllPaths(env, turns + more, blocks + [|turns|])
            == AllPaths(env, turns, blocks) + BlockPaths(env, turns + more, |turns|, calls, |calls|)
  {
    AllPathsStay(env, turns, more, blocks);
    assert (blocks + [|turns|])[..|blocks|] == blocks;
  }

  lemma BlocksStay(env: Env, turns: seq<Turn>, more: seq<Turn>, blocks: seq<nat>)
    requires forall n :: 0 <= n < |blocks| ==> IsBlock(env, turns, n, blocks[n], EndOf(turns, blocks, n))
    requires IsBlock(env, turns + more, |blocks|, |turns|, |turns + more|)
    ensures
      var all := blocks + [|turns|];
      forall n :: 0 <= n < |all| ==> IsBlock(env, turns + more, n, all[n], EndOf(turns + more, all, n))
  {
    var all := blocks + [|turns|];
    forall n | 0 <= n < |all|
      ensures IsBlock(env, turns + more, n, all[n], EndOf(turns + more, all, n))
    {
      if n < |blocks| {
        BlockStays(env, turns, more, n, blocks[n], EndOf(turns, blocks, n));
      }
    }
  }

  /** One more block on the record. */
  lemma RecordGrows(env: Env, turns: seq<Turn>, more: seq<Turn>, from: nat, files: seq<Bytes>, blocks: seq<nat>,
                    calls: seq<ToolCall>)
    requires IsRecord(env, turns, from, files, blocks)
    requires IsBlock(env, turns + more, |blocks|, |turns|, |turns + more|)
    requires (turns + more)[|turns|] == ToolCalls(calls)
    ensures IsRecord(env, turns + more, from, files + BlockPaths(env, turns + more, |turns|, calls, |calls|),
                     blocks + [|turns|])
  {
    BlocksStay(env, turns, more, blocks);
    forall k | 0 <= k < |blocks|
      ensures Whole(turns, blocks[k])
    {
      assert IsBlock(env, turns, k, blocks[k], EndOf(turns, blocks, k));
    }
    PathsGrow(env, turns, more, blocks, calls);
  }

  lemma ReplyAnswered(env: Env, before: Progress, calls: seq<ToolCall>, n: nat) returns (more: seq<Turn>)
    requires env.ask(n, before.turns) == Calls(calls)
    ensures
      var after, b := AfterCalls(env, before, calls, |calls|), |before.turns|;
      && after.turns == before.turns + more && IsBlock(env, after.turns, n, b, |after.turns|)
      && after.turns[b] == ToolCalls(calls)
      && after.files == before.files + BlockPaths(env, after.turns, b, calls, |calls|)
  {
    BlockAnswered(env, before, calls, |calls|);
    var turns, b := AfterCalls(env, before, calls, |calls|).turns, |before.turns|;
    more := turns[b..];
    assert turns[b] == (before.turns + [ToolCalls(calls)])[b];
    assert turns[..b] == before.turns;
  }

  /** Behind the turns it starts with, a run's conversation is the client's replies to the
      turns before each, every one followed by one result per call, which is what the tool
      gives for that call on the turns before it; its files are the paths these outcomes
      report, in order. */
  lemma {:induction false} RunRecorded(env: Env, start: seq<Turn>, n: nat) returns (blocks: seq<nat>)
    requires forall m :: 0 <= m < n ==> ReplyAt(env, start, m).Calls?
    ensures |blocks| == n && start <= After(env, start, n).turns
    ensures IsRecord(env, After(env, start, n).turns, |start|, After(env, start, n).files, blocks)
  {
    if n == 0 {
      blocks := [];
    } else {
      var before := After(env, start, n - 1);
      blocks := RunRecorded(env, start, n - 1);
      var reply := ReplyAt(env, start, n - 1);
      var more := ReplyAnswered(env, before, reply.calls, n - 1);
      RecordGrows(env, before.turns, more, |start|, before.files, blocks, reply.calls);
      blocks := blocks + [|before.turns|];
    }
  }

  // ---------------------------------------------------------------------
  // What the client sends of the turns it is handed.

  /** A turn as sent: a result over 24 000 bytes up to its last character boundary there,
      with the note that it was cut, and any other turn as it is. */
  predicate Sent(turn: Turn, sent: Turn) {
    if turn.ToolResult? then sent.ToolResult? && sent.callId == turn.callId && IsCutOf(turn.result, sent.result)
    else sent == turn
  }

  predicate IsCutOf(text: Bytes, out: Bytes) {
    if |text| <= 24_000 then out == text
    else exists cut :: 0 <= cut <= 24_000 && LastBoundary(text, cut) && out == text[..cut] + Marker()
  }

  /** No character starts between `cut` and byte 24 000, but one does at `cut`. */
  predicate LastBoundary(text: Bytes, cut: nat)
    requires cut <= 24_000 < |text|
  {
    && (cut == 0 || !(0x80 <= text[cut] < 0xC0))
    && forall i :: cut < i <= 24_000 ==> 0x80 <= text[i] < 0xC0
  }

  lemma CutExact(text: Bytes)
    ensures IsCutOf(text, Bounded(text))
  {
    if |text| > 24_000 {
      var cut := CutAt(text, 24_000);
      forall i | cut < i <= 24_000
        ensures 0x80 <= text[i] < 0xC0
      {
        assert !IsCharBoundary(text, i);
      }
      assert LastBoundary(text, cut);
    }
  }

  lemma SentAs(turn: Turn)
    ensures Sent(turn, CutResult(turn))
  {
    if turn.ToolResult? {
      CutExact(turn.result);
    }
  }

  /** The request is the kept turns, each as sent. */
  lemma RequestSent(turns: seq<Turn>)
    ensures |Request(turns)| == |turns| - TrimStart(turns, 0)
    ensures forall i :: 0 <= i < |Request(turns)| ==> Sent(turns[TrimStart(turns, 0) + i], Request(turns)[i])
  {
    CutAll(Trimmed(turns));
  }

  lemma CutAll(kept: seq<Turn>)
    ensures forall i :: 0 <= i < |kept| ==> Sent(kept[i], CutResults(kept)[i])
  {
    forall i | 0 <= i < |kept|
      ensures Sent(kept[i], CutResults(kept)[i])
    {
      SentAs(kept[i]);
    }
  }

  /** The note, letter by letter. */
  lemma MarkerSpelled()
    ensures
      var note := "\n\n[tool output truncated at 24000 chars]";
      |Marker()| == |note| && forall i :: 0 <= i < |note| ==> Marker()[i] as int == note[i] as int
  {
  }
}
