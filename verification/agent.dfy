/**
 The agent loop: model replies and tool results pushed onto one conversation, which
 the model sees trimmed and with long results cut. The model and the tools are
 arbitrary: they answer any step with anything.
 */
module Agent {
  import opened Wrappers
  import opened Conversation
  import opened ConversationTheorems

  // ---------------------------------------------------------------------
  // Cutting one long result.

  const MAX_TOOL_RESULT_CHARS: nat := 24_000
  const MARKER_BYTES: nat := 40

  /** `\n\n[tool output truncated at 24000 chars]`, in bytes. */
  function Marker(): (m: Bytes)
    ensures |m| == MARKER_BYTES
  {
    [10, 10, 91, 116, 111, 111, 108, 32, 111, 117, 116, 112, 117, 116, 32, 116, 114, 117, 110, 99,
     97, 116, 101, 100, 32, 97, 116, 32, 50, 52, 48, 48, 48, 32, 99, 104, 97, 114, 115, 93]
  }

  /** Not inside a multibyte character: the byte at `i` is not a continuation byte. */
  predicate IsCharBoundary(text: Bytes, i: nat) {
    i == 0 || i == |text| || (i < |text| && !(0x80 <= text[i] < 0xC0))
  }

  /** The last character boundary at or before `cut`. */
  function CutAt(text: Bytes, cut: nat): (r: nat)
    requires cut <= |text|
    ensures r <= cut && IsCharBoundary(text, r)
    ensures forall i :: r < i <= cut ==> !IsCharBoundary(text, i)
  {
    if IsCharBoundary(text, cut) then cut else CutAt(text, cut - 1)
  }

  function Bounded(text: Bytes): Bytes {
    if |text| <= MAX_TOOL_RESULT_CHARS then text else text[..CutAt(text, MAX_TOOL_RESULT_CHARS)] + Marker()
  }

  method BoundToolResult(text: Bytes) returns (out: Bytes)
    ensures out == Bounded(text)
  {
    if |text| <= MAX_TOOL_RESULT_CHARS {
      return text;
    }
    var cut := MAX_TOOL_RESULT_CHARS;
    while !IsCharBoundary(text, cut)
      invariant 0 <= cut <= MAX_TOOL_RESULT_CHARS
      invariant CutAt(text, MAX_TOOL_RESULT_CHARS) == CutAt(text, cut)
      decreases cut
    {
      cut := cut - 1;
    }
    out := text[..cut] + Marker();
  }

  predicate NearBoundary(text: Bytes, i: nat) {
    exists k :: 0 <= k <= i <= k + 3 && IsCharBoundary(text, k)
  }

  /** Well-encoded text: no more than three continuation bytes in a row. */
  predicate WellEncoded(text: Bytes) {
    forall i :: 0 <= i < |text| ==> NearBoundary(text, i)
  }

  predicate Continues(text: Bytes, i: nat)
    requires i < |text|
  {
    0x80 <= text[i] < 0xC0
  }

  /** What the cut costs: at most three bytes below the limit. The marker comes on top,
      so a result barely over the limit grows. It is not larger than before exactly when
      it fits, or has at least 37 bytes too many, 40 being enough, and 39, 38 and 37 only
      if the cut moves back: over byte 24_000, over it and byte 23_999, over these and
      byte 23_998. */
  lemma BoundedSize(text: Bytes)
    requires WellEncoded(text)
    ensures |text| > MAX_TOOL_RESULT_CHARS ==>
              MAX_TOOL_RESULT_CHARS - 3 + MARKER_BYTES <= |Bounded(text)| <= MAX_TOOL_RESULT_CHARS + MARKER_BYTES
    ensures |text| <= MAX_TOOL_RESULT_CHARS || |text| >= 24_040 ==> |Bounded(text)| <= |text|
    ensures MAX_TOOL_RESULT_CHARS < |text| < 24_037 ==> |Bounded(text)| > |text|
    ensures |Bounded(text)| <= |text|
            <==> || |text| <= MAX_TOOL_RESULT_CHARS || |text| >= 24_040
                 || (|text| == 24_039 && Continues(text, 24_000))
                 || (|text| == 24_038 && Continues(text, 24_000) && Continues(text, 23_999))
                 || (|text| == 24_037 && Continues(text, 24_000) && Continues(text, 23_999) && Continues(text, 23_998))
  {
    if |text| > MAX_TOOL_RESULT_CHARS {
      assert NearBoundary(text, MAX_TOOL_RESULT_CHARS);
      CutSteps(text);
    }
  }

  /** How far the cut moves back, byte by byte. */
  lemma CutSteps(text: Bytes)
    requires |text| > MAX_TOOL_RESULT_CHARS
    ensures
      var cut := CutAt(text, MAX_TOOL_RESULT_CHARS);
      && (cut < 24_000 <==> Continues(text, 24_000))
      && (cut < 23_999 <==> Continues(text, 24_000) && Continues(text, 23_999))
      && (cut < 23_998 <==> Continues(text, 24_000) && Continues(text, 23_999) && Continues(text, 23_998))
  {
    var cut := CutAt(text, MAX_TOOL_RESULT_CHARS);
    assert IsCharBoundary(text, 24_000) <==> !Continues(text, 24_000);
    assert IsCharBoundary(text, 23_999) <==> !Continues(text, 23_999);
    assert IsCharBoundary(text, 23_998) <==> !Continues(text, 23_998);
  }

  /** One byte over the limit: the cut result is larger than the whole one. */
  lemma CutMayGrow()
    ensures
      var text: Bytes := seq(24_001, _ => 97);
      WellEncoded(text) && |Bounded(text)| > |text|
  {
    var text: Bytes := seq(24_001, _ => 97);
    forall i | 0 <= i < |text|
      ensures NearBoundary(text, i)
    {
      assert IsCharBoundary(text, i);
    }
  }

  // ---------------------------------------------------------------------
  // What the model is sent.

  function CutResult(turn: Turn): Turn {
    if turn.ToolResult? then ToolResult(turn.callId, Bounded(turn.result)) else turn
  }

  function CutResults(turns: seq<Turn>): (r: seq<Turn>)
    ensures |r| == |turns|
    ensures forall i :: 0 <= i < |turns| ==> r[i] == CutResult(turns[i])
  {
    seq(|turns|, i requires 0 <= i < |turns| => CutResult(turns[i]))
  }

  function Request(conversation: seq<Turn>): seq<Turn> {
    CutResults(Trimmed(conversation))
  }

  // ---------------------------------------------------------------------
  // The loop.

  datatype Reply = Text(answer: Bytes) | Calls(calls: seq<ToolCall>) | Transport(error: Bytes)

  /** What running a tool gives: a result and perhaps a path written, or an error. */
  type ToolOutcome = Result<(Bytes, Option<Bytes>), Bytes>

  /** The world a run meets: the client's reply to the `n`-th conversation it is handed,
      and each tool's outcome given the conversation so far. */
  datatype Env = Env(ask: (nat, seq<Turn>) -> Reply, tool: (seq<Turn>, ToolCall) -> ToolOutcome,
                     errorJson: Bytes -> Bytes)

  datatype Progress = Progress(turns: seq<Turn>, files: seq<Bytes>)

  /** One call answered: an error goes back to the model like a result. */
  function AfterCall(env: Env, before: Progress, call: ToolCall): Progress {
    match env.tool(before.turns, call)
    case Ok(outcome) =>
      Progress(before.turns + [ToolResult(call.id, outcome.0)],
               if outcome.1.Some? then before.files + [outcome.1.value] else before.files)
    case Err(error) => Progress(before.turns + [ToolResult(call.id, env.errorJson(error))], before.files)
  }

  /** The first `k` of `calls` answered. */
  function AfterCalls(env: Env, before: Progress, calls: seq<ToolCall>, k: nat): Progress
    requires k <= |calls|
  {
    if k == 0 then before.(turns := before.turns + [ToolCalls(calls)])
    else AfterCall(env, AfterCalls(env, before, calls, k - 1), calls[k - 1])
  }

  /** After `n` steps, as long as the model keeps calling tools. */
  function After(env: Env, start: seq<Turn>, n: nat): Progress {
    if n == 0 then Progress(start, [])
    else
      var before := After(env, start, n - 1);
      match env.ask(n - 1, before.turns)
      case Calls(calls) => AfterCalls(env, before, calls, |calls|)
      case _ => before
  }

  function ReplyAt(env: Env, start: seq<Turn>, n: nat): Reply {
    env.ask(n, After(env, start, n).turns)
  }

  datatype Outcome = Answer(text: Bytes, files: seq<Bytes>) | Failed(error: Bytes) | StepCapExceeded

  /** The loop of a query, a mutation (started with one user turn) or a chat (started
      with its history): it calls tools until the model answers in text. */
  method Run(env: Env, start: seq<Turn>, maxSteps: nat) returns (outcome: Outcome, steps: nat)
    ensures steps <= maxSteps
    ensures forall n :: 0 <= n < steps ==> ReplyAt(env, start, n).Calls?
    ensures outcome == if steps == maxSteps then StepCapExceeded
                       else match ReplyAt(env, start, steps)
                            case Text(answer) => Answer(answer, After(env, start, steps).files)
                            case Transport(error) => Failed(error)
                            case Calls(_) => outcome
    ensures steps < maxSteps ==> !ReplyAt(env, start, steps).Calls?
  {
    var progress := Progress(start, []);
    steps := 0;
    while steps < maxSteps
      invariant steps <= maxSteps && progress == After(env, start, steps)
      invariant forall n :: 0 <= n < steps ==> ReplyAt(env, start, n).Calls?
    {
      var reply := env.ask(steps, progress.turns);
      match reply {
        case Transport(error) =>
          return Failed(error), steps;
        case Text(answer) =>
          return Answer(answer, progress.files), steps;
        case Calls(calls) =>
          progress := AnswerCalls(env, progress, calls);
      }
      steps := steps + 1;
    }
    outcome := StepCapExceeded;
  }

  method AnswerCalls(env: Env, before: Progress, calls: seq<ToolCall>) returns (progress: Progress)
    ensures progress == AfterCalls(env, before, calls, |calls|)
  {
    var conversation, files := before.turns + [ToolCalls(calls)], before.files;
    for k := 0 to |calls|
      invariant Progress(conversation, files) == AfterCalls(env, before, calls, k)
    {
      var call := calls[k];
      var result;
      match env.tool(conversation, call) {
        case Ok(outcome) =>
          result := outcome.0;
          if outcome.1.Some? {
            files := files + [outcome.1.value];
          }
        case Err(error) =>
          result := env.errorJson(error);
      }
      conversation := conversation + [ToolResult(call.id, result)];
    }
    progress := Progress(conversation, files);
  }

  // ---------------------------------------------------------------------
  // The protocol, over whole runs.

  lemma {:induction false} AfterCallsShape(env: Env, before: Progress, calls: seq<ToolCall>, k: nat)
    requires k <= |calls|
    ensures
      var turns := AfterCalls(env, before, calls, k).turns;
      && |turns| == |before.turns| + 1 + k
      && turns[..|before.turns| + 1] == before.turns + [ToolCalls(calls)]
      && forall j :: |before.turns| < j < |turns| ==>
           turns[j].ToolResult? && turns[j].callId == calls[j - |before.turns| - 1].id
  {
    if k > 0 {
      AfterCallsShape(env, before, calls, k - 1);
      var turns := AfterCalls(env, before, calls, k - 1).turns;
      var last := AfterCalls(env, before, calls, k).turns[|turns|];
      assert AfterCalls(env, before, calls, k).turns == turns + [last];
    }
  }

  lemma {:induction false} ResultsRun(turns: seq<Turn>, k: nat, end: nat)
    requires k <= end <= |turns| && (forall i :: k <= i < end ==> turns[i].ToolResult?)
    requires end < |turns| ==> !turns[end].ToolResult?
    ensures ResultsEnd(turns, k) == end
    decreases end - k
  {
    if k < end {
      ResultsRun(turns, k + 1, end);
    }
  }

  /** One more block keeps the pairing. */
  lemma BlockPaired(turns: seq<Turn>, before: seq<Turn>, calls: seq<ToolCall>)
    requires Paired(before)
    requires |turns| == |before| + 1 + |calls| && turns[..|before| + 1] == before + [ToolCalls(calls)]
    requires forall j :: |before| < j < |turns| ==>
               turns[j].ToolResult? && turns[j].callId == calls[j - |before| - 1].id
    ensures Paired(turns)
  {
    assert turns[|before|] == ToolCalls(calls);
    assert forall i :: 0 <= i < |before| ==> turns[i] == turns[..|before| + 1][i] == before[i];
    forall i | 0 <= i < |turns| && turns[i].ToolCalls?
      ensures Answered(turns, i)
    {
      if i == |before| {
        ResultsRun(turns, i + 1, |turns|);
      } else {
        assert Answered(before, i);
        ResultsRun(turns, i + 1, i + 1 + |before[i].calls|);
      }
    }
  }

  /** Every conversation of a run is paired, if it started paired. */
  lemma {:induction false} RunPaired(env: Env, start: seq<Turn>, n: nat)
    requires Paired(start)
    ensures Paired(After(env, start, n).turns)
  {
    if n > 0 {
      RunPaired(env, start, n - 1);
      var before := After(env, start, n - 1);
      var reply := env.ask(n - 1, before.turns);
      if reply.Calls? {
        AfterCallsShape(env, before, reply.calls, |reply.calls|);
        BlockPaired(After(env, start, n).turns, before.turns, reply.calls);
      }
    }
  }

  /** Cutting results leaves the pairing alone. */
  lemma CutPaired(turns: seq<Turn>)
    requires Paired(turns)
    ensures Paired(CutResults(turns))
  {
    var cut := CutResults(turns);
    forall i | 0 <= i < |cut| && cut[i].ToolCalls?
      ensures Answered(cut, i)
    {
      assert Answered(turns, i);
      ResultsRun(cut, i + 1, i + 1 + |turns[i].calls|);
    }
  }

  /** Whatever the model and the tools answer, every request of every run pairs each
      tool-call turn with exactly one result per call, in order, right after it. */
  lemma RequestsPaired(env: Env, start: seq<Turn>, n: nat)
    requires Paired(start)
    ensures Paired(Request(After(env, start, n).turns))
  {
    RunPaired(env, start, n);
    TrimPaired(After(env, start, n).turns);
    CutPaired(Trimmed(After(env, start, n).turns));
  }

  /** Past the start, a run only ever appends, and never a user turn. */
  lemma {:induction false} RunAppends(env: Env, start: seq<Turn>, n: nat)
    ensures start <= After(env, start, n).turns
    ensures forall i :: |start| <= i < |After(env, start, n).turns| ==> !After(env, start, n).turns[i].User?
  {
    if n > 0 {
      RunAppends(env, start, n - 1);
      var before := After(env, start, n - 1);
      var reply := env.ask(n - 1, before.turns);
      if reply.Calls? {
        AfterCallsShape(env, before, reply.calls, |reply.calls|);
        var turns := After(env, start, n).turns;
        assert forall i :: 0 <= i < |before.turns| ==> turns[i] == turns[..|before.turns| + 1][i] == before.turns[i];
        assert turns[|before.turns|] == ToolCalls(reply.calls);
      }
    }
  }

  /** A run whose last user turn is its first turn loses nothing to the trim: a query or
      a mutation sends its whole conversation at every step. */
  lemma RunsUntrimmed(env: Env, prompt: Bytes, n: nat)
    ensures Request(After(env, [User(prompt)], n).turns) == CutResults(After(env, [User(prompt)], n).turns)
  {
    RunAppends(env, [User(prompt)], n);
    TrimKeepsLastUser(After(env, [User(prompt)], n).turns, 0, 0);
  }

  /** A chat never loses the last user message of its history, nor anything after it. */
  lemma ChatKeepsLastMessage(env: Env, history: seq<Turn>, i: nat, n: nat)
    requires i < |history| && history[i].User? && forall j :: i < j < |history| ==> !history[j].User?
    ensures TrimStart(After(env, history, n).turns, 0) <= i
  {
    RunAppends(env, history, n);
    TrimKeepsLastUser(After(env, history, n).turns, 0, i);
  }
}
