/** The steps of a trajectory, and the conversion of single events and seed history into them. */
module AtifSteps {
  import opened Wrappers
  import opened Sorting
  import opened SimulationEvents

  datatype Source = System | User | Agent

  datatype PromptKind = Initial | Continue

  datatype ObservationResult = ObservationResult(sourceCallId: string, content: string)

  datatype Metrics = Metrics(promptTokens: int, completionTokens: int, cachedTokens: int, costUsd: Option<real>,
                             cacheCreationTokens: int, reasoningTokens: int)

  datatype FailedCycle = FailedCycle(cycle: int, errorType: string, message: string)

  /** What a step records besides the ATIF fields; the constructors are its `kind`. */
  datatype Extra =
    | SystemPrompt(promptRound: int)
    | SeedHistory
    | RunnerPrompt(kind: PromptKind)
    | Compaction(compactionRound: int, providerName: string)
    | AgentTurn(turnRound: int, stopReason: string, failedCycles: seq<FailedCycle>)

  datatype Step = Step(
    stepId: nat, timestamp: Option<int>, source: Source, message: string, modelName: Option<string>,
    reasoning: Option<string>, toolCalls: seq<ToolCall>, observation: seq<ObservationResult>,
    metrics: Option<Metrics>, isCopiedContext: Option<bool>, llmCallCount: Option<nat>, extra: Extra)
  {
    predicate Copied() {
      isCopiedContext == Some(true)
    }

    /** A turn this generation played itself, as opposed to seed history. */
    predicate OwnTurn() {
      extra.AgentTurn?
    }
  }

  function CopiedFlag(copied: bool): Option<bool> {
    if copied then Some(true) else None
  }

  function PlainStep(stepId: nat, timestamp: Option<int>, source: Source, message: string,
                     copied: Option<bool>, extra: Extra): Step {
    Step(stepId, timestamp, source, message, None, None, [], [], None, copied, None, extra)
  }

  function SystemPromptStep(stepId: nat, registration: Registration, copied: bool): Step {
    PlainStep(stepId, Some(registration.timestamp), System, registration.body.systemPrompt,
              CopiedFlag(copied), SystemPrompt(registration.roundNumber))
  }

  function RunnerPromptStep(stepId: nat, prompt: string, kind: PromptKind, copied: bool): Step {
    PlainStep(stepId, None, User, prompt, CopiedFlag(copied), RunnerPrompt(kind))
  }

  function CompactionStep(stepId: nat, event: Event, copied: bool): Step
    requires event.body.ContextCompacted?
  {
    PlainStep(stepId, Some(event.timestamp), System, event.body.summaryText, CopiedFlag(copied),
              Compaction(event.roundNumber, event.body.providerName))
  }

  ghost predicate AllFailedCycles(events: seq<Event>) {
    forall i | 0 <= i < |events| :: IsFailedCycle(events[i])
  }

  function FailedCycleRecords(failures: seq<Event>): (records: seq<FailedCycle>)
    requires AllFailedCycles(failures)
  {
    if failures == [] then []
    else
      var failure := failures[0].body;
      [FailedCycle(failure.cycle, failure.errorType, failure.message)] + FailedCycleRecords(failures[1..])
  }

  /** `records` say of each of `failures`, in order, what failed. */
  ghost predicate Record(records: seq<FailedCycle>, failures: seq<Event>) {
    && |records| == |failures|
    && forall i | 0 <= i < |failures| ::
         failures[i].body == AgentRunCycleFailed(records[i].cycle, records[i].errorType, records[i].message)
  }

  lemma {:induction false} FailuresAreRecorded(failures: seq<Event>)
    requires AllFailedCycles(failures)
    ensures Record(FailedCycleRecords(failures), failures)
  {
    if failures != [] {
      FailuresAreRecorded(failures[1..]);
    }
  }

  function StepMetrics(usage: TokenUsage, costUsd: Option<real>): Option<Metrics> {
    if usage.Logged() == 0 then None
    else Some(Metrics(usage.input, usage.output, usage.cacheRead, costUsd, usage.cacheCreation, usage.reasoning))
  }

  /** The results of the calls that returned one, in the order the calls were made. */
  function Observation(calls: seq<ToolCall>, results: map<string, string>): seq<ObservationResult> {
    if calls == [] then []
    else (if calls[0].callId in results then [ObservationResult(calls[0].callId, results[calls[0].callId])] else [])
         + Observation(calls[1..], results)
  }

  function AgentStep(stepId: nat, event: Event, modelName: string, costUsd: Option<real>,
                     results: map<string, string>, failedCycles: seq<Event>, copied: bool,
                     startedAt: int, llmCallCount: Option<nat>): Step
    requires IsResponse(event)
    requires AllFailedCycles(failedCycles)
  {
    Step(stepId, Some(startedAt), Agent, event.body.text.GetOr(""), Some(modelName), event.body.thinking,
         event.body.toolCalls, Observation(event.body.toolCalls, results),
         StepMetrics(event.body.usage, costUsd), CopiedFlag(copied), llmCallCount,
         AgentTurn(event.roundNumber, event.body.stopReason, FailedCycleRecords(failedCycles)))
  }

  // ----- Seed history -----

  datatype RequestPart =
    | UserPromptPart(prompt: string)
    | ToolReturnPart(toolCallId: string, content: string)
    | AnotherRequestPart

  /** A rebuilt history message; text and thinking parts are already joined by newlines. */
  datatype ModelMessage =
    | ModelRequest(parts: seq<RequestPart>)
    | ModelResponse(text: string, thinking: string, calls: seq<ToolCall>)

  function ReturnsOfParts(parts: seq<RequestPart>): map<string, string> {
    if parts == [] then map[]
    else
      var before := ReturnsOfParts(parts[..|parts| - 1]);
      var last := parts[|parts| - 1];
      if last.ToolReturnPart? then before[last.toolCallId := last.content] else before
  }

  function ToolReturns(history: seq<ModelMessage>): map<string, string> {
    if history == [] then map[]
    else
      var before := ToolReturns(history[..|history| - 1]);
      var last := history[|history| - 1];
      if last.ModelRequest? then before + ReturnsOfParts(last.parts) else before
  }

  function SeedStep(stepId: nat, source: Source, message: string): Step {
    PlainStep(stepId, None, source, message, Some(true), SeedHistory)
  }

  function ResponseStep(stepId: nat, response: ModelMessage, returned: map<string, string>): Step
    requires response.ModelResponse?
  {
    SeedStep(stepId, Agent, response.text).(
      reasoning := if response.thinking != "" then Some(response.thinking) else None,
      toolCalls := response.calls,
      observation := Observation(response.calls, returned))
  }

  function PromptSteps(firstStepId: nat, parts: seq<RequestPart>): seq<Step> {
    if parts == [] then []
    else
      var before := PromptSteps(firstStepId, parts[..|parts| - 1]);
      var last := parts[|parts| - 1];
      if last.UserPromptPart? then before + [SeedStep(firstStepId + |before|, User, last.prompt)] else before
  }

  function MessageSteps(firstStepId: nat, message: ModelMessage, returned: map<string, string>): seq<Step> {
    match message
    case ModelResponse(_, _, _) => [ResponseStep(firstStepId, message, returned)]
    case ModelRequest(parts) => PromptSteps(firstStepId, parts)
  }

  function SeedStepsThrough(firstStepId: nat, history: seq<ModelMessage>, returned: map<string, string>): seq<Step> {
    if history == [] then []
    else
      var before := SeedStepsThrough(firstStepId, history[..|history| - 1], returned);
      before + MessageSteps(firstStepId + |before|, history[|history| - 1], returned)
  }

  /** The seed's steps, each agent step with what the whole history returned for its calls. */
  function SeedSteps(firstStepId: nat, history: seq<ModelMessage>): seq<Step> {
    SeedStepsThrough(firstStepId, history, ToolReturns(history))
  }

  /** The parts of a history's requests, one after the other. */
  function RequestParts(history: seq<ModelMessage>): seq<RequestPart> {
    if history == [] then []
    else
      var last := history[|history| - 1];
      RequestParts(history[..|history| - 1]) + (if last.ModelRequest? then last.parts else [])
  }

  predicate Returns(part: RequestPart, callId: string) {
    part.ToolReturnPart? && part.toolCallId == callId
  }

  /** `returned` has the calls that some part returns, each with what the last such part returned. */
  ghost predicate KeepsLastReturn(returned: map<string, string>, parts: seq<RequestPart>) {
    && (forall callId :: callId in returned <==> exists i | 0 <= i < |parts| :: Returns(parts[i], callId))
    && (forall i | 0 <= i < |parts| && parts[i].ToolReturnPart? && LastOfItsCall(parts, i) ::
          parts[i].toolCallId in returned && returned[parts[i].toolCallId] == parts[i].content)
  }

  ghost predicate LastOfItsCall(parts: seq<RequestPart>, i: nat)
    requires i < |parts| && parts[i].ToolReturnPart?
  {
    forall k | i < k < |parts| :: !Returns(parts[k], parts[i].toolCallId)
  }

  /** One more part either returns nothing or replaces what its call returned before. */
  lemma KeepsLastNext(returned: map<string, string>, parts: seq<RequestPart>, part: RequestPart)
    requires KeepsLastReturn(returned, parts)
    ensures KeepsLastReturn(if part.ToolReturnPart? then returned[part.toolCallId := part.content] else returned,
                            parts + [part])
  {
    var all := parts + [part];
    var after := if part.ToolReturnPart? then returned[part.toolCallId := part.content] else returned;
    forall callId ensures callId in after <==> exists i | 0 <= i < |all| :: Returns(all[i], callId) {
      if i :| 0 <= i < |parts| && Returns(parts[i], callId) {
        assert Returns(all[i], callId);
      }
      if Returns(part, callId) {
        assert Returns(all[|parts|], callId);
      }
    }
    forall i | 0 <= i < |all| && all[i].ToolReturnPart? && LastOfItsCall(all, i)
      ensures all[i].toolCallId in after && after[all[i].toolCallId] == all[i].content
    {
      if i < |parts| {
        assert all[i] == parts[i] && !Returns(all[|parts|], all[i].toolCallId);
        assert LastOfItsCall(parts, i) by {
          forall k | i < k < |parts| ensures !Returns(parts[k], parts[i].toolCallId) {
            assert all[k] == parts[k];
          }
        }
      }
    }
  }

  lemma {:induction false} ReturnsOfMoreParts(returned: map<string, string>, before: seq<RequestPart>,
        parts: seq<RequestPart>)
    requires KeepsLastReturn(returned, before)
    ensures KeepsLastReturn(returned + ReturnsOfParts(parts), before + parts)
  {
    hide KeepsLastReturn;
    if parts == [] {
      assert before + parts == before && returned + ReturnsOfParts(parts) == returned;
    } else {
      var n := |parts| - 1;
      var last := parts[n];
      ReturnsOfMoreParts(returned, before, parts[..n]);
      KeepsLastNext(returned + ReturnsOfParts(parts[..n]), before + parts[..n], last);
      assert before + parts == before + parts[..n] + [last];
      var inner := ReturnsOfParts(parts[..n]);
      assert returned + ReturnsOfParts(parts)
             == if last.ToolReturnPart? then (returned + inner)[last.toolCallId := last.content] else returned + inner;
    }
  }

  lemma NothingReturned()
    ensures KeepsLastReturn(map[], [])
  {
  }

  /** What a history returns for a call is what the last of its parts that returns that call says. */
  lemma {:induction false} ToolReturnsAreLatest(history: seq<ModelMessage>)
    ensures KeepsLastReturn(ToolReturns(history), RequestParts(history))
  {
    hide KeepsLastReturn, ReturnsOfParts;
    if history == [] {
      NothingReturned();
    } else {
      var n := |history| - 1;
      var last := history[n];
      ToolReturnsAreLatest(history[..n]);
      if last.ModelRequest? {
        ReturnsOfMoreParts(ToolReturns(history[..n]), RequestParts(history[..n]), last.parts);
      } else {
        assert RequestParts(history[..n]) + [] == RequestParts(history[..n]);
      }
    }
  }

  method ToolReturnsByCallId(history: seq<ModelMessage>) returns (returned: map<string, string>)
    ensures returned == ToolReturns(history)
    ensures KeepsLastReturn(returned, RequestParts(history))
  {
    ToolReturnsAreLatest(history);
    hide KeepsLastReturn;
    returned := map[];
    for i := 0 to |history|
      invariant returned == ToolReturns(history[..i])
    {
      assert history[..i + 1][..i] == history[..i];
      if history[i].ModelRequest? {
        var parts := history[i].parts;
        ghost var before := returned;
        for j := 0 to |parts|
          invariant returned == before + ReturnsOfParts(parts[..j])
        {
          assert parts[..j + 1][..j] == parts[..j];
          if parts[j].ToolReturnPart? {
            returned := returned[parts[j].toolCallId := parts[j].content];
          }
        }
        assert parts[..|parts|] == parts;
      }
    }
    assert history[..|history|] == history;
  }

  method BuildSeedSteps(firstStepId: nat, history: seq<ModelMessage>) returns (steps: seq<Step>)
    ensures steps == SeedSteps(firstStepId, history)
  {
    hide SeedStep, ResponseStep, ToolReturns;
    var returned := ToolReturnsByCallId(history);
    steps := [];
    for i := 0 to |history|
      invariant steps == SeedStepsThrough(firstStepId, history[..i], returned)
    {
      assert history[..i + 1][..i] == history[..i];
      match history[i] {
        case ModelResponse(_, _, _) =>
          steps := steps + [ResponseStep(firstStepId + |steps|, history[i], returned)];
        case ModelRequest(parts) =>
          ghost var before := steps;
          for j := 0 to |parts|
            invariant steps == before + PromptSteps(firstStepId + |before|, parts[..j])
          {
            assert parts[..j + 1][..j] == parts[..j];
            if parts[j].UserPromptPart? {
              steps := steps + [SeedStep(firstStepId + |steps|, User, parts[j].prompt)];
            }
          }
          assert parts[..|parts|] == parts;
      }
    }
    assert history[..|history|] == history;
  }

  /** Steps numbered without gaps from `first`. */
  ghost predicate Numbered(steps: seq<Step>, first: nat) {
    forall i | 0 <= i < |steps| :: steps[i].stepId == first + i
  }

  ghost predicate AllSeed(steps: seq<Step>) {
    forall s | s in steps ::
      && s.extra == SeedHistory && s.Copied() && s.metrics == None && s.llmCallCount == None
      && s.timestamp == None && s.modelName == None
      && (s.source != Agent ==> s.reasoning == None && s.toolCalls == [] && s.observation == [])
  }

  /** Seed history is numbered from where it starts and is all copied context. */
  lemma {:induction false} SeedStepsAreCopied(first: nat, history: seq<ModelMessage>, returned: map<string, string>)
    ensures Numbered(SeedStepsThrough(first, history, returned), first)
    ensures AllSeed(SeedStepsThrough(first, history, returned))
  {
    if history != [] {
      var n := |history| - 1;
      SeedStepsAreCopied(first, history[..n], returned);
      var before := SeedStepsThrough(first, history[..n], returned);
      if history[n].ModelRequest? {
        PromptStepsAreCopied(first + |before|, history[n].parts);
      }
    }
  }

  lemma {:induction false} PromptStepsAreCopied(first: nat, parts: seq<RequestPart>)
    ensures Numbered(PromptSteps(first, parts), first) && AllSeed(PromptSteps(first, parts))
  {
    if parts != [] {
      PromptStepsAreCopied(first, parts[..|parts| - 1]);
    }
  }

  function Returned(results: map<string, string>): ToolCall -> bool {
    (call: ToolCall) => call.callId in results
  }

  /** The observation has one result for each call that returned, in call order, and it is that call's. */
  lemma {:induction false} ObservationFollowsCalls(calls: seq<ToolCall>, results: map<string, string>)
    ensures
      var observed, returned := Observation(calls, results), Filter(calls, Returned(results));
      && |observed| == |returned|
      && forall i | 0 <= i < |observed| ::
           && observed[i].sourceCallId == returned[i].callId
           && observed[i].sourceCallId in results
           && observed[i].content == results[observed[i].sourceCallId]
  {
    if calls != [] {
      ObservationFollowsCalls(calls[1..], results);
    }
  }

  /** Each call's recorded result, and nothing else, is in the observation; when all returned, one per call. */
  lemma {:induction false} ObservationLinksCalls(calls: seq<ToolCall>, results: map<string, string>)
    ensures forall r | r in Observation(calls, results) ::
            r.sourceCallId in results && r.content == results[r.sourceCallId]
    ensures forall c | c in calls && c.callId in results ::
              ObservationResult(c.callId, results[c.callId]) in Observation(calls, results)
    ensures (forall c | c in calls :: c.callId in results) ==>
              && |Observation(calls, results)| == |calls|
              && forall i | 0 <= i < |calls| :: Observation(calls, results)[i].sourceCallId == calls[i].callId
  {
    if calls != [] {
      ObservationLinksCalls(calls[1..], results);
      assert calls == [calls[0]] + calls[1..];
    }
  }
}
