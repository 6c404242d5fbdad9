/**
  Building an agent's ATIF trajectories from its run's events.

  The loops of the program are methods here. What each promises is stated by looking back over
  the events it was given: which prompt was due, which failures were pending and how many
  responses were open are read off the events before a turn, not off the loop's variables.
 */
module TrajectoryBuilder {
  import opened Wrappers
  import opened Sorting
  import opened SimulationEvents
  import opened AtifSteps

  datatype CopiedContext = CopiedContext(copiedEventIds: set<string>, seededAgentId: Option<string>,
                                         boundarySeed: seq<ModelMessage>)

  /** `swapSeed` rebuilds the history of an in-run swap; `cost` prices one recorded usage. */
  datatype RunContext = RunContext(
    events: seq<Event>, copied: CopiedContext,
    swapSeed: (Event, Registration) -> seq<ModelMessage>,
    cost: (string, string, int, TokenUsage) -> Option<real>)

  datatype Generation = Generation(openingEventId: string, registration: Registration, model: string,
                                   provider: string, seed: seq<ModelMessage>, events: seq<Event>)

  datatype BuildError = NotRegistered(agentId: string) | SwappedBeforeRegistered

  // ----- Selecting an agent's events -----

  function Selects(agentId: string, cutoffRound: Option<int>): Event -> bool {
    (e: Event) => e.agentId == Some(agentId) && (cutoffRound.Some? ==> e.roundNumber < cutoffRound.value)
  }

  method SelectAgentEvents(events: seq<Event>, agentId: string, cutoffRound: Option<int>)
    returns (selected: seq<Event>)
    ensures selected == Filter(events, Selects(agentId, cutoffRound))
    ensures forall e :: e in selected <==>
              && e in events && e.agentId == Some(agentId)
              && (cutoffRound == None || e.roundNumber < cutoffRound.value)
  {
    selected := [];
    ghost var keep := Selects(agentId, cutoffRound);
    for i := 0 to |events|
      invariant selected == Filter(events[..i], keep)
    {
      assert events[..i + 1] == events[..i] + [events[i]];
      FilterConcat(events[..i], [events[i]], keep);
      var event := events[i];
      if event.agentId != Some(agentId) {
        continue;
      }
      if cutoffRound.Some? && event.roundNumber >= cutoffRound.value {
        continue;
      }
      selected := selected + [event];
    }
    assert events[..|events|] == events;
    FilterMembers(events, keep);
  }

  // ----- Splitting them into generations -----

  /** A swap without a prompt of its own leaves the registration as it is. */
  function SwappedRegistration(registration: Registration, swap: Event): Registration
    requires swap.body.AgentSwappedMidRun?
  {
    match swap.body.newSystemPrompt
    case None => registration
    case Some(prompt) => registration.(body := registration.body.(systemPrompt := prompt))
  }

  predicate EntersSeededSeat(copied: CopiedContext, registration: Registration, current: Generation) {
    && registration.agentId == copied.seededAgentId
    && registration.eventId !in copied.copiedEventIds
    && current.registration.eventId in copied.copiedEventIds
  }

  /** `None` means that the registration belongs to the generation that is playing. */
  function GenerationOpenedBy(copied: CopiedContext, registration: Registration, current: seq<Generation>)
    : Option<Generation>
  {
    var started := Generation(registration.eventId, registration, registration.body.model,
                            registration.body.provider, [], []);
    if current == [] then Some(started)
    else
      var latest := current[|current| - 1];
      if EntersSeededSeat(copied, registration, latest) then Some(started.(seed := copied.boundarySeed))
      else if latest.model == registration.body.model then None
      else Some(started)
  }

  function GenerationOfSwap(context: RunContext, swap: Event, latest: Generation): Generation
    requires swap.body.AgentSwappedMidRun?
  {
    var registration := SwappedRegistration(latest.registration, swap);
    Generation(swap.eventId, registration, swap.body.newModel, swap.body.newProvider,
               context.swapSeed(swap, registration), [])
  }

  function AddEvent(generations: seq<Generation>, e: Event): seq<Generation>
    requires generations != []
  {
    var n := |generations| - 1;
    generations[n := generations[n].(events := generations[n].events + [e])]
  }

  /** The generations after one more of the agent's events. */
  function Extend(context: RunContext, generations: seq<Generation>, e: Event)
    : Result<seq<Generation>, BuildError>
  {
    if IsRegistration(e) then
      match GenerationOpenedBy(context.copied, e, generations)
      case Some(generation) => Ok(generations + [generation])
      case None => Ok(AddEvent(generations, e))
    else if e.body.AgentSwappedMidRun? then
      if generations == [] then Err(SwappedBeforeRegistered)
      else Ok(generations + [GenerationOfSwap(context, e, generations[|generations| - 1])])
    else if generations == [] then Ok([])
    else Ok(AddEvent(generations, e))
  }

  function Generations(context: RunContext, events: seq<Event>): Result<seq<Generation>, BuildError> {
    if events == [] then Ok([])
    else
      match Generations(context, events[..|events| - 1])
      case Err(error) => Err(error)
      case Ok(generations) => Extend(context, generations, events[|events| - 1])
  }

  lemma GenerationsStopAtError(context: RunContext, events: seq<Event>, n: nat)
    requires n <= |events| && Generations(context, events[..n]).Err?
    ensures Generations(context, events) == Generations(context, events[..n])
    decreases |events|
  {
    if n == |events| {
      assert events[..n] == events;
    } else {
      assert events[..|events| - 1][..n] == events[..n];
      GenerationsStopAtError(context, events[..|events| - 1], n);
    }
  }

  method SplitGenerations(context: RunContext, agentEvents: seq<Event>)
    returns (r: Result<seq<Generation>, BuildError>)
    ensures r == Generations(context, agentEvents)
  {
    var generations: seq<Generation> := [];
    for i := 0 to |agentEvents|
      invariant Generations(context, agentEvents[..i]) == Ok(generations)
    {
      assert agentEvents[..i + 1][..i] == agentEvents[..i];
      var event := agentEvents[i];
      if event.body.AgentRegistered? {
        match GenerationOpenedBy(context.copied, event, generations) {
          case None => generations := AddEvent(generations, event);
          case Some(generation) => generations := generations + [generation];
        }
      } else if event.body.AgentSwappedMidRun? {
        if generations == [] {
          GenerationsStopAtError(context, agentEvents, i + 1);
          return Err(SwappedBeforeRegistered);
        }
        generations := generations + [GenerationOfSwap(context, event, generations[|generations| - 1])];
      } else if generations != [] {
        generations := AddEvent(generations, event);
      }
    }
    assert agentEvents[..|agentEvents|] == agentEvents;
    return Ok(generations);
  }

  // ----- When a turn happened -----

  /** Each call's result; the later of two with one id wins. */
  function ResultsByCallId(events: seq<Event>): map<string, string> {
    if events == [] then map[]
    else
      var before := ResultsByCallId(events[..|events| - 1]);
      var last := events[|events| - 1].body;
      if last.ToolResultReceived? then before[last.resultCallId := last.result] else before
  }

  function InvokedAt(events: seq<Event>): map<string, int> {
    if events == [] then map[]
    else
      var before := InvokedAt(events[..|events| - 1]);
      var last := events[|events| - 1];
      if last.body.ToolCallInvoked? then before[last.body.invokedCallId := last.timestamp] else before
  }

  /** A call's result is what the last event of that call returned, and there is none without one. */
  lemma {:induction false} ResultsAreLatest(events: seq<Event>, callId: string)
    ensures
      var results := ResultsByCallId(events);
      var j := LastBefore(events, |events|, ReturnsCall(callId));
      && (callId in results <==> j >= 0)
      && (j >= 0 ==> results[callId] == events[j].body.result)
  {
    if events != [] {
      var n := |events| - 1;
      ResultsAreLatest(events[..n], callId);
      LastBeforePrefix(events, n, ReturnsCall(callId));
    }
  }

  function ReturnsCall(callId: string): Event -> bool {
    (e: Event) => e.body.ToolResultReceived? && e.body.resultCallId == callId
  }

  lemma {:induction false} InvocationsAreLatest(events: seq<Event>, callId: string)
    ensures
      var invokedAt := InvokedAt(events);
      var j := LastBefore(events, |events|, InvokesCall(callId));
      && (callId in invokedAt <==> j >= 0)
      && (j >= 0 ==> invokedAt[callId] == events[j].timestamp)
  {
    if events != [] {
      var n := |events| - 1;
      InvocationsAreLatest(events[..n], callId);
      LastBeforePrefix(events, n, InvokesCall(callId));
    }
  }

  function InvokesCall(callId: string): Event -> bool {
    (e: Event) => e.body.ToolCallInvoked? && e.body.invokedCallId == callId
  }

  lemma {:induction false} LastBeforePrefix(turns: seq<Event>, k: nat, test: Event -> bool)
    requires k <= |turns|
    ensures LastBefore(turns[..k], k, test) == LastBefore(turns, k, test)
    decreases k
  {
    if k > 0 {
      LastBeforePrefix(turns[..k], k - 1, test);
      LastBeforePrefix(turns, k - 1, test);
      assert turns[..k][..k - 1] == turns[..k - 1];
    }
  }

  /** The earliest invocation among `calls`, if any was logged. */
  function FirstInvocation(calls: seq<ToolCall>, invokedAt: map<string, int>): Option<int> {
    if calls == [] then None
    else
      var rest := FirstInvocation(calls[1..], invokedAt);
      if calls[0].callId !in invokedAt then rest
      else if rest.None? || invokedAt[calls[0].callId] <= rest.value then Some(invokedAt[calls[0].callId])
      else rest
  }

  lemma {:induction false} FirstInvocationIsEarliest(calls: seq<ToolCall>, invokedAt: map<string, int>)
    ensures
      var first := FirstInvocation(calls, invokedAt);
      && (first.None? <==> forall c | c in calls :: c.callId !in invokedAt)
      && (first.Some? ==>
            && (exists c | c in calls && c.callId in invokedAt :: invokedAt[c.callId] == first.value)
            && (forall c | c in calls && c.callId in invokedAt :: first.value <= invokedAt[c.callId]))
  {
    if calls != [] {
      FirstInvocationIsEarliest(calls[1..], invokedAt);
      assert calls == [calls[0]] + calls[1..];
    }
  }

  function TurnTime(event: Event, invokedAt: map<string, int>): int {
    if IsResponse(event) then FirstInvocation(event.body.toolCalls, invokedAt).GetOr(event.timestamp)
    else event.timestamp
  }

  /** `time` is when some call of `e` was last invoked, as the log has it. */
  ghost predicate InvokedThen(e: Event, events: seq<Event>, time: int)
    requires e.body.LLMResponseReceived?
  {
    exists c, i ::
      && c in e.body.toolCalls && 0 <= i < |events| && InvokesCall(c.callId)(events[i])
      && (forall k | i < k < |events| :: !InvokesCall(c.callId)(events[k]))
      && events[i].timestamp == time
  }

  /**
    A response's turn is at the earliest time one of its calls was invoked, and at its log time when
    none of them was; any other event's is at its log time.
   */
  lemma TurnTimeIsFirstCall(e: Event, events: seq<Event>)
    ensures
      var time := TurnTime(e, InvokedAt(events));
      && (!e.body.LLMResponseReceived? ==> time == e.timestamp)
      && (e.body.LLMResponseReceived? ==>
            if exists t :: InvokedThen(e, events, t)
            then InvokedThen(e, events, time) && forall t | InvokedThen(e, events, t) :: time <= t
            else time == e.timestamp)
  {
    if e.body.LLMResponseReceived? {
      var invokedAt := InvokedAt(events);
      FirstInvocationIsEarliest(e.body.toolCalls, invokedAt);
      forall c | c in e.body.toolCalls
        ensures c.callId in invokedAt ==> InvokedThen(e, events, invokedAt[c.callId])
      {
        CallIsInvoked(e, events, c);
      }
      forall t | InvokedThen(e, events, t)
        ensures exists c | c in e.body.toolCalls && c.callId in invokedAt :: invokedAt[c.callId] == t
      {
        InvocationIsKnown(e, events, t);
      }
      hide InvokedAt, InvokedThen;
    }
  }

  lemma CallIsInvoked(e: Event, events: seq<Event>, c: ToolCall)
    requires e.body.LLMResponseReceived? && c in e.body.toolCalls
    ensures c.callId in InvokedAt(events) ==> InvokedThen(e, events, InvokedAt(events)[c.callId])
  {
    InvocationsAreLatest(events, c.callId);
    hide InvokedAt;
    if c.callId in InvokedAt(events) {
      var i := LastBefore(events, |events|, InvokesCall(c.callId));
      assert InvokesCall(c.callId)(events[i]);
    }
  }

  lemma InvocationIsKnown(e: Event, events: seq<Event>, t: int)
    requires e.body.LLMResponseReceived? && InvokedThen(e, events, t)
    ensures exists c | c in e.body.toolCalls && c.callId in InvokedAt(events) :: InvokedAt(events)[c.callId] == t
  {
    var c, i :| c in e.body.toolCalls && 0 <= i < |events| && InvokesCall(c.callId)(events[i])
                && (forall k | i < k < |events| :: !InvokesCall(c.callId)(events[k]))
                && events[i].timestamp == t;
    InvocationsAreLatest(events, c.callId);
    hide InvokedAt;
    assert LastBefore(events, |events|, InvokesCall(c.callId)) == i;
  }

  function ByTurnTime(invokedAt: map<string, int>): (Event, Event) -> bool {
    (x: Event, y: Event) => TurnTime(x, invokedAt) <= TurnTime(y, invokedAt)
  }

  /** The generation's events in the order they reached or left the agent. */
  function Turns(generation: Generation): seq<Event> {
    StableSort(generation.events, ByTurnTime(InvokedAt(generation.events)))
  }

  // ----- What is due before the k-th turn, read off the turns before it -----

  function LastBefore(turns: seq<Event>, k: nat, test: Event -> bool): (j: int)
    requires k <= |turns|
    ensures -1 <= j < k
    ensures j >= 0 ==> test(turns[j])
    ensures forall i | j < i < k :: !test(turns[i])
  {
    if k == 0 then -1 else if test(turns[k - 1]) then k - 1 else LastBefore(turns, k - 1, test)
  }

  function PreviousResponse(turns: seq<Event>, k: nat): int
    requires k <= |turns|
  {
    LastBefore(turns, k, IsResponse)
  }

  predicate Reopens(e: Event) {
    IsRegistration(e) || IsFailedCycle(e)
  }

  function FirstPrompt(generation: Generation): PromptKind {
    if generation.seed != [] then Continue else Initial
  }

  /**
    The runner prompt owed to a response at `k`: the continue prompt when, since the previous
    response, a cycle closed or failed or the agent registered again; the first prompt when there
    was no response yet and none of that happened.
   */
  function DuePrompt(generation: Generation, turns: seq<Event>, k: nat): Option<PromptKind>
    requires k <= |turns|
  {
    var j := PreviousResponse(turns, k);
    if (j >= 0 && ClosesCycle(turns[j])) || (exists i | j < i < k :: Reopens(turns[i])) then Some(Continue)
    else if j < 0 then Some(FirstPrompt(generation))
    else None
  }

  /** The cycles that failed since the response before `k`. */
  function FailuresSince(turns: seq<Event>, k: nat): seq<Event>
    requires k <= |turns|
  {
    Filter(turns[PreviousResponse(turns, k) + 1..k], IsFailedCycle)
  }

  /** How many responses before `k` belong to a cycle whose usage is not logged yet. */
  function OpenResponses(turns: seq<Event>, k: nat): nat
    requires k <= |turns|
  {
    |Filter(turns[LastBefore(turns, k, ClosesCycle) + 1..k], IsResponse)|
  }

  lemma FailuresAreFailures(turns: seq<Event>, k: nat)
    requires k <= |turns|
    ensures AllFailedCycles(FailuresSince(turns, k))
  {
    FilterMembers(turns[PreviousResponse(turns, k) + 1..k], IsFailedCycle);
  }

  // ----- The steps -----

  function PromptText(kind: PromptKind, registration: Registration): string {
    match kind
    case Initial => registration.body.prompts.initial
    case Continue => registration.body.prompts.continuation
  }

  function CostOf(context: RunContext, generation: Generation, response: Event): Option<real>
    requires IsResponse(response)
  {
    context.cost(generation.model, generation.provider, response.timestamp, response.body.usage)
  }

  /** The agent step of the response at `k`. */
  function TurnStep(context: RunContext, generation: Generation, turns: seq<Event>, k: nat, stepId: nat): Step
    requires k < |turns| && IsResponse(turns[k])
  {
    FailuresAreFailures(turns, k);
    AgentStep(
      stepId, turns[k], generation.model, CostOf(context, generation, turns[k]),
      ResultsByCallId(generation.events), FailuresSince(turns, k),
      turns[k].eventId in context.copied.copiedEventIds,
      TurnTime(turns[k], InvokedAt(generation.events)),
      if ClosesCycle(turns[k]) then Some(OpenResponses(turns, k) + 1) else None)
  }

  /** The steps the turn at `k` adds, numbered from `firstId`. */
  function StepsOfTurn(context: RunContext, generation: Generation, turns: seq<Event>, k: nat, firstId: nat): seq<Step>
    requires k < |turns|
  {
    var e := turns[k];
    var copied := e.eventId in context.copied.copiedEventIds;
    if e.body.ContextCompacted? then [CompactionStep(firstId, e, copied)]
    else if IsResponse(e) then
      match DuePrompt(generation, turns, k)
      case None => [TurnStep(context, generation, turns, k, firstId)]
      case Some(kind) =>
        [RunnerPromptStep(firstId, PromptText(kind, generation.registration), kind, copied),
         TurnStep(context, generation, turns, k, firstId + 1)]
    else []
  }

  function OpeningSteps(context: RunContext, generation: Generation): seq<Step> {
    [SystemPromptStep(1, generation.registration, generation.openingEventId in context.copied.copiedEventIds)]
    + SeedSteps(2, generation.seed)
  }

  /** `add(k, id)` are the steps of the `k`-th turn when they are numbered from `id`. */
  function Accumulate(opening: seq<Step>, add: (nat, nat) -> seq<Step>, k: nat): seq<Step> {
    if k == 0 then opening
    else
      var before := Accumulate(opening, add, k - 1);
      before + add(k - 1, |before| + 1)
  }

  function Adds(context: RunContext, generation: Generation, turns: seq<Event>): (nat, nat) -> seq<Step> {
    (k: nat, firstId: nat) => if k < |turns| then StepsOfTurn(context, generation, turns, k, firstId) else []
  }

  /** The system prompt, the seed history and the steps of the first `k` turns. */
  function StepsThrough(context: RunContext, generation: Generation, turns: seq<Event>, k: nat): seq<Step>
    requires k <= |turns|
  {
    Accumulate(OpeningSteps(context, generation), Adds(context, generation, turns), k)
  }

  function StepsOf(context: RunContext, generation: Generation): seq<Step> {
    StepsThrough(context, generation, Turns(generation), |Turns(generation)|)
  }

  function TrailingFailures(generation: Generation): seq<Event> {
    FailuresSince(Turns(generation), |Turns(generation)|)
  }

  lemma DuePromptStep(generation: Generation, turns: seq<Event>, k: nat)
    requires k < |turns|
    ensures DuePrompt(generation, turns, k + 1) ==
            if IsResponse(turns[k]) then (if ClosesCycle(turns[k]) then Some(Continue) else None)
            else if Reopens(turns[k]) then Some(Continue)
            else DuePrompt(generation, turns, k)
  {
    var j := PreviousResponse(turns, k);
    if !IsResponse(turns[k]) {
      assert PreviousResponse(turns, k + 1) == j;
      assert (exists i | j < i < k + 1 :: Reopens(turns[i])) <==>
             (exists i | j < i < k :: Reopens(turns[i])) || Reopens(turns[k]);
    }
  }

  lemma NothingFiltered(events: seq<Event>, keep: Event -> bool)
    requires events == []
    ensures Filter(events, keep) == []
  {
  }

  lemma FailuresSinceStep(turns: seq<Event>, k: nat)
    requires k < |turns|
    ensures FailuresSince(turns, k + 1) ==
            if IsResponse(turns[k]) then []
            else FailuresSince(turns, k) + (if IsFailedCycle(turns[k]) then [turns[k]] else [])
  {
    hide Filter;
    FilterNext(turns, PreviousResponse(turns, k) + 1, k, IsFailedCycle);
    if IsResponse(turns[k]) {
      NothingFiltered(turns[k + 1..k + 1], IsFailedCycle);
    }
  }

  lemma OpenResponsesStep(turns: seq<Event>, k: nat)
    requires k < |turns|
    ensures OpenResponses(turns, k + 1) ==
            if ClosesCycle(turns[k]) then 0
            else OpenResponses(turns, k) + (if IsResponse(turns[k]) then 1 else 0)
  {
    hide Filter;
    FilterNext(turns, LastBefore(turns, k, ClosesCycle) + 1, k, IsResponse);
    if ClosesCycle(turns[k]) {
      NothingFiltered(turns[k + 1..k + 1], IsResponse);
    }
  }

  /** The steps of a response, from the values the loop carries instead of looking back. */
  function ResponseSteps(context: RunContext, generation: Generation, response: Event, firstId: nat,
                         due: Option<PromptKind>, failed: seq<Event>, llmCallCount: Option<nat>): seq<Step>
    requires IsResponse(response) && AllFailedCycles(failed)
  {
    var copied := response.eventId in context.copied.copiedEventIds;
    var prompts := if due.Some?
                   then [RunnerPromptStep(firstId, PromptText(due.value, generation.registration), due.value, copied)]
                   else [];
    prompts + [AgentStep(firstId + |prompts|, response, generation.model, CostOf(context, generation, response),
                         ResultsByCallId(generation.events), failed, copied,
                         TurnTime(response, InvokedAt(generation.events)), llmCallCount)]
  }

  lemma StepsOfResponse(context: RunContext, generation: Generation, turns: seq<Event>, k: nat, firstId: nat,
                        due: Option<PromptKind>, failed: seq<Event>, llmCallCount: Option<nat>)
    requires k < |turns| && IsResponse(turns[k])
    requires due == DuePrompt(generation, turns, k)
    requires failed == FailuresSince(turns, k) && AllFailedCycles(failed)
    requires llmCallCount == if ClosesCycle(turns[k]) then Some(OpenResponses(turns, k) + 1) else None
    ensures StepsOfTurn(context, generation, turns, k, firstId)
            == ResponseSteps(context, generation, turns[k], firstId, due, failed, llmCallCount)
  {
  }

  lemma StepsThroughNext(context: RunContext, generation: Generation, turns: seq<Event>, k: nat)
    requires k < |turns|
    ensures
      var before := StepsThrough(context, generation, turns, k);
      StepsThrough(context, generation, turns, k + 1)
      == before + StepsOfTurn(context, generation, turns, k, |before| + 1)
  {
    hide StepsOfTurn;
  }

  lemma StepsOfOther(context: RunContext, generation: Generation, turns: seq<Event>, k: nat, firstId: nat)
    requires k < |turns| && !IsResponse(turns[k])
    ensures StepsOfTurn(context, generation, turns, k, firstId)
            == if turns[k].body.ContextCompacted?
               then [CompactionStep(firstId, turns[k], turns[k].eventId in context.copied.copiedEventIds)]
               else []
  {
  }

  lemma BeforeAnyTurn(context: RunContext, generation: Generation, turns: seq<Event>)
    ensures StepsThrough(context, generation, turns, 0) == OpeningSteps(context, generation)
    ensures DuePrompt(generation, turns, 0) == Some(FirstPrompt(generation))
    ensures FailuresSince(turns, 0) == []
    ensures OpenResponses(turns, 0) == 0
  {
  }

  datatype BuiltSteps = BuiltSteps(steps: seq<Step>, trailingFailedCycles: seq<Event>)

  /** What every turn owes, and the failures that no response followed. */
  method BuildSteps(context: RunContext, generation: Generation) returns (built: BuiltSteps)
    ensures built.steps == StepsOf(context, generation)
    ensures built.trailingFailedCycles == TrailingFailures(generation)
  {
    hide StepsThrough, StepsOfTurn, DuePrompt, FailuresSince, OpenResponses, AgentStep, RunnerPromptStep,
         SystemPromptStep, CompactionStep, PromptText, CostOf, TurnTime, Turns, InvokedAt, ResultsByCallId, SeedSteps;
    var copiedIds := context.copied.copiedEventIds;
    var results := ResultsByCallId(generation.events);
    var invokedAt := InvokedAt(generation.events);
    var steps := [SystemPromptStep(1, generation.registration, generation.openingEventId in copiedIds)];
    var seedSteps := BuildSeedSteps(2, generation.seed);
    steps := steps + seedSteps;
    var nextPrompt: Option<PromptKind> := Some(FirstPrompt(generation));
    var failedCycles: seq<Event> := [];
    var cycleResponseCount := 0;
    var turns := Turns(generation);
    BeforeAnyTurn(context, generation, turns);
    for k := 0 to |turns|
      invariant steps == StepsThrough(context, generation, turns, k)
      invariant nextPrompt == DuePrompt(generation, turns, k)
      invariant failedCycles == FailuresSince(turns, k)
      invariant cycleResponseCount == OpenResponses(turns, k)
    {
      StepsThroughNext(context, generation, turns, k);
      DuePromptStep(generation, turns, k);
      FailuresSinceStep(turns, k);
      OpenResponsesStep(turns, k);
      FailuresAreFailures(turns, k);
      ghost var before := steps;
      var event := turns[k];
      var copied := event.eventId in copiedIds;
      if IsRegistration(event) {
        StepsOfOther(context, generation, turns, k, |steps| + 1);
        nextPrompt := Some(Continue);
      } else if event.body.ContextCompacted? {
        StepsOfOther(context, generation, turns, k, |steps| + 1);
        steps := steps + [CompactionStep(|steps| + 1, event, copied)];
      } else if IsFailedCycle(event) {
        StepsOfOther(context, generation, turns, k, |steps| + 1);
        failedCycles := failedCycles + [event];
        nextPrompt := Some(Continue);
      } else if IsResponse(event) {
        ghost var due, failed := nextPrompt, failedCycles;
        if nextPrompt.Some? {
          var prompt := PromptText(nextPrompt.value, generation.registration);
          steps := steps + [RunnerPromptStep(|steps| + 1, prompt, nextPrompt.value, copied)];
        }
        cycleResponseCount := cycleResponseCount + 1;
        var costUsd := CostOf(context, generation, event);
        var closesCycle := StepMetrics(event.body.usage, costUsd).Some?;
        var llmCallCount: Option<nat> := None;
        if closesCycle {
          llmCallCount := Some(cycleResponseCount);
        }
        steps := steps + [AgentStep(|steps| + 1, event, generation.model, costUsd, results, failedCycles,
                                    copied, TurnTime(event, invokedAt), llmCallCount)];
        StepsOfResponse(context, generation, turns, k, |before| + 1, due, failed, llmCallCount);
        failedCycles := [];
        nextPrompt := None;
        if closesCycle {
          nextPrompt := Some(Continue);
          cycleResponseCount := 0;
        }
      } else {
        StepsOfOther(context, generation, turns, k, |steps| + 1);
      }
      assert steps == before + StepsOfTurn(context, generation, turns, k, |before| + 1);
    }
    built := BuiltSteps(steps, failedCycles);
  }

  // ----- Trajectories -----

  datatype FinalMetrics = FinalMetrics(totalPromptTokens: Option<int>, totalCompletionTokens: Option<int>,
                                       totalCachedTokens: Option<int>, totalCostUsd: Option<real>, totalSteps: nat)

  /** The metrics of the measured steps that were played in this run. */
  function PlayedMetrics(steps: seq<Step>): seq<Metrics> {
    if steps == [] then []
    else (if steps[0].metrics.Some? && !steps[0].Copied() then [steps[0].metrics.value] else [])
         + PlayedMetrics(steps[1..])
  }

  function TotalCost(metrics: seq<Metrics>): Option<real> {
    if metrics == [] then Some(0.0)
    else
      match (metrics[0].costUsd, TotalCost(metrics[1..]))
      case (Some(cost), Some(rest)) => Some(cost + rest)
      case _ => None
  }

  function PromptTokens(m: Metrics): int { m.promptTokens }

  function CompletionTokens(m: Metrics): int { m.completionTokens }

  function CachedTokens(m: Metrics): int { m.cachedTokens }

  function BuildFinalMetrics(steps: seq<Step>): FinalMetrics {
    var played := PlayedMetrics(steps);
    if played == [] then FinalMetrics(None, None, None, None, |steps|)
    else FinalMetrics(Some(Sum(played, PromptTokens)), Some(Sum(played, CompletionTokens)),
                      Some(Sum(played, CachedTokens)), TotalCost(played), |steps|)
  }

  datatype Trajectory = Trajectory(generation: nat, modelName: string, steps: seq<Step>, finalMetrics: FinalMetrics,
                                   failedAfterLastResponse: seq<Event>)

  function TrajectoryOf(context: RunContext, generation: Generation, index: nat): Trajectory {
    Trajectory(index, generation.model, StepsOf(context, generation), BuildFinalMetrics(StepsOf(context, generation)),
               TrailingFailures(generation))
  }

  method BuildTrajectory(context: RunContext, generation: Generation, index: nat) returns (trajectory: Trajectory)
    ensures trajectory == TrajectoryOf(context, generation, index)
    ensures trajectory.generation == index && trajectory.modelName == generation.model
    ensures trajectory.steps == StepsOf(context, generation)
    ensures trajectory.finalMetrics == BuildFinalMetrics(trajectory.steps)
    ensures trajectory.failedAfterLastResponse == TrailingFailures(generation)
  {
    var built := BuildSteps(context, generation);
    trajectory := Trajectory(index, generation.model, built.steps, BuildFinalMetrics(built.steps),
                             built.trailingFailedCycles);
  }

  function AgentEvents(context: RunContext, agentId: string, cutoffRound: Option<int>): seq<Event> {
    Filter(context.events, Selects(agentId, cutoffRound))
  }

  function TrajectoriesOf(context: RunContext, generations: seq<Generation>): seq<Trajectory> {
    seq(|generations|, i requires 0 <= i < |generations| => TrajectoryOf(context, generations[i], i + 1))
  }

  /** One trajectory per generation, numbered from 1. */
  method BuildTrajectories(context: RunContext, generations: seq<Generation>) returns (trajectories: seq<Trajectory>)
    ensures |trajectories| == |generations|
    ensures forall i | 0 <= i < |generations| :: trajectories[i] == TrajectoryOf(context, generations[i], i + 1)
    ensures trajectories == TrajectoriesOf(context, generations)
  {
    hide TrajectoryOf, StepsOf, BuildFinalMetrics, TrailingFailures;
    trajectories := [];
    for i := 0 to |generations|
      invariant |trajectories| == i
      invariant forall k | 0 <= k < i :: trajectories[k] == TrajectoryOf(context, generations[k], k + 1)
    {
      var trajectory := BuildTrajectory(context, generations[i], i + 1);
      trajectories := trajectories + [trajectory];
    }
  }

  method BuildAgentTrajectories(context: RunContext, agentId: string, cutoffRound: Option<int>)
    returns (r: Result<seq<Trajectory>, BuildError>)
    ensures
      var split := Generations(context, AgentEvents(context, agentId, cutoffRound));
      r == if split.Err? then Err(split.error)
           else if split.value == [] then Err(NotRegistered(agentId))
           else Ok(TrajectoriesOf(context, split.value))
    ensures r.Ok? ==>
              var generations := Generations(context, AgentEvents(context, agentId, cutoffRound)).value;
              && |r.value| == |generations|
              && forall i | 0 <= i < |generations| :: r.value[i] == TrajectoryOf(context, generations[i], i + 1)
  {
    var agentEvents := SelectAgentEvents(context.events, agentId, cutoffRound);
    var split := SplitGenerations(context, agentEvents);
    if split.Err? {
      return Err(split.error);
    }
    if split.value == [] {
      return Err(NotRegistered(agentId));
    }
    var trajectories := BuildTrajectories(context, split.value);
    return Ok(trajectories);
  }
}
