/** Reading a generation's responses, compactions and cost back off its steps. */
module TrajectoryTranscript {
  import opened Wrappers
  import opened Sorting
  import opened SimulationEvents
  import opened AtifSteps
  import opened TrajectoryBuilder
  import opened TrajectoryLaws

  // ----- Lists read off steps and off turns -----

  /** What `read` finds on each element, one after the other. */
  function Collect<T, X>(xs: seq<T>, read: T -> seq<X>): seq<X> {
    if xs == [] then [] else read(xs[0]) + Collect(xs[1..], read)
  }

  lemma CollectUnfold<T, X>(xs: seq<T>, read: T -> seq<X>)
    requires xs != []
    ensures Collect(xs, read) == read(xs[0]) + Collect(xs[1..], read)
  {
  }

  lemma {:induction false} CollectConcat<T, X>(xs: seq<T>, ys: seq<T>, read: T -> seq<X>)
    ensures Collect(xs + ys, read) == Collect(xs, read) + Collect(ys, read)
  {
    if xs == [] {
      assert xs + ys == ys;
    } else {
      hide Collect;
      CollectConcat(xs[1..], ys, read);
      HeadAndTail(xs, ys);
      CollectUnfold(xs, read);
      CollectUnfold(xs + ys, read);
      ConcatAssociates(read(xs[0]), Collect(xs[1..], read), Collect(ys, read));
    }
  }

  lemma CollectOne<T, X>(x: T, read: T -> seq<X>)
    ensures Collect([x], read) == read(x)
  {
    assert [x][1..] == [];
  }

  lemma CollectTwo<T, X>(x: T, y: T, read: T -> seq<X>)
    ensures Collect([x, y], read) == read(x) + read(y)
  {
    CollectOne(y, read);
    assert [x, y][1..] == [y];
  }

  lemma {:induction false} CollectNothing<T, X>(xs: seq<T>, read: T -> seq<X>)
    requires forall i | 0 <= i < |xs| :: read(xs[i]) == []
    ensures Collect(xs, read) == []
  {
    if xs != [] {
      CollectNothing(xs[1..], read);
    }
  }

  /** When each turn's steps show what the turn itself shows, all the steps show what all the turns do. */
  lemma {:induction false} AccumulatedReading<X>(opening: seq<Step>, add: (nat, nat) -> seq<Step>, turns: seq<Event>,
                                                 ofStep: Step -> seq<X>, ofTurn: Event -> seq<X>, k: nat)
    requires k <= |turns| && Collect(opening, ofStep) == []
    requires forall i: nat, id: nat | i < |turns| :: Collect(add(i, id), ofStep) == ofTurn(turns[i])
    ensures Collect(Accumulate(opening, add, k), ofStep) == Collect(turns[..k], ofTurn)
  {
    hide Collect;
    if k == 0 {
      CollectNothing(turns[..0], ofTurn);
    } else {
      AccumulatedReading(opening, add, turns, ofStep, ofTurn, k - 1);
      var before := Accumulate(opening, add, k - 1);
      CollectConcat(before, add(k - 1, |before| + 1), ofStep);
      assert turns[..k] == turns[..k - 1] + [turns[k - 1]];
      CollectConcat(turns[..k - 1], [turns[k - 1]], ofTurn);
      CollectOne(turns[k - 1], ofTurn);
    }
  }

  // ----- The transcript -----

  /** What an agent saw or did in one turn. */
  datatype Entry =
    | Said(at: Option<int>, author: Source, model: Option<string>, copied: Option<bool>, text: string,
           thinking: Option<string>, calls: seq<ToolCall>, results: seq<ObservationResult>, round: int,
           stopReason: string, usage: Option<TokenUsage>)
    | Summarized(at: Option<int>, author: Source, copied: Option<bool>, summary: string, providerName: string,
                 round: int)

  function UsageOn(step: Step): Option<TokenUsage> {
    match step.metrics
    case None => None
    case Some(m) =>
      Some(TokenUsage(m.promptTokens, m.completionTokens, m.reasoningTokens, m.cachedTokens, m.cacheCreationTokens))
  }

  /** Usage that sums to zero is usage not logged. */
  function UsageLogged(usage: TokenUsage): Option<TokenUsage> {
    if usage.input + usage.output + usage.cacheRead + usage.cacheCreation == 0 then None else Some(usage)
  }

  function EntriesOn(step: Step): seq<Entry> {
    match step.extra
    case AgentTurn(round, stopReason, _) =>
      [Said(step.timestamp, step.source, step.modelName, step.isCopiedContext, step.message, step.reasoning,
            step.toolCalls, step.observation, round, stopReason, UsageOn(step))]
    case Compaction(round, providerName) =>
      [Summarized(step.timestamp, step.source, step.isCopiedContext, step.message, providerName, round)]
    case _ => []
  }

  /** What `e` leaves in the transcript of `generation`: of a response its turn time, of a compaction its log time. */
  function EntriesOfEvent(context: RunContext, generation: Generation, e: Event): seq<Entry> {
    var copied := if e.eventId in context.copied.copiedEventIds then Some(true) else None;
    match e.body
    case LLMResponseReceived(thinking, text, calls, stopReason, usage) =>
      [Said(Some(TurnTime(e, InvokedAt(generation.events))), Agent, Some(generation.model), copied,
            if text == None then "" else text.value, thinking, calls,
            Observation(calls, ResultsByCallId(generation.events)), e.roundNumber, stopReason, UsageLogged(usage))]
    case ContextCompacted(providerName, summary) =>
      [Summarized(Some(e.timestamp), System, copied, summary, providerName, e.roundNumber)]
    case _ => []
  }

  function EntriesLogged(context: RunContext, generation: Generation): Event -> seq<Entry> {
    (e: Event) => EntriesOfEvent(context, generation, e)
  }

  lemma EntriesOfTurn(context: RunContext, generation: Generation, turns: seq<Event>, k: nat, firstId: nat)
    requires k < |turns|
    ensures Collect(StepsOfTurn(context, generation, turns, k, firstId), EntriesOn)
            == EntriesLogged(context, generation)(turns[k])
  {
    hide Collect, FailuresSince, OpenResponses, DuePrompt, TurnTime, FailedCycleRecords, ResultsByCallId, Observation,
         CostOf, PromptText;
    var steps := StepsOfTurn(context, generation, turns, k, firstId);
    if IsResponse(turns[k]) {
      var n := |steps| - 1;
      assert EntriesOn(steps[n]) == EntriesLogged(context, generation)(turns[k]);
      if n == 0 {
        assert steps == [steps[0]];
        CollectOne(steps[0], EntriesOn);
      } else {
        assert steps == [steps[0], steps[1]];
        CollectTwo(steps[0], steps[1], EntriesOn);
        assert EntriesOn(steps[0]) == [];
      }
    } else if turns[k].body.ContextCompacted? {
      CollectOne(steps[0], EntriesOn);
    } else {
      CollectNothing(steps, EntriesOn);
    }
  }

  lemma OpeningHasNoEntries(opening: seq<Step>)
    requires OpeningShape(opening)
    ensures Collect(opening, EntriesOn) == []
  {
    hide Collect;
    CollectNothing(opening, EntriesOn);
  }

  /**
    The steps give back the transcript: every response with its turn time, the model, its text,
    thinking, calls and their results and the usage it logged, and every compaction, each with whether
    it was copied, in turn order, each once and none invented.
   */
  lemma TranscriptIsKept(context: RunContext, generation: Generation)
    ensures Collect(StepsOf(context, generation), EntriesOn)
            == Collect(Turns(generation), EntriesLogged(context, generation))
  {
    hide Collect, OpeningSteps, Adds, EntriesLogged, StepsOfTurn;
    var turns := Turns(generation);
    var opening, add := OpeningSteps(context, generation), Adds(context, generation, turns);
    OpeningStepsShape(context, generation);
    OpeningHasNoEntries(opening);
    forall k: nat, id: nat | k < |turns|
      ensures Collect(add(k, id), EntriesOn) == EntriesLogged(context, generation)(turns[k])
    {
      AddsAre(context, generation, turns, k, id);
      EntriesOfTurn(context, generation, turns, k, id);
    }
    AccumulatedReading(opening, add, turns, EntriesOn, EntriesLogged(context, generation), |turns|);
    assert turns[..|turns|] == turns;
  }

  lemma AddsAre(context: RunContext, generation: Generation, turns: seq<Event>, k: nat, id: nat)
    requires k < |turns|
    ensures Adds(context, generation, turns)(k, id) == StepsOfTurn(context, generation, turns, k, id)
  {
    hide StepsOfTurn;
  }

  // ----- Seed history -----

  /** What one prompt or one response of a seed says. */
  datatype SeedLine =
    | Asked(prompt: string)
    | Answered(text: string, thinking: Option<string>, calls: seq<ToolCall>, results: seq<ObservationResult>)

  function SeedLinesOn(step: Step): seq<SeedLine> {
    match step.source
    case System => []
    case User => [Asked(step.message)]
    case Agent => [Answered(step.message, step.reasoning, step.toolCalls, step.observation)]
  }

  function PromptsIn(part: RequestPart): seq<SeedLine> {
    match part
    case UserPromptPart(prompt) => [Asked(prompt)]
    case _ => []
  }

  function SeedLinesOf(returned: map<string, string>, message: ModelMessage): seq<SeedLine> {
    match message
    case ModelRequest(parts) => Collect(parts, PromptsIn)
    case ModelResponse(text, thinking, calls) =>
      [Answered(text, if thinking == "" then None else Some(thinking), calls, Observation(calls, returned))]
  }

  function SeedLinesIn(returned: map<string, string>): ModelMessage -> seq<SeedLine> {
    (message: ModelMessage) => SeedLinesOf(returned, message)
  }

  lemma CollectLast<T, X>(xs: seq<T>, read: T -> seq<X>)
    requires xs != []
    ensures Collect(xs, read) == Collect(xs[..|xs| - 1], read) + read(xs[|xs| - 1])
  {
    var n := |xs| - 1;
    assert xs == xs[..n] + [xs[n]];
    CollectConcat(xs[..n], [xs[n]], read);
    CollectOne(xs[n], read);
  }

  lemma {:induction false} PromptsAreKept(firstId: nat, parts: seq<RequestPart>)
    ensures Collect(PromptSteps(firstId, parts), SeedLinesOn) == Collect(parts, PromptsIn)
  {
    if parts != [] {
      hide Collect;
      var n := |parts| - 1;
      PromptsAreKept(firstId, parts[..n]);
      CollectLast(parts, PromptsIn);
      var steps := PromptSteps(firstId, parts);
      if parts[n].UserPromptPart? {
        CollectLast(steps, SeedLinesOn);
        assert steps[..|steps| - 1] == PromptSteps(firstId, parts[..n]);
      }
    }
  }

  lemma MessageIsKept(firstId: nat, message: ModelMessage, returned: map<string, string>)
    ensures Collect(MessageSteps(firstId, message, returned), SeedLinesOn) == SeedLinesOf(returned, message)
  {
    if message.ModelRequest? {
      PromptsAreKept(firstId, message.parts);
    } else {
      hide Collect, Observation;
      CollectOne(ResponseStep(firstId, message, returned), SeedLinesOn);
    }
  }

  /** A seed's steps give back its prompts and responses, in order, with the results its calls returned. */
  lemma {:induction false} SeedHistoryIsKept(firstId: nat, history: seq<ModelMessage>, returned: map<string, string>)
    ensures Collect(SeedStepsThrough(firstId, history, returned), SeedLinesOn)
            == Collect(history, SeedLinesIn(returned))
  {
    hide Collect, MessageSteps, SeedLinesOf;
    if history == [] {
      CollectNothing(history, SeedLinesIn(returned));
      CollectNothing(SeedStepsThrough(firstId, history, returned), SeedLinesOn);
    } else {
      var n := |history| - 1;
      SeedHistoryIsKept(firstId, history[..n], returned);
      CollectLast(history, SeedLinesIn(returned));
      var before := SeedStepsThrough(firstId, history[..n], returned);
      MessageIsKept(firstId + |before|, history[n], returned);
      CollectConcat(before, MessageSteps(firstId + |before|, history[n], returned), SeedLinesOn);
    }
  }

  /** Steps of turns, prompts and compactions, as opposed to what a generation opens with. */
  predicate Played(step: Step) {
    step.extra.RunnerPrompt? || step.extra.Compaction? || step.extra.AgentTurn?
  }

  lemma BlockIsPlayed(block: seq<Step>, generation: Generation, copiedIds: set<string>, turns: seq<Event>, k: nat)
    requires k < |turns| && BlockShape(block, generation, copiedIds, turns, k)
    ensures forall i | 0 <= i < |block| :: Played(block[i])
  {
    hide OpenResponses, DuePrompt, FailuresSince, TurnTime, FailedCycleRecords;
  }

  lemma {:induction false} AccumulatedOpening(opening: seq<Step>, add: (nat, nat) -> seq<Step>, generation: Generation,
                                              copiedIds: set<string>, turns: seq<Event>, k: nat)
    requires k <= |turns| && Shaped(add, generation, copiedIds, turns)
    ensures opening <= Accumulate(opening, add, k)
    ensures forall i | |opening| <= i < |Accumulate(opening, add, k)| :: Played(Accumulate(opening, add, k)[i])
  {
    hide Shaped, BlockShape;
    if k > 0 {
      AccumulatedOpening(opening, add, generation, copiedIds, turns, k - 1);
      var before := Accumulate(opening, add, k - 1);
      ShapedBlock(add, generation, copiedIds, turns, k - 1, |before| + 1);
      BlockIsPlayed(add(k - 1, |before| + 1), generation, copiedIds, turns, k - 1);
    }
  }

  /**
    A generation opens with the system prompt it was registered or swapped in with and then its
    seed's steps, and neither comes again.
   */
  lemma OpensWithPromptAndSeed(context: RunContext, generation: Generation)
    ensures
      var steps, seed := StepsOf(context, generation), SeedSteps(2, generation.seed);
      && |steps| > |seed|
      && steps[0] == Step(
           stepId := 1, source := System, message := generation.registration.body.systemPrompt,
           timestamp := Some(generation.registration.timestamp),
           extra := SystemPrompt(generation.registration.roundNumber),
           isCopiedContext :=
             if generation.openingEventId in context.copied.copiedEventIds then Some(true) else None,
           modelName := None, reasoning := None, toolCalls := [], observation := [], metrics := None,
           llmCallCount := None)
      && steps[1..|seed| + 1] == seed
      && forall i | |seed| < i < |steps| :: Played(steps[i])
  {
    hide Adds, SeedSteps;
    var turns := Turns(generation);
    var opening, add := OpeningSteps(context, generation), Adds(context, generation, turns);
    AddsAreShaped(context, generation, turns);
    AccumulatedOpening(opening, add, generation, context.copied.copiedEventIds, turns, |turns|);
    assert opening[1..] == SeedSteps(2, generation.seed);
  }

  // ----- Cost -----

  /** The price of a response that was played in this run and closed a cycle; `None` if it has no price. */
  function PricesOf(context: RunContext, generation: Generation, e: Event): seq<Option<real>> {
    if ClosesCycle(e) && e.eventId !in context.copied.copiedEventIds
    then [context.cost(generation.model, generation.provider, e.timestamp, e.body.usage)] else []
  }

  function Prices(context: RunContext, generation: Generation): Event -> seq<Option<real>> {
    (e: Event) => PricesOf(context, generation, e)
  }

  function PricesOn(step: Step): seq<Option<real>> {
    if step.metrics.Some? && !step.Copied() then [step.metrics.value.costUsd] else []
  }

  function SumOfPrices(prices: seq<Option<real>>): real {
    if prices == [] then 0.0 else prices[0].GetOr(0.0) + SumOfPrices(prices[1..])
  }

  function PriceIn(m: Metrics): seq<Option<real>> {
    [m.costUsd]
  }

  /** One missing price makes a total unknown; otherwise it is the sum of the prices. */
  lemma {:induction false} TotalCostIs(metrics: seq<Metrics>)
    ensures
      var prices := Collect(metrics, PriceIn);
      && (prices == [] <==> metrics == [])
      && (TotalCost(metrics).None? <==> None in prices)
      && (TotalCost(metrics).Some? ==> TotalCost(metrics).value == SumOfPrices(prices))
  {
    if metrics != [] {
      TotalCostIs(metrics[1..]);
      CollectUnfold(metrics, PriceIn);
      hide Collect;
      var rest := Collect(metrics[1..], PriceIn);
      assert ([metrics[0].costUsd] + rest)[1..] == rest;
    }
  }

  lemma {:induction false} PricesOfPlayed(steps: seq<Step>)
    ensures Collect(steps, PricesOn) == Collect(PlayedMetrics(steps), PriceIn)
  {
    if steps != [] {
      PricesOfPlayed(steps[1..]);
      var own := if steps[0].metrics.Some? && !steps[0].Copied() then [steps[0].metrics.value] else [];
      assert PlayedMetrics(steps) == own + PlayedMetrics(steps[1..]);
      hide PlayedMetrics;
      CollectUnfold(steps, PricesOn);
      CollectConcat(own, PlayedMetrics(steps[1..]), PriceIn);
      if own == [] {
        CollectNothing(own, PriceIn);
      } else {
        CollectOne(own[0], PriceIn);
      }
      hide Collect;
    }
  }

  lemma PricesOfTurn(context: RunContext, generation: Generation, turns: seq<Event>, k: nat, firstId: nat)
    requires k < |turns|
    ensures Collect(StepsOfTurn(context, generation, turns, k, firstId), PricesOn)
            == Prices(context, generation)(turns[k])
  {
    hide Collect, FailuresSince, OpenResponses, DuePrompt, TurnTime, FailedCycleRecords, ResultsByCallId;
    var steps := StepsOfTurn(context, generation, turns, k, firstId);
    if steps == [] {
      CollectNothing(steps, PricesOn);
    } else if |steps| == 1 {
      assert steps == [steps[0]];
      CollectOne(steps[0], PricesOn);
    } else {
      assert steps == [steps[0], steps[1]];
      CollectTwo(steps[0], steps[1], PricesOn);
      assert PricesOn(steps[0]) == [];
    }
  }

  lemma OpeningHasNoPrices(opening: seq<Step>)
    requires OpeningShape(opening)
    ensures Collect(opening, PricesOn) == []
  {
    hide Collect;
    CollectNothing(opening, PricesOn);
  }

  lemma PricesAreKept(context: RunContext, generation: Generation)
    ensures Collect(StepsOf(context, generation), PricesOn) == Collect(Turns(generation), Prices(context, generation))
  {
    hide Collect, OpeningSteps, Adds, Prices, StepsOfTurn;
    var turns := Turns(generation);
    var opening, add := OpeningSteps(context, generation), Adds(context, generation, turns);
    OpeningStepsShape(context, generation);
    OpeningHasNoPrices(opening);
    forall k: nat, id: nat | k < |turns|
      ensures Collect(add(k, id), PricesOn) == Prices(context, generation)(turns[k])
    {
      AddsAre(context, generation, turns, k, id);
      PricesOfTurn(context, generation, turns, k, id);
    }
    AccumulatedReading(opening, add, turns, PricesOn, Prices(context, generation), |turns|);
    assert turns[..|turns|] == turns;
  }

  /**
    A generation's cost is known exactly when something was measured in this run and every measured
    response has a price; it is then their sum. One unpriced response makes the total unknown
    instead of too small.
   */
  lemma CostIsWholeOrUnknown(context: RunContext, generation: Generation)
    ensures
      var prices := Collect(Turns(generation), Prices(context, generation));
      var total := BuildFinalMetrics(StepsOf(context, generation)).totalCostUsd;
      && (total.Some? <==> prices != [] && None !in prices)
      && (total.Some? ==> total.value == SumOfPrices(prices))
  {
    hide StepsOf, Collect, Turns, Prices, TotalCost, SumOfPrices;
    var steps := StepsOf(context, generation);
    PricesAreKept(context, generation);
    PricesOfPlayed(steps);
    TotalCostIs(PlayedMetrics(steps));
    hide PlayedMetrics;
  }
}
