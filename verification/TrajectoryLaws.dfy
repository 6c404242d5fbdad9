/** What the steps of one generation account for, whatever the order of its events. */
module TrajectoryLaws {
  import opened Wrappers
  import opened Sorting
  import opened SimulationEvents
  import opened AtifSteps
  import opened TrajectoryBuilder

  // ----- The shape of a generation's steps -----

  /** A step of an own prompt or a compaction: nothing but its place and kind. */
  ghost predicate Bare(step: Step) {
    && !step.OwnTurn() && step.metrics == None && step.llmCallCount == None && step.extra != SeedHistory
    && step.modelName == None && step.reasoning == None && step.toolCalls == [] && step.observation == []
  }

  /** A prompt of `kind` in the words the agent registered with. */
  ghost predicate PromptShape(step: Step, generation: Generation, kind: PromptKind) {
    && Bare(step) && step.extra == RunnerPrompt(kind) && step.timestamp == None && step.source == User
    && (kind == Initial ==> step.message == generation.registration.body.prompts.initial)
    && (kind == Continue ==> step.message == generation.registration.body.prompts.continuation)
  }

  ghost predicate CompactionShape(step: Step, event: Event) {
    Bare(step) && step.extra.Compaction? && step.timestamp == Some(event.timestamp)
  }

  ghost predicate TurnShape(step: Step, generation: Generation, copiedIds: set<string>, turns: seq<Event>, k: nat)
    requires k < |turns| && IsResponse(turns[k]) && AllFailedCycles(FailuresSince(turns, k))
  {
    && step.OwnTurn()
    && step.timestamp == Some(TurnTime(turns[k], InvokedAt(generation.events)))
    && (step.Copied() <==> turns[k].eventId in copiedIds)
    && step.extra.failedCycles == FailedCycleRecords(FailuresSince(turns, k))
    && step.llmCallCount == (if ClosesCycle(turns[k]) then Some(OpenResponses(turns, k) + 1) else None)
    && (step.metrics.Some? <==> ClosesCycle(turns[k]))
    && (step.metrics.Some? ==>
          && step.metrics.value.promptTokens == turns[k].body.usage.input
          && step.metrics.value.completionTokens == turns[k].body.usage.output
          && step.metrics.value.cachedTokens == turns[k].body.usage.cacheRead)
  }

  ghost predicate BlockShape(block: seq<Step>, generation: Generation, copiedIds: set<string>, turns: seq<Event>,
        k: nat)
    requires k < |turns|
  {
    if turns[k].body.ContextCompacted? then |block| == 1 && CompactionShape(block[0], turns[k])
    else if IsResponse(turns[k]) then
      var due := DuePrompt(generation, turns, k);
      && AllFailedCycles(FailuresSince(turns, k))
      && |block| == (if due.Some? then 2 else 1)
      && (due.Some? ==>
            && PromptShape(block[0], generation, due.value)
            && block[0].isCopiedContext == block[1].isCopiedContext)
      && TurnShape(block[|block| - 1], generation, copiedIds, turns, k)
    else block == []
  }

  ghost predicate OpeningShape(opening: seq<Step>) {
    && opening != []
    && (forall i | 0 <= i < |opening| ::
          && !opening[i].OwnTurn() && opening[i].metrics == None && opening[i].llmCallCount == None
          && !opening[i].extra.RunnerPrompt? && !opening[i].extra.Compaction?)
  }

  /** Whatever number they start from, the steps `add` gives a turn have that turn's shape. */
  ghost predicate Shaped(add: (nat, nat) -> seq<Step>, generation: Generation, copiedIds: set<string>,
        turns: seq<Event>) {
    forall k: nat, id: nat | k < |turns| ::
      Numbered(add(k, id), id) && BlockShape(add(k, id), generation, copiedIds, turns, k)
  }

  lemma StepsOfTurnShape(context: RunContext, generation: Generation, turns: seq<Event>, k: nat, firstId: nat)
    requires k < |turns|
    ensures Numbered(StepsOfTurn(context, generation, turns, k, firstId), firstId)
    ensures BlockShape(StepsOfTurn(context, generation, turns, k, firstId), generation,
                       context.copied.copiedEventIds, turns, k)
  {
    FailuresAreFailures(turns, k);
  }

  lemma OpeningStepsShape(context: RunContext, generation: Generation)
    ensures Numbered(OpeningSteps(context, generation), 1) && OpeningShape(OpeningSteps(context, generation))
  {
    SeedStepsAreCopied(2, generation.seed, ToolReturns(generation.seed));
    var seed := SeedSteps(2, generation.seed);
    assert forall i | 0 <= i < |seed| :: seed[i] in seed;
  }

  lemma AddsAreShaped(context: RunContext, generation: Generation, turns: seq<Event>)
    ensures Shaped(Adds(context, generation, turns), generation, context.copied.copiedEventIds, turns)
  {
    var add := Adds(context, generation, turns);
    forall k: nat, id: nat | k < |turns|
      ensures Numbered(add(k, id), id)
      ensures BlockShape(add(k, id), generation, context.copied.copiedEventIds, turns, k)
    {
      StepsOfTurnShape(context, generation, turns, k, id);
    }
  }

  // ----- Numbering -----

  lemma {:induction false} AccumulatedNumbers(opening: seq<Step>, add: (nat, nat) -> seq<Step>, k: nat)
    requires Numbered(opening, 1)
    requires forall i: nat, id: nat | i < k :: Numbered(add(i, id), id)
    ensures Numbered(Accumulate(opening, add, k), 1)
  {
    if k > 0 {
      AccumulatedNumbers(opening, add, k - 1);
      var before := Accumulate(opening, add, k - 1);
      assert Numbered(add(k - 1, |before| + 1), |before| + 1);
    }
  }

  /** Step ids are 1, 2, 3 and so on without a gap. */
  lemma StepIdsAreConsecutive(context: RunContext, generation: Generation)
    ensures Numbered(StepsOf(context, generation), 1)
  {
    hide OpeningSteps, Adds;
    var turns := Turns(generation);
    OpeningStepsShape(context, generation);
    AddsAreShaped(context, generation, turns);
    AccumulatedNumbers(OpeningSteps(context, generation), Adds(context, generation, turns), |turns|);
  }

  // ----- LLM calls -----

  function CallCount(step: Step): int {
    step.llmCallCount.GetOr(0)
  }

  lemma {:induction false} SumOfZeros<T>(xs: seq<T>, amount: T -> int)
    requires forall i | 0 <= i < |xs| :: amount(xs[i]) == 0
    ensures Sum(xs, amount) == 0
  {
    if xs != [] {
      SumOfZeros(xs[1..], amount);
    }
  }

  lemma SumOfLast<T>(xs: seq<T>, x: T, amount: T -> int)
    ensures Sum(xs + [x], amount) == Sum(xs, amount) + amount(x)
  {
    SumConcat(xs, [x], amount);
  }

  /** The sum over one turn's steps is what its last step adds, when the prompt before it adds nothing. */
  lemma SumOfBlock(block: seq<Step>, amount: Step -> int)
    requires 1 <= |block| <= 2
    requires |block| == 2 ==> amount(block[0]) == 0
    ensures Sum(block, amount) == amount(block[|block| - 1])
  {
    if |block| == 2 {
      assert block[1..] == [block[1]];
    } else {
      assert block[1..] == [];
    }
  }

  lemma TurnOfBlock(block: seq<Step>, generation: Generation, copiedIds: set<string>, turns: seq<Event>, k: nat)
    requires k < |turns| && BlockShape(block, generation, copiedIds, turns, k)
    ensures Sum(block, CallCount)
            == if ClosesCycle(turns[k]) then OpenResponses(turns, k) + 1 else 0
  {
    hide OpenResponses, DuePrompt, FailuresSince, TurnTime;
    if block != [] {
      SumOfBlock(block, CallCount);
    }
  }

  function SumTo(weight: nat -> int, k: nat): int {
    if k == 0 then 0 else SumTo(weight, k - 1) + weight(k - 1)
  }

  /** When every turn's steps add a fixed weight, the steps together add the weights. */
  lemma {:induction false} AccumulatedSum(opening: seq<Step>, add: (nat, nat) -> seq<Step>, amount: Step -> int,
                                          weight: nat -> int, k: nat)
    requires Sum(opening, amount) == 0
    requires forall i: nat, id: nat | i < k :: Sum(add(i, id), amount) == weight(i)
    ensures Sum(Accumulate(opening, add, k), amount) == SumTo(weight, k)
  {
    if k > 0 {
      AccumulatedSum(opening, add, amount, weight, k - 1);
      var before := Accumulate(opening, add, k - 1);
      SumConcat(before, add(k - 1, |before| + 1), amount);
    }
  }

  /** The responses that the turn at `k` reports: its whole cycle when it closes one. */
  function CallsAt(turns: seq<Event>): nat -> int {
    (k: nat) => if k < |turns| && ClosesCycle(turns[k]) then OpenResponses(turns, k) + 1 else 0
  }

  lemma {:induction false} CallsAreResponses(turns: seq<Event>, k: nat)
    requires k <= |turns|
    ensures SumTo(CallsAt(turns), k) + OpenResponses(turns, k) == |Filter(turns[..k], IsResponse)|
  {
    hide Filter, OpenResponses;
    if k == 0 {
      BeforeAnyTurn'(turns);
    } else {
      CallsAreResponses(turns, k - 1);
      OpenResponsesStep(turns, k - 1);
      FilterNext(turns, 0, k - 1, IsResponse);
    }
  }

  /** The call counts on the steps, with the responses of a cycle still open, count every response. */
  lemma CallCountsCoverResponses(context: RunContext, generation: Generation)
    ensures
      var turns := Turns(generation);
      Sum(StepsOf(context, generation), CallCount) + OpenResponses(turns, |turns|) == |Filter(turns, IsResponse)|
  {
    hide OpeningSteps, Adds, OpenResponses, BlockShape, Numbered;
    var turns := Turns(generation);
    var opening, add := OpeningSteps(context, generation), Adds(context, generation, turns);
    OpeningStepsShape(context, generation);
    SumOfZeros(opening, CallCount);
    AddsAreShaped(context, generation, turns);
    forall k: nat, id: nat | k < |turns| ensures Sum(add(k, id), CallCount) == CallsAt(turns)(k) {
      TurnOfBlock(add(k, id), generation, context.copied.copiedEventIds, turns, k);
    }
    AccumulatedSum(opening, add, CallCount, CallsAt(turns), |turns|);
    CallsAreResponses(turns, |turns|);
    assert turns[..|turns|] == turns;
  }

  /** Own turns in `steps` since its last measured one. */
  function TurnsSinceMeasured(steps: seq<Step>): nat {
    if steps == [] then 0
    else
      var last := steps[|steps| - 1];
      if !last.OwnTurn() then TurnsSinceMeasured(steps[..|steps| - 1])
      else if last.metrics.Some? then 0
      else TurnsSinceMeasured(steps[..|steps| - 1]) + 1
  }

  /** The count a step following `before` must carry. */
  function OwedCount(before: seq<Step>, step: Step): Option<nat> {
    if step.OwnTurn() && step.metrics.Some? then Some(TurnsSinceMeasured(before) + 1) else None
  }

  /** Exactly the measured steps count calls: themselves and the own turns since the last measured step. */
  ghost predicate CountsCycles(steps: seq<Step>) {
    forall i | 0 <= i < |steps| :: steps[i].llmCallCount == OwedCount(steps[..i], steps[i])
  }

  lemma {:induction false} NoTurns(steps: seq<Step>)
    requires forall i | 0 <= i < |steps| :: !steps[i].OwnTurn()
    ensures TurnsSinceMeasured(steps) == 0
  {
    if steps != [] {
      NoTurns(steps[..|steps| - 1]);
    }
  }

  lemma CountsAppend(steps: seq<Step>, last: Step)
    requires CountsCycles(steps) && last.llmCallCount == OwedCount(steps, last)
    ensures CountsCycles(steps + [last])
    ensures TurnsSinceMeasured(steps + [last]) ==
            if !last.OwnTurn() then TurnsSinceMeasured(steps)
            else if last.metrics.Some? then 0 else TurnsSinceMeasured(steps) + 1
  {
    var all := steps + [last];
    assert all[..|steps|] == steps;
    forall i | 0 <= i < |all| ensures all[i].llmCallCount == OwedCount(all[..i], all[i]) {
      if i < |steps| {
        assert all[..i] == steps[..i];
      }
    }
  }

  lemma CountsAppendBlock(steps: seq<Step>, block: seq<Step>, generation: Generation, copiedIds: set<string>,
                          turns: seq<Event>, k: nat)
    requires k < |turns| && BlockShape(block, generation, copiedIds, turns, k)
    requires CountsCycles(steps) && TurnsSinceMeasured(steps) == OpenResponses(turns, k)
    ensures CountsCycles(steps + block) && TurnsSinceMeasured(steps + block) == OpenResponses(turns, k + 1)
  {
    hide CountsCycles, TurnsSinceMeasured, OpenResponses, DuePrompt, FailuresSince, TurnTime;
    OpenResponsesStep(turns, k);
    if |block| == 1 {
      CountsAppend(steps, block[0]);
      assert block == [block[0]];
    } else if |block| == 2 {
      CountsAppend(steps, block[0]);
      CountsAppend(steps + [block[0]], block[1]);
      assert steps + block == steps + [block[0]] + [block[1]];
    } else {
      assert steps + block == steps;
    }
  }

  lemma OpeningCounts(opening: seq<Step>)
    requires OpeningShape(opening)
    ensures CountsCycles(opening)
  {
  }

  lemma ShapedBlock(add: (nat, nat) -> seq<Step>, generation: Generation, copiedIds: set<string>,
                    turns: seq<Event>, k: nat, id: nat)
    requires k < |turns| && Shaped(add, generation, copiedIds, turns)
    ensures Numbered(add(k, id), id) && BlockShape(add(k, id), generation, copiedIds, turns, k)
  {
  }

  lemma {:induction false} AccumulatedCounts(
    opening: seq<Step>, add: (nat, nat) -> seq<Step>, generation: Generation, copiedIds: set<string>,
    turns: seq<Event>, k: nat)
    requires k <= |turns| && OpeningShape(opening) && Shaped(add, generation, copiedIds, turns)
    ensures CountsCycles(Accumulate(opening, add, k))
    ensures TurnsSinceMeasured(Accumulate(opening, add, k)) == OpenResponses(turns, k)
  {
    hide Shaped, BlockShape, OpenResponses, CountsCycles, TurnsSinceMeasured;
    if k == 0 {
      NoTurns(opening);
      BeforeAnyTurn'(turns);
      OpeningCounts(opening);
    } else {
      AccumulatedCounts(opening, add, generation, copiedIds, turns, k - 1);
      var before := Accumulate(opening, add, k - 1);
      ShapedBlock(add, generation, copiedIds, turns, k - 1, |before| + 1);
      CountsAppendBlock(before, add(k - 1, |before| + 1), generation, copiedIds, turns, k - 1);
    }
  }

  lemma BeforeAnyTurn'(turns: seq<Event>)
    ensures FailuresSince(turns, 0) == [] && OpenResponses(turns, 0) == 0
    ensures Filter(turns[..0], IsResponse) == [] && Filter(turns[..0], IsFailedCycle) == []
  {
  }

  lemma MeasuredStepsCountTheirCycle(context: RunContext, generation: Generation)
    ensures CountsCycles(StepsOf(context, generation))
  {
    hide CountsCycles, OpeningSteps, Adds, BlockShape;
    var turns := Turns(generation);
    OpeningStepsShape(context, generation);
    AddsAreShaped(context, generation, turns);
    AccumulatedCounts(OpeningSteps(context, generation), Adds(context, generation, turns), generation,
                      context.copied.copiedEventIds, turns, |turns|);
  }

  // ----- Failed cycles -----

  function RecordedFailures(steps: seq<Step>): seq<FailedCycle> {
    if steps == [] then []
    else (if steps[0].OwnTurn() then steps[0].extra.failedCycles else []) + RecordedFailures(steps[1..])
  }

  lemma RecordedFailuresUnfold(steps: seq<Step>)
    requires steps != []
    ensures RecordedFailures(steps)
            == (if steps[0].OwnTurn() then steps[0].extra.failedCycles else []) + RecordedFailures(steps[1..])
  {
  }

  lemma {:induction false} RecordedFailuresConcat(xs: seq<Step>, ys: seq<Step>)
    ensures RecordedFailures(xs + ys) == RecordedFailures(xs) + RecordedFailures(ys)
  {
    if xs == [] {
      assert xs + ys == ys;
    } else {
      hide RecordedFailures;
      RecordedFailuresConcat(xs[1..], ys);
      HeadAndTail(xs, ys);
      RecordedFailuresUnfold(xs + ys);
      RecordedFailuresUnfold(xs);
      ConcatAssociates(if xs[0].OwnTurn() then xs[0].extra.failedCycles else [], RecordedFailures(xs[1..]),
                       RecordedFailures(ys));
    }
  }

  lemma {:induction false} NoRecordedFailures(steps: seq<Step>)
    requires forall i | 0 <= i < |steps| :: !steps[i].OwnTurn()
    ensures RecordedFailures(steps) == []
  {
    if steps != [] {
      NoRecordedFailures(steps[1..]);
    }
  }

  lemma {:induction false} FailedCycleRecordsConcat(xs: seq<Event>, ys: seq<Event>)
    requires AllFailedCycles(xs) && AllFailedCycles(ys)
    ensures AllFailedCycles(xs + ys)
    ensures FailedCycleRecords(xs + ys) == FailedCycleRecords(xs) + FailedCycleRecords(ys)
  {
    if xs == [] {
      assert xs + ys == ys;
    } else {
      FailedCycleRecordsConcat(xs[1..], ys);
      HeadAndTail(xs, ys);
      FailedCycleRecordsUnfold(xs);
      FailedCycleRecordsUnfold(xs + ys);
      hide FailedCycleRecords;
      ConcatAssociates(FailedCycleRecords(xs[..1]), FailedCycleRecords(xs[1..]), FailedCycleRecords(ys));
    }
  }

  lemma FailedCycleRecordsUnfold(failures: seq<Event>)
    requires failures != [] && AllFailedCycles(failures)
    ensures AllFailedCycles(failures[..1]) && AllFailedCycles(failures[1..])
    ensures FailedCycleRecords(failures) == FailedCycleRecords(failures[..1]) + FailedCycleRecords(failures[1..])
  {
    assert failures[..1][1..] == [];
  }

  lemma FailuresOfSteps(block: seq<Step>)
    requires 1 <= |block| <= 2 && (|block| == 2 ==> !block[0].OwnTurn())
    ensures RecordedFailures(block)
            == if block[|block| - 1].OwnTurn() then block[|block| - 1].extra.failedCycles else []
  {
    if |block| == 2 {
      assert block[1..] == [block[1]];
      RecordedFailuresUnfold(block);
    } else {
      assert block[1..] == [];
    }
  }

  lemma FailuresOfBlock(block: seq<Step>, generation: Generation, copiedIds: set<string>, turns: seq<Event>, k: nat)
    requires k < |turns| && BlockShape(block, generation, copiedIds, turns, k)
    ensures AllFailedCycles(FailuresSince(turns, k))
    ensures RecordedFailures(block)
            == if IsResponse(turns[k]) then FailedCycleRecords(FailuresSince(turns, k)) else []
  {
    hide OpenResponses, DuePrompt, FailuresSince, TurnTime, FailedCycleRecords;
    FailuresAreFailures(turns, k);
    if block != [] {
      FailuresOfSteps(block);
    }
  }

  /** What one turn's steps record moves from the pending failures to the recorded ones. */
  lemma FailuresOfOneMore(recorded: seq<FailedCycle>, block: seq<Step>, generation: Generation, copiedIds: set<string>,
                          turns: seq<Event>, k: nat)
    requires k < |turns| && BlockShape(block, generation, copiedIds, turns, k)
    requires AllFailedCycles(FailuresSince(turns, k)) && AllFailedCycles(Filter(turns[..k], IsFailedCycle))
    requires recorded + FailedCycleRecords(FailuresSince(turns, k))
             == FailedCycleRecords(Filter(turns[..k], IsFailedCycle))
    ensures AllFailedCycles(FailuresSince(turns, k + 1)) && AllFailedCycles(Filter(turns[..k + 1], IsFailedCycle))
    ensures (recorded + RecordedFailures(block)) + FailedCycleRecords(FailuresSince(turns, k + 1))
            == FailedCycleRecords(Filter(turns[..k + 1], IsFailedCycle))
  {
    hide BlockShape, FailuresSince, Filter, RecordedFailures, FailedCycleRecords, AllFailedCycles;
    FailuresOfBlock(block, generation, copiedIds, turns, k);
    FilterNext(turns, 0, k, IsFailedCycle);
    FailuresMove(turns, k, Filter(turns[..k], IsFailedCycle));
    var one := if IsFailedCycle(turns[k]) then [turns[k]] else [];
    OneFailure(turns, k);
    Regroup(recorded, RecordedFailures(block), FailedCycleRecords(FailuresSince(turns, k + 1)),
            FailedCycleRecords(FailuresSince(turns, k)), FailedCycleRecords(one));
  }

  lemma OneFailure(turns: seq<Event>, k: nat)
    requires k < |turns|
    ensures AllFailedCycles(if IsFailedCycle(turns[k]) then [turns[k]] else [])
  {
  }

  lemma {:induction false} AccumulatedFailures(
    opening: seq<Step>, add: (nat, nat) -> seq<Step>, generation: Generation, copiedIds: set<string>,
    turns: seq<Event>, k: nat)
    requires k <= |turns| && OpeningShape(opening) && Shaped(add, generation, copiedIds, turns)
    ensures AllFailedCycles(FailuresSince(turns, k)) && AllFailedCycles(Filter(turns[..k], IsFailedCycle))
    ensures RecordedFailures(Accumulate(opening, add, k)) + FailedCycleRecords(FailuresSince(turns, k))
            == FailedCycleRecords(Filter(turns[..k], IsFailedCycle))
  {
    hide Shaped, BlockShape, FailuresSince, Filter, RecordedFailures, FailedCycleRecords;
    if k == 0 {
      NoRecordedFailures(opening);
      BeforeAnyTurn'(turns);
    } else {
      hide AllFailedCycles;
      AccumulatedFailures(opening, add, generation, copiedIds, turns, k - 1);
      var before := Accumulate(opening, add, k - 1);
      var block := add(k - 1, |before| + 1);
      RecordedFailuresConcat(before, block);
      ShapedBlock(add, generation, copiedIds, turns, k - 1, |before| + 1);
      FailuresOfOneMore(RecordedFailures(before), block, generation, copiedIds, turns, k - 1);
    }
  }

  lemma Regroup<T>(a: seq<T>, b: seq<T>, c: seq<T>, d: seq<T>, e: seq<T>)
    requires b + c == d + e
    ensures (a + b) + c == (a + d) + e
  {
    ConcatAssociates(a, b, c);
    ConcatAssociates(a, d, e);
  }

  /** A failure joins the pending ones; a response takes all of them. */
  lemma FailuresMove(turns: seq<Event>, k: nat, all: seq<Event>)
    requires k < |turns| && AllFailedCycles(all) && AllFailedCycles(FailuresSince(turns, k))
    ensures
      var one := if IsFailedCycle(turns[k]) then [turns[k]] else [];
      && AllFailedCycles(all + one) && AllFailedCycles(FailuresSince(turns, k + 1))
      && (if IsResponse(turns[k]) then FailedCycleRecords(FailuresSince(turns, k)) else [])
         + FailedCycleRecords(FailuresSince(turns, k + 1))
         == FailedCycleRecords(FailuresSince(turns, k)) + FailedCycleRecords(one)
      && FailedCycleRecords(all + one) == FailedCycleRecords(all) + FailedCycleRecords(one)
  {
    hide FailuresSince;
    var one := if IsFailedCycle(turns[k]) then [turns[k]] else [];
    FailuresSinceStep(turns, k);
    FailuresAreFailures(turns, k + 1);
    FailedCycleRecordsConcat(all, one);
    FailedCycleRecordsConcat(FailuresSince(turns, k), one);
  }

  /** The failures on the steps, then the trailing ones, are all the generation's failures in order, each once. */
  lemma FailuresRecordedOnce(context: RunContext, generation: Generation)
    ensures AllFailedCycles(TrailingFailures(generation)) && AllFailedCycles(Filter(Turns(generation), IsFailedCycle))
    ensures RecordedFailures(StepsOf(context, generation)) + FailedCycleRecords(TrailingFailures(generation))
            == FailedCycleRecords(Filter(Turns(generation), IsFailedCycle))
  {
    hide OpeningSteps, Adds, BlockShape;
    var turns := Turns(generation);
    OpeningStepsShape(context, generation);
    AddsAreShaped(context, generation, turns);
    AccumulatedFailures(OpeningSteps(context, generation), Adds(context, generation, turns), generation,
                        context.copied.copiedEventIds, turns, |turns|);
    assert turns[..|turns|] == turns;
  }
}
