/** Where the runner's prompts stand among a generation's steps, and the order of its turns. */
module TrajectoryPrompts {
  import opened Sorting
  import opened SimulationEvents
  import opened AtifSteps
  import opened TrajectoryBuilder
  import opened TrajectoryLaws

  /** The runner prompts a cycle just before the agent's turn, and never otherwise; both are copied or neither is. */
  ghost predicate PromptsAnswered(steps: seq<Step>) {
    forall i | 0 <= i < |steps| && steps[i].extra.RunnerPrompt? ::
      && i + 1 < |steps| && steps[i + 1].OwnTurn()
      && steps[i].isCopiedContext == steps[i + 1].isCopiedContext
  }

  /** Every prompt of the runner is one the agent registered with. */
  ghost predicate PromptsQuoted(steps: seq<Step>, generation: Generation) {
    forall i | 0 <= i < |steps| && steps[i].extra.RunnerPrompt? ::
          PromptShape(steps[i], generation, steps[i].extra.kind)
  }

  /** No own turn and no prompt yet. */
  ghost predicate Untouched(steps: seq<Step>) {
    forall i | 0 <= i < |steps| :: !steps[i].OwnTurn() && !steps[i].extra.RunnerPrompt?
  }

  /** The initial prompt comes before any own turn, once, and only for a generation without a seed. */
  ghost predicate InitialOpens(steps: seq<Step>, generation: Generation) {
    forall i | 0 <= i < |steps| && steps[i].extra == RunnerPrompt(Initial) ::
      generation.seed == [] && Untouched(steps[..i])
  }

  /** A step of an event the log timed, as opposed to a prompt or to what the generation opens with. */
  predicate Timed(step: Step) {
    step.extra.AgentTurn? || step.extra.Compaction?
  }

  ghost predicate TimedBy(steps: seq<Step>, time: int) {
    forall i | 0 <= i < |steps| && Timed(steps[i]) :: steps[i].timestamp.Some? && steps[i].timestamp.value <= time
  }

  ghost predicate Chronological(steps: seq<Step>) {
    forall j | 0 <= j < |steps| && Timed(steps[j]) ::
      steps[j].timestamp.Some? && TimedBy(steps[..j], steps[j].timestamp.value)
  }

  // ----- Adding one turn's steps -----

  lemma PromptsAppend(steps: seq<Step>, block: seq<Step>, generation: Generation, copiedIds: set<string>,
                      turns: seq<Event>, k: nat)
    requires k < |turns| && BlockShape(block, generation, copiedIds, turns, k)
    requires PromptsAnswered(steps) && (steps == [] || !steps[|steps| - 1].extra.RunnerPrompt?)
    ensures PromptsAnswered(steps + block)
    ensures steps + block == [] || !(steps + block)[|steps + block| - 1].extra.RunnerPrompt?
  {
    hide DuePrompt, FailuresSince, OpenResponses, TurnTime, FailedCycleRecords;
    var all := steps + block;
    forall i | 0 <= i < |all| && all[i].extra.RunnerPrompt?
      ensures i + 1 < |all| && all[i + 1].OwnTurn() && all[i].isCopiedContext == all[i + 1].isCopiedContext
    {
      if i < |steps| {
        assert all[i] == steps[i];
        assert all[i + 1] == steps[i + 1];
      } else {
        assert all[i] == block[i - |steps|];
        assert |block| == 2 && all[i + 1] == block[1];
      }
    }
  }

  lemma QuotedAppend(steps: seq<Step>, block: seq<Step>, generation: Generation, copiedIds: set<string>,
                     turns: seq<Event>, k: nat)
    requires k < |turns| && BlockShape(block, generation, copiedIds, turns, k) && PromptsQuoted(steps, generation)
    ensures PromptsQuoted(steps + block, generation)
  {
    hide DuePrompt, FailuresSince, OpenResponses, TurnTime, FailedCycleRecords;
    var all := steps + block;
    forall i | 0 <= i < |all| && all[i].extra.RunnerPrompt? ensures PromptShape(all[i], generation, all[i].extra.kind) {
      if i < |steps| {
        assert all[i] == steps[i];
      } else {
        assert all[i] == block[i - |steps|];
      }
    }
  }

  lemma UntouchedAppend(steps: seq<Step>, block: seq<Step>, generation: Generation, copiedIds: set<string>,
                        turns: seq<Event>, k: nat)
    requires k < |turns| && BlockShape(block, generation, copiedIds, turns, k)
    requires InitialOpens(steps, generation)
    requires PreviousResponse(turns, k) < 0 ==> Untouched(steps)
    ensures InitialOpens(steps + block, generation)
    ensures PreviousResponse(turns, k + 1) < 0 ==> Untouched(steps + block)
  {
    hide FailuresSince, OpenResponses, TurnTime, FailedCycleRecords;
    var all := steps + block;
    forall i | 0 <= i < |all| && all[i].extra == RunnerPrompt(Initial)
      ensures generation.seed == [] && Untouched(all[..i])
    {
      if i < |steps| {
        assert all[i] == steps[i] && all[..i] == steps[..i];
      } else {
        assert all[i] == block[i - |steps|];
        assert all[..i] == steps;
      }
    }
  }

  lemma ChronologicalAppend(steps: seq<Step>, block: seq<Step>, generation: Generation, copiedIds: set<string>,
                            turns: seq<Event>, k: nat)
    requires k < |turns| && BlockShape(block, generation, copiedIds, turns, k)
    requires Chronological(steps) && TimedBy(steps, TurnTime(turns[k], InvokedAt(generation.events)))
    ensures Chronological(steps + block)
    ensures TimedBy(steps + block, TurnTime(turns[k], InvokedAt(generation.events)))
  {
    hide FailuresSince, OpenResponses, DuePrompt, FailedCycleRecords, FirstInvocation, InvokedAt;
    var all := steps + block;
    forall j | 0 <= j < |all| && Timed(all[j])
      ensures all[j].timestamp.Some? && TimedBy(all[..j], all[j].timestamp.value)
    {
      if j < |steps| {
        assert all[j] == steps[j] && all[..j] == steps[..j];
      } else {
        assert all[j] == block[j - |steps|];
        assert j - |steps| == |block| - 1;
        assert all[..j] == steps + block[..j - |steps|];
        if |block| == 2 {
          assert block[..1] == [block[0]];
        }
      }
    }
  }

  // ----- Whole generations -----

  lemma {:induction false} AccumulatedPrompts(
    opening: seq<Step>, add: (nat, nat) -> seq<Step>, generation: Generation, copiedIds: set<string>,
    turns: seq<Event>, k: nat)
    requires k <= |turns| && OpeningShape(opening) && Shaped(add, generation, copiedIds, turns)
    ensures
      var steps := Accumulate(opening, add, k);
      && PromptsAnswered(steps) && PromptsQuoted(steps, generation) && InitialOpens(steps, generation)
      && steps != [] && !steps[|steps| - 1].extra.RunnerPrompt?
      && (PreviousResponse(turns, k) < 0 ==> Untouched(steps))
  {
    hide Shaped, BlockShape, PromptsAnswered, PromptsQuoted, InitialOpens, Untouched;
    if k == 0 {
      OpeningPrompts(opening, generation);
    } else {
      AccumulatedPrompts(opening, add, generation, copiedIds, turns, k - 1);
      var before := Accumulate(opening, add, k - 1);
      ShapedBlock(add, generation, copiedIds, turns, k - 1, |before| + 1);
      PromptsAppend(before, add(k - 1, |before| + 1), generation, copiedIds, turns, k - 1);
      QuotedAppend(before, add(k - 1, |before| + 1), generation, copiedIds, turns, k - 1);
      UntouchedAppend(before, add(k - 1, |before| + 1), generation, copiedIds, turns, k - 1);
    }
  }

  lemma OpeningPrompts(opening: seq<Step>, generation: Generation)
    requires OpeningShape(opening)
    ensures PromptsAnswered(opening) && PromptsQuoted(opening, generation)
    ensures InitialOpens(opening, generation) && Untouched(opening)
    ensures Chronological(opening) && forall time :: TimedBy(opening, time)
  {
  }

  /**
    Every prompt the runner sent is one the agent registered with and is answered by the agent's next
    step, and a generation is opened by the initial prompt at most once, before it played a turn, and
    only when it has no seed.
   */
  lemma RunnerPromptsPlacement(context: RunContext, generation: Generation)
    ensures PromptsAnswered(StepsOf(context, generation)) && PromptsQuoted(StepsOf(context, generation), generation)
    ensures InitialOpens(StepsOf(context, generation), generation)
  {
    hide OpeningSteps, Adds, PromptsAnswered, PromptsQuoted, InitialOpens;
    var turns := Turns(generation);
    OpeningStepsShape(context, generation);
    AddsAreShaped(context, generation, turns);
    AccumulatedPrompts(OpeningSteps(context, generation), Adds(context, generation, turns), generation,
                       context.copied.copiedEventIds, turns, |turns|);
  }

  lemma {:induction false} AccumulatedOrder(
    opening: seq<Step>, add: (nat, nat) -> seq<Step>, generation: Generation, copiedIds: set<string>,
    turns: seq<Event>, k: nat)
    requires k <= |turns| && OpeningShape(opening) && Shaped(add, generation, copiedIds, turns)
    requires SortedBy(turns, ByTurnTime(InvokedAt(generation.events)))
    ensures
      var steps := Accumulate(opening, add, k);
      && Chronological(steps)
      && (k < |turns| ==> TimedBy(steps, TurnTime(turns[k], InvokedAt(generation.events))))
  {
    hide Shaped, BlockShape, Chronological, TurnTime, InvokedAt;
    if k == 0 {
      OpeningPrompts(opening, generation);
    } else {
      AccumulatedOrder(opening, add, generation, copiedIds, turns, k - 1);
      var before := Accumulate(opening, add, k - 1);
      ShapedBlock(add, generation, copiedIds, turns, k - 1, |before| + 1);
      ChronologicalAppend(before, add(k - 1, |before| + 1), generation, copiedIds, turns, k - 1);
      if k < |turns| {
        assert ByTurnTime(InvokedAt(generation.events))(turns[k - 1], turns[k]);
      }
    }
  }

  /**
    Agent turns and compactions appear in the order they reached or left the agent, whatever order
    they were logged in.
   */
  lemma TurnsAreChronological(context: RunContext, generation: Generation)
    ensures Chronological(StepsOf(context, generation))
  {
    hide OpeningSteps, Adds, Chronological, TurnTime;
    var turns := Turns(generation);
    var order := ByTurnTime(InvokedAt(generation.events));
    assert TotalPreorder(order);
    SortSorts(generation.events, order);
    OpeningStepsShape(context, generation);
    AddsAreShaped(context, generation, turns);
    AccumulatedOrder(OpeningSteps(context, generation), Adds(context, generation, turns), generation,
                     context.copied.copiedEventIds, turns, |turns|);
  }
}
