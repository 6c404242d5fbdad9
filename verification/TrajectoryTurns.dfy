/** Which step is which turn, and when the runner prompts the agent to go on. */
module TrajectoryTurns {
  import opened Wrappers
  import opened Sorting
  import opened SimulationEvents
  import opened AtifSteps
  import opened TrajectoryBuilder
  import opened TrajectoryLaws
  import opened TrajectoryPrompts

  /** `step` is the agent step of the response at `k`. */
  ghost predicate IsTurn(step: Step, generation: Generation, copiedIds: set<string>, turns: seq<Event>, k: nat) {
    && k < |turns| && IsResponse(turns[k]) && AllFailedCycles(FailuresSince(turns, k))
    && TurnShape(step, generation, copiedIds, turns, k)
  }

  /** The place of the last step that the turn at `k` adds. */
  function PlaceOf(opening: seq<Step>, add: (nat, nat) -> seq<Step>, k: nat): int {
    |Accumulate(opening, add, k + 1)| - 1
  }

  lemma {:induction false} AccumulateGrows(opening: seq<Step>, add: (nat, nat) -> seq<Step>, a: nat, b: nat)
    requires a <= b
    ensures Accumulate(opening, add, a) <= Accumulate(opening, add, b)
  {
    if a < b {
      AccumulateGrows(opening, add, a, b - 1);
    }
  }

  /** The response at `k` has its step at `p`, with the prompt that was due, if any, directly before it. */
  ghost predicate StandsAt(steps: seq<Step>, p: int, generation: Generation, copiedIds: set<string>,
                           turns: seq<Event>, k: nat)
    requires k < |turns|
  {
    && 1 <= p < |steps|
    && IsTurn(steps[p], generation, copiedIds, turns, k)
    && (if steps[p - 1].extra.RunnerPrompt? then DuePrompt(generation, turns, k) == Some(steps[p - 1].extra.kind)
        else DuePrompt(generation, turns, k) == None)
  }

  lemma StandsAtEnd(before: seq<Step>, block: seq<Step>, generation: Generation, copiedIds: set<string>,
                    turns: seq<Event>, k: nat)
    requires k < |turns| && IsResponse(turns[k]) && BlockShape(block, generation, copiedIds, turns, k)
    requires before != [] && !before[|before| - 1].extra.RunnerPrompt?
    ensures StandsAt(before + block, |before + block| - 1, generation, copiedIds, turns, k)
    ensures |before| < |before + block|
  {
    hide DuePrompt, FailuresSince, OpenResponses, TurnTime, FailedCycleRecords, InvokedAt;
    var steps := before + block;
    var p := |steps| - 1;
    assert steps[p] == block[|block| - 1];
    if |block| == 1 {
      assert steps[p - 1] == before[|before| - 1];
    } else {
      assert steps[p - 1] == block[0];
    }
  }

  lemma StandsInLonger(steps: seq<Step>, longer: seq<Step>, p: int, generation: Generation, copiedIds: set<string>,
                       turns: seq<Event>, k: nat)
    requires k < |turns| && steps <= longer && StandsAt(steps, p, generation, copiedIds, turns, k)
    ensures StandsAt(longer, p, generation, copiedIds, turns, k)
  {
    hide IsTurn, DuePrompt;
  }

  lemma EndsWithoutPrompt(opening: seq<Step>, add: (nat, nat) -> seq<Step>, generation: Generation,
                          copiedIds: set<string>, turns: seq<Event>, k: nat)
    requires k <= |turns| && OpeningShape(opening) && Shaped(add, generation, copiedIds, turns)
    ensures Accumulate(opening, add, k) != []
    ensures !Accumulate(opening, add, k)[|Accumulate(opening, add, k)| - 1].extra.RunnerPrompt?
  {
    hide Shaped, Accumulate, PromptsAnswered, PromptsQuoted, InitialOpens, Untouched;
    AccumulatedPrompts(opening, add, generation, copiedIds, turns, k);
  }

  /** Every response has its step at its place, however many turns follow. */
  lemma TurnStands(opening: seq<Step>, add: (nat, nat) -> seq<Step>, generation: Generation, copiedIds: set<string>,
                   turns: seq<Event>, k: nat, n: nat)
    requires k < n <= |turns| && IsResponse(turns[k])
    requires OpeningShape(opening) && Shaped(add, generation, copiedIds, turns)
    ensures StandsAt(Accumulate(opening, add, n), PlaceOf(opening, add, k), generation, copiedIds, turns, k)
    ensures |Accumulate(opening, add, k)| <= PlaceOf(opening, add, k)
  {
    hide Shaped, BlockShape, StandsAt, OpeningShape;
    var before := Accumulate(opening, add, k);
    ShapedBlock(add, generation, copiedIds, turns, k, |before| + 1);
    EndsWithoutPrompt(opening, add, generation, copiedIds, turns, k);
    StandsAtEnd(before, add(k, |before| + 1), generation, copiedIds, turns, k);
    AccumulateGrows(opening, add, k + 1, n);
    StandsInLonger(Accumulate(opening, add, k + 1), Accumulate(opening, add, n), PlaceOf(opening, add, k),
                   generation, copiedIds, turns, k);
  }

  /** Every own turn is the step of some response, standing at its place. */
  lemma {:induction false} TurnComesFrom(
    opening: seq<Step>, add: (nat, nat) -> seq<Step>, generation: Generation, copiedIds: set<string>,
    turns: seq<Event>, n: nat, p: nat)
    returns (k: nat)
    requires n <= |turns| && OpeningShape(opening) && Shaped(add, generation, copiedIds, turns)
    requires p < |Accumulate(opening, add, n)| && Accumulate(opening, add, n)[p].OwnTurn()
    ensures k < n && IsResponse(turns[k]) && p == PlaceOf(opening, add, k)
  {
    hide Shaped, DuePrompt, FailuresSince, OpenResponses, TurnTime, FailedCycleRecords;
    if n == 0 {
      assert false;
    } else {
      var before := Accumulate(opening, add, n - 1);
      if p < |before| {
        k := TurnComesFrom(opening, add, generation, copiedIds, turns, n - 1, p);
      } else {
        ShapedBlock(add, generation, copiedIds, turns, n - 1, |before| + 1);
        var block := add(n - 1, |before| + 1);
        assert Accumulate(opening, add, n)[p] == block[p - |before|];
        k := n - 1;
      }
    }
  }

  /** Later responses stand later. */
  lemma PlacesFollowTurns(opening: seq<Step>, add: (nat, nat) -> seq<Step>, generation: Generation,
                          copiedIds: set<string>, turns: seq<Event>, j: nat, k: nat)
    requires j < k < |turns| && IsResponse(turns[k])
    requires OpeningShape(opening) && Shaped(add, generation, copiedIds, turns)
    ensures PlaceOf(opening, add, j) < PlaceOf(opening, add, k)
  {
    hide Shaped, Accumulate, StandsAt;
    TurnStands(opening, add, generation, copiedIds, turns, k, k + 1);
    AccumulateGrows(opening, add, j + 1, k);
  }

  lemma PreviousIs(turns: seq<Event>, j: nat, k: nat)
    requires j < k <= |turns| && IsResponse(turns[j]) && forall i | j < i < k :: !IsResponse(turns[i])
    ensures PreviousResponse(turns, k) == j
  {
  }

  lemma FailedBetween(turns: seq<Event>, from: nat, k: nat)
    requires from <= k <= |turns|
    ensures Filter(turns[from..k], IsFailedCycle) != [] <==> exists i | from <= i < k :: IsFailedCycle(turns[i])
  {
    var since := turns[from..k];
    FilterMembers(since, IsFailedCycle);
    var failed := Filter(since, IsFailedCycle);
    hide Filter;
    if i :| from <= i < k && IsFailedCycle(turns[i]) {
      assert since[i - from] == turns[i];
      assert turns[i] in failed;
    }
    if failed != [] {
      assert failed[0] in since;
      var m :| 0 <= m < |since| && since[m] == failed[0];
      assert IsFailedCycle(turns[from + m]);
    }
  }

  /** A response records a failed cycle exactly when one failed since the response before it. */
  lemma FailuresShow(turns: seq<Event>, j: nat, k: nat)
    requires j < k <= |turns| && PreviousResponse(turns, k) == j
    ensures AllFailedCycles(FailuresSince(turns, k))
    ensures FailedCycleRecords(FailuresSince(turns, k)) != [] <==> exists i | j < i < k :: IsFailedCycle(turns[i])
  {
    hide Filter;
    FailuresAreFailures(turns, k);
    FailedBetween(turns, j + 1, k);
  }

  /** Why the runner prompts before the response at `k`, as the steps of it and of the response before it show. */
  lemma DueOnSteps(generation: Generation, copiedIds: set<string>, turns: seq<Event>, earlier: Step, later: Step,
                   j: nat, k: nat)
    requires IsTurn(earlier, generation, copiedIds, turns, j) && IsTurn(later, generation, copiedIds, turns, k)
    requires j < k && forall i | j < i < k :: !IsResponse(turns[i])
    ensures DuePrompt(generation, turns, k) ==
            if earlier.metrics.Some? || later.extra.failedCycles != [] || exists i | j < i < k ::
                  IsRegistration(turns[i])
            then Some(Continue) else None
  {
    hide OpenResponses, FailuresSince, TurnTime, FailedCycleRecords;
    PreviousIs(turns, j, k);
    FailuresShow(turns, j, k);
    assert (exists i | j < i < k :: Reopens(turns[i]))
      <==> (exists i | j < i < k :: IsFailedCycle(turns[i])) || (exists i | j < i < k :: IsRegistration(turns[i]));
  }

  /**
    Of two successive own turns of a generation, the later is directly preceded by a runner prompt if
    and only if the earlier closed its cycle, the later records a cycle that failed in between, or the
    agent registered again in between; and that prompt is the continue prompt. The later records
    exactly the cycles that failed in between. `j` and `k` are the responses they are the steps of.
   */
  lemma ContinuesExactlyWhenOwed(context: RunContext, generation: Generation, q: nat, p: nat) returns (j: nat, k: nat)
    requires q < p < |StepsOf(context, generation)|
    requires StepsOf(context, generation)[q].OwnTurn() && StepsOf(context, generation)[p].OwnTurn()
    requires forall i | q < i < p :: !StepsOf(context, generation)[i].OwnTurn()
    ensures
      var steps, turns := StepsOf(context, generation), Turns(generation);
      && IsTurn(steps[q], generation, context.copied.copiedEventIds, turns, j)
      && IsTurn(steps[p], generation, context.copied.copiedEventIds, turns, k)
      && j < k && (forall i | j < i < k :: !IsResponse(turns[i]))
      && (steps[p - 1].extra.RunnerPrompt?
          <==> || steps[q].metrics.Some? || steps[p].extra.failedCycles != []
               || exists i | j < i < k :: IsRegistration(turns[i]))
      && (steps[p - 1].extra.RunnerPrompt? ==> steps[p - 1].extra == RunnerPrompt(Continue))
      && Record(steps[p].extra.failedCycles, Filter(turns[j + 1..k], IsFailedCycle))
  {
    hide OpeningSteps, Adds, Shaped, DuePrompt, IsTurn, Accumulate, PlaceOf;
    var copiedIds, turns := context.copied.copiedEventIds, Turns(generation);
    var opening, add := OpeningSteps(context, generation), Adds(context, generation, turns);
    var steps := StepsOf(context, generation);
    OpeningStepsShape(context, generation);
    AddsAreShaped(context, generation, turns);
    j := TurnComesFrom(opening, add, generation, copiedIds, turns, |turns|, q);
    k := TurnComesFrom(opening, add, generation, copiedIds, turns, |turns|, p);
    if k < j {
      PlacesFollowTurns(opening, add, generation, copiedIds, turns, k, j);
    }
    forall i | j < i < k ensures !IsResponse(turns[i]) {
      if IsResponse(turns[i]) {
        PlacesFollowTurns(opening, add, generation, copiedIds, turns, j, i);
        PlacesFollowTurns(opening, add, generation, copiedIds, turns, i, k);
        TurnStands(opening, add, generation, copiedIds, turns, i, |turns|);
        TurnIsOwn(steps[PlaceOf(opening, add, i)], generation, copiedIds, turns, i);
      }
    }
    TurnStands(opening, add, generation, copiedIds, turns, j, |turns|);
    TurnStands(opening, add, generation, copiedIds, turns, k, |turns|);
    DueOnSteps(generation, copiedIds, turns, steps[q], steps[p], j, k);
    TurnRecords(steps[p], generation, copiedIds, turns, j, k);
  }

  /**
    A generation's first own turn is opened by the runner: by the initial prompt if and only if the
    generation has no seed and no cycle failed and no registration came before that turn, and by the
    continue prompt otherwise; and it records exactly the cycles that failed before it. `k` is the
    response it is the step of, the generation's first.
   */
  lemma FirstTurnIsOpened(context: RunContext, generation: Generation, p: nat) returns (k: nat)
    requires p < |StepsOf(context, generation)| && StepsOf(context, generation)[p].OwnTurn()
    requires forall i | 0 <= i < p :: !StepsOf(context, generation)[i].OwnTurn()
    ensures IsTurn(StepsOf(context, generation)[p], generation, context.copied.copiedEventIds, Turns(generation), k)
    ensures forall i | 0 <= i < k :: !Turns(generation)[i].body.LLMResponseReceived?
    ensures
      var steps, before := StepsOf(context, generation), Turns(generation)[..k];
      && p > 0
      && steps[p - 1].extra ==
         RunnerPrompt(
           if && generation.seed == []
              && forall e | e in before :: !e.body.AgentRunCycleFailed? && !e.body.AgentRegistered?
           then Initial else Continue)
      && Record(steps[p].extra.failedCycles, Filter(before, IsFailedCycle))
  {
    hide OpeningSteps, Adds, Shaped, DuePrompt, IsTurn, Accumulate, PlaceOf;
    var copiedIds, turns := context.copied.copiedEventIds, Turns(generation);
    var opening, add := OpeningSteps(context, generation), Adds(context, generation, turns);
    var steps := StepsOf(context, generation);
    OpeningStepsShape(context, generation);
    AddsAreShaped(context, generation, turns);
    k := TurnComesFrom(opening, add, generation, copiedIds, turns, |turns|, p);
    forall i | 0 <= i < k ensures !IsResponse(turns[i]) {
      if IsResponse(turns[i]) {
        PlacesFollowTurns(opening, add, generation, copiedIds, turns, i, k);
        TurnStands(opening, add, generation, copiedIds, turns, i, |turns|);
        TurnIsOwn(steps[PlaceOf(opening, add, i)], generation, copiedIds, turns, i);
      }
    }
    TurnStands(opening, add, generation, copiedIds, turns, k, |turns|);
    FirstDue(generation, turns, k);
    TurnRecords(steps[p], generation, copiedIds, turns, -1, k);
    assert turns[0..k] == turns[..k];
  }

  /** What is due before any response. */
  lemma FirstDue(generation: Generation, turns: seq<Event>, k: nat)
    requires k < |turns| && forall i | 0 <= i < k :: !IsResponse(turns[i])
    ensures DuePrompt(generation, turns, k) ==
            Some(if generation.seed == [] && forall e | e in turns[..k] :: !IsFailedCycle(e) && !IsRegistration(e)
                 then Initial else Continue)
  {
    assert forall i | 0 <= i < k :: turns[..k][i] == turns[i];
    if i :| 0 <= i < k && Reopens(turns[i]) {
      assert turns[..k][i] in turns[..k];
    }
  }

  /** A turn records the cycles that failed since the response before it. */
  lemma TurnRecords(step: Step, generation: Generation, copiedIds: set<string>, turns: seq<Event>, j: int, k: nat)
    requires IsTurn(step, generation, copiedIds, turns, k) && -1 <= j < k
    requires (j >= 0 ==> IsResponse(turns[j])) && forall i | j < i < k :: !IsResponse(turns[i])
    ensures Record(step.extra.failedCycles, Filter(turns[j + 1..k], IsFailedCycle))
  {
    hide OpenResponses, TurnTime, FailedCycleRecords, Record, Filter, DuePrompt;
    assert PreviousResponse(turns, k) == j;
    FailuresAreRecorded(FailuresSince(turns, k));
  }

  lemma TurnIsOwn(step: Step, generation: Generation, copiedIds: set<string>, turns: seq<Event>, k: nat)
    requires IsTurn(step, generation, copiedIds, turns, k)
    ensures step.OwnTurn()
  {
  }
}
