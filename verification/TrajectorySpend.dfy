/** Tokens: what a trajectory totals is what its run's responses logged, nothing lost and nothing twice. */
module TrajectorySpend {
  import opened Wrappers
  import opened Sorting
  import opened SimulationEvents
  import opened AtifSteps
  import opened TrajectoryBuilder
  import opened TrajectoryGenerations
  import opened TrajectoryLaws
  import CC = CopiedEvents

  datatype TokenKind = Prompt | Completion | Cached

  function MetricsCount(kind: TokenKind, m: Metrics): int {
    match kind
    case Prompt => m.promptTokens
    case Completion => m.completionTokens
    case Cached => m.cachedTokens
  }

  function UsageCount(kind: TokenKind, usage: TokenUsage): int {
    match kind
    case Prompt => usage.input
    case Completion => usage.output
    case Cached => usage.cacheRead
  }

  function TokensOf(kind: TokenKind): Metrics -> int {
    (m: Metrics) => MetricsCount(kind, m)
  }

  function Total(metrics: FinalMetrics, kind: TokenKind): Option<int> {
    match kind
    case Prompt => metrics.totalPromptTokens
    case Completion => metrics.totalCompletionTokens
    case Cached => metrics.totalCachedTokens
  }

  /** What a step adds to its trajectory's total: nothing when it is copied or not measured. */
  function StepCount(kind: TokenKind, step: Step): int {
    if step.metrics.Some? && !step.Copied() then MetricsCount(kind, step.metrics.value) else 0
  }

  function StepTokens(kind: TokenKind): Step -> int {
    (step: Step) => StepCount(kind, step)
  }

  /** What a response logged, counted only when it was not copied from the source run. */
  function Logged(kind: TokenKind, copied: set<string>, e: Event): int {
    if IsResponse(e) && e.eventId !in copied then UsageCount(kind, e.body.usage) else 0
  }

  function LoggedTokens(kind: TokenKind, copied: set<string>): Event -> int {
    (e: Event) => Logged(kind, copied, e)
  }

  /** The part of that which a step carries: a response whose counts sum to zero goes unmeasured. */
  function Measured(kind: TokenKind, copied: set<string>, e: Event): int {
    if ClosesCycle(e) then Logged(kind, copied, e) else 0
  }

  function MeasuredTokens(kind: TokenKind, copied: set<string>): Event -> int {
    (e: Event) => Measured(kind, copied, e)
  }

  /** Counts that are not negative sum to zero only when all of them are zero. */
  lemma {:induction false} NonNegativeIsMeasured(events: seq<Event>, kind: TokenKind, copied: set<string>)
    requires UsageNonNegative(events)
    ensures Sum(events, MeasuredTokens(kind, copied)) == Sum(events, LoggedTokens(kind, copied))
  {
    if events != [] {
      NonNegativeIsMeasured(events[1..], kind, copied);
      assert events[0] in events;
    }
  }

  lemma {:induction false} PlayedMetricsSum(steps: seq<Step>, kind: TokenKind)
    ensures Sum(PlayedMetrics(steps), TokensOf(kind)) == Sum(steps, StepTokens(kind))
    ensures PlayedMetrics(steps) == [] <==> forall i | 0 <= i < |steps| :: steps[i].metrics.None? || steps[i].Copied()
  {
    if steps != [] {
      var rest := steps[1..];
      PlayedMetricsSum(rest, kind);
      var one := if steps[0].metrics.Some? && !steps[0].Copied() then [steps[0].metrics.value] else [];
      SumConcat(one, PlayedMetrics(rest), TokensOf(kind));
      assert forall i | 0 <= i < |rest| :: rest[i] == steps[i + 1];
      assert forall i | 0 < i < |steps| :: steps[i] == rest[i - 1];
    }
  }

  lemma {:induction false} SumPointwise<T>(xs: seq<T>, f: T -> int, g: T -> int)
    requires forall x :: f(x) == g(x)
    ensures Sum(xs, f) == Sum(xs, g)
  {
    if xs != [] {
      SumPointwise(xs[1..], f, g);
    }
  }

  /** A total, read as zero when nothing was measured, is the sum over the steps; it is `None` only then. */
  lemma FinalTotal(steps: seq<Step>, kind: TokenKind)
    ensures Total(BuildFinalMetrics(steps), kind).GetOr(0) == Sum(steps, StepTokens(kind))
    ensures Total(BuildFinalMetrics(steps), kind).None?
            <==> forall i | 0 <= i < |steps| :: steps[i].metrics.None? || steps[i].Copied()
    ensures BuildFinalMetrics(steps).totalSteps == |steps|
  {
    PlayedMetricsSum(steps, kind);
    var played := PlayedMetrics(steps);
    match kind {
      case Prompt => SumPointwise(played, TokensOf(kind), PromptTokens);
      case Completion => SumPointwise(played, TokensOf(kind), CompletionTokens);
      case Cached => SumPointwise(played, TokensOf(kind), CachedTokens);
    }
  }

  // ----- One generation -----

  lemma SpendOfTurn(step: Step, generation: Generation, copiedIds: set<string>, turns: seq<Event>, k: nat,
                    kind: TokenKind)
    requires k < |turns| && IsResponse(turns[k]) && AllFailedCycles(FailuresSince(turns, k))
    requires TurnShape(step, generation, copiedIds, turns, k)
    ensures StepTokens(kind)(step) == MeasuredTokens(kind, copiedIds)(turns[k])
  {
    hide OpenResponses, FailuresSince, TurnTime, FailedCycleRecords;
    match kind {
      case Prompt =>
      case Completion =>
      case Cached =>
    }
  }

  lemma SpendOfBlock(block: seq<Step>, generation: Generation, copiedIds: set<string>, turns: seq<Event>, k: nat,
                     kind: TokenKind)
    requires k < |turns| && BlockShape(block, generation, copiedIds, turns, k)
    ensures Sum(block, StepTokens(kind)) == MeasuredTokens(kind, copiedIds)(turns[k])
  {
    hide TurnShape, OpenResponses, DuePrompt, FailuresSince, TurnTime, FailedCycleRecords;
    if block != [] {
      SumOfBlock(block, StepTokens(kind));
      if IsResponse(turns[k]) {
        SpendOfTurn(block[|block| - 1], generation, copiedIds, turns, k, kind);
      }
    }
  }

  function TurnWeight(turns: seq<Event>, amount: Event -> int): nat -> int {
    (k: nat) => if k < |turns| then amount(turns[k]) else 0
  }

  lemma {:induction false} SumToIsSum(turns: seq<Event>, amount: Event -> int, k: nat)
    requires k <= |turns|
    ensures SumTo(TurnWeight(turns, amount), k) == Sum(turns[..k], amount)
  {
    if k > 0 {
      SumToIsSum(turns, amount, k - 1);
      SumOfLast(turns[..k - 1], turns[k - 1], amount);
      assert turns[..k] == turns[..k - 1] + [turns[k - 1]];
    }
  }

  /** A generation's total is what its uncopied measured responses logged, whatever order they were sorted into. */
  lemma GenerationSpend(context: RunContext, generation: Generation, kind: TokenKind)
    ensures Total(BuildFinalMetrics(StepsOf(context, generation)), kind).GetOr(0)
            == Sum(generation.events, MeasuredTokens(kind, context.copied.copiedEventIds))
  {
    hide OpeningSteps, Adds, BlockShape, Numbered, BuildFinalMetrics, TurnTime, MeasuredTokens;
    var turns := Turns(generation);
    var order := ByTurnTime(InvokedAt(generation.events));
    var amount := MeasuredTokens(kind, context.copied.copiedEventIds);
    var opening, add := OpeningSteps(context, generation), Adds(context, generation, turns);
    OpeningStepsShape(context, generation);
    SumOfZeros(opening, StepTokens(kind));
    AddsAreShaped(context, generation, turns);
    SortPermutes(generation.events, order);
    forall k: nat, id: nat | k < |turns| ensures Sum(add(k, id), StepTokens(kind)) == TurnWeight(turns, amount)(k) {
      assert turns[k] in turns;
      SpendOfBlock(add(k, id), generation, context.copied.copiedEventIds, turns, k, kind);
    }
    AccumulatedSum(opening, add, StepTokens(kind), TurnWeight(turns, amount), |turns|);
    SumToIsSum(turns, amount, |turns|);
    assert turns[..|turns|] == turns;
    SortKeepsSum(generation.events, order, amount);
    FinalTotal(StepsOf(context, generation), kind);
  }

  // ----- All of an agent's trajectories -----

  function TrajectoriesTotal(trajectories: seq<Trajectory>, kind: TokenKind): int {
    if trajectories == [] then 0
    else
      var n := |trajectories| - 1;
      TrajectoriesTotal(trajectories[..n], kind) + Total(trajectories[n].finalMetrics, kind).GetOr(0)
  }

  lemma {:induction false} TiledSpend(context: RunContext, generations: seq<Generation>, events: seq<Event>,
        kind: TokenKind)
    requires Tiles(generations, events)
    ensures TrajectoriesTotal(TrajectoriesOf(context, generations), kind)
            == Sum(events, MeasuredTokens(kind, context.copied.copiedEventIds))
  {
    hide MeasuredTokens, BuildFinalMetrics, StepsOf;
    var amount := MeasuredTokens(kind, context.copied.copiedEventIds);
    if generations != [] {
      var n := |generations| - 1;
      var cut := |events| - |generations[n].events| - 1;
      var opening := events[cut];
      assert events == events[..cut] + [opening] + generations[n].events;
      TiledSpend(context, generations[..n], events[..cut], kind);
      GenerationSpend(context, generations[n], kind);
      SumOfLast(events[..cut], opening, amount);
      SumConcat(events[..cut] + [opening], generations[n].events, amount);
      OpeningsSpendNothing(opening, generations[n], kind, context.copied.copiedEventIds);
      var trajectories := TrajectoriesOf(context, generations);
      assert trajectories[..|trajectories| - 1] == TrajectoriesOf(context, generations[..n]);
    }
  }

  lemma OpeningsSpendNothing(opening: Event, generation: Generation, kind: TokenKind, copied: set<string>)
    requires Opened(opening, generation)
    ensures MeasuredTokens(kind, copied)(opening) == 0
  {
  }

  lemma {:induction false} FromFirstRegistrationMembers(events: seq<Event>)
    ensures forall e | e in FromFirstRegistration(events) :: e in events
  {
    if events != [] {
      FromFirstRegistrationMembers(events[1..]);
    }
  }

  /** What the agent's uncopied responses logged, from its first selected registration on. */
  function AgentSpend(events: seq<Event>, agentId: string, cutoffRound: Option<int>, copied: set<string>,
                      kind: TokenKind): int {
    Sum(FromFirstRegistration(Filter(events, Selects(agentId, cutoffRound))), LoggedTokens(kind, copied))
  }

  /**
    Spend is conserved: over all of an agent's trajectories, the totals are exactly what its
    uncopied measured responses logged, for every way its events split into generations and
    re-sort; and with counts that are not negative that is everything its uncopied responses logged.
   */
  lemma SpendIsConserved(context: RunContext, agentId: string, cutoffRound: Option<int>, kind: TokenKind)
    requires Generations(context, AgentEvents(context, agentId, cutoffRound)).Ok?
    ensures
      var copied := context.copied.copiedEventIds;
      var selected := AgentEvents(context, agentId, cutoffRound);
      var total := TrajectoriesTotal(TrajectoriesOf(context, Generations(context, selected).value), kind);
      && total == Sum(FromFirstRegistration(selected), MeasuredTokens(kind, copied))
      && (UsageNonNegative(context.events) ==>
            total == AgentSpend(context.events, agentId, cutoffRound, copied, kind))
  {
    hide TrajectoriesOf, Generations, LoggedTokens, MeasuredTokens, TrajectoriesTotal;
    var selected := AgentEvents(context, agentId, cutoffRound);
    SplitIsLossless(context, selected);
    FilterMembers(context.events, Selects(agentId, cutoffRound));
    FromFirstRegistrationMembers(selected);
    TiledSpend(context, Generations(context, selected).value, FromFirstRegistration(selected), kind);
    if UsageNonNegative(context.events) {
      NonNegativeIsMeasured(FromFirstRegistration(selected), kind, context.copied.copiedEventIds);
    }
  }

  // ----- Exactly when nothing is lost -----

  /** A response that logged tokens but whose counts sum to zero, as the test for logged usage sums them. */
  predicate Cancels(e: Event) {
    && IsResponse(e) && e.body.usage.Logged() == 0
    && (e.body.usage.input != 0 || e.body.usage.output != 0 || e.body.usage.cacheRead != 0)
  }

  predicate LosesTokens(e: Event, copied: set<string>) {
    Cancels(e) && e.eventId !in copied
  }

  /** A step carries all of what its response logged, of every kind, exactly when the counts do not cancel. */
  lemma ResponseIsWhole(e: Event, copied: set<string>)
    ensures (forall kind :: Measured(kind, copied, e) == Logged(kind, copied, e)) <==> !LosesTokens(e, copied)
  {
    if LosesTokens(e, copied) {
      var usage := e.body.usage;
      var kind := if usage.input != 0 then Prompt else if usage.output != 0 then Completion else Cached;
      assert Measured(kind, copied, e) != Logged(kind, copied, e);
    }
  }

  /** The agent's selected events from its first registration on: those its trajectories are built from. */
  function Stretch(events: seq<Event>, agentId: string, cutoffRound: Option<int>): seq<Event> {
    FromFirstRegistration(Filter(events, Selects(agentId, cutoffRound)))
  }

  lemma StretchNext(events: seq<Event>, e: Event, agentId: string, cutoffRound: Option<int>)
    ensures
      var before, after := Stretch(events, agentId, cutoffRound), Stretch(events + [e], agentId, cutoffRound);
      after == before || after == before + [e]
  {
    hide Selects, Filter, FromFirstRegistration;
    var keep := Selects(agentId, cutoffRound);
    FilterSnoc(events, e, keep);
    var selected, one := Filter(events, keep), if keep(e) then [e] else [];
    FromFirstRegistrationConcat(selected, one);
    SingleStretch(one);
    assert FromFirstRegistration(selected) + [] == FromFirstRegistration(selected);
  }

  lemma SingleStretch(one: seq<Event>)
    requires |one| <= 1
    ensures FromFirstRegistration(one) == one || FromFirstRegistration(one) == []
  {
  }

  /** Up to the first response that loses tokens the sums agree; just past it those of some kind do not. */
  lemma {:induction false} FirstLoss(events: seq<Event>, agentId: string, cutoffRound: Option<int>, copied: set<string>)
    returns (n: nat, kind: TokenKind)
    requires exists e | e in Stretch(events, agentId, cutoffRound) :: LosesTokens(e, copied)
    ensures n <= |events|
    ensures Sum(Stretch(events[..n], agentId, cutoffRound), MeasuredTokens(kind, copied))
            != Sum(Stretch(events[..n], agentId, cutoffRound), LoggedTokens(kind, copied))
  {
    hide Stretch, MeasuredTokens, LoggedTokens, LosesTokens;
    if events == [] {
      EmptyStretch(agentId, cutoffRound);
      assert false;
    } else {
      var m := |events| - 1;
      var before, last := events[..m], events[m];
      assert events == before + [last];
      if exists e | e in Stretch(before, agentId, cutoffRound) :: LosesTokens(e, copied) {
        n, kind := FirstLoss(before, agentId, cutoffRound, copied);
        assert before[..n] == events[..n];
      } else {
        StretchNext(before, last, agentId, cutoffRound);
        assert LosesTokens(last, copied);
        kind := LostKind(last, copied);
        NothingLost(Stretch(before, agentId, cutoffRound), copied, kind);
        SumOfLast(Stretch(before, agentId, cutoffRound), last, MeasuredTokens(kind, copied));
        SumOfLast(Stretch(before, agentId, cutoffRound), last, LoggedTokens(kind, copied));
        n := |events|;
        assert events[..n] == events;
      }
    }
  }

  lemma EmptyStretch(agentId: string, cutoffRound: Option<int>)
    ensures Stretch([], agentId, cutoffRound) == []
  {
  }

  lemma LostKind(e: Event, copied: set<string>) returns (kind: TokenKind)
    requires LosesTokens(e, copied)
    ensures MeasuredTokens(kind, copied)(e) != LoggedTokens(kind, copied)(e)
  {
    ResponseIsWhole(e, copied);
    kind :| Measured(kind, copied, e) != Logged(kind, copied, e);
  }

  lemma {:induction false} NothingLost(events: seq<Event>, copied: set<string>, kind: TokenKind)
    requires forall e | e in events :: !LosesTokens(e, copied)
    ensures Sum(events, MeasuredTokens(kind, copied)) == Sum(events, LoggedTokens(kind, copied))
  {
    if events != [] {
      NothingLost(events[1..], copied, kind);
      ResponseIsWhole(events[0], copied);
    }
  }

  /** The run as it stood when its log held `n` events. */
  function AsOf(context: RunContext, n: nat): RunContext
    requires n <= |context.events|
  {
    context.(events := context.events[..n])
  }

  /** What an agent's trajectories total together, `None` when they cannot be built. */
  function TotalOf(context: RunContext, agentId: string, cutoffRound: Option<int>, kind: TokenKind): Option<int> {
    match Generations(context, AgentEvents(context, agentId, cutoffRound))
    case Err(_) => None
    case Ok(generations) => Some(TrajectoriesTotal(TrajectoriesOf(context, generations), kind))
  }

  lemma TotalIsMeasured(context: RunContext, agentId: string, cutoffRound: Option<int>, kind: TokenKind)
    requires Generations(context, AgentEvents(context, agentId, cutoffRound)).Ok?
    ensures TotalOf(context, agentId, cutoffRound, kind)
            == Some(Sum(Stretch(context.events, agentId, cutoffRound),
                  MeasuredTokens(kind, context.copied.copiedEventIds)))
  {
    hide TrajectoriesTotal, TrajectoriesOf, Generations, MeasuredTokens;
    SpendIsConserved(context, agentId, cutoffRound, kind);
  }

  /** An agent's trajectories can be built at every point of a log they can be built from. */
  lemma BuiltAtEveryPoint(context: RunContext, n: nat, agentId: string, cutoffRound: Option<int>)
    requires n <= |context.events| && Generations(context, AgentEvents(context, agentId, cutoffRound)).Ok?
    ensures Generations(AsOf(context, n), AgentEvents(AsOf(context, n), agentId, cutoffRound)).Ok?
  {
    hide Generations, EarlySwap, Filter, Selects;
    var keep := Selects(agentId, cutoffRound);
    var all, some := Filter(context.events, keep), Filter(context.events[..n], keep);
    assert context.events == context.events[..n] + context.events[n..];
    FilterConcat(context.events[..n], context.events[n..], keep);
    SplitFailsOnEarlySwap(context, all);
    SplitFailsOnEarlySwap(AsOf(context, n), some);
    EarlySwapStays(some, Filter(context.events[n..], keep));
  }

  lemma EarlySwapStays(events: seq<Event>, more: seq<Event>)
    ensures EarlySwap(events) ==> EarlySwap(events + more)
  {
    hide HasRegistration;
    if k: nat :| EarlySwapAt(events, k) {
      assert (events + more)[..k] == events[..k];
      assert EarlySwapAt(events + more, k);
    }
  }

  lemma {:induction false} StretchGrows(events: seq<Event>, n: nat, agentId: string, cutoffRound: Option<int>)
    requires n <= |events|
    ensures Stretch(events[..n], agentId, cutoffRound) <= Stretch(events, agentId, cutoffRound)
    decreases |events|
  {
    hide Stretch;
    if n == |events| {
      assert events[..n] == events;
    } else {
      var m := |events| - 1;
      assert events == events[..m] + [events[m]] && events[..m][..n] == events[..n];
      StretchGrows(events[..m], n, agentId, cutoffRound);
      StretchNext(events[..m], events[m], agentId, cutoffRound);
    }
  }

  /** At every point of the log, the totals of every kind are what the agent's uncopied responses logged. */
  ghost predicate AlwaysWhole(context: RunContext, agentId: string, cutoffRound: Option<int>) {
    forall n: nat, kind | n <= |context.events| ::
      TotalOf(AsOf(context, n), agentId, cutoffRound, kind)
      == Some(AgentSpend(context.events[..n], agentId, cutoffRound, context.copied.copiedEventIds, kind))
  }

  /**
    The exact condition. An agent's totals are right at every point of its run's log if and only if
    no response of its own that its trajectories are built from logged counts that cancel.
   */
  lemma SpendIsWholeExactly(context: RunContext, agentId: string, cutoffRound: Option<int>)
    requires Generations(context, AgentEvents(context, agentId, cutoffRound)).Ok?
    ensures AlwaysWhole(context, agentId, cutoffRound)
            <==> forall e | e in Stretch(context.events, agentId, cutoffRound) ::
                   !LosesTokens(e, context.copied.copiedEventIds)
  {
    hide Generations, Stretch, TotalOf, MeasuredTokens, LoggedTokens, LosesTokens;
    var copied := context.copied.copiedEventIds;
    forall n: nat, kind | n <= |context.events|
      ensures TotalOf(AsOf(context, n), agentId, cutoffRound, kind)
              == Some(Sum(Stretch(context.events[..n], agentId, cutoffRound), MeasuredTokens(kind, copied)))
      ensures AgentSpend(context.events[..n], agentId, cutoffRound, copied, kind)
              == Sum(Stretch(context.events[..n], agentId, cutoffRound), LoggedTokens(kind, copied))
    {
      BuiltAtEveryPoint(context, n, agentId, cutoffRound);
      TotalIsMeasured(AsOf(context, n), agentId, cutoffRound, kind);
      SpendOfStretch(context.events[..n], agentId, cutoffRound, copied, kind);
    }
    hide AgentSpend;
    if exists e | e in Stretch(context.events, agentId, cutoffRound) :: LosesTokens(e, copied) {
      var n, kind := FirstLoss(context.events, agentId, cutoffRound, copied);
    } else {
      forall n: nat, kind | n <= |context.events|
        ensures Sum(Stretch(context.events[..n], agentId, cutoffRound), MeasuredTokens(kind, copied))
                == Sum(Stretch(context.events[..n], agentId, cutoffRound), LoggedTokens(kind, copied))
      {
        StretchGrows(context.events, n, agentId, cutoffRound);
        NothingLost(Stretch(context.events[..n], agentId, cutoffRound), copied, kind);
      }
    }
  }

  lemma SpendOfStretch(events: seq<Event>, agentId: string, cutoffRound: Option<int>, copied: set<string>,
        kind: TokenKind)
    ensures AgentSpend(events, agentId, cutoffRound, copied, kind)
            == Sum(Stretch(events, agentId, cutoffRound), LoggedTokens(kind, copied))
  {
  }

  /** What a response logged and no step carries. */
  function Lost(kind: TokenKind, copied: set<string>, e: Event): int {
    if LosesTokens(e, copied) then UsageCount(kind, e.body.usage) else 0
  }

  function LostTokens(kind: TokenKind, copied: set<string>): Event -> int {
    (e: Event) => Lost(kind, copied, e)
  }

  lemma {:induction false} MeasuredOrLost(events: seq<Event>, kind: TokenKind, copied: set<string>)
    ensures Sum(events, LoggedTokens(kind, copied))
            == Sum(events, MeasuredTokens(kind, copied)) + Sum(events, LostTokens(kind, copied))
  {
    if events != [] {
      MeasuredOrLost(events[1..], kind, copied);
    }
  }

  /** The shortfall of a total is the sum of the counts of the responses that cancel. */
  lemma ShortfallIsLost(context: RunContext, agentId: string, cutoffRound: Option<int>, kind: TokenKind)
    requires Generations(context, AgentEvents(context, agentId, cutoffRound)).Ok?
    ensures
      var copied := context.copied.copiedEventIds;
      TotalOf(context, agentId, cutoffRound, kind)
      == Some(AgentSpend(context.events, agentId, cutoffRound, copied, kind)
              - Sum(Stretch(context.events, agentId, cutoffRound), LostTokens(kind, copied)))
  {
    hide Generations, Stretch, TotalOf, AgentSpend, MeasuredTokens, LoggedTokens, LostTokens;
    TotalIsMeasured(context, agentId, cutoffRound, kind);
    SpendOfStretch(context.events, agentId, cutoffRound, context.copied.copiedEventIds, kind);
    MeasuredOrLost(Stretch(context.events, agentId, cutoffRound), kind, context.copied.copiedEventIds);
  }

  function CancellingUsage(kind: TokenKind): TokenUsage {
    match kind
    case Prompt => TokenUsage(5, -5, 0, 0, 0)
    case Completion => TokenUsage(-5, 5, 0, 0, 0)
    case Cached => TokenUsage(0, -5, 0, 5, 0)
  }

  const SEATED: Event := Event("e1", 0, 0, Some("a"), AgentRegistered("m", "p", "", RunnerPrompts("", "")))

  function CancellingResponse(kind: TokenKind): Event {
    Event("e2", 1, 1, Some("a"), LLMResponseReceived(None, None, [], "end_turn", CancellingUsage(kind)))
  }

  /** An agent that registers and answers once. */
  function CancellingRun(kind: TokenKind): RunContext {
    RunContext([SEATED, CancellingResponse(kind)], CopiedContext({}, None, []),
               (swap, seat) => [], (model, provider, at, usage) => None)
  }

  lemma CancellingStretch(kind: TokenKind)
    ensures AgentEvents(CancellingRun(kind), "a", None) == CancellingRun(kind).events
    ensures Stretch(CancellingRun(kind).events, "a", None) == CancellingRun(kind).events
  {
    var events := CancellingRun(kind).events;
    assert events[1..] == [events[1]] && [events[1]][1..] == [];
    assert Filter([events[1]], Selects("a", None)) == [events[1]];
  }

  lemma CancellingUsageCancels(kind: TokenKind)
    ensures UsageCount(kind, CancellingUsage(kind)) == 5 && CancellingUsage(kind).Logged() == 0
  {
    match kind {
      case Prompt =>
      case Completion =>
      case Cached =>
    }
  }

  lemma CancellingTokens(kind: TokenKind)
    ensures Measured(kind, {}, CancellingResponse(kind)) == 0 && Logged(kind, {}, CancellingResponse(kind)) == 5
    ensures Measured(kind, {}, SEATED) == 0 && Logged(kind, {}, SEATED) == 0
  {
    CancellingUsageCancels(kind);
    hide CancellingUsage, UsageCount;
  }

  lemma CancellingSums(kind: TokenKind)
    ensures Sum(CancellingRun(kind).events, MeasuredTokens(kind, {})) == 0
    ensures Sum(CancellingRun(kind).events, LoggedTokens(kind, {})) == 5
  {
    hide Sum, Measured, Logged, CancellingResponse;
    CancellingTokens(kind);
    SumOfTwo(SEATED, CancellingResponse(kind), MeasuredTokens(kind, {}));
    SumOfTwo(SEATED, CancellingResponse(kind), LoggedTokens(kind, {}));
  }

  lemma CancellingRunIsBuilt(kind: TokenKind)
    ensures Generations(CancellingRun(kind), CancellingRun(kind).events).Ok?
  {
    hide Generations, EarlySwap;
    NoSwapIsEarly(CancellingRun(kind).events);
    SplitFailsOnEarlySwap(CancellingRun(kind), CancellingRun(kind).events);
  }

  /** For each kind, a run whose trajectories total none of what its one response logged. */
  lemma CancellingCountsAreLost(kind: TokenKind)
    ensures AgentSpend(CancellingRun(kind).events, "a", None, {}, kind) == 5
    ensures TotalOf(CancellingRun(kind), "a", None, kind) == Some(0)
  {
    hide Generations, TotalOf, AgentEvents, AgentSpend, Stretch, Sum, MeasuredTokens, LoggedTokens;
    CancellingStretch(kind);
    CancellingSums(kind);
    CancellingRunIsBuilt(kind);
    TotalIsMeasured(CancellingRun(kind), "a", None, kind);
    SpendOfStretch(CancellingRun(kind).events, "a", None, {}, kind);
  }

  lemma NoSwapIsEarly(events: seq<Event>)
    requires forall i | 0 <= i < |events| :: !IsSwap(events[i])
    ensures !EarlySwap(events)
  {
  }

  lemma SumOfTwo<T>(x: T, y: T, amount: T -> int)
    ensures Sum([x, y], amount) == amount(x) + amount(y)
  {
    assert [x, y] == [x] + [y];
    SumConcat([x], [y], amount);
    assert [x][1..] == [] && [y][1..] == [];
  }

  // ----- A source run and its fork -----

  lemma {:induction false} CopiedSpendNothing(events: seq<Event>, kind: TokenKind, copied: set<string>)
    requires forall i | 0 <= i < |events| :: events[i].eventId in copied
    ensures Sum(events, LoggedTokens(kind, copied)) == 0
  {
    SumOfZeros(events, LoggedTokens(kind, copied));
  }

  lemma {:induction false} UncopiedSpendAll(events: seq<Event>, kind: TokenKind, copied: set<string>,
        earlier: set<string>)
    requires forall i | 0 <= i < |events| :: events[i].eventId !in copied && events[i].eventId !in earlier
    ensures Sum(events, LoggedTokens(kind, copied)) == Sum(events, LoggedTokens(kind, earlier))
  {
    if events != [] {
      UncopiedSpendAll(events[1..], kind, copied, earlier);
    }
  }

  /**
    A source and its fork account for every token once. The fork's log is a prefix of the source's,
    all of it copied, and then events of its own; the two runs' spend is the spend of the source's
    whole log followed by the fork's own events. The source may be a fork itself, with events it
    copied from an earlier run.
   */
  lemma ForkSpendsNothingTwice(source: seq<Event>, boundary: nat, added: seq<Event>, agentId: string,
                               cutoffRound: Option<int>, kind: TokenKind, earlier: set<string>)
    requires boundary <= |source|
    requires UniqueIds(source[..boundary] + added)
    requires forall e | e in added :: e.eventId !in earlier
    requires HasRegistration(Filter(source[..boundary], Selects(agentId, cutoffRound)))
    ensures
      var copied := CC.Ids(source[..boundary], EventId);
      AgentSpend(source, agentId, cutoffRound, earlier, kind)
      + AgentSpend(source[..boundary] + added, agentId, cutoffRound, copied, kind)
      == AgentSpend(source + added, agentId, cutoffRound, earlier, kind)
  {
    hide LoggedTokens, FromFirstRegistration, Selects, Filter, Sum;
    var keep := Selects(agentId, cutoffRound);
    var prefix, suffix := source[..boundary], source[boundary..];
    var copied := CC.Ids(prefix, EventId);
    var all, none := LoggedTokens(kind, copied), LoggedTokens(kind, earlier);
    assert source == prefix + suffix;
    FilterConcat(prefix, suffix, keep);
    FilterConcat(prefix, added, keep);
    FilterConcat(source, added, keep);
    var own := Filter(added, keep);
    FromFirstRegistrationConcat(Filter(prefix, keep), Filter(suffix, keep));
    FromFirstRegistrationConcat(Filter(prefix, keep), own);
    FromFirstRegistrationConcat(Filter(source, keep), own);
    var seen := FromFirstRegistration(Filter(prefix, keep));
    SumConcat(seen, own, all);
    SumConcat(FromFirstRegistration(Filter(source, keep)), own, none);
    FilterMembers(prefix, keep);
    FilterMembers(added, keep);
    FromFirstRegistrationMembers(Filter(prefix, keep));
    forall i | 0 <= i < |seen| ensures seen[i].eventId in copied {
      assert seen[i] in prefix;
      assert EventId(seen[i]) in copied;
    }
    CopiedSpendNothing(seen, kind, copied);
    forall i | 0 <= i < |own| ensures own[i].eventId !in copied && own[i].eventId !in earlier {
      AddedIsNotCopied(prefix, added, own[i]);
    }
    UncopiedSpendAll(own, kind, copied, earlier);
  }

  lemma AddedIsNotCopied(prefix: seq<Event>, added: seq<Event>, e: Event)
    requires UniqueIds(prefix + added) && e in added
    ensures e.eventId !in CC.Ids(prefix, EventId)
  {
    var log := prefix + added;
    var j :| 0 <= j < |added| && added[j] == e;
    assert log[|prefix| + j] == e;
    forall x | x in prefix ensures EventId(x) != e.eventId {
      var i :| 0 <= i < |prefix| && prefix[i] == x;
      assert log[i] == x;
    }
  }
}
