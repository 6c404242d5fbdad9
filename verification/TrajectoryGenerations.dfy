/** What splitting an agent's events into generations keeps. */
module TrajectoryGenerations {
  import opened Wrappers
  import opened Sorting
  import opened SimulationEvents
  import opened AtifSteps
  import opened TrajectoryBuilder
  import CC = CopiedEvents

  predicate IsSwap(e: Event) {
    e.body.AgentSwappedMidRun?
  }

  predicate HasRegistration(events: seq<Event>) {
    exists e | e in events :: IsRegistration(e)
  }

  function FromFirstRegistration(events: seq<Event>): seq<Event> {
    if events == [] then []
    else if IsRegistration(events[0]) then events
    else FromFirstRegistration(events[1..])
  }

  /** What is left out is everything before the first registration. */
  lemma {:induction false} FirstRegistrationAt(events: seq<Event>) returns (n: nat)
    ensures n <= |events| && FromFirstRegistration(events) == events[n..]
    ensures forall i | 0 <= i < n :: !events[i].body.AgentRegistered?
    ensures n < |events| ==> events[n].body.AgentRegistered?
  {
    n := 0;
    if events != [] && !IsRegistration(events[0]) {
      var m := FirstRegistrationAt(events[1..]);
      n := m + 1;
      assert forall i | 1 <= i < n :: events[i] == events[1..][i - 1];
    }
  }

  lemma {:induction false} FromFirstRegistrationConcat(xs: seq<Event>, ys: seq<Event>)
    ensures HasRegistration(xs) ==> FromFirstRegistration(xs + ys) == FromFirstRegistration(xs) + ys
    ensures !HasRegistration(xs) ==> FromFirstRegistration(xs + ys) == FromFirstRegistration(ys)
    ensures !HasRegistration(xs) ==> FromFirstRegistration(xs) == []
    ensures HasRegistration(xs + ys) <==> HasRegistration(xs) || HasRegistration(ys)
  {
    if xs == [] {
      assert xs + ys == ys;
    } else {
      assert xs == [xs[0]] + xs[1..];
      assert (xs + ys)[0] == xs[0] && (xs + ys)[1..] == xs[1..] + ys;
      FromFirstRegistrationConcat(xs[1..], ys);
      assert forall e :: e in xs + ys <==> e in xs || e in ys;
    }
  }

  /** `opening` is the event that started `generation`. */
  ghost predicate Opened(opening: Event, generation: Generation) {
    opening.eventId == generation.openingEventId && (IsRegistration(opening) || IsSwap(opening))
  }

  /** `events` are, in order, each generation's opening event followed by its events. */
  ghost predicate Tiles(generations: seq<Generation>, events: seq<Event>) {
    if generations == [] then events == []
    else
      var n := |generations| - 1;
      var cut := |events| - |generations[n].events| - 1;
      && cut >= 0
      && Opened(events[cut], generations[n])
      && events[cut + 1..] == generations[n].events
      && Tiles(generations[..n], events[..cut])
  }

  lemma TilesAddGeneration(generations: seq<Generation>, events: seq<Event>, generation: Generation, opening: Event)
    requires Tiles(generations, events) && Opened(opening, generation) && generation.events == []
    ensures Tiles(generations + [generation], events + [opening])
  {
    assert (generations + [generation])[..|generations|] == generations;
    assert (events + [opening])[..|events|] == events;
  }

  lemma TilesAddEvent(generations: seq<Generation>, events: seq<Event>, e: Event)
    requires Tiles(generations, events) && generations != []
    ensures Tiles(AddEvent(generations, e), events + [e])
  {
    var n := |generations| - 1;
    var cut := |events| - |generations[n].events| - 1;
    var added := AddEvent(generations, e);
    assert added[..n] == generations[..n];
    assert (events + [e])[..cut] == events[..cut];
    assert (events + [e])[cut + 1..] == events[cut + 1..] + [e];
  }

  lemma NoneTiled()
    ensures Tiles([], [])
  {
  }

  lemma GenerationsNext(context: RunContext, before: seq<Event>, e: Event)
    ensures
      var split := Generations(context, before);
      Generations(context, before + [e]) == if split.Err? then split else Extend(context, split.value, e)
  {
    assert (before + [e])[..|before|] == before;
  }

  /** One more event is one more of what the generations tile, unless nothing was registered yet. */
  lemma ExtendTiles(context: RunContext, generations: seq<Generation>, tiled: seq<Event>, e: Event)
    requires Tiles(generations, tiled) && Extend(context, generations, e).Ok?
    requires generations == [] ==> tiled == []
    ensures
      var extended := Extend(context, generations, e).value;
      if generations == [] && !IsRegistration(e) then extended == []
      else extended != [] && Tiles(extended, tiled + [e])
  {
    hide Tiles;
    if IsRegistration(e) {
      match GenerationOpenedBy(context.copied, e, generations)
      case Some(generation) => TilesAddGeneration(generations, tiled, generation, e);
      case None => TilesAddEvent(generations, tiled, e);
    } else if IsSwap(e) {
      TilesAddGeneration(generations, tiled, GenerationOfSwap(context, e, generations[|generations| - 1]), e);
    } else if generations != [] {
      TilesAddEvent(generations, tiled, e);
    }
  }

  lemma FirstRegistrationOnly(e: Event)
    ensures HasRegistration([e]) <==> IsRegistration(e)
    ensures FromFirstRegistration([e]) == if IsRegistration(e) then [e] else []
  {
    assert [e][0] in [e];
  }

  /** The split loses, repeats and reorders nothing from the first registration on. */
  lemma {:induction false} SplitIsLossless(context: RunContext, events: seq<Event>)
    requires Generations(context, events).Ok?
    ensures Tiles(Generations(context, events).value, FromFirstRegistration(events))
    ensures Generations(context, events).value == [] <==> !HasRegistration(events)
  {
    hide Tiles, Extend;
    if events == [] {
      NoneTiled();
    } else {
      var n := |events| - 1;
      var before, e := events[..n], events[n];
      assert events == before + [e];
      GenerationsNext(context, before, e);
      hide Generations;
      SplitIsLossless(context, before);
      FromFirstRegistrationConcat(before, [e]);
      FirstRegistrationOnly(e);
      hide FromFirstRegistration, HasRegistration;
      var generations := Generations(context, before).value;
      if generations == [] {
        NoneTiled();
        ExtendTiles(context, generations, [], e);
        assert [] + [e] == [e];
      } else {
        ExtendTiles(context, generations, FromFirstRegistration(before), e);
      }
    }
  }

  /** Splitting fails exactly when the agent was swapped before it ever registered. */
  lemma {:induction false} SplitFailsOnEarlySwap(context: RunContext, events: seq<Event>)
    ensures Generations(context, events).Err? <==> EarlySwap(events)
  {
    hide Tiles, GenerationOfSwap, GenerationOpenedBy, AddEvent, HasRegistration, EarlySwap;
    if events == [] {
      NoEarlySwap();
    } else {
      var n := |events| - 1;
      var before := events[..n];
      SplitFailsOnEarlySwap(context, before);
      assert events == before + [events[n]];
      EarlySwapBefore(before, events[n]);
      if Generations(context, before).Ok? {
        SplitIsLossless(context, before);
      }
    }
  }

  lemma NoEarlySwap()
    ensures !EarlySwap([])
  {
  }

  /** A swap before any registration. */
  ghost predicate EarlySwap(events: seq<Event>) {
    exists k: nat :: EarlySwapAt(events, k)
  }

  ghost predicate EarlySwapAt(events: seq<Event>, k: nat) {
    k < |events| && IsSwap(events[k]) && !HasRegistration(events[..k])
  }

  lemma EarlySwapBefore(before: seq<Event>, e: Event)
    ensures EarlySwap(before + [e]) <==> EarlySwap(before) || (IsSwap(e) && !HasRegistration(before))
  {
    hide HasRegistration;
    var events, n := before + [e], |before|;
    forall k: nat | k < n ensures EarlySwapAt(events, k) <==> EarlySwapAt(before, k) {
      assert events[..k] == before[..k];
    }
    assert events[..n] == before;
    assert EarlySwapAt(events, n) <==> IsSwap(e) && !HasRegistration(before);
  }

  // ----- The model that plays -----

  /** The model the agent's latest registration or swap named. */
  function ModelNamed(events: seq<Event>): Option<string> {
    if events == [] then None
    else
      match events[|events| - 1].body
      case AgentRegistered(model, _, _, _) => Some(model)
      case AgentSwappedMidRun(model, _, _) => Some(model)
      case _ => ModelNamed(events[..|events| - 1])
  }

  /** The last generation always plays under the model named last, resumed or not. */
  lemma {:induction false} CurrentModel(context: RunContext, events: seq<Event>)
    requires Generations(context, events).Ok?
    ensures
      var generations := Generations(context, events).value;
      ModelNamed(events) == if generations == [] then None else Some(generations[|generations| - 1].model)
  {
    if events != [] {
      CurrentModel(context, events[..|events| - 1]);
    }
  }

  /**
    A swap starts a generation in the same seat: the registration stays the one the seat had, with
    the swap's prompt in place of its own if it brought one, and the history is rebuilt for that.
   */
  lemma SwapStarts(context: RunContext, events: seq<Event>, k: nat)
    requires k < |events| && IsSwap(events[k]) && Generations(context, events[..k + 1]).Ok?
    ensures Generations(context, events[..k]).Ok? && Generations(context, events[..k]).value != []
    ensures
      var before, after := Generations(context, events[..k]).value, Generations(context, events[..k + 1]).value;
      && |after| == |before| + 1 && after[..|before|] == before
      && var latest, started, swap := before[|before| - 1], after[|before|], events[k].body;
         && started.openingEventId == events[k].eventId && started.events == []
         && started.model == swap.newModel && started.provider == swap.newProvider
         && started.registration == latest.registration.(
              body := latest.registration.body.(
                systemPrompt := swap.newSystemPrompt.GetOr(latest.registration.body.systemPrompt)))
         && started.seed == context.swapSeed(events[k], started.registration)
  {
    assert events[..k + 1][..k] == events[..k];
  }

  // ----- The seat seeded at the boundary -----

  ghost predicate AllRegistrationsCopied(events: seq<Event>, copied: set<string>) {
    forall e | e in events && IsRegistration(e) :: e.eventId in copied
  }

  lemma RegistrationsCopiedStep(before: seq<Event>, e: Event, copied: set<string>)
    requires CC.CopiedFirst(before + [e], EventId, copied)
    ensures AllRegistrationsCopied(before + [e], copied)
            <==> AllRegistrationsCopied(before, copied) && (IsRegistration(e) ==> e.eventId in copied)
    ensures e.eventId in copied ==> AllRegistrationsCopied(before, copied)
    ensures CC.CopiedFirst(before, EventId, copied)
  {
    var events := before + [e];
    forall i, j | 0 <= i < j < |before| ensures CC.CopiedBefore(EventId, copied)(before[i], before[j]) {
      assert CC.CopiedBefore(EventId, copied)(events[i], events[j]);
    }
    if e.eventId in copied {
      forall x | x in before ensures x.eventId in copied {
        var i :| 0 <= i < |before| && before[i] == x;
        assert events[i] == x && events[|before|] == e;
        assert CC.CopiedBefore(EventId, copied)(x, e);
        var idOf: Event -> string := EventId;
        assert idOf(e) == e.eventId && idOf(x) == x.eventId;
      }
    }
  }

  lemma NoRegistrationsCopied(events: seq<Event>, copied: set<string>)
    requires !HasRegistration(events)
    ensures AllRegistrationsCopied(events, copied)
  {
  }

  /** The last generation's registration is the event itself or, but for a swap's prompt, the one before. */
  lemma ExtendRegistration(context: RunContext, generations: seq<Generation>, e: Event)
    requires Extend(context, generations, e).Ok? && Extend(context, generations, e).value != []
    ensures
      var extended := Extend(context, generations, e).value;
      var registration := extended[|extended| - 1].registration;
      || (IsRegistration(e) && registration == e)
      || (&& generations != []
          && var latest := generations[|generations| - 1];
             && registration.eventId == latest.registration.eventId
             && registration.agentId == latest.registration.agentId
             && (IsRegistration(e) ==> !EntersSeededSeat(context.copied, e, latest)))
  {
  }

  /** A generation keeps the registration it was opened under, through resumes and swaps. */
  lemma {:induction false} CurrentRegistration(context: RunContext, events: seq<Event>, agentId: string)
    requires Generations(context, events).Ok? && Generations(context, events).value != []
    requires context.copied.seededAgentId == Some(agentId)
    requires forall e | e in events :: e.agentId == Some(agentId)
    requires CC.CopiedFirst(events, EventId, context.copied.copiedEventIds)
    ensures
      var generations := Generations(context, events).value;
      var registration := generations[|generations| - 1].registration;
      && registration.agentId == Some(agentId)
      && (registration.eventId in context.copied.copiedEventIds
          <==> AllRegistrationsCopied(events, context.copied.copiedEventIds))
  {
    hide Tiles, AllRegistrationsCopied, CC.CopiedFirst, Extend;
    var copied := context.copied.copiedEventIds;
    var n := |events| - 1;
    var before, e := events[..n], events[n];
    assert events == before + [e];
    GenerationsNext(context, before, e);
    hide Generations;
    var generations := Generations(context, before).value;
    ExtendRegistration(context, generations, e);
    RegistrationsCopiedStep(before, e, copied);
    if generations == [] {
      SplitIsLossless(context, before);
      NoRegistrationsCopied(before, copied);
    } else {
      CurrentRegistration(context, before, agentId);
    }
  }

  /** The registration at `k` is the seat's first that was not copied, and an earlier one was. */
  ghost predicate TakesOver(events: seq<Event>, k: nat, copied: set<string>)
    requires k < |events|
  {
    && events[k].eventId !in copied
    && (exists i | 0 <= i < k :: IsRegistration(events[i]) && events[i].eventId in copied)
    && (forall i | 0 <= i < k && IsRegistration(events[i]) :: events[i].eventId in copied)
  }

  /** A registration of the seeded seat enters it exactly when it takes over from a copied one. */
  lemma SeededSeatEntry(context: RunContext, events: seq<Event>, k: nat, agentId: string)
    requires k < |events| && IsRegistration(events[k])
    requires context.copied.seededAgentId == Some(agentId)
    requires forall e | e in events :: e.agentId == Some(agentId)
    requires CC.CopiedFirst(events, EventId, context.copied.copiedEventIds)
    requires Generations(context, events[..k]).Ok? && Generations(context, events[..k]).value != []
    ensures
      var copied := context.copied.copiedEventIds;
      var generations := Generations(context, events[..k]).value;
      EntersSeededSeat(context.copied, events[k], generations[|generations| - 1]) <==> TakesOver(events, k, copied)
  {
    hide CC.CopiedFirst, Generations, Tiles, AllRegistrationsCopied, HasRegistration;
    var copied := context.copied.copiedEventIds;
    var before := events[..k];
    CopiedFirstPrefix(events, k, copied);
    CurrentRegistration(context, before, agentId);
    SplitIsLossless(context, before);
    RegistrationsIn(events, k, copied);
  }

  /** A generation begun by `registration`, nothing played yet. */
  ghost predicate Begun(generation: Generation, registration: Event, seed: seq<ModelMessage>) {
    && registration.body.AgentRegistered?
    && generation.registration == registration && generation.openingEventId == registration.eventId
    && generation.model == registration.body.model && generation.provider == registration.body.provider
    && generation.seed == seed && generation.events == []
  }

  /** Only the generation that is playing changes, and it only gains events. */
  ghost predicate Grown(before: seq<Generation>, after: seq<Generation>) {
    && |before| <= |after|
    && (forall i | 0 <= i < |before| - 1 :: after[i] == before[i])
    && (before != [] ==>
          var n := |before| - 1;
          && before[n].events <= after[n].events
          && after[n] == before[n].(events := after[n].events))
  }

  /**
    What any registration of an agent does to its generations. It belongs to the generation that is
    playing, and is added to its events, exactly when it names the model that plays and does not take
    over the seeded seat from a copied registration. Otherwise, as the agent's first one always does,
    it begins a generation of its own with its own model and provider, from the boundary's history
    exactly when it takes over and from none otherwise.
   */
  lemma RegistrationOpens(context: RunContext, events: seq<Event>, k: nat, agentId: string)
    requires k < |events| && IsRegistration(events[k])
    requires forall e | e in events :: e.agentId == Some(agentId)
    requires context.copied.seededAgentId == Some(agentId) ==>
               CC.CopiedFirst(events, EventId, context.copied.copiedEventIds)
    requires Generations(context, events[..k]).Ok?
    ensures Generations(context, events[..k + 1]).Ok?
    ensures
      var before, after := Generations(context, events[..k]).value, Generations(context, events[..k + 1]).value;
      var takesOver :=
        context.copied.seededAgentId == Some(agentId) && TakesOver(events, k, context.copied.copiedEventIds);
      if !takesOver && ModelNamed(events[..k]) == Some(events[k].body.model) then
        && |after| == |before| > 0 && Grown(before, after)
        && after[|before| - 1].events == before[|before| - 1].events + [events[k]]
      else
        && |after| == |before| + 1 && after[..|before|] == before
        && Begun(after[|before|], events[k], if takesOver then context.copied.boundarySeed else [])
  {
    hide CC.CopiedFirst, Generations, TakesOver, ModelNamed, EntersSeededSeat;
    var before := Generations(context, events[..k]).value;
    assert events[..k + 1] == events[..k] + [events[k]];
    GenerationsNext(context, events[..k], events[k]);
    CurrentModel(context, events[..k]);
    if before == [] {
      SplitIsLossless(context, events[..k]);
      NoneToTakeOver(events, k, context.copied.copiedEventIds);
    } else if context.copied.seededAgentId == Some(agentId) {
      SeededSeatEntry(context, events, k, agentId);
    } else {
      OtherSeatIsNotEntered(context.copied, events[k], before[|before| - 1]);
    }
  }

  lemma NoneToTakeOver(events: seq<Event>, k: nat, copied: set<string>)
    requires k < |events| && !HasRegistration(events[..k])
    ensures !TakesOver(events, k, copied)
  {
    assert forall i | 0 <= i < k :: events[..k][i] == events[i];
  }

  lemma OtherSeatIsNotEntered(copied: CopiedContext, registration: Registration, current: Generation)
    requires registration.agentId != copied.seededAgentId
    ensures !EntersSeededSeat(copied, registration, current)
  {
  }

  /** As an agent's events go on, its generations stay as they are but for the one that is playing. */
  lemma {:induction false} GenerationsOnlyGrow(context: RunContext, events: seq<Event>, n: nat)
    requires n <= |events| && Generations(context, events).Ok?
    ensures Generations(context, events[..n]).Ok?
    ensures Grown(Generations(context, events[..n]).value, Generations(context, events).value)
    decreases |events|
  {
    if n == |events| {
      assert events[..n] == events;
    } else {
      var m := |events| - 1;
      assert events[..m][..n] == events[..n];
      GenerationsOnlyGrow(context, events[..m], n);
      ExtendGrows(context, Generations(context, events[..m]).value, events[m]);
      hide Grown;
      GrownTwice(Generations(context, events[..n]).value, Generations(context, events[..m]).value,
                 Generations(context, events).value);
    }
  }

  lemma ExtendGrows(context: RunContext, generations: seq<Generation>, e: Event)
    requires Extend(context, generations, e).Ok?
    ensures Grown(generations, Extend(context, generations, e).value)
  {
  }

  lemma GrownTwice(a: seq<Generation>, b: seq<Generation>, c: seq<Generation>)
    requires Grown(a, b) && Grown(b, c)
    ensures Grown(a, c)
  {
  }

  lemma CopiedFirstPrefix(events: seq<Event>, k: nat, copied: set<string>)
    requires k <= |events| && CC.CopiedFirst(events, EventId, copied)
    ensures CC.CopiedFirst(events[..k], EventId, copied)
  {
    var before := events[..k];
    forall i, j | 0 <= i < j < k ensures CC.CopiedBefore(EventId, copied)(before[i], before[j]) {
      assert CC.CopiedBefore(EventId, copied)(events[i], events[j]);
    }
  }

  lemma RegistrationsIn(events: seq<Event>, k: nat, copied: set<string>)
    requires k <= |events|
    ensures HasRegistration(events[..k]) <==> exists i | 0 <= i < k :: IsRegistration(events[i])
    ensures AllRegistrationsCopied(events[..k], copied)
            <==> forall i | 0 <= i < k && IsRegistration(events[i]) :: events[i].eventId in copied
  {
    var before := events[..k];
    assert forall i | 0 <= i < k :: before[i] == events[i] && events[i] in before;
    if HasRegistration(before) {
      var r :| r in before && IsRegistration(r);
      var m :| 0 <= m < k && before[m] == r;
      assert IsRegistration(events[m]);
    }
  }

  /** At most one registration enters the seeded seat. */
  lemma SeededSeatEnteredOnce(context: RunContext, events: seq<Event>, first: nat, second: nat, agentId: string)
    requires first < second < |events| && IsRegistration(events[first]) && IsRegistration(events[second])
    requires context.copied.seededAgentId == Some(agentId)
    requires forall e | e in events :: e.agentId == Some(agentId)
    requires CC.CopiedFirst(events, EventId, context.copied.copiedEventIds)
    requires Generations(context, events).Ok?
    ensures Generations(context, events[..first]).Ok? && Generations(context, events[..second]).Ok?
    ensures Generations(context, events[..second]).value != []
    ensures
      var before, later := Generations(context, events[..first]).value, Generations(context, events[..second]).value;
      before != [] ==>
        !(&& EntersSeededSeat(context.copied, events[first], before[|before| - 1])
          && EntersSeededSeat(context.copied, events[second], later[|later| - 1]))
  {
    hide Generations, EntersSeededSeat, CC.CopiedFirst, Tiles;
    SplitStaysOk(context, events, first);
    SplitStaysOk(context, events, second);
    SplitIsLossless(context, events[..second]);
    assert events[..second][first] == events[first];
    if Generations(context, events[..first]).value != [] {
      SeededSeatEntry(context, events, first, agentId);
      SeededSeatEntry(context, events, second, agentId);
    }
  }

  /** What can be split can be split at every point before. */
  lemma SplitStaysOk(context: RunContext, events: seq<Event>, n: nat)
    requires n <= |events| && Generations(context, events).Ok?
    ensures Generations(context, events[..n]).Ok?
  {
    if Generations(context, events[..n]).Err? {
      GenerationsStopAtError(context, events, n);
    }
  }

  /** In a fork's log, where ids are distinct and a prefix is copied, every agent's copied events come first. */
  lemma ForkCopiesFirst(context: RunContext, boundary: nat, agentId: string, cutoffRound: Option<int>)
    requires boundary <= |context.events| && UniqueIds(context.events)
    requires context.copied.copiedEventIds == CC.Ids(context.events[..boundary], EventId)
    ensures CC.CopiedFirst(AgentEvents(context, agentId, cutoffRound), EventId, context.copied.copiedEventIds)
    ensures forall e | e in AgentEvents(context, agentId, cutoffRound) :: e.agentId == Some(agentId)
  {
    CC.PrefixIsCopiedFirst(context.events, EventId, boundary, Selects(agentId, cutoffRound));
    FilterMembers(context.events, Selects(agentId, cutoffRound));
  }
}
