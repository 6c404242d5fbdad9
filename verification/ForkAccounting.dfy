/** From the bytes of a source's log and of its fork's to what the two runs' trajectories total. */
module ForkAccounting {
  import opened Wrappers
  import opened Sorting
  import opened JsonLines
  import opened EventLog
  import opened LogFork
  import opened SimulationEvents
  import opened TrajectoryBuilder
  import opened TrajectoryGenerations
  import opened TrajectorySpend
  import CC = CopiedEvents

  /** No own response that the agent's trajectories are built from logged counts that cancel. */
  ghost predicate NoneCancels(context: RunContext, agentId: string, cutoffRound: Option<int>) {
    forall e | e in Stretch(context.events, agentId, cutoffRound) :: !LosesTokens(e, context.copied.copiedEventIds)
  }

  lemma TotalIsSpend(context: RunContext, agentId: string, cutoffRound: Option<int>, kind: TokenKind)
    requires TotalOf(context, agentId, cutoffRound, kind).Some? && NoneCancels(context, agentId, cutoffRound)
    ensures TotalOf(context, agentId, cutoffRound, kind)
            == Some(AgentSpend(context.events, agentId, cutoffRound, context.copied.copiedEventIds, kind))
  {
    hide AgentSpend, TrajectoriesTotal, TrajectoriesOf, Generations, Stretch, LosesTokens;
    TotalIsMeasured(context, agentId, cutoffRound, kind);
    NothingLost(Stretch(context.events, agentId, cutoffRound), context.copied.copiedEventIds, kind);
    SpendOfStretch(context.events, agentId, cutoffRound, context.copied.copiedEventIds, kind);
  }

  /**
    A source run's log is cut just past its boundary event and the fork appends to the copy. Load
    both logs, take as copied what the fork's manifest names, and build the agent's trajectories of
    both runs: their totals together are what the agent's responses logged over the source's whole
    log followed by the fork's own events, each counted once.
   */
  lemma SourceAndForkTotals(
    schema: Schema<Event>, codec: Codec, raw: Bytes, eventId: string, location: EventLocation, appended: Bytes,
    source: RunContext, fork: RunContext, agentId: string, cutoffRound: Option<int>, kind: TokenKind)
    returns (added: seq<Event>)
    requires schema.idOf == EventId
    requires Locates(codec, SplitLines(raw), eventId, location) && !UnknownType(schema, location.record)
    requires Identifies(schema, eventId)
    requires appended == [] || EndsLine(Truncated(raw, location.endOffset)) || ObjectsEnd(codec)
    requires LoadsTo(schema, codec, raw, source.events)
    requires LoadsTo(schema, codec, Truncated(raw, location.endOffset) + appended, fork.events)
    requires CC.IsThrough(fork.events, EventId, eventId, fork.copied.copiedEventIds)
    requires forall e | e in fork.events && e.eventId in source.copied.copiedEventIds ::
               e.eventId in fork.copied.copiedEventIds
    requires UniqueIds(fork.events)
    requires NoneCancels(source, agentId, cutoffRound) && NoneCancels(fork, agentId, cutoffRound)
    requires TotalOf(source, agentId, cutoffRound, kind).Some? && TotalOf(fork, agentId, cutoffRound, kind).Some?
    requires exists e | e in fork.events && e.eventId in fork.copied.copiedEventIds ::
               IsRegistration(e) && Selects(agentId, cutoffRound)(e)
    ensures exists kept | kept <= source.events :: fork.events == kept + added
    ensures TotalOf(source, agentId, cutoffRound, kind).value + TotalOf(fork, agentId, cutoffRound, kind).value
            == AgentSpend(source.events + added, agentId, cutoffRound, source.copied.copiedEventIds, kind)
  {
    hide NoneCancels, LoadsTo, Truncated, TotalOf, AgentSpend, Locates, UnknownType, CC.IsThrough, Selects;
    var kept := CopiedIdsStay(schema, codec, raw, eventId, location, source.events, appended, fork.events,
                              fork.copied.copiedEventIds);
    var n := |kept|;
    added := fork.events[n..];
    assert fork.events == kept + added;
    assert source.events[..n] == kept;
    RegisteredBeforeBoundary(kept, added, fork.copied.copiedEventIds, agentId, cutoffRound);
    TotalIsSpend(source, agentId, cutoffRound, kind);
    TotalIsSpend(fork, agentId, cutoffRound, kind);
    forall e | e in added ensures e.eventId !in source.copied.copiedEventIds {
      AddedIsNotCopied(kept, added, e);
    }
    ForkSpendsNothingTwice(source.events, n, added, agentId, cutoffRound, kind, source.copied.copiedEventIds);
  }

  lemma RegisteredBeforeBoundary(kept: seq<Event>, added: seq<Event>, copied: set<string>, agentId: string,
                                 cutoffRound: Option<int>)
    requires copied == CC.Ids(kept, EventId) && UniqueIds(kept + added)
    requires exists e | e in kept + added && e.eventId in copied ::
            IsRegistration(e) && Selects(agentId, cutoffRound)(e)
    ensures HasRegistration(Filter(kept, Selects(agentId, cutoffRound)))
  {
    hide Selects;
    var e :| e in kept + added && e.eventId in copied && IsRegistration(e) && Selects(agentId, cutoffRound)(e);
    forall x | x in added ensures x.eventId !in copied {
      AddedIsNotCopied(kept, added, x);
    }
    assert e in kept;
    FilterMembers(kept, Selects(agentId, cutoffRound));
    assert e in Filter(kept, Selects(agentId, cutoffRound));
  }
}
