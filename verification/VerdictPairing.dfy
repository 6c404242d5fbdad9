/** Keying each logged verdict by the tool call it judged, first in first out per agent. */
module VerdictPairing {
  import opened Sorting

  /** The events the walk looks at; `judgement` is the payload built from a verdict event. */
  datatype Event<+P> =
    | Verdict(agentId: string, judgement: P)
    | ToolResult(agentId: string, toolName: string, callId: string)
    | AnotherEvent

  datatype Pair<+P> = Pair(agentId: string, callId: string, payload: P)

  // ----- What should be paired, read off the events -----

  predicate IsVerdictOf<P>(e: Event<P>, agentId: string) {
    e.Verdict? && e.agentId == agentId
  }

  predicate IsResultOf<P>(e: Event<P>, agentId: string, toolNames: set<string>) {
    e.ToolResult? && e.agentId == agentId && e.toolName in toolNames
  }

  /** The agent's verdicts, in order. */
  function Verdicts<P>(events: seq<Event<P>>, agentId: string): seq<P> {
    if events == [] then []
    else
      var last := events[|events| - 1];
      Verdicts(events[..|events| - 1], agentId) + (if IsVerdictOf(last, agentId) then [last.judgement] else [])
  }

  /** The call ids of the agent's judged results, in order. */
  function Results<P>(events: seq<Event<P>>, agentId: string, toolNames: set<string>): seq<string> {
    if events == [] then []
    else
      var last := events[|events| - 1];
      Results(events[..|events| - 1], agentId, toolNames)
      + (if IsResultOf(last, agentId, toolNames) then [last.callId] else [])
  }

  /** How many of the agent's verdicts found a result: a result takes one whenever one is waiting. */
  function Taken<P>(events: seq<Event<P>>, agentId: string, toolNames: set<string>): (n: nat)
    ensures n <= |Verdicts(events, agentId)|
  {
    if events == [] then 0
    else
      var n := |events| - 1;
      var before := Taken(events[..n], agentId, toolNames);
      if IsResultOf(events[n], agentId, toolNames) && before < |Verdicts(events[..n], agentId)| then before + 1
      else before
  }

  /** The pairs made, in order: a result takes the oldest verdict of its agent that was not taken yet. */
  function Pairs<P>(events: seq<Event<P>>, toolNames: set<string>): seq<Pair<P>> {
    if events == [] then []
    else
      var n := |events| - 1;
      var before, last := events[..n], events[n];
      Pairs(before, toolNames) +
      if last.ToolResult? && last.toolName in toolNames
         && Taken(before, last.agentId, toolNames) < |Verdicts(before, last.agentId)|
      then [Pair(last.agentId, last.callId, Verdicts(before, last.agentId)[Taken(before, last.agentId, toolNames)])]
      else []
  }

  /** A dictionary built from pairs; a repeated call id keeps its last payload. */
  function AsDictionary<P>(pairs: seq<Pair<P>>): map<string, P> {
    if pairs == [] then map[]
    else
      var last := pairs[|pairs| - 1];
      AsDictionary(pairs[..|pairs| - 1])[last.callId := last.payload]
  }

  /** The verdicts of the agent still waiting. */
  function Waiting<P>(events: seq<Event<P>>, agentId: string, toolNames: set<string>): seq<P> {
    Verdicts(events, agentId)[Taken(events, agentId, toolNames)..]
  }

  lemma WaitingNext<P>(events: seq<Event<P>>, e: Event<P>, agentId: string, toolNames: set<string>)
    ensures
      var waiting := Waiting(events, agentId, toolNames);
      Waiting(events + [e], agentId, toolNames) ==
        if IsVerdictOf(e, agentId) then waiting + [e.judgement]
        else if IsResultOf(e, agentId, toolNames) && waiting != [] then waiting[1..]
        else waiting
  {
    assert (events + [e])[..|events|] == events;
    var verdicts, taken := Verdicts(events, agentId), Taken(events, agentId, toolNames);
    if IsVerdictOf(e, agentId) {
      assert (verdicts + [e.judgement])[taken..] == verdicts[taken..] + [e.judgement];
    }
  }

  lemma PairsNext<P>(events: seq<Event<P>>, e: Event<P>, toolNames: set<string>)
    ensures
      Pairs(events + [e], toolNames) ==
        if e.ToolResult? && e.toolName in toolNames && Waiting(events, e.agentId, toolNames) != []
        then Pairs(events, toolNames) + [Pair(e.agentId, e.callId, Waiting(events, e.agentId, toolNames)[0])]
        else Pairs(events, toolNames)
  {
    assert (events + [e])[..|events|] == events;
  }

  lemma DictionaryNext<P>(pairs: seq<Pair<P>>, pair: Pair<P>)
    ensures AsDictionary(pairs + [pair]) == AsDictionary(pairs)[pair.callId := pair.payload]
  {
    assert (pairs + [pair])[..|pairs|] == pairs;
  }

  /** Key each verdict by its tool call. */
  method PairWithToolCalls<P>(events: seq<Event<P>>, toolNames: set<string>) returns (payloadByCallId: map<string, P>)
    ensures payloadByCallId == AsDictionary(Pairs(events, toolNames))
  {
    hide Waiting, Pairs, AsDictionary;
    PairsOfNothing<P>(toolNames);
    var pendingByAgent: map<string, seq<P>> := map[];
    payloadByCallId := map[];
    for i := 0 to |events|
      invariant payloadByCallId == AsDictionary(Pairs(events[..i], toolNames))
      invariant forall a ::
              (if a in pendingByAgent then pendingByAgent[a] else []) == Waiting(events[..i], a, toolNames)
    {
      var event := events[i];
      assert events[..i + 1] == events[..i] + [event];
      PairsNext(events[..i], event, toolNames);
      forall a ensures WaitsNext(events[..i], event, a, toolNames) {
        WaitingNext(events[..i], event, a, toolNames);
      }
      match event {
        case Verdict(agentId, payload) =>
          var queue := if agentId in pendingByAgent then pendingByAgent[agentId] else [];
          pendingByAgent := pendingByAgent[agentId := queue + [payload]];
        case ToolResult(agentId, toolName, callId) =>
          if toolName in toolNames {
            if agentId in pendingByAgent && pendingByAgent[agentId] != [] {
              var queue := pendingByAgent[agentId];
              assert queue == Waiting(events[..i], agentId, toolNames);
              DictionaryNext(Pairs(events[..i], toolNames), Pair(agentId, callId, queue[0]));
              payloadByCallId := payloadByCallId[callId := queue[0]];
              pendingByAgent := pendingByAgent[agentId := queue[1..]];
            }
          }
        case AnotherEvent =>
      }
      forall a
        ensures (if a in pendingByAgent then pendingByAgent[a] else []) == Waiting(events[..i + 1], a, toolNames)
      {
        assert WaitsNext(events[..i], event, a, toolNames);
      }
    }
    assert events[..|events|] == events;
  }

  ghost predicate WaitsNext<P>(events: seq<Event<P>>, e: Event<P>, agentId: string, toolNames: set<string>) {
    var waiting := Waiting(events, agentId, toolNames);
    Waiting(events + [e], agentId, toolNames) ==
      if IsVerdictOf(e, agentId) then waiting + [e.judgement]
      else if IsResultOf(e, agentId, toolNames) && waiting != [] then waiting[1..]
      else waiting
  }

  lemma PairsOfNothing<P>(toolNames: set<string>)
    ensures AsDictionary(Pairs<P>([], toolNames)) == map[]
    ensures forall a :: Waiting<P>([], a, toolNames) == []
  {
  }

  // ----- What pairing promises -----

  function PairsOf<P>(pairs: seq<Pair<P>>, agentId: string): seq<Pair<P>> {
    if pairs == [] then []
    else
      var last := pairs[|pairs| - 1];
      PairsOf(pairs[..|pairs| - 1], agentId) + (if last.agentId == agentId then [last] else [])
  }

  lemma PairsOfNext<P>(pairs: seq<Pair<P>>, pair: Pair<P>, agentId: string)
    ensures PairsOf(pairs + [pair], agentId)
            == PairsOf(pairs, agentId) + (if pair.agentId == agentId then [pair] else [])
  {
    assert (pairs + [pair])[..|pairs|] == pairs;
  }

  function Payloads<P>(pairs: seq<Pair<P>>): seq<P> {
    seq(|pairs|, i requires 0 <= i < |pairs| => pairs[i].payload)
  }

  /**
    Verdicts are consumed in the order they were logged, each at most once: the payloads an agent's
    results got, then the verdicts still waiting, are exactly the agent's verdicts.
   */
  lemma {:induction false} VerdictsAreConsumedInOrder<P>(events: seq<Event<P>>, agentId: string, toolNames: set<string>)
    ensures Payloads(PairsOf(Pairs(events, toolNames), agentId)) + Waiting(events, agentId, toolNames)
            == Verdicts(events, agentId)
    ensures |PairsOf(Pairs(events, toolNames), agentId)| == Taken(events, agentId, toolNames)
  {
    hide Verdicts, Waiting, Pairs, PairsOf, Taken;
    if events == [] {
      NothingConsumed<P>(agentId, toolNames);
    } else {
      var n := |events| - 1;
      var before, e := events[..n], events[n];
      VerdictsAreConsumedInOrder(before, agentId, toolNames);
      assert events == before + [e];
      PairsNext(before, e, toolNames);
      WaitingNext(before, e, agentId, toolNames);
      TakenNext(before, e, agentId, toolNames);
      ResultsNext(before, e, agentId, toolNames);
      var pairs, waiting := Pairs(before, toolNames), Waiting(before, agentId, toolNames);
      var payloads := Payloads(PairsOf(pairs, agentId));
      if e.ToolResult? && e.toolName in toolNames && Waiting(before, e.agentId, toolNames) != [] {
        var pair := Pair(e.agentId, e.callId, Waiting(before, e.agentId, toolNames)[0]);
        PairsOfNext(pairs, pair, agentId);
        if e.agentId == agentId {
          PayloadsNext(PairsOf(pairs, agentId), pair);
          assert waiting == [waiting[0]] + waiting[1..];
          ConcatAssociates(payloads, [waiting[0]], waiting[1..]);
        }
      } else if IsVerdictOf(e, agentId) {
        ConcatAssociates(payloads, waiting, [e.judgement]);
      }
    }
  }

  lemma PayloadsNext<P>(pairs: seq<Pair<P>>, pair: Pair<P>)
    ensures Payloads(pairs + [pair]) == Payloads(pairs) + [pair.payload]
  {
  }

  lemma NothingConsumed<P>(agentId: string, toolNames: set<string>)
    ensures Payloads(PairsOf(Pairs<P>([], toolNames), agentId)) == [] && Waiting<P>([], agentId, toolNames) == []
    ensures Verdicts<P>([], agentId) == [] && Taken<P>([], agentId, toolNames) == 0
    ensures PairsOf(Pairs<P>([], toolNames), agentId) == []
  {
  }

  lemma TakenNext<P>(events: seq<Event<P>>, e: Event<P>, agentId: string, toolNames: set<string>)
    ensures Taken(events + [e], agentId, toolNames) ==
            Taken(events, agentId, toolNames)
            + (if IsResultOf(e, agentId, toolNames) && Waiting(events, agentId, toolNames) != [] then 1 else 0)
  {
    assert (events + [e])[..|events|] == events;
  }

  /** The agent's verdicts among the first `k` events and its judged results after them. */
  function VerdictsThenResults<P>(events: seq<Event<P>>, k: nat, agentId: string, toolNames: set<string>): int
    requires k <= |events|
  {
    |Verdicts(events[..k], agentId)| + |Results(events, agentId, toolNames)|
    - |Results(events[..k], agentId, toolNames)|
  }

  /**
    How many of an agent's results are paired in any log, verdicts late or not: the least, over all
    points of the log, of its verdicts up to there and its judged results from there on.
   */
  lemma {:induction false} PairedAreLeast<P>(events: seq<Event<P>>, agentId: string, toolNames: set<string>)
    ensures
      var paired := |PairsOf(Pairs(events, toolNames), agentId)|;
      && (forall k | 0 <= k <= |events| :: paired <= VerdictsThenResults(events, k, agentId, toolNames))
      && (exists k | 0 <= k <= |events| :: paired == VerdictsThenResults(events, k, agentId, toolNames))
  {
    VerdictsAreConsumedInOrder(events, agentId, toolNames);
    TakenIsLeast(events, agentId, toolNames);
    hide Pairs, PairsOf, Taken, VerdictsThenResults;
  }

  lemma {:induction false} TakenIsLeast<P>(events: seq<Event<P>>, agentId: string, toolNames: set<string>)
    ensures forall k | 0 <= k <= |events| ::
              Taken(events, agentId, toolNames) <= VerdictsThenResults(events, k, agentId, toolNames)
    ensures exists k | 0 <= k <= |events| ::
              Taken(events, agentId, toolNames) == VerdictsThenResults(events, k, agentId, toolNames)
  {
    if events == [] {
      assert Taken(events, agentId, toolNames) == VerdictsThenResults(events, 0, agentId, toolNames);
    } else {
      var n := |events| - 1;
      var before, e := events[..n], events[n];
      assert events == before + [e] && events[..n + 1] == events;
      TakenIsLeast(before, agentId, toolNames);
      ResultsNext(before, e, agentId, toolNames);
      var grows := if IsResultOf(e, agentId, toolNames) then 1 else 0;
      hide Verdicts, Results;
      forall k | 0 <= k <= n
        ensures VerdictsThenResults(events, k, agentId, toolNames)
                == VerdictsThenResults(before, k, agentId, toolNames) + grows
      {
        assert before[..k] == events[..k];
      }
      assert VerdictsThenResults(events, n + 1, agentId, toolNames) == |Verdicts(events, agentId)|;
    }
  }

  predicate Concerns<P>(e: Event<P>, agentId: string) {
    !e.AnotherEvent? && e.agentId == agentId
  }

  /** The agent's own events. */
  function OwnEvents<P>(events: seq<Event<P>>, agentId: string): seq<Event<P>> {
    if events == [] then []
    else
      var last := events[|events| - 1];
      OwnEvents(events[..|events| - 1], agentId) + (if Concerns(last, agentId) then [last] else [])
  }

  /** Agents do not interfere: an agent's pairs are those made from its own events alone. */
  lemma {:induction false} AgentsDoNotInterfere<P>(events: seq<Event<P>>, agentId: string, toolNames: set<string>)
    ensures PairsOf(Pairs(events, toolNames), agentId) == Pairs(OwnEvents(events, agentId), toolNames)
    ensures Waiting(OwnEvents(events, agentId), agentId, toolNames) == Waiting(events, agentId, toolNames)
  {
    hide Waiting, Pairs, PairsOf;
    if events == [] {
      PairsOfNone<P>(agentId, toolNames);
    } else {
      var n := |events| - 1;
      var before, e := events[..n], events[n];
      AgentsDoNotInterfere(before, agentId, toolNames);
      assert events == before + [e];
      var own := OwnEvents(before, agentId);
      assert own + [] == own;
      PairsNext(before, e, toolNames);
      WaitingNext(before, e, agentId, toolNames);
      if Concerns(e, agentId) {
        PairsNext(own, e, toolNames);
        WaitingNext(own, e, agentId, toolNames);
      }
      if e.ToolResult? && e.toolName in toolNames && Waiting(before, e.agentId, toolNames) != [] {
        PairsOfNext(Pairs(before, toolNames), Pair(e.agentId, e.callId, Waiting(before, e.agentId, toolNames)[0]),
              agentId);
      }
    }
  }

  lemma PairsOfNone<P>(agentId: string, toolNames: set<string>)
    ensures PairsOf(Pairs<P>([], toolNames), agentId) == [] && Pairs<P>([], toolNames) == []
  {
  }

  /** Every prefix has at least as many of the agent's verdicts as of its results. */
  ghost predicate JudgedFirst<P>(events: seq<Event<P>>, agentId: string, toolNames: set<string>) {
    forall k | 0 <= k <= |events| ::
      |Results(events[..k], agentId, toolNames)| <= |Verdicts(events[..k], agentId)|
  }

  function CallIds<P>(pairs: seq<Pair<P>>): seq<string> {
    seq(|pairs|, i requires 0 <= i < |pairs| => pairs[i].callId)
  }

  /** When no result comes before its verdict, the k-th result gets the k-th verdict. */
  lemma {:induction false} KthResultGetsKthVerdict<P>(events: seq<Event<P>>, agentId: string, toolNames: set<string>)
    requires JudgedFirst(events, agentId, toolNames)
    ensures
      var pairs := PairsOf(Pairs(events, toolNames), agentId);
      && CallIds(pairs) == Results(events, agentId, toolNames)
      && Payloads(pairs) <= Verdicts(events, agentId)
  {
    ResultsAllPaired(events, agentId, toolNames);
    VerdictsAreConsumedInOrder(events, agentId, toolNames);
  }

  lemma {:induction false} ResultsAllPaired<P>(events: seq<Event<P>>, agentId: string, toolNames: set<string>)
    requires JudgedFirst(events, agentId, toolNames)
    ensures CallIds(PairsOf(Pairs(events, toolNames), agentId)) == Results(events, agentId, toolNames)
  {
    hide Results, Verdicts, Waiting, Pairs, PairsOf;
    if events == [] {
      PairsOfNone<P>(agentId, toolNames);
      ResultsNext<P>([], AnotherEvent, agentId, toolNames);
    } else {
      var n := |events| - 1;
      var before, e := events[..n], events[n];
      assert events == before + [e] && events[..n + 1] == events;
      forall k | 0 <= k <= n
        ensures |Results(before[..k], agentId, toolNames)| <= |Verdicts(before[..k], agentId)|
      {
        assert before[..k] == events[..k];
      }
      ResultsAllPaired(before, agentId, toolNames);
      VerdictsAreConsumedInOrder(before, agentId, toolNames);
      ResultsNext(before, e, agentId, toolNames);
      PairsNext(before, e, toolNames);
      if e.ToolResult? && e.toolName in toolNames && Waiting(before, e.agentId, toolNames) != [] {
        PairsOfNext(Pairs(before, toolNames), Pair(e.agentId, e.callId, Waiting(before, e.agentId, toolNames)[0]),
              agentId);
      }
    }
  }

  lemma ResultsNext<P>(events: seq<Event<P>>, e: Event<P>, agentId: string, toolNames: set<string>)
    ensures Results<P>([], agentId, toolNames) == []
    ensures Results(events + [e], agentId, toolNames)
            == Results(events, agentId, toolNames) + (if IsResultOf(e, agentId, toolNames) then [e.callId] else [])
    ensures Verdicts(events + [e], agentId)
            == Verdicts(events, agentId) + (if IsVerdictOf(e, agentId) then [e.judgement] else [])
  {
    assert (events + [e])[..|events|] == events;
  }

  /** Each call id that was paired is in the dictionary, with the payload of its last pair. */
  lemma {:induction false} LastPairWins<P>(pairs: seq<Pair<P>>)
    ensures AsDictionary(pairs).Keys == set i | 0 <= i < |pairs| :: pairs[i].callId
    ensures forall i | 0 <= i < |pairs| && (forall j | i < j < |pairs| :: pairs[j].callId != pairs[i].callId) ::
              AsDictionary(pairs)[pairs[i].callId] == pairs[i].payload
  {
    hide AsDictionary;
    if pairs == [] {
      DictionaryOfNone<P>();
    } else {
      var n := |pairs| - 1;
      LastPairWins(pairs[..n]);
      assert pairs == pairs[..n] + [pairs[n]];
      DictionaryNext(pairs[..n], pairs[n]);
    }
  }

  /** With distinct call ids the dictionary holds every pair under its own key and nothing else. */
  lemma {:induction false} DistinctCallsKeepEveryPair<P>(pairs: seq<Pair<P>>)
    requires forall i, j | 0 <= i < j < |pairs| :: pairs[i].callId != pairs[j].callId
    ensures AsDictionary(pairs).Keys == set i | 0 <= i < |pairs| :: pairs[i].callId
    ensures forall i | 0 <= i < |pairs| ::
              pairs[i].callId in AsDictionary(pairs) && AsDictionary(pairs)[pairs[i].callId] == pairs[i].payload
    ensures |AsDictionary(pairs)| == |pairs|
  {
    hide AsDictionary;
    if pairs == [] {
      DictionaryOfNone<P>();
    } else {
      var n := |pairs| - 1;
      var before, last := pairs[..n], pairs[n];
      DistinctCallsKeepEveryPair(before);
      assert pairs == before + [last];
      DictionaryNext(before, last);
      assert last.callId !in AsDictionary(before);
    }
  }

  lemma DictionaryOfNone<P>()
    ensures AsDictionary<P>([]) == map[]
  {
  }

  /** Some result of the log has this call id and this agent. */
  ghost predicate IsLogged<P>(events: seq<Event<P>>, pair: Pair<P>) {
    exists k | 0 <= k < |events| ::
      events[k].ToolResult? && events[k].callId == pair.callId && events[k].agentId == pair.agentId
  }

  ghost predicate DistinctPairs<P>(pairs: seq<Pair<P>>) {
    forall i, j | 0 <= i < j < |pairs| :: pairs[i].callId != pairs[j].callId
  }

  ghost predicate DistinctCalls<P>(events: seq<Event<P>>) {
    forall i, j | 0 <= i < j < |events| && events[i].ToolResult? && events[j].ToolResult? ::
      events[i].callId != events[j].callId
  }

  lemma DistinctCallsBefore<P>(events: seq<Event<P>>, e: Event<P>)
    requires DistinctCalls(events + [e])
    ensures DistinctCalls(events)
  {
    assert forall k | 0 <= k < |events| :: (events + [e])[k] == events[k];
  }

  lemma LoggedNext<P>(events: seq<Event<P>>, e: Event<P>, pair: Pair<P>)
    requires DistinctCalls(events + [e])
    ensures IsLogged(events, pair) ==> IsLogged(events + [e], pair)
    ensures IsLogged(events, pair) && e.ToolResult? ==> pair.callId != e.callId
    ensures e.ToolResult? && e.callId == pair.callId && e.agentId == pair.agentId ==> IsLogged(events + [e], pair)
  {
    var all := events + [e];
    assert forall k | 0 <= k < |events| :: all[k] == events[k];
    assert all[|events|] == e;
    if IsLogged(events, pair) {
      var k :| 0 <= k < |events| && events[k].ToolResult? && events[k].callId == pair.callId
               && events[k].agentId == pair.agentId;
      assert all[k] == events[k];
    }
  }

  /** Distinct call ids in the log give pairs with distinct call ids, all of them of logged results. */
  lemma {:induction false} PairedCallsAreLogged<P>(events: seq<Event<P>>, toolNames: set<string>)
    requires DistinctCalls(events)
    ensures DistinctPairs(Pairs(events, toolNames))
    ensures forall i | 0 <= i < |Pairs(events, toolNames)| :: IsLogged(events, Pairs(events, toolNames)[i])
  {
    hide Waiting, Pairs, IsLogged, DistinctCalls;
    if events == [] {
      PairsOfNone<P>("", toolNames);
    } else {
      var n := |events| - 1;
      var before, e := events[..n], events[n];
      assert events == before + [e];
      DistinctCallsBefore(before, e);
      PairedCallsAreLogged(before, toolNames);
      PairsNext(before, e, toolNames);
      var pairs, all := Pairs(before, toolNames), Pairs(events, toolNames);
      assert all == pairs || all == pairs + [all[|pairs|]];
      forall i | 0 <= i < |all| ensures IsLogged(events, all[i]) {
        LoggedNext(before, e, all[i]);
        if i < |pairs| {
          assert all[i] == pairs[i];
        }
      }
      forall i, j | 0 <= i < j < |all| ensures all[i].callId != all[j].callId {
        assert all[i] == pairs[i];
        if j < |pairs| {
          assert all[j] == pairs[j];
        } else {
          LoggedNext(before, e, pairs[i]);
        }
      }
    }
  }
}
