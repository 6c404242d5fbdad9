/** The events of a run's log that trajectories are built from. */
module SimulationEvents {
  import opened Wrappers

  /** Token counts logged on one response. `reasoning` is part of `output`, not beyond it. */
  datatype TokenUsage = TokenUsage(input: int, output: int, reasoning: int, cacheRead: int, cacheCreation: int) {
    /** The sum a response is tested on: zero on every response but a cycle's last. */
    function Logged(): int {
      input + output + cacheRead + cacheCreation
    }

    predicate NonNegative() {
      input >= 0 && output >= 0 && cacheRead >= 0 && cacheCreation >= 0
    }
  }

  datatype ToolCall = ToolCall(callId: string, toolName: string, arguments: string)

  datatype RunnerPrompts = RunnerPrompts(initial: string, continuation: string)

  datatype Body =
    | AgentRegistered(model: string, provider: string, systemPrompt: string, prompts: RunnerPrompts)
    | AgentSwappedMidRun(newModel: string, newProvider: string, newSystemPrompt: Option<string>)
    | ToolCallInvoked(invokedCallId: string)
    | ToolResultReceived(resultCallId: string, result: string)
    | LLMResponseReceived(thinking: Option<string>, text: Option<string>, toolCalls: seq<ToolCall>,
                          stopReason: string, usage: TokenUsage)
    | ContextCompacted(providerName: string, summaryText: string)
    | AgentRunCycleFailed(cycle: int, errorType: string, message: string)
    | AnotherEvent

  /** `agentId` is `None` on an event class that declares no such field. */
  datatype Event = Event(eventId: string, timestamp: int, roundNumber: int, agentId: Option<string>, body: Body)

  type Registration = e: Event | e.body.AgentRegistered?
    witness Event("", 0, 0, None, AgentRegistered("", "", "", RunnerPrompts("", "")))

  function EventId(e: Event): string {
    e.eventId
  }

  predicate IsRegistration(e: Event) {
    e.body.AgentRegistered?
  }

  predicate IsResponse(e: Event) {
    e.body.LLMResponseReceived?
  }

  predicate IsFailedCycle(e: Event) {
    e.body.AgentRunCycleFailed?
  }

  /** A response that logged usage. The runner logs it on the last response of a cycle. */
  predicate ClosesCycle(e: Event) {
    IsResponse(e) && e.body.usage.Logged() != 0
  }

  ghost predicate UniqueIds(events: seq<Event>) {
    forall i, j | 0 <= i < j < |events| :: events[i].eventId != events[j].eventId
  }

  ghost predicate UsageNonNegative(events: seq<Event>) {
    forall e | e in events && IsResponse(e) :: e.body.usage.NonNegative()
  }
}
