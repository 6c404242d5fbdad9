/** Who pays for what is said in a round, and what each team has been told about its budget. */
module RoundWorld {
  import opened Wrappers
  import opened Sorting

  datatype TeamSpec = TeamSpec(teamId: string, taskChannelId: string, agentIds: seq<string>)

  // ----- Who pays for a message -----

  predicate Metered(specs: seq<TeamSpec>, channelId: string) {
    exists i | 0 <= i < |specs| :: specs[i].taskChannelId == channelId
  }

  /** How many teams work on this channel. */
  function Sharers(specs: seq<TeamSpec>, channelId: string): nat {
    if specs == [] then 0
    else Sharers(specs[..|specs| - 1], channelId) + (if specs[|specs| - 1].taskChannelId == channelId then 1 else 0)
  }

  /** The last team declared on a channel. */
  function LastOn(specs: seq<TeamSpec>, channelId: string): Option<string> {
    if specs == [] then None
    else if specs[|specs| - 1].taskChannelId == channelId then Some(specs[|specs| - 1].teamId)
    else LastOn(specs[..|specs| - 1], channelId)
  }

  /** The agent's team: the last declared one that lists it. */
  function TeamOfAgent(specs: seq<TeamSpec>, agentId: string): Option<string> {
    if specs == [] then None
    else if agentId in specs[|specs| - 1].agentIds then Some(specs[|specs| - 1].teamId)
    else TeamOfAgent(specs[..|specs| - 1], agentId)
  }

  /** An exclusive task channel charges its owner, a shared one the sender's team, every other nobody. */
  function Payer(specs: seq<TeamSpec>, agentId: string, channelId: string): Option<string> {
    if !Metered(specs, channelId) then None
    else if Sharers(specs, channelId) == 1 then LastOn(specs, channelId)
    else TeamOfAgent(specs, agentId)
  }

  predicate IsTeam(specs: seq<TeamSpec>, teamId: string) {
    exists i | 0 <= i < |specs| :: specs[i].teamId == teamId
  }

  lemma {:induction false} LastOnIsTeam(specs: seq<TeamSpec>, channelId: string)
    ensures LastOn(specs, channelId).Some? <==> Metered(specs, channelId)
    ensures LastOn(specs, channelId).Some? ==>
              exists i | 0 <= i < |specs| ::
                specs[i].taskChannelId == channelId && specs[i].teamId == LastOn(specs, channelId).value
    ensures Sharers(specs, channelId) > 0 <==> Metered(specs, channelId)
  {
    if specs != [] {
      var n := |specs| - 1;
      LastOnIsTeam(specs[..n], channelId);
      assert forall i | 0 <= i < n :: specs[..n][i] == specs[i];
      if specs[n].taskChannelId != channelId && Metered(specs[..n], channelId) {
        var i :| 0 <= i < n && specs[..n][i].taskChannelId == channelId
                 && specs[..n][i].teamId == LastOn(specs[..n], channelId).value;
        assert specs[i].taskChannelId == channelId && specs[i].teamId == LastOn(specs, channelId).value;
      }
    }
  }

  /** The team at `i` lists the agent and no team declared after it does. */
  ghost predicate ListsLast(specs: seq<TeamSpec>, agentId: string, i: nat) {
    && i < |specs| && agentId in specs[i].agentIds
    && forall j | i < j < |specs| :: agentId !in specs[j].agentIds
  }

  lemma {:induction false} TeamOfAgentIsLast(specs: seq<TeamSpec>, agentId: string)
    ensures forall i: nat | ListsLast(specs, agentId, i) :: TeamOfAgent(specs, agentId) == Some(specs[i].teamId)
    ensures if exists i | 0 <= i < |specs| :: agentId in specs[i].agentIds
            then exists i: nat :: ListsLast(specs, agentId, i)
            else TeamOfAgent(specs, agentId) == None
  {
    if specs != [] {
      var n := |specs| - 1;
      var before := specs[..n];
      assert forall i | 0 <= i < n :: before[i] == specs[i];
      TeamOfAgentIsLast(before, agentId);
      if agentId in specs[n].agentIds {
        assert ListsLast(specs, agentId, n);
      } else {
        assert forall i: nat :: ListsLast(specs, agentId, i) <==> ListsLast(before, agentId, i);
      }
    }
  }

  lemma {:induction false} OneSharerOwns(specs: seq<TeamSpec>, channelId: string, i: nat)
    requires Sharers(specs, channelId) == 1 && i < |specs| && specs[i].taskChannelId == channelId
    ensures LastOn(specs, channelId) == Some(specs[i].teamId)
  {
    var n := |specs| - 1;
    assert forall k | 0 <= k < n :: specs[..n][k] == specs[k];
    if specs[n].taskChannelId == channelId {
      LastOnIsTeam(specs[..n], channelId);
      assert i == n;
    } else {
      assert specs[..n][i] == specs[i];
      OneSharerOwns(specs[..n], channelId, i);
    }
  }

  /** Whoever pays is a declared team. */
  lemma PayerIsTeam(specs: seq<TeamSpec>, agentId: string, channelId: string)
    ensures Payer(specs, agentId, channelId).Some? ==> IsTeam(specs, Payer(specs, agentId, channelId).value)
  {
    LastOnIsTeam(specs, channelId);
    TeamOfAgentIsLast(specs, agentId);
  }

  lemma {:induction false} SharersCount(specs: seq<TeamSpec>, channelId: string, i: nat)
    requires i < |specs| && specs[i].taskChannelId == channelId
    ensures Sharers(specs, channelId) == 1
            <==> forall j | 0 <= j < |specs| && j != i :: specs[j].taskChannelId != channelId
  {
    var n := |specs| - 1;
    assert forall j | 0 <= j < n :: specs[..n][j] == specs[j];
    LastOnIsTeam(specs[..n], channelId);
    if i < n {
      SharersCount(specs[..n], channelId, i);
    }
  }

  /** The team at `i` is the only one on the channel. */
  ghost predicate OwnsAlone(specs: seq<TeamSpec>, channelId: string, i: nat) {
    && i < |specs| && specs[i].taskChannelId == channelId
    && forall j | 0 <= j < |specs| && j != i :: specs[j].taskChannelId != channelId
  }

  /** Several teams work on the channel. */
  ghost predicate Shared(specs: seq<TeamSpec>, channelId: string) {
    exists i, j | 0 <= i < j < |specs| :: specs[i].taskChannelId == channelId && specs[j].taskChannelId == channelId
  }

  /**
    Who pays: the only team on a task channel, whoever spoke; on a channel of several teams the
    last declared team that lists the sender, and nobody only if no team does; nobody on any other
    channel.
   */
  lemma PayerRules(specs: seq<TeamSpec>, agentId: string, channelId: string)
    ensures forall i: nat | OwnsAlone(specs, channelId, i) ::
              Payer(specs, agentId, channelId) == Some(specs[i].teamId)
    ensures Shared(specs, channelId) ==>
              && (forall i: nat | ListsLast(specs, agentId, i) ::
                    Payer(specs, agentId, channelId) == Some(specs[i].teamId))
              && (Payer(specs, agentId, channelId).None? <==>
                    forall i | 0 <= i < |specs| :: agentId !in specs[i].agentIds)
    ensures (forall i | 0 <= i < |specs| :: specs[i].taskChannelId != channelId)
            ==> Payer(specs, agentId, channelId) == None
  {
    forall i: nat | OwnsAlone(specs, channelId, i)
      ensures Payer(specs, agentId, channelId) == Some(specs[i].teamId)
    {
      SharersCount(specs, channelId, i);
      OneSharerOwns(specs, channelId, i);
      hide Sharers, LastOn, TeamOfAgent;
    }
    if Shared(specs, channelId) {
      SharedIsSenders(specs, agentId, channelId);
      TeamOfAgentIsLast(specs, agentId);
      hide Payer, Shared, OwnsAlone;
      if exists m | 0 <= m < |specs| :: agentId in specs[m].agentIds {
        var m: nat :| ListsLast(specs, agentId, m);
      }
    }
  }

  lemma SharedIsSenders(specs: seq<TeamSpec>, agentId: string, channelId: string)
    requires Shared(specs, channelId)
    ensures Payer(specs, agentId, channelId) == TeamOfAgent(specs, agentId)
  {
    var i, j :| 0 <= i < j < |specs| && specs[i].taskChannelId == channelId && specs[j].taskChannelId == channelId;
    SharersCount(specs, channelId, i);
    hide TeamOfAgent, Sharers;
  }

  // ----- Thresholds -----

  /** The first place a threshold is declared at; the number of thresholds when it is not. */
  function Position(thresholds: seq<string>, threshold: string): (p: nat)
    ensures p <= |thresholds|
    ensures p < |thresholds| <==> threshold in thresholds
    ensures p < |thresholds| ==> thresholds[p] == threshold
    ensures forall i | 0 <= i < p :: thresholds[i] != threshold
  {
    if thresholds == [] then 0
    else if thresholds[0] == threshold then 0
    else
      var p := Position(thresholds[1..], threshold);
      assert thresholds == [thresholds[0]] + thresholds[1..];
      p + 1
  }

  /** The thresholds from the `k`-th on, the mildest ones. */
  function Milder(thresholds: seq<string>, k: nat): set<string>
    requires k <= |thresholds|
  {
    set i | k <= i < |thresholds| :: thresholds[i]
  }

  /** `x` is the threshold at `k`, and `threshold` is at `k` or before it. */
  ghost predicate AsMild(thresholds: seq<string>, threshold: string, x: string, k: nat) {
    && k < |thresholds| && thresholds[k] == x
    && exists i :: 0 <= i <= k && thresholds[i] == threshold
  }

  // ----- The state and its steps -----

  datatype State = State(used: map<string, int>, claimed: map<string, set<string>>)

  datatype Op =
    | Message(agentId: string, channelId: string, text: string)
    | Claim(teamId: string, threshold: string)
    | RoundBegun
    | Restore(teamId: string, characters: int)

  function Charged(used: map<string, int>, payer: Option<string>, length: nat): map<string, int> {
    if payer.Some? && payer.value in used then used[payer.value := used[payer.value] + length] else used
  }

  function Claimed(state: State, thresholds: seq<string>, teamId: string, threshold: string): State {
    if teamId in state.claimed && threshold !in state.claimed[teamId] && threshold in thresholds then
      var milder := Milder(thresholds, Position(thresholds, threshold));
      state.(claimed := state.claimed[teamId := state.claimed[teamId] + milder])
    else state
  }

  function Cleared(state: State): State {
    State(map t | t in state.used :: 0, state.claimed + (map t | t in state.used :: {}))
  }

  function Apply(specs: seq<TeamSpec>, thresholds: seq<string>, state: State, op: Op): State {
    match op
    case Message(agentId, channelId, text) =>
      state.(used := Charged(state.used, Payer(specs, agentId, channelId), |text|))
    case Claim(teamId, threshold) => Claimed(state, thresholds, teamId, threshold)
    case RoundBegun => Cleared(state)
    case Restore(teamId, characters) => state.(used := state.used[teamId := characters])
  }

  /** Nobody has spent or been told anything. */
  ghost predicate Fresh(state: State) {
    forall t | t in state.used :: state.used[t] == 0 && t in state.claimed && state.claimed[t] == {}
  }

  /** The same teams, and nobody has spent or been told anything. */
  ghost predicate StartsOver(before: State, after: State) {
    Fresh(after) && after.used.Keys == before.used.Keys
  }

  function Initial(specs: seq<TeamSpec>): State {
    State(map i | 0 <= i < |specs| :: specs[i].teamId := 0, map i | 0 <= i < |specs| :: specs[i].teamId := {})
  }

  function After(specs: seq<TeamSpec>, thresholds: seq<string>, ops: seq<Op>): State {
    if ops == [] then Initial(specs)
    else Apply(specs, thresholds, After(specs, thresholds, ops[..|ops| - 1]), ops[|ops| - 1])
  }

  // ----- The lookups a world is built with -----

  /** The owner of each channel that exactly one team works on. */
  function Owners(specs: seq<TeamSpec>, k: nat): map<string, string>
    requires k <= |specs|
  {
    if k == 0 then map[]
    else
      var spec := specs[k - 1];
      if Sharers(specs, spec.taskChannelId) == 1 then Owners(specs, k - 1)[spec.taskChannelId := spec.teamId]
      else Owners(specs, k - 1)
  }

  function TeamsByAgent(specs: seq<TeamSpec>): map<string, string> {
    if specs == [] then map[]
    else
      var last := specs[|specs| - 1];
      TeamsByAgent(specs[..|specs| - 1]) + (map a | a in last.agentIds :: last.teamId)
  }

  lemma {:induction false} OwnersAreExclusive(specs: seq<TeamSpec>, k: nat)
    requires k <= |specs|
    ensures forall c :: c in Owners(specs, k)
                        <==> Sharers(specs, c) == 1 && exists i | 0 <= i < k :: specs[i].taskChannelId == c
    ensures forall c | c in Owners(specs, k) :: LastOn(specs, c) == Some(Owners(specs, k)[c])
  {
    if k > 0 {
      OwnersAreExclusive(specs, k - 1);
      var c := specs[k - 1].taskChannelId;
      if Sharers(specs, c) == 1 {
        OneSharerOwns(specs, c, k - 1);
      }
    }
  }

  lemma {:induction false} TeamsByAgentAreLast(specs: seq<TeamSpec>)
    ensures forall a :: a in TeamsByAgent(specs) <==> TeamOfAgent(specs, a).Some?
    ensures forall a | a in TeamsByAgent(specs) :: TeamOfAgent(specs, a) == Some(TeamsByAgent(specs)[a])
  {
    if specs != [] {
      TeamsByAgentAreLast(specs[..|specs| - 1]);
    }
  }

  lemma OwnedChannels(specs: seq<TeamSpec>)
    ensures forall c :: c in Owners(specs, |specs|) <==> Sharers(specs, c) == 1
    ensures forall c | c in Owners(specs, |specs|) :: LastOn(specs, c) == Some(Owners(specs, |specs|)[c])
  {
    OwnersAreExclusive(specs, |specs|);
    forall c | Sharers(specs, c) == 1 ensures exists i | 0 <= i < |specs| :: specs[i].taskChannelId == c {
      LastOnIsTeam(specs, c);
    }
  }

  lemma OwnersOwnAlone(specs: seq<TeamSpec>, channelId: string)
    ensures Sharers(specs, channelId) == 1 <==> exists i: nat :: OwnsAlone(specs, channelId, i)
    ensures forall i: nat | OwnsAlone(specs, channelId, i) :: LastOn(specs, channelId) == Some(specs[i].teamId)
  {
    LastOnIsTeam(specs, channelId);
    forall i: nat | i < |specs| && specs[i].taskChannelId == channelId
      ensures Sharers(specs, channelId) == 1 <==> OwnsAlone(specs, channelId, i)
      ensures OwnsAlone(specs, channelId, i) ==> LastOn(specs, channelId) == Some(specs[i].teamId)
    {
      SharersCount(specs, channelId, i);
      if Sharers(specs, channelId) == 1 {
        OneSharerOwns(specs, channelId, i);
      }
    }
  }

  /** Every team but those in `rest` has been cleared. */
  ghost predicate PartlyCleared(before: State, now: State, rest: set<string>) {
    && rest <= before.used.Keys && now.used.Keys == before.used.Keys
    && (forall t | t in now.used :: now.used[t] == if t in rest then before.used[t] else 0)
    && now.claimed == before.claimed + (map t | t in before.used.Keys - rest :: {})
  }

  lemma NothingCleared(before: State)
    ensures PartlyCleared(before, before, before.used.Keys)
  {
    assert before.used.Keys - before.used.Keys == {};
  }

  lemma ClearOneMore(before: State, now: State, rest: set<string>, teamId: string)
    requires PartlyCleared(before, now, rest) && teamId in rest
    ensures PartlyCleared(before, State(now.used[teamId := 0], now.claimed[teamId := {}]), rest - {teamId})
  {
    var cleared := before.claimed + (map t | t in before.used.Keys - (rest - {teamId}) :: {});
    assert cleared == now.claimed[teamId := {}];
  }

  lemma AllCleared(before: State, now: State)
    requires PartlyCleared(before, now, {})
    ensures now == Cleared(before)
    ensures before.claimed.Keys <= before.used.Keys ==> now.claimed.Keys <= now.used.Keys
  {
    assert now.used == Cleared(before).used;
    assert now.claimed == Cleared(before).claimed;
  }

  datatype ClaimError = UnknownTeam | UnknownThreshold

  /** The counters and claims of a running round, with the lookups that say who pays. */
  class RoundWorld {
    ghost const specs: seq<TeamSpec>
    const thresholds: seq<string>
    var taskChannelIds: set<string>
    var teamIdByTaskChannelId: map<string, string>
    var teamIdByAgentId: map<string, string>
    var charactersUsedByTeamId: map<string, int>
    var claimedThresholdsByTeamId: map<string, set<string>>

    ghost predicate Valid()
      reads this
    {
      && (forall c :: c in taskChannelIds <==> Metered(specs, c))
      && teamIdByTaskChannelId == Owners(specs, |specs|)
      && teamIdByAgentId == TeamsByAgent(specs)
      && (forall t | IsTeam(specs, t) :: t in charactersUsedByTeamId)
      && claimedThresholdsByTeamId.Keys <= charactersUsedByTeamId.Keys
    }

    ghost function Now(): State
      reads this
    {
      State(charactersUsedByTeamId, claimedThresholdsByTeamId)
    }

    constructor (specs: seq<TeamSpec>, thresholds: seq<string>)
      ensures Valid() && this.specs == specs && this.thresholds == thresholds
      ensures Now() == Initial(specs)
      ensures Fresh(Now()) && forall t :: t in Now().used <==> IsTeam(specs, t)
    {
      this.specs, this.thresholds := specs, thresholds;
      taskChannelIds := set i | 0 <= i < |specs| :: specs[i].taskChannelId;
      teamIdByTaskChannelId := Owners(specs, |specs|);
      teamIdByAgentId := TeamsByAgent(specs);
      charactersUsedByTeamId := map i | 0 <= i < |specs| :: specs[i].teamId := 0;
      claimedThresholdsByTeamId := map i | 0 <= i < |specs| :: specs[i].teamId := {};
    }

    /** The owner of a channel that exactly one team works on. */
    function TeamForTaskChannel(channelId: string): (owner: Option<string>)
      requires Valid()
      reads this
      ensures owner.Some? <==> exists i: nat :: OwnsAlone(specs, channelId, i)
      ensures forall i: nat | OwnsAlone(specs, channelId, i) :: owner == Some(specs[i].teamId)
    {
      OwnedChannels(specs);
      OwnersOwnAlone(specs, channelId);
      if channelId in teamIdByTaskChannelId then Some(teamIdByTaskChannelId[channelId]) else None
    }

    /** What a team has spent this round; `None` for a team that was never declared. */
    method CharactersUsed(teamId: string) returns (used: Option<int>)
      requires Valid()
      ensures used.Some? <==> teamId in Now().used
      ensures used.Some? ==> used.value == Now().used[teamId]
    {
      if teamId !in charactersUsedByTeamId {
        return None;
      }
      return Some(charactersUsedByTeamId[teamId]);
    }

    method RestoreCharactersUsed(teamId: string, characters: int)
      requires Valid()
      modifies this
      ensures Valid() && Now() == Apply(specs, thresholds, old(Now()), Restore(teamId, characters))
      ensures Now() == old(Now()).(used := old(Now()).used[teamId := characters])
    {
      charactersUsedByTeamId := charactersUsedByTeamId[teamId := characters];
    }

    /** Adds the length of the text to the counter of whoever `Payer` names, and changes nothing else. */
    method OnMessage(agentId: string, channelId: string, text: string)
      requires Valid()
      modifies this
      ensures Valid() && Now() == Apply(specs, thresholds, old(Now()), Message(agentId, channelId, text))
      ensures
        var payer, before := Payer(specs, agentId, channelId), old(Now());
        && (payer.None? ==> Now() == before)
        && (payer.Some? ==>
              && payer.value in before.used
              && Now() == before.(used := before.used[payer.value := before.used[payer.value] + |text|]))
    {
      OwnedChannels(specs);
      TeamsByAgentAreLast(specs);
      PayerIsTeam(specs, agentId, channelId);
      if channelId !in taskChannelIds {
        return;
      }
      var teamId := if channelId in teamIdByTaskChannelId then Some(teamIdByTaskChannelId[channelId]) else None;
      if teamId.None? {
        teamId := if agentId in teamIdByAgentId then Some(teamIdByAgentId[agentId]) else None;
      }
      if teamId.None? {
        return;
      }
      charactersUsedByTeamId := charactersUsedByTeamId[
        teamId.value := charactersUsedByTeamId[teamId.value] + |text|];
    }

    /** Granted exactly when the threshold is declared and not claimed yet; every milder one is claimed with it. */
    method ClaimRoundBudgetThreshold(teamId: string, threshold: string) returns (r: Result<bool, ClaimError>)
      requires Valid()
      modifies this
      ensures Valid() && Now() == Apply(specs, thresholds, old(Now()), Claim(teamId, threshold))
      ensures match r
              case Err(UnknownTeam) => teamId !in old(Now()).claimed
              case Err(UnknownThreshold) =>
                && teamId in old(Now()).claimed
                && threshold !in old(Now()).claimed[teamId] && threshold !in thresholds
              case Ok(granted) =>
                && teamId in old(Now()).claimed
                && (granted <==> threshold !in old(Now()).claimed[teamId])
                && (granted ==> threshold in thresholds)
      ensures r != Ok(true) ==> Now() == old(Now())
      ensures r == Ok(true) ==>
                var before := old(Now());
                && Now() == before.(claimed := before.claimed[teamId := Now().claimed[teamId]])
                && forall x :: x in Now().claimed[teamId] <==>
                     x in before.claimed[teamId] || exists k: nat :: AsMild(thresholds, threshold, x, k)
    {
      if teamId !in claimedThresholdsByTeamId {
        return Err(UnknownTeam);
      }
      var claimed := claimedThresholdsByTeamId[teamId];
      if threshold in claimed {
        return Ok(false);
      }
      if threshold !in thresholds {
        return Err(UnknownThreshold);
      }
      var position := Position(thresholds, threshold);
      assert forall k: nat | k < |thresholds| :: position <= k <==> AsMild(thresholds, threshold, thresholds[k], k);
      claimedThresholdsByTeamId := claimedThresholdsByTeamId[
        teamId := claimed + (set i | position <= i < |thresholds| :: thresholds[i])];
      return Ok(true);
    }

    /** Afterwards no team has spent or been told anything. */
    method BeginRound()
      requires Valid()
      modifies this
      ensures Valid() && Now() == Apply(specs, thresholds, old(Now()), RoundBegun)
      ensures StartsOver(old(Now()), Now())
    {
      hide Metered, Owners, TeamsByAgent, IsTeam, Cleared, PartlyCleared, Apply, StartsOver;
      var rest := charactersUsedByTeamId.Keys;
      ghost var before := Now();
      NothingCleared(before);
      while rest != {}
        invariant rest <= before.used.Keys && charactersUsedByTeamId.Keys == before.used.Keys
        invariant taskChannelIds == old(taskChannelIds)
        invariant teamIdByTaskChannelId == old(teamIdByTaskChannelId) && teamIdByAgentId == old(teamIdByAgentId)
        invariant PartlyCleared(before, Now(), rest)
        decreases |rest|
      {
        var teamId :| teamId in rest;
        ClearOneMore(before, Now(), rest, teamId);
        charactersUsedByTeamId := charactersUsedByTeamId[teamId := 0];
        claimedThresholdsByTeamId := claimedThresholdsByTeamId[teamId := {}];
        rest := rest - {teamId};
      }
      AllCleared(before, Now());
      ClearedIsZero(specs, thresholds, before);
    }
  }

  lemma ClearedIsZero(specs: seq<TeamSpec>, thresholds: seq<string>, state: State)
    requires state.claimed.Keys <= state.used.Keys
    ensures Apply(specs, thresholds, state, RoundBegun) == Cleared(state)
    ensures StartsOver(state, Cleared(state))
  {
  }

  // ----- Over any run -----

  /** Where the team's counter was last set: after the last round boundary or restore of it. */
  function LastReset(ops: seq<Op>, teamId: string): (n: nat)
    ensures n <= |ops|
  {
    if ops == [] then 0
    else
      match ops[|ops| - 1]
      case RoundBegun => |ops|
      case Restore(t, _) => if t == teamId then |ops| else LastReset(ops[..|ops| - 1], teamId)
      case _ => LastReset(ops[..|ops| - 1], teamId)
  }

  /** What it was set to there. */
  function ResetTo(ops: seq<Op>, teamId: string): int {
    var n := LastReset(ops, teamId);
    if n > 0 && ops[n - 1].Restore? then ops[n - 1].characters else 0
  }

  /** Who pays for a step, if it is a message somebody pays for. */
  function PayerOf(specs: seq<TeamSpec>, op: Op): Option<string> {
    if op.Message? then Payer(specs, op.agentId, op.channelId) else None
  }

  /** The length of a message the team pays for. */
  function Paid(specs: seq<TeamSpec>, teamId: string, op: Op): int {
    if op.Message? && PayerOf(specs, op) == Some(teamId) then |op.text| else 0
  }

  function PaidBy(specs: seq<TeamSpec>, teamId: string): Op -> int {
    (op: Op) => Paid(specs, teamId, op)
  }

  lemma AppliedCounter(specs: seq<TeamSpec>, thresholds: seq<string>, state: State, op: Op, teamId: string)
    requires teamId in state.used
    ensures
      var after := Apply(specs, thresholds, state, op);
      && teamId in after.used
      && after.used[teamId] ==
         if op.RoundBegun? then 0
         else if op.Restore? && op.teamId == teamId then op.characters
         else state.used[teamId] + Paid(specs, teamId, op)
  {
    hide Payer;
  }

  lemma AppliedClaims(specs: seq<TeamSpec>, thresholds: seq<string>, state: State, op: Op, teamId: string)
    requires teamId in state.claimed && teamId in state.used
    ensures
      var after := Apply(specs, thresholds, state, op);
      && teamId in after.claimed
      && after.claimed[teamId] ==
         if op.RoundBegun? then {}
         else if op.Claim? && op.teamId == teamId && op.threshold in thresholds
               && op.threshold !in state.claimed[teamId]
         then state.claimed[teamId] + Milder(thresholds, Position(thresholds, op.threshold))
         else state.claimed[teamId]
  {
    hide Payer, Milder;
  }

  lemma {:induction false} StateKeys(specs: seq<TeamSpec>, thresholds: seq<string>, ops: seq<Op>)
    ensures forall t | IsTeam(specs, t) ::
              t in After(specs, thresholds, ops).used && t in After(specs, thresholds, ops).claimed
  {
    if ops != [] {
      StateKeys(specs, thresholds, ops[..|ops| - 1]);
    } else {
      forall t | IsTeam(specs, t) ensures t in Initial(specs).used && t in Initial(specs).claimed {
        var i :| 0 <= i < |specs| && specs[i].teamId == t;
      }
    }
  }

  /**
    Conservation. Over any run, a team's counter is what it was last set to plus the length of
    exactly the messages it has paid for since.
   */
  lemma {:induction false} CounterIsWhatWasPaid(specs: seq<TeamSpec>, thresholds: seq<string>, ops: seq<Op>,
        teamId: string)
    requires IsTeam(specs, teamId)
    ensures teamId in After(specs, thresholds, ops).used
    ensures After(specs, thresholds, ops).used[teamId]
            == ResetTo(ops, teamId) + Sum(ops[LastReset(ops, teamId)..], PaidBy(specs, teamId))
  {
    hide Apply, Paid;
    StateKeys(specs, thresholds, ops);
    if ops != [] {
      var n := |ops| - 1;
      var before, last := ops[..n], ops[n];
      StateKeys(specs, thresholds, before);
      AppliedCounter(specs, thresholds, After(specs, thresholds, before), last, teamId);
      CounterIsWhatWasPaid(specs, thresholds, before, teamId);
      var reset := LastReset(ops, teamId);
      if reset < |ops| {
        assert reset == LastReset(before, teamId);
        assert ops[reset..] == before[reset..] + [last];
        SumConcat(before[reset..], [last], PaidBy(specs, teamId));
        assert reset > 0 ==> before[reset - 1] == ops[reset - 1];
      }
    }
  }

  /** The length of a message some team pays for. */
  function ChargedTo(specs: seq<TeamSpec>): Op -> int {
    (op: Op) => if op.Message? && PayerOf(specs, op).Some? then |op.text| else 0
  }

  function CounterOf(state: State): string -> int {
    (t: string) => if t in state.used then state.used[t] else 0
  }

  /** Distinct names that are the teams. */
  ghost predicate NamesTeams(specs: seq<TeamSpec>, ids: seq<string>) {
    && (forall t :: t in ids <==> IsTeam(specs, t))
    && (forall i, j | 0 <= i < j < |ids| :: ids[i] != ids[j])
  }

  function PaidIn(specs: seq<TeamSpec>, ops: seq<Op>): string -> int {
    (t: string) => Sum(ops, PaidBy(specs, t))
  }

  function ShareOf(specs: seq<TeamSpec>, op: Op): string -> int {
    (t: string) => Paid(specs, t, op)
  }

  lemma {:induction false} SumSplits(ids: seq<string>, f: string -> int, g: string -> int, h: string -> int)
    requires forall t :: f(t) == g(t) + h(t)
    ensures Sum(ids, f) == Sum(ids, g) + Sum(ids, h)
  {
    if ids != [] {
      SumSplits(ids[1..], f, g, h);
    }
  }

  lemma {:induction false} SharesOfOne(specs: seq<TeamSpec>, ids: seq<string>, op: Op)
    requires forall i, j | 0 <= i < j < |ids| :: ids[i] != ids[j]
    ensures
      var payer := PayerOf(specs, op);
      Sum(ids, ShareOf(specs, op)) == if op.Message? && payer.Some? && payer.value in ids then |op.text| else 0
  {
    hide PayerOf;
    if ids != [] {
      SharesOfOne(specs, ids[1..], op);
      assert ids == [ids[0]] + ids[1..];
      assert forall i | 1 <= i < |ids| :: ids[1..][i - 1] == ids[i];
    }
  }

  lemma {:induction false} SharesAddUp(specs: seq<TeamSpec>, ids: seq<string>, ops: seq<Op>)
    requires NamesTeams(specs, ids)
    ensures Sum(ids, PaidIn(specs, ops)) == Sum(ops, ChargedTo(specs))
  {
    hide Payer;
    if ops == [] {
      SumOfNothing(ids, PaidIn(specs, ops));
    } else {
      var rest := ops[1..];
      SharesAddUp(specs, ids, rest);
      SumSplits(ids, PaidIn(specs, ops), ShareOf(specs, ops[0]), PaidIn(specs, rest));
      SharesOfOne(specs, ids, ops[0]);
      if ops[0].Message? {
        PayerIsTeam(specs, ops[0].agentId, ops[0].channelId);
      }
    }
  }

  lemma {:induction false} SumOfNothing(ids: seq<string>, f: string -> int)
    requires forall t :: f(t) == 0
    ensures Sum(ids, f) == 0
  {
    if ids != [] {
      SumOfNothing(ids[1..], f);
    }
  }

  lemma {:induction false} SumOfEqual(ids: seq<string>, f: string -> int, g: string -> int)
    requires forall t | t in ids :: f(t) == g(t)
    ensures Sum(ids, f) == Sum(ids, g)
  {
    if ids != [] {
      assert ids == [ids[0]] + ids[1..];
      SumOfEqual(ids[1..], f, g);
    }
  }

  function RoundStart(ops: seq<Op>): (n: nat)
    ensures n <= |ops|
  {
    if ops == [] then 0 else if ops[|ops| - 1].RoundBegun? then |ops| else RoundStart(ops[..|ops| - 1])
  }

  lemma {:induction false} ResetAtRoundStart(ops: seq<Op>, teamId: string)
    requires forall i | RoundStart(ops) <= i < |ops| :: !ops[i].Restore?
    requires RoundStart(ops) == 0 ==> forall i | 0 <= i < |ops| :: !ops[i].Restore?
    ensures LastReset(ops, teamId) == RoundStart(ops) && ResetTo(ops, teamId) == 0
  {
    if ops != [] && !ops[|ops| - 1].RoundBegun? {
      var before := ops[..|ops| - 1];
      forall i | RoundStart(ops) <= i < |before| ensures !before[i].Restore? {
        assert before[i] == ops[i];
      }
      ResetAtRoundStart(before, teamId);
    }
  }

  /** Within a round without restores the teams' counters together are the length of all charged traffic. */
  lemma CountersSumToTraffic(specs: seq<TeamSpec>, thresholds: seq<string>, ops: seq<Op>, ids: seq<string>)
    requires NamesTeams(specs, ids)
    requires forall i | RoundStart(ops) <= i < |ops| :: !ops[i].Restore?
    ensures Sum(ids, CounterOf(After(specs, thresholds, ops))) == Sum(ops[RoundStart(ops)..], ChargedTo(specs))
  {
    hide Payer, After;
    var segment := ops[RoundStart(ops)..];
    SharesAddUp(specs, ids, segment);
    forall t | t in ids ensures CounterOf(After(specs, thresholds, ops))(t) == PaidIn(specs, segment)(t) {
      CounterIsWhatWasPaid(specs, thresholds, ops, t);
      ResetAtRoundStart(ops, t);
    }
    SumOfEqual(ids, CounterOf(After(specs, thresholds, ops)), PaidIn(specs, segment));
  }

  // ----- Announcements -----

  ghost predicate Distinct(thresholds: seq<string>) {
    forall i, j | 0 <= i < j < |thresholds| :: thresholds[i] != thresholds[j]
  }

  /** The team claimed some declared threshold at least as severe as `x` since the round began. */
  ghost predicate ToldThisRound(thresholds: seq<string>, ops: seq<Op>, teamId: string, x: string) {
    exists i | RoundStart(ops) <= i < |ops| ::
      && ops[i].Claim? && ops[i].teamId == teamId && ops[i].threshold in thresholds
      && Position(thresholds, ops[i].threshold) <= Position(thresholds, x)
  }

  lemma MilderMembers(thresholds: seq<string>, k: nat, x: string)
    requires Distinct(thresholds) && k <= |thresholds|
    ensures x in Milder(thresholds, k) <==> x in thresholds && k <= Position(thresholds, x)
  {
    if x in thresholds && k <= Position(thresholds, x) {
      assert thresholds[Position(thresholds, x)] == x;
    }
  }

  /**
    What a team has been told, over any run: exactly the declared thresholds no more severe than
    one it claimed since the round began. It is a suffix of the severity order, and other teams'
    claims do not enter into it.
   */
  lemma {:induction false} ClaimedIsWhatWasTold(specs: seq<TeamSpec>, thresholds: seq<string>, ops: seq<Op>,
                                                teamId: string, x: string)
    requires Distinct(thresholds) && IsTeam(specs, teamId)
    ensures teamId in After(specs, thresholds, ops).claimed
    ensures x in After(specs, thresholds, ops).claimed[teamId]
            <==> x in thresholds && ToldThisRound(thresholds, ops, teamId, x)
  {
    hide Apply, ToldThisRound, Position, Milder;
    StateKeys(specs, thresholds, ops);
    if ops == [] {
      NothingTold(thresholds, teamId, x);
      StateOfNothing(specs, teamId);
    } else {
      var n := |ops| - 1;
      var before, last := ops[..n], ops[n];
      assert ops == before + [last];
      StateKeys(specs, thresholds, before);
      AppliedClaims(specs, thresholds, After(specs, thresholds, before), last, teamId);
      ClaimedIsWhatWasTold(specs, thresholds, before, teamId, x);
      ToldNext(thresholds, before, last, teamId, x);
      if last.Claim? && last.teamId == teamId && last.threshold in thresholds {
        MilderMembers(thresholds, Position(thresholds, last.threshold), x);
        ClaimedIsWhatWasTold(specs, thresholds, before, teamId, last.threshold);
        if ToldThisRound(thresholds, before, teamId, last.threshold)
           && Position(thresholds, last.threshold) <= Position(thresholds, x) {
          ToldIsClosed(thresholds, before, teamId, last.threshold, x);
        }
      }
    }
  }

  lemma NothingTold(thresholds: seq<string>, teamId: string, x: string)
    ensures !ToldThisRound(thresholds, [], teamId, x)
  {
  }

  lemma StateOfNothing(specs: seq<TeamSpec>, teamId: string)
    ensures teamId in Initial(specs).claimed ==> Initial(specs).claimed[teamId] == {}
  {
  }

  lemma ToldNext(thresholds: seq<string>, before: seq<Op>, last: Op, teamId: string, x: string)
    ensures ToldThisRound(thresholds, before + [last], teamId, x) <==>
            && !last.RoundBegun?
            && (ToldThisRound(thresholds, before, teamId, x)
                || (last.Claim? && last.teamId == teamId && last.threshold in thresholds
                    && Position(thresholds, last.threshold) <= Position(thresholds, x)))
  {
    var ops := before + [last];
    assert ops[..|before|] == before;
    if !last.RoundBegun? {
      assert RoundStart(ops) == RoundStart(before);
      if ToldThisRound(thresholds, before, teamId, x) {
        var i :| RoundStart(before) <= i < |before| && before[i].Claim? && before[i].teamId == teamId
                 && before[i].threshold in thresholds
                 && Position(thresholds, before[i].threshold) <= Position(thresholds, x);
        assert ops[i] == before[i];
      }
      if last.Claim? {
        assert ops[|before|] == last;
      }
    }
  }

  lemma ToldIsClosed(thresholds: seq<string>, ops: seq<Op>, teamId: string, severe: string, mild: string)
    requires ToldThisRound(thresholds, ops, teamId, severe)
    requires Position(thresholds, severe) <= Position(thresholds, mild)
    ensures ToldThisRound(thresholds, ops, teamId, mild)
  {
  }

  /** The claim at `i` is answered True. */
  ghost predicate Granted(specs: seq<TeamSpec>, thresholds: seq<string>, ops: seq<Op>, i: nat, teamId: string)
    requires i < |ops|
  {
    && ops[i].Claim? && ops[i].teamId == teamId && ops[i].threshold in thresholds
    && teamId in After(specs, thresholds, ops[..i]).claimed
    && ops[i].threshold !in After(specs, thresholds, ops[..i]).claimed[teamId]
  }

  lemma {:induction false} RoundStartIs(ops: seq<Op>, i: nat)
    requires i < |ops| && forall k | i <= k < |ops| :: !ops[k].RoundBegun?
    ensures RoundStart(ops) <= i
  {
    var n := |ops| - 1;
    if i < n {
      assert forall k | i <= k < n :: ops[..n][k] == ops[k];
      RoundStartIs(ops[..n], i);
    } else {
      assert RoundStart(ops) == RoundStart(ops[..n]);
    }
  }

  /**
    Within one round, the claims of a team that are answered True grow strictly more severe: none
    repeats, and no milder one follows a harsher one.
   */
  lemma GrantsGrowMoreSevere(specs: seq<TeamSpec>, thresholds: seq<string>, ops: seq<Op>, i: nat, j: nat,
        teamId: string)
    requires Distinct(thresholds) && IsTeam(specs, teamId)
    requires i < j < |ops| && forall k | i < k < j :: !ops[k].RoundBegun?
    requires Granted(specs, thresholds, ops, i, teamId) && Granted(specs, thresholds, ops, j, teamId)
    ensures Position(thresholds, ops[j].threshold) < Position(thresholds, ops[i].threshold)
  {
    var before := ops[..j];
    ClaimedIsWhatWasTold(specs, thresholds, before, teamId, ops[j].threshold);
    assert before[i] == ops[i];
    RoundStartIs(before, i);
    assert !ToldThisRound(thresholds, before, teamId, ops[j].threshold);
  }

  /** A claim is answered True exactly when nothing as severe was claimed before it in the round. */
  lemma GrantedExactlyWhenOwed(specs: seq<TeamSpec>, thresholds: seq<string>, ops: seq<Op>, i: nat, teamId: string)
    requires Distinct(thresholds) && IsTeam(specs, teamId)
    requires i < |ops| && ops[i].Claim? && ops[i].teamId == teamId && ops[i].threshold in thresholds
    ensures Granted(specs, thresholds, ops, i, teamId)
            <==> !ToldThisRound(thresholds, ops[..i], teamId, ops[i].threshold)
  {
    ClaimedIsWhatWasTold(specs, thresholds, ops[..i], teamId, ops[i].threshold);
  }
}
