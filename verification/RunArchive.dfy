/** Claiming run directories and moving runs to the trash. */
module RunArchive {
  import opened Wrappers
  import opened Decimal

  datatype MissingRun = MissingRun(name: string)

  /** The destinations tried for a trashed run: its name, then its name with 1, 2, 3 and so on. */
  function Destination(name: string, k: nat): string {
    if k == 0 then name else name + "." + Show(k)
  }

  lemma DestinationsAre(name: string, k: nat)
    ensures Destination(name, 0) == name
    ensures k > 0 ==> Destination(name, k) == name + "." + Show(k)
  {
  }

  lemma DestinationsAreDistinct(name: string, i: nat, j: nat)
    requires Destination(name, i) == Destination(name, j)
    ensures i == j
  {
    var a, b := Destination(name, i), Destination(name, j);
    if i > 0 && j > 0 {
      assert a[|name| + 1..] == Show(i) && b[|name| + 1..] == Show(j);
      ShowInjective(i, j);
    }
  }

  /** The first free destination. */
  ghost predicate FirstFree(trash: set<string>, name: string, destination: string) {
    exists k: nat ::
      destination == Destination(name, k) && destination !in trash
      && forall j: nat | j < k :: Destination(name, j) in trash
  }

  /** The first `k` destinations. */
  ghost predicate Tried(name: string, k: nat, tried: set<string>) {
    forall d :: d in tried <==> exists j: nat | j < k :: d == Destination(name, j)
  }

  lemma NothingTried(name: string)
    ensures Tried(name, 0, {})
  {
  }

  /** A destination that is taken was not tried before, so fewer taken names are left: the search ends. */
  lemma TriedOneMore(name: string, k: nat, tried: set<string>, trash: set<string>)
    requires Tried(name, k, tried) && tried <= trash && Destination(name, k) in trash
    ensures Tried(name, k + 1, tried + {Destination(name, k)})
    ensures |trash - (tried + {Destination(name, k)})| < |trash - tried|
  {
    var d := Destination(name, k);
    forall j: nat | j < k ensures Destination(name, j) != d {
      if Destination(name, j) == d {
        DestinationsAreDistinct(name, j, k);
      }
    }
    hide Destination;
    assert trash - tried == (trash - (tried + {d})) + {d};
  }

  lemma FreeIsFirst(name: string, k: nat, tried: set<string>, trash: set<string>)
    requires Tried(name, k, tried) && tried <= trash && Destination(name, k) !in trash
    ensures FirstFree(trash, name, Destination(name, k))
  {
    hide Destination;
    forall j: nat | j < k ensures Destination(name, j) in trash {
      assert Destination(name, j) in tried;
    }
  }

  /** One scenario's runs and its trash. */
  class RunsDirectory<R(!new)> {
    var live: map<string, R>
    var trash: map<string, R>

    constructor (live: map<string, R>, trash: map<string, R>)
      ensures this.live == live && this.trash == trash
    {
      this.live, this.trash := live, trash;
    }

    /** Move a run into the trash under the first free name; the search for one always ends. */
    method MoveRunToTrash(name: string) returns (r: Result<string, MissingRun>)
      modifies this
      ensures r.Ok? <==> name in old(live)
      ensures r.Ok? ==>
                && FirstFree(old(trash).Keys, name, r.value)
                && trash == old(trash)[r.value := old(live)[name]]
                && live == old(live) - {name}
      ensures r.Err? ==> trash == old(trash) && live == old(live)
      ensures TrashStep(old(trash), trash)
    {
      hide Destination, Show, Tried, FirstFree;
      var destination := name;
      var collisionIndex := 1;
      ghost var tried: set<string> := {};
      DestinationsAre(name, 0);
      NothingTried(name);
      while destination in trash
        invariant trash == old(trash) && live == old(live)
        invariant collisionIndex >= 1 && destination == Destination(name, collisionIndex - 1)
        invariant Tried(name, collisionIndex - 1, tried) && tried <= trash.Keys
        decreases |trash.Keys - tried|
      {
        TriedOneMore(name, collisionIndex - 1, tried, trash.Keys);
        tried := tried + {destination};
        DestinationsAre(name, collisionIndex);
        destination := name + "." + Show(collisionIndex);
        collisionIndex := collisionIndex + 1;
      }
      if name !in live {
        return Err(MissingRun(name));
      }
      FreeIsFirst(name, collisionIndex - 1, tried, trash.Keys);
      trash := trash[destination := live[name]];
      live := live - {name};
      return Ok(destination);
    }
  }

  /** A deletion adds one entry under a free name; between deletions the trash is left alone. */
  ghost predicate TrashStep<R(!new)>(before: map<string, R>, after: map<string, R>) {
    || after == before
    || exists name, d :: FirstFree(before.Keys, name, d) && d in after && after == before[d := after[d]]
  }

  /** Over any run of deletions no earlier trashed run is lost or replaced. */
  lemma {:induction false} NoTrashedRunIsLost<R(!new)>(history: seq<map<string, R>>, i: nat, j: nat)
    requires i <= j < |history|
    requires forall k | i <= k < j :: TrashStep(history[k], history[k + 1])
    ensures forall d | d in history[i] :: d in history[j] && history[j][d] == history[i][d]
    decreases j - i
  {
    if i < j {
      NoTrashedRunIsLost(history, i, j - 1);
      assert TrashStep(history[j - 1], history[j - 1 + 1]);
    }
  }

  // ----- Claiming a directory -----

  /**
    What happens to a scenario's directories: somebody tries to create the one a clock names, or a
    run is moved away.
   */
  datatype Happening = Attempt(clock: int) | MovedAway(name: string)

  function NameAt(happening: Happening): string {
    match happening
    case Attempt(clock) => Show(clock)
    case MovedAway(name) => name
  }

  /** The directories there after `history`; a failed attempt changes nothing. */
  function Existing(initial: set<string>, history: seq<Happening>): set<string> {
    if history == [] then initial
    else
      var before, last := Existing(initial, history[..|history| - 1]), history[|history| - 1];
      if last.Attempt? then before + {NameAt(last)} else before - {NameAt(last)}
  }

  /** The attempt at `i` creates its directory, so the claim returns it. */
  predicate Claims(initial: set<string>, history: seq<Happening>, i: nat)
    requires i < |history|
  {
    history[i].Attempt? && NameAt(history[i]) !in Existing(initial, history[..i])
  }

  /** What happens during a claim: before each of its attempts, whatever others do. */
  function Segment(clocks: seq<int>, others: seq<seq<Happening>>): seq<Happening>
    requires |clocks| == |others|
  {
    if clocks == [] then []
    else
      var n := |clocks| - 1;
      Segment(clocks[..n], others[..n]) + others[n] + [Attempt(clocks[n])]
  }

  /** The segment of a claim in which the first `attempts` readings were used. */
  function SegmentOf(clocks: seq<int>, others: seq<seq<Happening>>, attempts: nat): seq<Happening>
    requires |clocks| == |others| && attempts <= |clocks|
  {
    Segment(clocks[..attempts], others[..attempts])
  }

  /** Where in its segment a claim's `k`-th attempt stands. */
  function AttemptAt(clocks: seq<int>, others: seq<seq<Happening>>, k: nat): int
    requires |clocks| == |others| && k < |clocks|
  {
    |SegmentOf(clocks, others, k + 1)| - 1
  }

  lemma SegmentNext(clocks: seq<int>, others: seq<seq<Happening>>, k: nat)
    requires |clocks| == |others| && k < |clocks|
    ensures SegmentOf(clocks, others, k + 1) == SegmentOf(clocks, others, k) + others[k] + [Attempt(clocks[k])]
  {
    assert clocks[..k + 1][..k] == clocks[..k] && others[..k + 1][..k] == others[..k];
  }

  lemma {:induction false} ExistingConcat(initial: set<string>, history: seq<Happening>, more: seq<Happening>)
    ensures Existing(initial, history + more) == Existing(Existing(initial, history), more)
  {
    if more == [] {
      assert history + more == history;
    } else {
      hide NameAt;
      var n := |more| - 1;
      ExistingConcat(initial, history, more[..n]);
      assert (history + more)[..|history + more| - 1] == history + more[..n];
    }
  }

  lemma ExistingNext(initial: set<string>, history: seq<Happening>, happening: Happening)
    ensures Existing(initial, history + [happening])
            == if happening.Attempt? then Existing(initial, history) + {NameAt(happening)}
               else Existing(initial, history) - {NameAt(happening)}
  {
    assert (history + [happening])[..|history|] == history;
  }

  /** Whether an attempt succeeds is read the same in a segment and in the whole history around it. */
  lemma ClaimsInHistory(initial: set<string>, before: seq<Happening>, segment: seq<Happening>, later: seq<Happening>,
        i: nat)
    requires i < |segment|
    ensures Claims(initial, before + segment + later, |before| + i) <==> Claims(Existing(initial, before), segment, i)
  {
    var history := before + segment + later;
    assert history[|before| + i] == segment[i];
    assert history[..|before| + i] == before + segment[..i];
    ExistingConcat(initial, before, segment[..i]);
  }

  /** Let others do `happenings` to a scenario's runs; what they create is `empty`. */
  method LetHappen<R(!new)>(directory: RunsDirectory<R>, empty: R, happenings: seq<Happening>)
    modifies directory
    ensures directory.trash == old(directory.trash)
    ensures directory.live.Keys == Existing(old(directory.live.Keys), happenings)
  {
    hide NameAt;
    for i := 0 to |happenings|
      invariant directory.trash == old(directory.trash)
      invariant directory.live.Keys == Existing(old(directory.live.Keys), happenings[..i])
    {
      assert happenings[..i + 1] == happenings[..i] + [happenings[i]];
      ExistingNext(old(directory.live.Keys), happenings[..i], happenings[i]);
      var name := NameAt(happenings[i]);
      if happenings[i].MovedAway? {
        directory.live := directory.live - {name};
      } else if name !in directory.live {
        directory.live := directory.live[name := empty];
      }
    }
    assert happenings[..|happenings|] == happenings;
  }

  /**
    Create a run directory named by the clock. `clocks` are the readings of the attempts there is
    time for, and `others` what others do before each of them. The claim and the others together
    are a history in which the claim's last attempt is the first of its own to succeed.
   */
  method ClaimRunDir<R(!new)>(directory: RunsDirectory<R>, empty: R, clocks: seq<int>, others: seq<seq<Happening>>)
    returns (claimed: Option<string>, ghost attempts: nat)
    requires |others| == |clocks|
    modifies directory
    ensures attempts <= |clocks| && directory.trash == old(directory.trash)
    ensures directory.live.Keys == Existing(old(directory.live.Keys), SegmentOf(clocks, others, attempts))
    ensures claimed.Some? ==>
              && 0 < attempts && claimed.value == Show(clocks[attempts - 1])
              && Succeeds(old(directory.live.Keys), clocks, others, attempts - 1)
    ensures claimed.None? ==> attempts == |clocks|
    ensures forall k | 0 <= k < (if claimed.Some? then attempts - 1 else attempts) ::
              !Succeeds(old(directory.live.Keys), clocks, others, k)
  {
    attempts := 0;
    ghost var initial := directory.live.Keys;
    for i := 0 to |clocks|
      invariant attempts == i && directory.trash == old(directory.trash)
      invariant directory.live.Keys == Existing(initial, SegmentOf(clocks, others, i))
      invariant forall k | 0 <= k < i :: !Succeeds(initial, clocks, others, k)
    {
      hide Show, Existing, SegmentOf, Succeeds;
      LetHappen(directory, empty, others[i]);
      ExistingConcat(initial, SegmentOf(clocks, others, i), others[i]);
      SegmentNext(clocks, others, i);
      ExistingNext(initial, SegmentOf(clocks, others, i) + others[i], Attempt(clocks[i]));
      SucceedsIf(initial, clocks, others, i);
      attempts := i + 1;
      var candidate := Show(clocks[i]);
      if candidate !in directory.live {
        directory.live := directory.live[candidate := empty];
        return Some(candidate), attempts;
      }
    }
    return None, attempts;
  }

  /** The claim's `k`-th attempt succeeds. */
  predicate Succeeds(initial: set<string>, clocks: seq<int>, others: seq<seq<Happening>>, k: nat)
    requires |clocks| == |others| && k < |clocks|
  {
    SegmentNext(clocks, others, k);
    Claims(initial, SegmentOf(clocks, others, k + 1), AttemptAt(clocks, others, k))
  }

  lemma SucceedsIf(initial: set<string>, clocks: seq<int>, others: seq<seq<Happening>>, k: nat)
    requires |clocks| == |others| && k < |clocks|
    ensures Succeeds(initial, clocks, others, k)
            <==> Show(clocks[k]) !in Existing(initial, SegmentOf(clocks, others, k) + others[k])
  {
    hide Show, Existing;
    SegmentNext(clocks, others, k);
    var segment, before := SegmentOf(clocks, others, k + 1), SegmentOf(clocks, others, k) + others[k];
    assert segment[..|before|] == before && segment[|before|] == Attempt(clocks[k]);
  }

  lemma {:induction false} StaysUntilMoved(initial: set<string>, history: seq<Happening>, name: string, i: nat, j: nat)
    requires i <= j <= |history| && name in Existing(initial, history[..i])
    requires forall k | i <= k < j :: history[k] != MovedAway(name)
    ensures name in Existing(initial, history[..j])
    decreases j - i
  {
    if i < j {
      StaysUntilMoved(initial, history, name, i, j - 1);
      assert history[..j][..j - 1] == history[..j - 1];
    }
  }

  /**
    Whatever the claimers' clocks read and however their attempts interleave, two attempts create
    the same directory only if the run in it was moved away in between.
   */
  lemma ClaimsAreUnique(initial: set<string>, history: seq<Happening>, i: nat, j: nat)
    requires i < j < |history| && Claims(initial, history, i) && Claims(initial, history, j)
    requires forall k | i < k < j :: history[k] != MovedAway(NameAt(history[i]))
    ensures NameAt(history[i]) != NameAt(history[j]) && history[i] != history[j]
  {
    assert history[..i + 1][..i] == history[..i];
    StaysUntilMoved(initial, history, NameAt(history[i]), i + 1, j);
  }
}
