/** Which of a run's events were copied from its source. */
module CopiedEvents {
  import opened Wrappers
  import opened Sorting

  datatype MissingBoundary = MissingBoundary(targetEventId: string)

  ghost function Ids<E>(events: seq<E>, idOf: E -> string): set<string> {
    set e | e in events :: idOf(e)
  }

  /** `ids` are those of a prefix that ends at the first event named `target`. */
  ghost predicate IsThrough<E>(events: seq<E>, idOf: E -> string, target: string, ids: set<string>) {
    exists n | 0 <= n < |events| ::
      idOf(events[n]) == target && target !in Ids(events[..n], idOf) && ids == Ids(events[..n + 1], idOf)
  }

  method IdsThrough<E>(events: seq<E>, idOf: E -> string, target: string)
    returns (r: Result<set<string>, MissingBoundary>)
    ensures r.Err? <==> target !in Ids(events, idOf)
    ensures r.Ok? ==> IsThrough(events, idOf, target, r.value)
  {
    var ids: set<string> := {};
    for i := 0 to |events|
      invariant ids == Ids(events[..i], idOf)
      invariant target !in ids
    {
      ids := ids + {idOf(events[i])};
      assert events[..i + 1] == events[..i] + [events[i]];
      if idOf(events[i]) == target {
        return Ok(ids);
      }
    }
    assert events[..|events|] == events;
    return Err(MissingBoundary(target));
  }

  /** No event is copied unless every event before it is. */
  ghost predicate CopiedFirst<E>(events: seq<E>, idOf: E -> string, copied: set<string>) {
    SortedBy(events, CopiedBefore(idOf, copied))
  }

  function CopiedBefore<E>(idOf: E -> string, copied: set<string>): (E, E) -> bool {
    (x, y) => idOf(y) in copied ==> idOf(x) in copied
  }

  /** Copied ids taken from a prefix of a log with distinct ids mark a prefix of every selection. */
  lemma PrefixIsCopiedFirst<E>(events: seq<E>, idOf: E -> string, n: nat, keep: E -> bool)
    requires n <= |events|
    requires forall i, j | 0 <= i < j < |events| :: idOf(events[i]) != idOf(events[j])
    ensures CopiedFirst(Filter(events, keep), idOf, Ids(events[..n], idOf))
  {
    var copied := Ids(events[..n], idOf);
    forall i, j | 0 <= i < j < |events| ensures CopiedBefore(idOf, copied)(events[i], events[j]) {
      if idOf(events[j]) in copied {
        var e :| e in events[..n] && idOf(e) == idOf(events[j]);
        var m :| 0 <= m < n && events[..n][m] == e;
        assert events[m] == e;
        assert m == j;
        assert events[..n][i] == events[i];
      }
    }
    FilterKeepsOrder(events, keep, CopiedBefore(idOf, copied));
  }
}
