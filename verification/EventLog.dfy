/** Loading a run's log: strict reading, rounds filled in, events of unknown types skipped. */
module EventLog {
  import opened Wrappers
  import opened Sorting
  import opened JsonLines

  const EVENT_TYPE := "event_type"
  const EVENT_ID := "event_id"
  const ROUND_NUMBER := "round_number"
  const MESSAGE := "message"
  const ROUND_ADVANCED := "round_advanced"
  const MESSAGE_SENT := "message_sent"

  /** The event classes of this build: their type names, their validation, and an event's id. */
  datatype Schema<!E> = Schema(known: set<string>, validate: Record -> Option<E>, idOf: E -> string)

  // ----- Rounds -----

  /** What the program counts as an integer; a boolean is one. */
  predicate IsInteger(value: Json) {
    value.Integer? || value.Bool?
  }

  /** An event that opened a round and says which. */
  predicate Advances(record: Record) {
    && EVENT_TYPE in record && record[EVENT_TYPE] == String(ROUND_ADVANCED)
    && ROUND_NUMBER in record && IsInteger(record[ROUND_NUMBER])
  }

  /** The index of the latest record that opened a round, or -1. */
  function LastAdvance(records: seq<Record>): (j: int)
    ensures -1 <= j < |records|
    ensures j >= 0 ==> Advances(records[j])
    ensures forall i | j < i < |records| :: !Advances(records[i])
  {
    if records == [] then -1
    else if Advances(records[|records| - 1]) then |records| - 1
    else LastAdvance(records[..|records| - 1])
  }

  /** The round the latest of `records` belongs to: the one most recently opened, 0 before the first. */
  function RoundAfter(records: seq<Record>): Json {
    var j := LastAdvance(records);
    if j < 0 then Integer(0) else records[j][ROUND_NUMBER]
  }

  function WithRound(record: Record, round: Json): Record {
    if ROUND_NUMBER in record then record else record[ROUND_NUMBER := round]
  }

  /** The `k`-th record; where it has no round, with that of the latest record that opened one. */
  function Backfilled(records: seq<Record>, k: nat): Record
    requires k < |records|
  {
    WithRound(records[k], RoundAfter(records[..k + 1]))
  }

  lemma RoundAfterNext(records: seq<Record>, record: Record)
    ensures RoundAfter(records + [record]) == if Advances(record) then record[ROUND_NUMBER] else RoundAfter(records)
  {
    assert (records + [record])[..|records|] == records;
    var j := LastAdvance(records + [record]);
    if !Advances(record) && j >= 0 {
      assert (records + [record])[j] == records[j];
    }
  }

  /** The running round of one pass over a log, after the records in `seen`. */
  class RoundNumberBackfill {
    var runningRound: Json
    ghost var seen: seq<Record>

    constructor ()
      ensures seen == [] && Valid()
    {
      runningRound := Integer(0);
      seen := [];
    }

    ghost predicate Valid()
      reads this
    {
      runningRound == RoundAfter(seen)
    }

    method Observe(record: Record)
      requires Valid()
      modifies this
      ensures Valid() && seen == old(seen) + [record]
    {
      RoundAfterNext(seen, record);
      if EVENT_TYPE in record && record[EVENT_TYPE] == String(ROUND_ADVANCED) {
        if ROUND_NUMBER in record && IsInteger(record[ROUND_NUMBER]) {
          runningRound := record[ROUND_NUMBER];
        }
      }
      seen := seen + [record];
    }

    method Apply(record: Record) returns (filled: Record)
      requires Valid()
      modifies this
      ensures Valid() && seen == old(seen) + [record]
      ensures filled == Backfilled(seen, |seen| - 1)
    {
      Observe(record);
      assert seen[..|seen|] == seen;
      if ROUND_NUMBER in record {
        return record;
      }
      return record[ROUND_NUMBER := runningRound];
    }
  }

  // ----- Parsing -----

  /** The round on a nested message defaults to its event's. */
  function ParseInput(record: Record): Record {
    var raw := WithRound(record, Integer(0));
    if EVENT_TYPE in raw && raw[EVENT_TYPE] == String(MESSAGE_SENT) && MESSAGE in raw && raw[MESSAGE].Object?
       && ROUND_NUMBER !in raw[MESSAGE].fields
    then raw[MESSAGE := Object(raw[MESSAGE].fields[ROUND_NUMBER := raw[ROUND_NUMBER]])]
    else raw
  }

  function ParseEvent<E>(schema: Schema<E>, record: Record): Option<E> {
    schema.validate(ParseInput(record))
  }

  predicate UnknownType<E>(schema: Schema<E>, record: Record) {
    EVENT_TYPE in record && record[EVENT_TYPE].String? &&
    match record[EVENT_TYPE] case String(name) => name !in schema.known case _ => false
  }

  function KnownType<E>(schema: Schema<E>): Record -> bool {
    (record: Record) => !UnknownType(schema, record)
  }

  /** Every record of the log with its round filled in, whether or not its type is known. */
  function BackfillAll(records: seq<Record>): seq<Record> {
    seq(|records|, k requires 0 <= k < |records| => Backfilled(records, k))
  }

  function ParseAll<E>(schema: Schema<E>, records: seq<Record>): Option<seq<E>> {
    if records == [] then Some([])
    else
      match (ParseAll(schema, records[..|records| - 1]), ParseEvent(schema, records[|records| - 1]))
      case (Some(events), Some(event)) => Some(events + [event])
      case _ => None
  }

  /** What a log's records load to: all of them filled in, then those of a known type, parsed. */
  function LoadedEvents<E>(schema: Schema<E>, records: seq<Record>): Option<seq<E>> {
    ParseAll(schema, Filter(BackfillAll(records), KnownType(schema)))
  }

  lemma BackfillAllNext(records: seq<Record>, record: Record)
    ensures BackfillAll(records + [record])
            == BackfillAll(records) + [WithRound(record, RoundAfter(records + [record]))]
  {
    var all := records + [record];
    assert all[..|all|] == all;
    forall k | 0 <= k < |records| ensures Backfilled(all, k) == Backfilled(records, k) {
      assert all[..k + 1] == records[..k + 1];
    }
  }

  lemma ParseAllNext<E>(schema: Schema<E>, records: seq<Record>, record: Record)
    ensures ParseAll(schema, records + [record]) ==
            match (ParseAll(schema, records), ParseEvent(schema, record))
            case (Some(events), Some(event)) => Some(events + [event])
            case _ => None
  {
    assert (records + [record])[..|records|] == records;
  }

  lemma RoundDoesNotChangeType<E>(schema: Schema<E>, record: Record, round: Json)
    ensures UnknownType(schema, WithRound(record, round)) <==> UnknownType(schema, record)
  {
    assert |EVENT_TYPE| != |ROUND_NUMBER|;
  }

  /** One more record: skipped when its type is unknown, otherwise parsed and appended. */
  lemma LoadedEventsNext<E>(schema: Schema<E>, records: seq<Record>, record: Record)
    ensures
      var filled := WithRound(record, RoundAfter(records + [record]));
      LoadedEvents(schema, records + [record]) ==
        if UnknownType(schema, record) then LoadedEvents(schema, records)
        else
          match (LoadedEvents(schema, records), ParseEvent(schema, filled))
          case (Some(events), Some(event)) => Some(events + [event])
          case _ => None
  {
    hide UnknownType, ParseAll, BackfillAll, Filter, WithRound, ParseEvent;
    var filled := WithRound(record, RoundAfter(records + [record]));
    BackfillAllNext(records, record);
    RoundDoesNotChangeType(schema, record, RoundAfter(records + [record]));
    FilterSnoc(BackfillAll(records), filled, KnownType(schema));
    ParseAllNext(schema, Filter(BackfillAll(records), KnownType(schema)), filled);
    var before := Filter(BackfillAll(records), KnownType(schema));
    assert before + [] == before;
  }

  // ----- What a loaded event was parsed from -----

  /** What validation is given for the `k`-th record of a log. */
  function InputAt(records: seq<Record>, k: nat): Record
    requires k < |records|
  {
    ParseInput(Backfilled(records, k))
  }

  /** The record says that it opened `round`, an integer or a boolean. */
  ghost predicate Opened(record: Record, round: Json) {
    && "event_type" in record && record["event_type"] == String("round_advanced")
    && "round_number" in record && record["round_number"] == round && (round.Integer? || round.Bool?)
  }

  /** The record's own round, or that of the latest record at or before it that opened one, or 0. */
  ghost predicate IsRoundOf(records: seq<Record>, k: nat, round: Json)
    requires k < |records|
  {
    if "round_number" in records[k] then round == records[k]["round_number"]
    else
      || (round == Integer(0) && forall i | 0 <= i <= k :: forall other :: !Opened(records[i], other))
      || (exists j | 0 <= j <= k ::
            Opened(records[j], round) && forall i | j < i <= k :: forall other :: !Opened(records[i], other))
  }

  predicate SendsMessage(record: Record) {
    && "event_type" in record && record["event_type"] == String("message_sent")
    && "message" in record && record["message"].Object?
  }

  /** The input is the record with its round, and with a round on the message it sends; nothing else changed. */
  ghost predicate IsInputOf(records: seq<Record>, k: nat, input: Record)
    requires k < |records|
  {
    var record := records[k];
    && input.Keys == record.Keys + {"round_number"}
    && IsRoundOf(records, k, input["round_number"])
    && (forall key | key in record && key != "round_number" && key != "message" :: input[key] == record[key])
    && ("message" in record && !SendsMessage(record) ==> input["message"] == record["message"])
    && (SendsMessage(record) ==>
          var sent := record["message"].fields;
          input["message"] ==
            Object(if "round_number" in sent then sent else sent["round_number" := input["round_number"]]))
  }

  lemma RoundIsFilledIn(records: seq<Record>, k: nat)
    requires k < |records|
    ensures ROUND_NUMBER in Backfilled(records, k) && IsRoundOf(records, k, Backfilled(records, k)[ROUND_NUMBER])
  {
    var upTo := records[..k + 1];
    var j := LastAdvance(upTo);
    assert forall i | 0 <= i <= k :: upTo[i] == records[i];
    forall i | 0 <= i <= k ensures Advances(records[i]) <==> exists round :: Opened(records[i], round) {
      AdvanceOpens(records[i]);
    }
    if j >= 0 {
      assert Advances(records[j]);
      AdvanceOpens(records[j]);
    }
  }

  lemma AdvanceOpens(record: Record)
    ensures Advances(record) <==> exists round :: Opened(record, round)
    ensures Advances(record) ==> Opened(record, record[ROUND_NUMBER])
  {
    if Advances(record) {
      assert Opened(record, record[ROUND_NUMBER]);
    }
  }

  lemma InputIsFilledIn(records: seq<Record>, k: nat)
    requires k < |records|
    ensures IsInputOf(records, k, InputAt(records, k))
  {
    hide IsRoundOf, RoundAfter;
    RoundIsFilledIn(records, k);
    assert |MESSAGE| != |ROUND_NUMBER| && |EVENT_TYPE| != |ROUND_NUMBER| && |EVENT_TYPE| != |MESSAGE|;
  }

  /** Where the records of a known type stand. */
  function KnownPlaces<E>(schema: Schema<E>, records: seq<Record>): seq<nat> {
    if records == [] then []
    else
      var n := |records| - 1;
      KnownPlaces(schema, records[..n]) + (if UnknownType(schema, records[n]) then [] else [n])
  }

  /** The record's type is a text that names no event class of this build. */
  ghost predicate NamesNoClass<E>(schema: Schema<E>, record: Record) {
    exists name :: "event_type" in record && record["event_type"] == String(name) && name !in schema.known
  }

  lemma UnknownNamesNoClass<E>(schema: Schema<E>, record: Record)
    ensures UnknownType(schema, record) <==> NamesNoClass(schema, record)
  {
  }

  /** `places` are the places of exactly the records that are to be parsed, in order. */
  ghost predicate AreKnownPlaces<E>(schema: Schema<E>, records: seq<Record>, places: seq<nat>) {
    && (forall i | 0 <= i < |places| :: places[i] < |records| && !NamesNoClass(schema, records[places[i]]))
    && (forall k | 0 <= k < |records| && !NamesNoClass(schema, records[k]) :: k in places)
    && (forall i, j | 0 <= i < j < |places| :: places[i] < places[j])
  }

  lemma KnownPlacesNext<E>(schema: Schema<E>, records: seq<Record>, last: Record, places: seq<nat>)
    requires AreKnownPlaces(schema, records, places)
    ensures AreKnownPlaces(schema, records + [last], places + (if UnknownType(schema, last) then [] else [|records|]))
  {
    hide UnknownType, NamesNoClass;
    UnknownNamesNoClass(schema, last);
    var all := records + [last];
    var after := places + (if UnknownType(schema, last) then [] else [|records|]);
    forall i | 0 <= i < |after| ensures after[i] < |all| && !NamesNoClass(schema, all[after[i]]) {
      if i < |places| {
        assert after[i] == places[i] && all[places[i]] == records[places[i]];
      }
    }
    forall k | 0 <= k < |all| && !NamesNoClass(schema, all[k]) ensures k in after {
      if k < |records| {
        assert all[k] == records[k];
        assert k in places;
      } else {
        assert after[|places|] == k;
      }
    }
  }

  lemma {:induction false} KnownPlacesAreKnown<E>(schema: Schema<E>, records: seq<Record>)
    ensures AreKnownPlaces(schema, records, KnownPlaces(schema, records))
  {
    if records != [] {
      hide UnknownType, AreKnownPlaces;
      var n := |records| - 1;
      assert records == records[..n] + [records[n]];
      KnownPlacesAreKnown(schema, records[..n]);
      KnownPlacesNext(schema, records[..n], records[n], KnownPlaces(schema, records[..n]));
    }
  }

  /** `events` are the known records, each validated from its own input. */
  ghost predicate LoadedFrom<E>(schema: Schema<E>, records: seq<Record>, events: seq<E>) {
    var places := KnownPlaces(schema, records);
    && AreKnownPlaces(schema, records, places)
    && |events| == |places|
    && forall i | 0 <= i < |events| ::
         && IsInputOf(records, places[i], InputAt(records, places[i]))
         && schema.validate(InputAt(records, places[i])) == Some(events[i])
  }

  /**
    The loaded events are the records of known types, one event each and in order, each validated
    from the record with its round filled in: its own, or else the one most recently opened.
   */
  lemma {:induction false} LoadedOneByOne<E>(schema: Schema<E>, records: seq<Record>)
    requires LoadedEvents(schema, records).Some?
    ensures LoadedFrom(schema, records, LoadedEvents(schema, records).value)
  {
    hide LoadedEvents, UnknownType, RoundAfter, WithRound, ParseInput, IsInputOf;
    KnownPlacesAreKnown(schema, records);
    if records == [] {
      LoadedNothing(schema);
    } else {
      var n := |records| - 1;
      var before, last := records[..n], records[n];
      assert records == before + [last];
      LoadedEventsNext(schema, before, last);
      LoadedOneByOne(schema, before);
      assert records[..n + 1] == records;
      assert InputAt(records, n) == ParseInput(WithRound(last, RoundAfter(records)));
      InputIsFilledIn(records, n);
      forall k | 0 <= k < n
        ensures InputAt(records, k) == InputAt(before, k) && IsInputOf(records, k, InputAt(records, k))
      {
        assert records[..k + 1] == before[..k + 1];
        InputIsFilledIn(records, k);
      }
    }
  }

  /** Records fail to load only on one of a known type, filled in like every other, that does not validate. */
  lemma {:induction false} LoadFailsOnInvalidRecord<E>(schema: Schema<E>, records: seq<Record>) returns (k: nat)
    requires LoadedEvents(schema, records).None?
    ensures k < |records| && !NamesNoClass(schema, records[k])
    ensures IsInputOf(records, k, InputAt(records, k)) && schema.validate(InputAt(records, k)) == None
  {
    hide LoadedEvents, UnknownType, RoundAfter, WithRound, ParseInput, IsInputOf, NamesNoClass;
    LoadedNothing(schema);
    assert records != [];
    var n := |records| - 1;
    var before, last := records[..n], records[n];
    assert records == before + [last];
    LoadedEventsNext(schema, before, last);
    UnknownNamesNoClass(schema, last);
    if LoadedEvents(schema, before).None? {
      k := LoadFailsOnInvalidRecord(schema, before);
      assert records[..k + 1] == before[..k + 1];
      assert InputAt(records, k) == InputAt(before, k);
    } else {
      k := n;
      assert records[..n + 1] == records;
    }
    InputIsFilledIn(records, k);
  }

  lemma LoadedNothing<E>(schema: Schema<E>)
    ensures LoadedEvents(schema, []) == Some([])
  {
  }

  datatype LoadError = BadLine(bad: MalformedLine) | InvalidEvent(lineNumber: nat)

  function FailingLine(error: LoadError): nat {
    match error
    case BadLine(bad) => bad.lineNumber
    case InvalidEvent(lineNumber) => lineNumber
  }

  /** The log loads, to these events. */
  ghost predicate LoadsTo<E>(schema: Schema<E>, codec: Codec, raw: Bytes, events: seq<E>) {
    var lines := SplitLines(raw);
    NoneMalformed(codec, lines) && LoadedEvents(schema, Records(codec, lines)) == Some(events)
  }

  ghost predicate Loads<E>(schema: Schema<E>, codec: Codec, lines: seq<Bytes>) {
    NoneMalformed(codec, lines) && LoadedEvents(schema, Records(codec, lines)).Some?
  }

  /**
    Read and parse a log. Observing the records of unknown types while skipping them gives what
    filling in every record and dropping the unknown ones afterwards gives. A log that does not
    load fails on its first line that is malformed or whose event does not validate.
   */
  method ReadAndParseEvents<E>(schema: Schema<E>, codec: Codec, raw: Bytes) returns (r: Result<seq<E>, LoadError>)
    ensures r.Ok? ==> LoadsTo(schema, codec, raw, r.value)
    ensures r.Err? ==>
              var lines, n := SplitLines(raw), FailingLine(r.error);
              && 1 <= n <= |lines|
              && Loads(schema, codec, lines[..n - 1])
              && !Loads(schema, codec, lines[..n])
  {
    var lines := SplitLines(raw);
    hide KindOf, Records, LoadedEvents, UnknownType, ParseEvent, SplitLines, WithRound, RoundAfter;
    LoadedNothing(schema);
    NoRecordsYet(codec, lines);
    var reader := new JsonObjectLines(codec, lines);
    var roundNumbers := new RoundNumberBackfill();
    var events: seq<E> := [];
    while true
      invariant fresh(reader) && fresh(roundNumbers)
      invariant reader.Valid() && reader.lines == lines && reader.codec == codec
      invariant roundNumbers.Valid() && roundNumbers.seen == reader.Consumed()
      invariant NoneMalformed(codec, lines[..reader.position])
      invariant LoadedEvents(schema, reader.Consumed()) == Some(events)
      decreases |lines| - reader.position
    {
      ghost var position, consumed := reader.position, reader.Consumed();
      var item := reader.Advance();
      match item {
        case End =>
          assert lines[..|lines|] == lines;
          return Ok(events);
        case Raised(bad) =>
          LoadsUpToBad(schema, codec, lines, position, bad.lineNumber);
          return Err(BadLine(bad));
        case Next(record) =>
          LoadedEventsNext(schema, consumed, record);
          if UnknownType(schema, record) {
            roundNumbers.Observe(record);
          } else {
            var filled := roundNumbers.Apply(record);
            ghost var seen := consumed + [record];
            assert seen[..|seen|] == seen;
            var parsed := ParseEvent(schema, filled);
            if parsed.None? {
              LoadsUpToBlanks(schema, codec, lines, position, reader.position - 1);
              return Err(InvalidEvent(reader.lineNumber));
            }
            events := events + [parsed.value];
          }
      }
    }
  }

  lemma NoRecordsYet(codec: Codec, lines: seq<Bytes>)
    ensures Records(codec, lines[..0]) == []
  {
  }

  lemma LoadsUpToBlanks<E>(schema: Schema<E>, codec: Codec, lines: seq<Bytes>, from: nat, n: nat)
    requires from <= n <= |lines| && Loads(schema, codec, lines[..from])
    requires forall k | from <= k < n :: KindOf(codec, lines[k]).Blank?
    ensures Loads(schema, codec, lines[..n])
  {
    hide KindOf, Records, LoadedEvents;
    BlanksAddNothing(codec, lines, from, n);
    forall k | 0 <= k < n ensures !KindOf(codec, lines[..n][k]).Malformed? {
      if k < from {
        assert lines[..from][k] == lines[k];
      }
    }
  }

  lemma LoadsUpToBad<E>(schema: Schema<E>, codec: Codec, lines: seq<Bytes>, from: nat, n: nat)
    requires from < n <= |lines| && Loads(schema, codec, lines[..from])
    requires forall k | from <= k < n - 1 :: KindOf(codec, lines[k]).Blank?
    requires KindOf(codec, lines[n - 1]).Malformed?
    ensures Loads(schema, codec, lines[..n - 1]) && !Loads(schema, codec, lines[..n])
  {
    hide KindOf, Records, LoadedEvents;
    LoadsUpToBlanks(schema, codec, lines, from, n - 1);
    assert lines[..n][n - 1] == lines[n - 1];
  }
}
