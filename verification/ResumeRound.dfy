/** The round a resumed run opens at, scanned from its log without loading it. */
module ResumeRound {
  import opened Wrappers
  import opened JsonLines
  import opened EventLog

  /** `"round_advanced"` in ASCII, quotes included. */
  const QUOTED_TYPE: Bytes := [34, 114, 111, 117, 110, 100, 95, 97, 100, 118, 97, 110, 99, 101, 100, 34]

  /** `part in line`. */
  predicate Mentions(line: Bytes, part: Bytes) {
    exists i | 0 <= i <= |line| :: part <= line[i..]
  }

  /** The integer a parsed value is; a boolean counts as 0 or 1. */
  function IntegerOf(value: Json): Option<int> {
    match value
    case Integer(n) => Some(n)
    case Bool(b) => Some(if b then 1 else 0)
    case _ => None
  }

  /** How a log is read: its JSON, and what `int` makes of a value, which may be a text or a fraction. */
  datatype Reader = Reader(codec: Codec, toInteger: Json -> Option<int>)

  /** The round a line that mentions the type carries. */
  function RoundOn(reader: Reader, line: Bytes): Option<int> {
    match reader.codec.loads(line)
    case Some(Object(fields)) => if ROUND_NUMBER in fields then reader.toInteger(fields[ROUND_NUMBER]) else None
    case _ => None
  }

  predicate Matters(line: Bytes) {
    Mentions(line, QUOTED_TYPE)
  }

  /** `latest` is the greatest of 1 and the rounds on the lines that mention the type. */
  ghost predicate IsLatest(reader: Reader, lines: seq<Bytes>, latest: int) {
    && latest >= 1
    && (forall i | 0 <= i < |lines| && Matters(lines[i]) ::
          RoundOn(reader, lines[i]).Some? && RoundOn(reader, lines[i]).value <= latest)
    && (latest == 1 || exists i | 0 <= i < |lines| :: Matters(lines[i]) && RoundOn(reader, lines[i]) == Some(latest))
  }

  /** The log is `None` when there is no such file; a line without a readable round fails with its number. */
  method ResumeRoundFromLog(reader: Reader, log: Option<seq<Bytes>>) returns (r: Result<int, nat>)
    ensures log.None? ==> r == Ok(1)
    ensures log.Some? && r.Ok? ==> IsLatest(reader, log.value, r.value)
    ensures r.Err? ==>
              && log.Some? && 1 <= r.error <= |log.value|
              && Matters(log.value[r.error - 1]) && RoundOn(reader, log.value[r.error - 1]).None?
              && forall i | 0 <= i < r.error - 1 && Matters(log.value[i]) :: RoundOn(reader, log.value[i]).Some?
  {
    if log.None? {
      return Ok(1);
    }
    hide Matters, RoundOn;
    var lines := log.value;
    var latest := 1;
    for i := 0 to |lines|
      invariant IsLatest(reader, lines[..i], latest)
    {
      assert lines[..i + 1] == lines[..i] + [lines[i]];
      if !Matters(lines[i]) {
        continue;
      }
      var round := RoundOn(reader, lines[i]);
      if round.None? {
        assert forall k | 0 <= k < i :: lines[..i][k] == lines[k];
        return Err(i + 1);
      }
      LatestNext(reader, lines[..i], lines[i], latest);
      latest := if round.value > latest then round.value else latest;
    }
    assert lines[..|lines|] == lines;
    return Ok(latest);
  }

  lemma LatestNext(reader: Reader, lines: seq<Bytes>, line: Bytes, latest: int)
    requires IsLatest(reader, lines, latest) && Matters(line) && RoundOn(reader, line).Some?
    ensures
      var round := RoundOn(reader, line).value;
      IsLatest(reader, lines + [line], if round > latest then round else latest)
  {
    hide Matters, RoundOn;
    var all := lines + [line];
    assert all[|lines|] == line;
    if i :| 0 <= i < |lines| && Matters(lines[i]) && RoundOn(reader, lines[i]) == Some(latest) {
      assert all[i] == lines[i];
    }
  }

  // ----- Against the rounds that loading fills in -----

  /** The round the line opens, if it holds a record that opens one. */
  function Opens(codec: Codec, line: Bytes): Option<int> {
    match KindOf(codec, line)
    case Holds(record) => if Advances(record) then IntegerOf(record[ROUND_NUMBER]) else None
    case _ => None
  }

  /** The round the log ends in, as loading counts it: 0 before any round was opened. */
  function LastRound(codec: Codec, lines: seq<Bytes>): int {
    IntegerOf(RoundAfter(Records(codec, lines))).GetOr(0)
  }

  lemma {:induction false} LastRoundIsLastOpened(codec: Codec, lines: seq<Bytes>)
    ensures
      || (LastRound(codec, lines) == 0 && forall i | 0 <= i < |lines| :: Opens(codec, lines[i]).None?)
      || exists i | 0 <= i < |lines| ::
           && Opens(codec, lines[i]) == Some(LastRound(codec, lines))
           && forall j | i < j < |lines| :: Opens(codec, lines[j]).None?
  {
    hide KindOf, RoundAfter, Advances;
    if lines == [] {
      NoRoundYet(codec);
    } else {
      var n := |lines| - 1;
      var before, line := lines[..n], lines[n];
      assert lines == before + [line];
      LastRoundIsLastOpened(codec, before);
      LastRoundNext(codec, before, line);
      if Opens(codec, line).None? {
        if i :| 0 <= i < n && Opens(codec, before[i]) == Some(LastRound(codec, before))
                && forall j | i < j < n :: Opens(codec, before[j]).None? {
          assert lines[i] == before[i];
          assert forall j | i < j < n :: lines[j] == before[j];
        } else {
          assert forall j | 0 <= j < n :: lines[j] == before[j];
        }
      }
    }
  }

  lemma NoRoundYet(codec: Codec)
    ensures LastRound(codec, []) == 0
  {
  }

  lemma LastRoundNext(codec: Codec, before: seq<Bytes>, line: Bytes)
    ensures LastRound(codec, before + [line]) == Opens(codec, line).GetOr(LastRound(codec, before))
  {
    hide KindOf, LastAdvance, RoundAfter;
    var lines := before + [line];
    RecordsNext(codec, lines, |before|);
    assert lines[..|before|] == before && lines[..|before| + 1] == lines;
    match KindOf(codec, line)
    case Holds(record) => RoundAfterNext(Records(codec, before), record);
    case _ => assert Records(codec, before) + [] == Records(codec, before);
  }

  /** What a line's round is: `round_number` of the object it holds, as `int` reads it. */
  lemma RoundIsOnLine(reader: Reader, line: Bytes, round: int)
    ensures RoundOn(reader, line) == Some(round) <==>
            exists record: Record ::
              && reader.codec.loads(line) == Some(Object(record))
              && "round_number" in record && reader.toInteger(record["round_number"]) == Some(round)
  {
  }

  /** What a line opens: the integer, or the boolean counted as one, of an opening that the line holds. */
  lemma OpeningIsOnLine(codec: Codec, line: Bytes, round: int)
    ensures Opens(codec, line) == Some(round) <==>
            exists record :: IsObjectLine(codec, line, record) && OpenedAs(record, round)
  {
    hide Strip;
    if record :| IsObjectLine(codec, line, record) && OpenedAs(record, round) {
      assert KindOf(codec, line) == Holds(record);
    }
    if Opens(codec, line) == Some(round) {
      assert IsObjectLine(codec, line, KindOf(codec, line).record);
      assert OpenedAs(KindOf(codec, line).record, round);
    }
  }

  ghost predicate OpenedAs(record: Record, round: int) {
    || Opened(record, Integer(round))
    || (Opened(record, Bool(true)) && round == 1)
    || (Opened(record, Bool(false)) && round == 0)
  }

  ghost predicate Spells(part: Bytes, text: string) {
    |part| == |text| && forall k | 0 <= k < |part| :: part[k] == text[k] as int
  }

  /** A line matters when the quoted type stands somewhere in it. */
  lemma MentionIsQuotedType(line: Bytes)
    ensures Matters(line) <==> exists i, j | 0 <= i <= j <= |line| :: Spells(line[i..j], "\"round_advanced\"")
  {
    var text := "\"round_advanced\"";
    assert Spells(QUOTED_TYPE, text);
    if i :| 0 <= i <= |line| && QUOTED_TYPE <= line[i..] {
      assert line[i..i + 16] == line[i..][..16] == QUOTED_TYPE;
    }
    if i, j :| 0 <= i <= j <= |line| && Spells(line[i..j], text) {
      assert line[i..j] == QUOTED_TYPE;
      assert QUOTED_TYPE <= line[i..];
    }
  }

  function AtLeastOne(n: int): int {
    if n < 1 then 1 else n
  }

  /** Some line that mentions the type carries this round. */
  ghost predicate Carried(reader: Reader, lines: seq<Bytes>, round: int) {
    exists i | 0 <= i < |lines| :: Matters(lines[i]) && RoundOn(reader, lines[i]) == Some(round)
  }

  /** No line that mentions the type carries a later round. */
  ghost predicate NoneLater(reader: Reader, lines: seq<Bytes>, round: int) {
    forall i | 0 <= i < |lines| && Matters(lines[i]) && RoundOn(reader, lines[i]).Some? ::
      RoundOn(reader, lines[i]).value <= round
  }

  /** The greatest of 1 and the rounds carried is one value. */
  lemma ScanFindsLastRound(reader: Reader, lines: seq<Bytes>, latest: int)
    requires IsLatest(reader, lines, latest)
    ensures
      var last := AtLeastOne(LastRound(reader.codec, lines));
      latest == last <==> NoneLater(reader, lines, last) && (last == 1 || Carried(reader, lines, last))
  {
    hide Matters, RoundOn, LastRound;
  }

  /** A line that opens a round mentions the type and carries that round as it stands. */
  ghost predicate OpeningsMention(reader: Reader, lines: seq<Bytes>) {
    forall i | 0 <= i < |lines| && Opens(reader.codec, lines[i]).Some? ::
      Matters(lines[i]) && RoundOn(reader, lines[i]) == Opens(reader.codec, lines[i])
  }

  /**
    The exact condition. The scan finds the round the loaded log ends in, counting from 1, if and
    only if no line that mentions the type carries a later round: neither an earlier opening nor a
    line that merely names the type.
   */
  lemma ScanMissesOnlyLaterRounds(reader: Reader, lines: seq<Bytes>, latest: int)
    requires OpeningsMention(reader, lines) && IsLatest(reader, lines, latest)
    ensures
      var last := AtLeastOne(LastRound(reader.codec, lines));
      latest == last <==> NoneLater(reader, lines, last)
  {
    hide Matters, RoundOn, Opens, LastRound;
    LastRoundIsLastOpened(reader.codec, lines);
    ScanFindsLastRound(reader, lines, latest);
  }

  predicate Readable(reader: Reader, line: Bytes) {
    Matters(line) ==> RoundOn(reader, line).Some?
  }

  lemma {:induction false} SomeLatest(reader: Reader, lines: seq<Bytes>) returns (latest: int)
    requires forall i | 0 <= i < |lines| :: Readable(reader, lines[i])
    ensures IsLatest(reader, lines, latest)
  {
    hide Matters, RoundOn;
    if lines == [] {
      latest := 1;
    } else {
      var n := |lines| - 1;
      var before, line := lines[..n], lines[n];
      assert lines == before + [line];
      var earlier := SomeLatest(reader, before);
      if Matters(line) {
        LatestNext(reader, before, line, earlier);
        latest := if RoundOn(reader, line).value > earlier then RoundOn(reader, line).value else earlier;
      } else {
        latest := earlier;
        if i :| 0 <= i < n && Matters(before[i]) && RoundOn(reader, before[i]) == Some(latest) {
          assert lines[i] == before[i];
        }
      }
    }
  }

  /** The scan has an answer, one, if and only if every line that mentions the type carries a readable round. */
  lemma ScanAnswersExactly(reader: Reader, lines: seq<Bytes>)
    ensures (exists latest :: IsLatest(reader, lines, latest))
            <==> forall i | 0 <= i < |lines| :: Readable(reader, lines[i])
    ensures forall a, b | IsLatest(reader, lines, a) && IsLatest(reader, lines, b) :: a == b
  {
    hide Matters, RoundOn;
    if forall i | 0 <= i < |lines| :: Readable(reader, lines[i]) {
      var latest := SomeLatest(reader, lines);
    }
  }

  /** Mentioning the type is opening a round, and the line as it stands carries the round it opens. */
  ghost predicate MentionsTruly(reader: Reader, lines: seq<Bytes>) {
    OpeningsMention(reader, lines)
    && forall i | 0 <= i < |lines| && Matters(lines[i]) :: Opens(reader.codec, lines[i]).Some?
  }

  /**
    Where only lines that open a round mention the type, the scan finds the round the loaded log
    ends in exactly when the log never went back to an earlier round.
   */
  lemma ResumesInLastRound(reader: Reader, lines: seq<Bytes>, latest: int)
    requires MentionsTruly(reader, lines) && IsLatest(reader, lines, latest)
    ensures
      var last := AtLeastOne(LastRound(reader.codec, lines));
      latest == last
      <==> forall i | 0 <= i < |lines| && Opens(reader.codec, lines[i]).Some? ::
             Opens(reader.codec, lines[i]).value <= last
  {
    hide Matters, RoundOn, Opens, LastRound;
    ScanMissesOnlyLaterRounds(reader, lines, latest);
  }

  // ----- Logs the scan misreads -----

  /** A line of the sample codec: the quoted type and one more byte. */
  function SampleLine(b: Byte): Bytes {
    QUOTED_TYPE + [b]
  }

  function Opening(round: int): Record {
    map[EVENT_TYPE := String(ROUND_ADVANCED), ROUND_NUMBER := Integer(round)]
  }

  /** A message in round 7 on a channel that is called what the event type is called. */
  const NAMESAKE: Record :=
    map[EVENT_TYPE := String(MESSAGE_SENT), "channel_id" := String(ROUND_ADVANCED), ROUND_NUMBER := Integer(7)]

  /** The same without a round, as older logs wrote it. */
  const ROUNDLESS: Record := map[EVENT_TYPE := String(MESSAGE_SENT), "channel_id" := String(ROUND_ADVANCED)]

  /** Reads lines ending in 50 to 53: round 2 opens, round 3 opens, the namesake, and the one without a round. */
  function SampleReader(): Reader {
    Reader(Codec((text: Bytes) =>
                   if text == SampleLine(50) then Some(Object(Opening(2)))
                   else if text == SampleLine(51) then Some(Object(Opening(3)))
                   else if text == SampleLine(52) then Some(Object(NAMESAKE))
                   else if text == SampleLine(53) then Some(Object(ROUNDLESS))
                   else None,
                 record => []),
           IntegerOf)
  }

  lemma SampleIsStripped(b: Byte)
    requires !IsSpace(b)
    ensures Strip(SampleLine(b)) == SampleLine(b) && Matters(SampleLine(b))
  {
    assert SampleLine(b)[0..] == SampleLine(b);
    assert QUOTED_TYPE <= SampleLine(b)[0..];
  }

  lemma OpeningAdvances(round: int)
    ensures Advances(Opening(round)) && ROUND_NUMBER in Opening(round) && Opening(round)[ROUND_NUMBER] == Integer(round)
  {
    assert |EVENT_TYPE| != |ROUND_NUMBER|;
  }

  lemma NamesakeDoesNotAdvance()
    ensures !Advances(NAMESAKE) && ROUND_NUMBER in NAMESAKE && NAMESAKE[ROUND_NUMBER] == Integer(7)
  {
    assert EVENT_TYPE[0] != "channel_id"[0] && |EVENT_TYPE| != |ROUND_NUMBER|;
    assert |ROUND_ADVANCED| != |MESSAGE_SENT|;
  }

  lemma SampleIs(b: Byte)
    requires 50 <= b <= 53
    ensures SampleReader().codec.loads(SampleLine(b))
            == Some(Object(if b == 50 then Opening(2) else if b == 51 then Opening(3)
                           else if b == 52 then NAMESAKE else ROUNDLESS))
  {
    hide Opening;
    assert SampleLine(50)[|QUOTED_TYPE|] == 50 && SampleLine(51)[|QUOTED_TYPE|] == 51;
    assert SampleLine(52)[|QUOTED_TYPE|] == 52;
    assert SampleLine(b)[|QUOTED_TYPE|] == b;
  }

  lemma SampleHolds(b: Byte, record: Record)
    requires !IsSpace(b) && SampleReader().codec.loads(SampleLine(b)) == Some(Object(record))
    requires ROUND_NUMBER in record && record[ROUND_NUMBER].Integer?
    ensures RoundOn(SampleReader(), SampleLine(b)) == IntegerOf(record[ROUND_NUMBER])
    ensures Opens(SampleReader().codec, SampleLine(b))
            == if Advances(record) then IntegerOf(record[ROUND_NUMBER]) else None
  {
    SampleIsStripped(b);
    hide SampleLine, Strip, Advances;
    assert SampleReader().toInteger(record[ROUND_NUMBER]) == IntegerOf(record[ROUND_NUMBER]);
  }

  lemma SamplesRead()
    ensures RoundOn(SampleReader(), SampleLine(50)) == Some(2) && Opens(SampleReader().codec, SampleLine(50)) == Some(2)
    ensures RoundOn(SampleReader(), SampleLine(51)) == Some(3) && Opens(SampleReader().codec, SampleLine(51)) == Some(3)
    ensures RoundOn(SampleReader(), SampleLine(52)) == Some(7) && Opens(SampleReader().codec, SampleLine(52)) == None
  {
    SampleIs(50);
    SampleIs(51);
    SampleIs(52);
    OpeningAdvances(2);
    OpeningAdvances(3);
    NamesakeDoesNotAdvance();
    hide SampleReader, SampleLine, Opens, RoundOn, Advances, Opening;
    SampleHolds(50, Opening(2));
    SampleHolds(51, Opening(3));
    SampleHolds(52, NAMESAKE);
  }

  lemma LastOfTwo(codec: Codec, a: Bytes, b: Bytes)
    ensures LastRound(codec, [a, b]) == Opens(codec, b).GetOr(Opens(codec, a).GetOr(0))
  {
    hide LastRound, Opens;
    assert [a, b] == ([] + [a]) + [b];
    LastRoundNext(codec, [] + [a], b);
    LastRoundNext(codec, [], a);
    NoRoundYet(codec);
  }

  lemma LatestOfTwo(reader: Reader, a: Bytes, b: Bytes, latest: int)
    requires IsLatest(reader, [a, b], latest) && Matters(a) && Matters(b)
    requires RoundOn(reader, a).Some? && RoundOn(reader, b).Some?
    requires RoundOn(reader, a).value > 1 && RoundOn(reader, b).value > 1
    ensures latest == if RoundOn(reader, a).value > RoundOn(reader, b).value then RoundOn(reader, a).value
                      else RoundOn(reader, b).value
  {
    hide Matters, RoundOn;
    var lines := [a, b];
    assert lines[0] == a && lines[1] == b;
  }

  /** A log that opens round 3 and then round 2: the scan resumes at 3, the loaded log ends in 2. */
  lemma GoingBackIsMissed(latest: int)
    requires IsLatest(SampleReader(), [SampleLine(51), SampleLine(50)], latest)
    ensures latest == 3 && LastRound(SampleReader().codec, [SampleLine(51), SampleLine(50)]) == 2
  {
    hide IsLatest, SampleReader, SampleLine, LastRound, Opens, RoundOn, Matters, Strip;
    SamplesRead();
    SampleIsStripped(50);
    SampleIsStripped(51);
    LatestOfTwo(SampleReader(), SampleLine(51), SampleLine(50), latest);
    LastOfTwo(SampleReader().codec, SampleLine(51), SampleLine(50));
  }

  /**
    A log that never goes back, where a later line only names the type: the scan resumes at 7, the
    loaded log ends in 3.
   */
  lemma NamesakeIsCounted(latest: int)
    requires IsLatest(SampleReader(), [SampleLine(51), SampleLine(52)], latest)
    ensures latest == 7 && LastRound(SampleReader().codec, [SampleLine(51), SampleLine(52)]) == 3
  {
    hide IsLatest, SampleReader, SampleLine, LastRound, Opens, RoundOn, Matters, Strip;
    SamplesRead();
    SampleIsStripped(51);
    SampleIsStripped(52);
    LatestOfTwo(SampleReader(), SampleLine(51), SampleLine(52), latest);
    LastOfTwo(SampleReader().codec, SampleLine(51), SampleLine(52));
  }

  lemma RoundlessRead()
    ensures RoundOn(SampleReader(), SampleLine(53)) == None && Opens(SampleReader().codec, SampleLine(53)) == None
  {
    SampleIs(53);
    SampleIsStripped(53);
    assert EVENT_TYPE[0] != "channel_id"[0] && |EVENT_TYPE| != |ROUND_NUMBER| && |"channel_id"| != |ROUND_NUMBER|;
    assert |ROUND_ADVANCED| != |MESSAGE_SENT|;
    hide SampleLine, SampleReader, Strip;
  }

  /**
    A log that opens round 3 and then, in a message without a round, names the type: the scan has no
    answer, while the loaded log ends in 3.
   */
  lemma RoundlessNamesakeStopsScan(latest: int)
    ensures !IsLatest(SampleReader(), [SampleLine(51), SampleLine(53)], latest)
    ensures LastRound(SampleReader().codec, [SampleLine(51), SampleLine(53)]) == 3
  {
    var lines := [SampleLine(51), SampleLine(53)];
    SamplesRead();
    RoundlessRead();
    SampleIsStripped(53);
    hide SampleReader, SampleLine, LastRound, Opens, RoundOn, Matters, Strip;
    assert lines[1] == SampleLine(53);
    LastOfTwo(SampleReader().codec, SampleLine(51), SampleLine(53));
  }
}
