/** Forking a run: cutting its log at an event and loading what was kept. */
module LogFork {
  import opened Wrappers
  import opened JsonLines
  import opened EventLog
  import CC = CopiedEvents

  datatype EventLocation = EventLocation(lineNumber: nat, endOffset: nat, record: Record)

  predicate HasId(record: Record, eventId: string) {
    EVENT_ID in record && record[EVENT_ID] == String(eventId)
  }

  /** `location` is where the first line holding an event named `eventId` ends. */
  ghost predicate Locates(codec: Codec, lines: seq<Bytes>, eventId: string, location: EventLocation) {
    var n := location.lineNumber;
    && 1 <= n <= |lines|
    && KindOf(codec, lines[n - 1]) == Holds(location.record)
    && HasId(location.record, eventId)
    && PassedOver(codec, lines[..n - 1], eventId)
    && location.endOffset == |Concat(lines[..n])|
  }

  /** Lines that are blank or hold some other event. */
  ghost predicate PassedOver(codec: Codec, lines: seq<Bytes>, eventId: string) {
    forall k | 0 <= k < |lines| ::
      && !KindOf(codec, lines[k]).Malformed?
      && (KindOf(codec, lines[k]).Holds? ==> !HasId(KindOf(codec, lines[k]).record, eventId))
  }

  /** No object of these lines has this id. */
  ghost predicate NamedNowhere(codec: Codec, lines: seq<Bytes>, eventId: string) {
    forall k, record | 0 <= k < |lines| && IsObjectLine(codec, lines[k], record) ::
      "event_id" !in record || record["event_id"] != String(eventId)
  }

  lemma NothingNamed(codec: Codec, lines: seq<Bytes>, eventId: string)
    requires PassedOver(codec, lines, eventId)
    ensures NamedNowhere(codec, lines, eventId)
  {
    hide Strip;
  }

  lemma {:induction false} ConcatNext(lines: seq<Bytes>, line: Bytes)
    ensures Concat(lines + [line]) == Concat(lines) + line
  {
    if lines == [] {
      assert lines + [line] == [line];
      assert Concat([line]) == line + Concat([line][1..]);
    } else {
      assert (lines + [line])[1..] == lines[1..] + [line];
      ConcatNext(lines[1..], line);
    }
  }

  /** Scan a log for the line whose event has this id; the offset is just past that line. */
  method FindEventOffset(codec: Codec, raw: Bytes, eventId: string)
    returns (r: Result<Option<EventLocation>, MalformedLine>)
    ensures match r
            case Ok(Some(location)) => Locates(codec, SplitLines(raw), eventId, location)
            case Ok(None) => PassedOver(codec, SplitLines(raw), eventId)
            case Err(bad) =>
              && 1 <= bad.lineNumber <= |SplitLines(raw)|
              && PassedOver(codec, SplitLines(raw)[..bad.lineNumber - 1], eventId)
              && KindOf(codec, SplitLines(raw)[bad.lineNumber - 1]) == Malformed(bad.reason)
              && ReportsTruly(codec, SplitLines(raw), bad)
    ensures r == Ok(None) ==> NamedNowhere(codec, SplitLines(raw), eventId)
    ensures r.Ok? && r.value.Some? ==>
              var lines, location := SplitLines(raw), r.value.value;
              && 1 <= location.lineNumber <= |lines|
              && IsObjectLine(codec, lines[location.lineNumber - 1], location.record)
              && "event_id" in location.record && location.record["event_id"] == String(eventId)
              && NamedNowhere(codec, lines[..location.lineNumber - 1], eventId)
  {
    var lines := SplitLines(raw);
    hide SplitLines, KindOf;
    var offset := 0;
    for i := 0 to |lines|
      invariant offset == |Concat(lines[..i])|
      invariant PassedOver(codec, lines[..i], eventId)
    {
      var line := lines[i];
      assert lines[..i + 1] == lines[..i] + [line];
      ConcatNext(lines[..i], line);
      offset := offset + |line|;
      KindOfLine(codec, line);
      var stripped := Strip(line);
      if stripped == [] {
        continue;
      }
      match codec.loads(stripped) {
        case None => return Err(MalformedLine(i + 1, stripped, NotJson));
        case Some(Object(fields)) =>
          if HasId(fields, eventId) {
            NothingNamed(codec, lines[..i], eventId);
            return Ok(Some(EventLocation(i + 1, offset, fields)));
          }
        case Some(_) => return Err(MalformedLine(i + 1, stripped, NotObject));
      }
    }
    assert lines[..|lines|] == lines;
    NothingNamed(codec, lines, eventId);
    return Ok(None);
  }

  /** The bytes a fork keeps of its source's log. */
  function Truncated(raw: Bytes, offset: nat): Bytes {
    if offset <= |raw| then raw[..offset] else raw
  }

  // ----- Loading a prefix -----

  lemma {:induction false} LoadedPrefix<E>(schema: Schema<E>, records: seq<Record>, n: nat)
    requires n <= |records| && LoadedEvents(schema, records).Some?
    ensures LoadedEvents(schema, records[..n]).Some?
    ensures LoadedEvents(schema, records[..n]).value <= LoadedEvents(schema, records).value
    decreases |records|
  {
    hide LoadedEvents, UnknownType, ParseEvent, RoundAfter;
    if n == |records| {
      assert records[..n] == records;
    } else {
      var m := |records| - 1;
      assert records == records[..m] + [records[m]];
      LoadedEventsNext(schema, records[..m], records[m]);
      LoadedPrefix(schema, records[..m], n);
      assert records[..m][..n] == records[..n];
    }
  }

  lemma {:induction false} RecordsPrefix(codec: Codec, lines: seq<Bytes>, k: nat)
    requires k <= |lines|
    ensures Records(codec, lines[..k]) <= Records(codec, lines)
    decreases |lines|
  {
    hide KindOf;
    if k == |lines| {
      assert lines[..k] == lines;
    } else {
      RecordsPrefix(codec, lines[..|lines| - 1], k);
      assert lines[..|lines| - 1][..k] == lines[..k];
    }
  }

  lemma LoadsPrefix<E>(schema: Schema<E>, codec: Codec, lines: seq<Bytes>, k: nat)
    requires k <= |lines| && Loads(schema, codec, lines)
    ensures Loads(schema, codec, lines[..k])
    ensures LoadedEvents(schema, Records(codec, lines[..k])).value <= LoadedEvents(schema, Records(codec, lines)).value
  {
    hide KindOf, LoadedEvents, Records;
    RecordsPrefix(codec, lines, k);
    var all, some := Records(codec, lines), Records(codec, lines[..k]);
    assert all[..|some|] == some;
    LoadedPrefix(schema, all, |some|);
    assert forall i | 0 <= i < k :: lines[..k][i] == lines[i];
  }

  /**
    What the schema must promise about one id: an event carries it exactly when its record does.
    (A record without an id gets a new one, which is not the one looked for.)
   */
  ghost predicate Identifies<E>(schema: Schema<E>, eventId: string) {
    forall record: Record | schema.validate(record).Some? ::
      schema.idOf(schema.validate(record).value) == eventId <==> HasId(record, eventId)
  }

  lemma ParsingKeepsId(record: Record, round: Json, eventId: string)
    ensures HasId(ParseInput(WithRound(record, round)), eventId) <==> HasId(record, eventId)
  {
    assert |EVENT_ID| != |ROUND_NUMBER| && |EVENT_ID| != |MESSAGE|;
  }

  ghost predicate NoneCarries<E>(events: seq<E>, idOf: E -> string, eventId: string) {
    forall i | 0 <= i < |events| :: idOf(events[i]) != eventId
  }

  /** Records that do not carry the id load to events that do not. */
  lemma {:induction false} LoadedWithoutId<E>(schema: Schema<E>, records: seq<Record>, eventId: string)
    requires Identifies(schema, eventId) && LoadedEvents(schema, records).Some?
    requires forall i | 0 <= i < |records| :: !HasId(records[i], eventId)
    ensures NoneCarries(LoadedEvents(schema, records).value, schema.idOf, eventId)
  {
    hide LoadedEvents, UnknownType, RoundAfter, HasId, WithRound, ParseInput;
    if records == [] {
      LoadedNothing(schema);
    } else {
      var m := |records| - 1;
      assert records == records[..m] + [records[m]];
      LoadedEventsNext(schema, records[..m], records[m]);
      LoadedWithoutId(schema, records[..m], eventId);
      ParsingKeepsId(records[m], RoundAfter(records), eventId);
    }
  }

  lemma {:induction false} RecordsWithoutId(codec: Codec, lines: seq<Bytes>, eventId: string)
    requires PassedOver(codec, lines, eventId)
    ensures forall i | 0 <= i < |Records(codec, lines)| :: !HasId(Records(codec, lines)[i], eventId)
  {
    hide KindOf, HasId;
    if lines != [] {
      var m := |lines| - 1;
      assert forall k | 0 <= k < m :: lines[..m][k] == lines[k];
      RecordsWithoutId(codec, lines[..m], eventId);
    }
  }

  /** The events loaded from the first `n` lines, where the `n`-th holds the first event named `eventId`. */
  lemma LoadedThroughTarget<E>(schema: Schema<E>, codec: Codec, lines: seq<Bytes>, eventId: string,
                               location: EventLocation)
    requires Locates(codec, lines, eventId, location) && location.lineNumber == |lines|
    requires Identifies(schema, eventId) && Loads(schema, codec, lines)
    requires !UnknownType(schema, location.record)
    ensures
      var events := LoadedEvents(schema, Records(codec, lines)).value;
      && events != [] && schema.idOf(events[|events| - 1]) == eventId
      && NoneCarries(events[..|events| - 1], schema.idOf, eventId)
  {
    hide KindOf, LoadedEvents, UnknownType, RoundAfter, HasId, WithRound, ParseInput;
    var m := |lines| - 1;
    var before, record := Records(codec, lines[..m]), location.record;
    assert Records(codec, lines) == before + [record];
    LoadsPrefix(schema, codec, lines, m);
    LoadedEventsNext(schema, before, record);
    RecordsWithoutId(codec, lines[..m], eventId);
    LoadedWithoutId(schema, before, eventId);
    ParsingKeepsId(record, RoundAfter(before + [record]), eventId);
    var events := LoadedEvents(schema, before + [record]).value;
    assert events[..|events| - 1] == LoadedEvents(schema, before).value;
  }

  /**
    Cutting commutes with loading. If the whole log loads, the log cut at the offset found for an
    event loads too, to a prefix of the same events with the same rounds; and if the event's type
    is known, that prefix ends at the first event with its id.
   */
  lemma CutLoadsPrefix<E>(schema: Schema<E>, codec: Codec, raw: Bytes, eventId: string, location: EventLocation,
                          all: seq<E>)
    returns (kept: seq<E>)
    requires Locates(codec, SplitLines(raw), eventId, location)
    requires LoadsTo(schema, codec, raw, all)
    ensures SplitLines(Truncated(raw, location.endOffset)) == SplitLines(raw)[..location.lineNumber]
    ensures LoadsTo(schema, codec, Truncated(raw, location.endOffset), kept) && kept <= all
    ensures Identifies(schema, eventId) && !UnknownType(schema, location.record) ==>
              && kept != [] && schema.idOf(kept[|kept| - 1]) == eventId
              && NoneCarries(kept[..|kept| - 1], schema.idOf, eventId)
  {
    hide LoadedEvents, KindOf, Records, UnknownType, SplitLines, Concat;
    var lines, n := SplitLines(raw), location.lineNumber;
    CutLeavesLines(raw, n);
    var cut := lines[..n];
    LoadsPrefix(schema, codec, lines, n);
    kept := LoadedEvents(schema, Records(codec, cut)).value;
    if Identifies(schema, eventId) && !UnknownType(schema, location.record) {
      assert cut[..n - 1] == lines[..n - 1] && cut[..n] == cut;
      assert Locates(codec, cut, eventId, location);
      LoadedThroughTarget(schema, codec, cut, eventId, location);
    }
  }

  lemma FirstIsFirst<E>(kept: seq<E>, grown: seq<E>, idOf: E -> string, eventId: string, ids: set<string>)
    requires kept != [] && idOf(kept[|kept| - 1]) == eventId && NoneCarries(kept[..|kept| - 1], idOf, eventId)
    requires kept <= grown && CC.IsThrough(grown, idOf, eventId, ids)
    ensures ids == CC.Ids(kept, idOf)
  {
    var n :| 0 <= n < |grown| && idOf(grown[n]) == eventId && eventId !in CC.Ids(grown[..n], idOf)
             && ids == CC.Ids(grown[..n + 1], idOf);
    var m := |kept| - 1;
    assert grown[m] == kept[m];
    forall i | 0 <= i < n ensures idOf(grown[i]) != eventId {
      assert grown[..n][i] in grown[..n];
    }
    forall i | 0 <= i < m ensures idOf(grown[i]) != eventId {
      assert grown[i] == kept[i] && kept[..m][i] == kept[i];
    }
    assert n == m;
    assert grown[..n + 1] == kept;
  }

  // ----- What is appended to a fork -----

  /** A JSON text ends where its object ends: with anything but blanks after it, it is no JSON text. */
  ghost predicate ObjectsEnd(codec: Codec) {
    forall a: Bytes, b: Bytes | KindOf(codec, a).Holds? && Strip(b) != [] :: KindOf(codec, a + b).Malformed?
  }

  lemma {:induction false} StripRightKeeps(line: Bytes, i: nat)
    requires i < |line| && !IsSpace(line[i])
    ensures |StripRight(line)| > i
  {
    if IsSpace(line[|line| - 1]) {
      StripRightKeeps(line[..|line| - 1], i);
    }
  }

  lemma {:induction false} NotBlankHasText(line: Bytes) returns (i: nat)
    requires StripLeft(line) != []
    ensures i < |line| && !IsSpace(line[i])
  {
    if IsSpace(line[0]) {
      i := NotBlankHasText(line[1..]);
      i := i + 1;
    } else {
      i := 0;
    }
  }

  /** Nothing is appended, or the log ended its last line, or what is appended starts with a blank line. */
  predicate StartsNewLine(cut: Bytes, appended: Bytes) {
    appended == [] || EndsLine(cut) || Strip(SplitLines(appended)[0]) == []
  }

  lemma BlankKeepsKind(codec: Codec, line: Bytes, blank: Bytes)
    requires KindOf(codec, line).Holds? && Strip(blank) == []
    ensures KindOf(codec, line + blank) == KindOf(codec, line)
  {
    BlankIsStripped(line, blank);
  }

  /** Glued to what does not start with a blank line, an unterminated object makes the log unreadable. */
  lemma GluedIsMalformed(codec: Codec, cut: Bytes, appended: Bytes)
    requires ObjectsEnd(codec) && cut != [] && !StartsNewLine(cut, appended)
    requires KindOf(codec, SplitLines(cut)[|SplitLines(cut)| - 1]).Holds?
    ensures !NoneMalformed(codec, SplitLines(cut + appended))
  {
    hide KindOf, Strip, LineLength, SplitLines;
    GluedLines(cut, appended);
    var lines, more := SplitLines(cut), SplitLines(appended);
    var n := |lines| - 1;
    assert SplitLines(cut + appended)[n] == lines[n] + more[0];
    assert KindOf(codec, lines[n] + more[0]).Malformed?;
  }

  /** A blank line glued to the last object changes no line's kind. */
  lemma GluedBlank(codec: Codec, lines: seq<Bytes>, more: seq<Bytes>)
    requires lines != [] && more != [] && KindOf(codec, lines[|lines| - 1]).Holds? && Strip(more[0]) == []
    ensures Records(codec, Glued(lines, more)) == Records(codec, lines + more)
    ensures NoneMalformed(codec, Glued(lines, more)) <==> NoneMalformed(codec, lines + more)
    ensures Records(codec, Glued(lines, more)[..|lines|]) == Records(codec, lines)
  {
    var n := |lines| - 1;
    var init, last := lines[..n], lines[n];
    var glued := last + more[0];
    BlankKeepsKind(codec, last, more[0]);
    assert KindOf(codec, more[0]) == Blank;
    hide KindOf, Strip;
    assert lines == init + [last] && more == [more[0]] + more[1..];
    assert Glued(lines, more) == (init + [glued]) + more[1..];
    assert Glued(lines, more)[..|lines|] == init + [glued];
    assert lines + more == (lines + [more[0]]) + more[1..];
    RecordsSnoc(codec, init, last);
    RecordsSnoc(codec, init, glued);
    RecordsSnoc(codec, lines, more[0]);
    assert Records(codec, lines) + [] == Records(codec, lines);
    RecordsConcat(codec, init + [glued], more[1..]);
    RecordsConcat(codec, lines + [more[0]], more[1..]);
    NoneMalformedConcat(codec, init + [glued], more[1..]);
    NoneMalformedConcat(codec, lines + [more[0]], more[1..]);
    NoneMalformedConcat(codec, init, [glued]);
    NoneMalformedConcat(codec, init, [last]);
    NoneMalformedConcat(codec, lines, [more[0]]);
  }

  lemma RecordsSnoc(codec: Codec, lines: seq<Bytes>, line: Bytes)
    ensures Records(codec, lines + [line])
            == Records(codec, lines) + match KindOf(codec, line) case Holds(r) => [r] case _ => []
  {
    hide KindOf;
    assert (lines + [line])[..|lines|] == lines;
  }

  lemma {:induction false} RecordsConcat(codec: Codec, xs: seq<Bytes>, ys: seq<Bytes>)
    ensures Records(codec, xs + ys) == Records(codec, xs) + Records(codec, ys)
  {
    hide KindOf;
    if ys == [] {
      assert xs + ys == xs;
    } else {
      var n := |ys| - 1;
      RecordsConcat(codec, xs, ys[..n]);
      assert xs + ys == (xs + ys[..n]) + [ys[n]] && ys == ys[..n] + [ys[n]];
      RecordsSnoc(codec, xs + ys[..n], ys[n]);
      RecordsSnoc(codec, ys[..n], ys[n]);
      hide Records;
    }
  }

  lemma NoneMalformedConcat(codec: Codec, xs: seq<Bytes>, ys: seq<Bytes>)
    ensures NoneMalformed(codec, xs + ys) <==> NoneMalformed(codec, xs) && NoneMalformed(codec, ys)
  {
    hide KindOf;
    assert forall i | 0 <= i < |xs| :: (xs + ys)[i] == xs[i];
    assert forall i | 0 <= i < |ys| :: (xs + ys)[|xs| + i] == ys[i];
  }

  /**
    The exact condition. Take a fork cut at an event, and bytes whose lines, read after the kept ones,
    load to `intended`. Appended to the fork's log they load to that if and only if nothing is
    appended, the boundary line ended with a newline, or they start with a blank line; otherwise the
    fork's log does not load at all.
   */
  lemma AppendedIsRead<E>(schema: Schema<E>, codec: Codec, raw: Bytes, eventId: string, location: EventLocation,
                          appended: Bytes, intended: seq<E>)
    requires Locates(codec, SplitLines(raw), eventId, location) && ObjectsEnd(codec)
    requires var kept := SplitLines(Truncated(raw, location.endOffset));
             && NoneMalformed(codec, kept + SplitLines(appended))
             && LoadedEvents(schema, Records(codec, kept + SplitLines(appended))) == Some(intended)
    ensures var cut := Truncated(raw, location.endOffset);
            && (LoadsTo(schema, codec, cut + appended, intended) <==> StartsNewLine(cut, appended))
            && (!StartsNewLine(cut, appended) ==> !Loads(schema, codec, SplitLines(cut + appended)))
  {
    hide LoadedEvents, KindOf, Records, SplitLines, Concat, LineLength, Strip, NoneMalformed, ObjectsEnd;
    var cut := Truncated(raw, location.endOffset);
    CutAtLine(codec, raw, eventId, location);
    if appended == [] || EndsLine(cut) {
      AppendingAddsLines(cut, appended);
    } else {
      GluedLines(cut, appended);
      if StartsNewLine(cut, appended) {
        GluedBlank(codec, SplitLines(cut), SplitLines(appended));
      } else {
        GluedIsMalformed(codec, cut, appended);
      }
    }
  }

  /** The kept bytes are the lines up to the one that holds the event. */
  lemma CutAtLine(codec: Codec, raw: Bytes, eventId: string, location: EventLocation)
    requires Locates(codec, SplitLines(raw), eventId, location)
    ensures
      var cut := Truncated(raw, location.endOffset);
      && SplitLines(cut) == SplitLines(raw)[..location.lineNumber] && cut != []
      && KindOf(codec, SplitLines(cut)[|SplitLines(cut)| - 1]) == Holds(location.record)
  {
    hide KindOf, Concat;
    CutLeavesLines(raw, location.lineNumber);
  }

  /** However the lines are joined, a log that grew from the fork's and loads has the kept records first. */
  lemma GrownKeepsRecords(codec: Codec, cut: Bytes, appended: Bytes) returns (k: nat)
    requires cut != [] && KindOf(codec, SplitLines(cut)[|SplitLines(cut)| - 1]).Holds?
    requires appended == [] || EndsLine(cut) || ObjectsEnd(codec)
    requires NoneMalformed(codec, SplitLines(cut + appended))
    ensures k <= |SplitLines(cut + appended)|
    ensures Records(codec, SplitLines(cut + appended)[..k]) == Records(codec, SplitLines(cut))
  {
    hide KindOf, Records, SplitLines, LineLength, Strip, NoneMalformed, ObjectsEnd;
    k := |SplitLines(cut)|;
    if appended == [] || EndsLine(cut) {
      AppendingAddsLines(cut, appended);
      assert SplitLines(cut + appended)[..k] == SplitLines(cut);
    } else {
      GluedLines(cut, appended);
      if !StartsNewLine(cut, appended) {
        GluedIsMalformed(codec, cut, appended);
      }
      GluedBlank(codec, SplitLines(cut), SplitLines(appended));
    }
  }

  /**
    However the fork's log grows after that, if it loads its copied events are exactly the ones kept
    at the cut. Should the boundary line lack its newline, that needs objects to end where they end.
   */
  lemma CopiedIdsStay<E>(schema: Schema<E>, codec: Codec, raw: Bytes, eventId: string, location: EventLocation,
                         all: seq<E>, appended: Bytes, grown: seq<E>, ids: set<string>)
    returns (kept: seq<E>)
    requires Locates(codec, SplitLines(raw), eventId, location)
    requires LoadsTo(schema, codec, raw, all)
    requires Identifies(schema, eventId) && !UnknownType(schema, location.record)
    requires appended == [] || EndsLine(Truncated(raw, location.endOffset)) || ObjectsEnd(codec)
    requires LoadsTo(schema, codec, Truncated(raw, location.endOffset) + appended, grown)
    requires CC.IsThrough(grown, schema.idOf, eventId, ids)
    ensures LoadsTo(schema, codec, Truncated(raw, location.endOffset), kept)
    ensures kept <= all && kept <= grown && ids == CC.Ids(kept, schema.idOf)
  {
    hide LoadedEvents, KindOf, Records, UnknownType, SplitLines, Truncated, CC.IsThrough, ObjectsEnd, Concat;
    var cut := Truncated(raw, location.endOffset);
    kept := CutLoadsPrefix(schema, codec, raw, eventId, location, all);
    CutAtLine(codec, raw, eventId, location);
    var k := GrownKeepsRecords(codec, cut, appended);
    LoadsPrefix(schema, codec, SplitLines(cut + appended), k);
    FirstIsFirst(kept, grown, schema.idOf, eventId, ids);
  }

  // ----- A fork that is lost -----

  const SAMPLE_ID := "x"

  const SAMPLE: Record := map[EVENT_ID := String(SAMPLE_ID)]

  /** A codec that knows one event, written as one byte. */
  function OneEventCodec(text: Byte): Codec {
    Codec((t: Bytes) => if t == [text] then Some(Object(SAMPLE)) else None, record => [text])
  }

  /** An event that is nothing but its id. */
  function OneEventSchema(): Schema<string> {
    Schema({}, record => if HasId(record, SAMPLE_ID) then Some(SAMPLE_ID) else Some(""), (id: string) => id)
  }

  lemma TwoAreNotOne(text: Byte, a: Bytes, b: Bytes)
    requires Strip(a) == [text] && Strip(b) != []
    ensures |Strip(a + b)| > 1
  {
    StripLeftAppend(a, b);
    var i := NotBlankHasText(b);
    var stripped := StripLeft(a) + b;
    assert stripped[|StripLeft(a)| + i] == b[i];
    StripRightKeeps(stripped, |StripLeft(a)| + i);
  }

  lemma StrippedAlready(text: Byte)
    requires !IsSpace(text)
    ensures Strip([text]) == [text]
  {
    assert StripLeft([text]) == [text] && StripRight([text]) == [text];
  }

  /** The condition on the codec is met by one that reads events. */
  lemma ObjectsCanEnd(text: Byte)
    requires !IsSpace(text)
    ensures ObjectsEnd(OneEventCodec(text)) && KindOf(OneEventCodec(text), [text]) == Holds(SAMPLE)
  {
    var codec := OneEventCodec(text);
    StrippedAlready(text);
    hide Strip;
    forall a: Bytes, b: Bytes | KindOf(codec, a).Holds? && Strip(b) != [] ensures KindOf(codec, a + b).Malformed? {
      TwoAreNotOne(text, a, b);
    }
  }

  lemma OneLineEach(text: Byte)
    requires text != NEWLINE
    ensures SplitLines([text]) == [[text]] && SplitLines([text, text]) == [[text, text]]
  {
    LineLengthIs([text], 1);
    assert [text, text][..1] == [text];
    LineLengthIs([text, text], 2);
    assert [text][..1] == [text] && [text][1..] == [];
    assert [text, text][..2] == [text, text] && [text, text][2..] == [];
  }

  lemma SampleIsLocated(text: Byte)
    requires !IsSpace(text)
    ensures Locates(OneEventCodec(text), [[text]], SAMPLE_ID, EventLocation(1, 1, SAMPLE))
  {
    ObjectsCanEnd(text);
    hide KindOf;
    var lines := [[text]];
    assert lines[..1] == lines && lines[..0] == [] && lines[1..] == [];
    assert Concat(lines) == [text] + Concat(lines[1..]);
  }

  lemma SampleIsIdentified()
    ensures Identifies(OneEventSchema(), SAMPLE_ID) && !UnknownType(OneEventSchema(), SAMPLE)
  {
    assert |EVENT_ID| != |EVENT_TYPE|;
  }

  lemma SampleRecords(text: Byte)
    requires !IsSpace(text)
    ensures NoneMalformed(OneEventCodec(text), [[text], [text]])
    ensures Records(OneEventCodec(text), [[text], [text]]) == [SAMPLE, SAMPLE]
  {
    var codec, line := OneEventCodec(text), [text];
    ObjectsCanEnd(text);
    hide KindOf, OneEventCodec;
    RecordsSnoc(codec, [], line);
    RecordsSnoc(codec, [line], line);
    assert [] + [line] == [line] && [line] + [line] == [line, line];
  }

  lemma SampleLoadsAfter(before: seq<Record>, events: seq<string>)
    requires LoadedEvents(OneEventSchema(), before) == Some(events)
    ensures LoadedEvents(OneEventSchema(), before + [SAMPLE]) == Some(events + [SAMPLE_ID])
  {
    SampleParses(before);
    SampleIsIdentified();
    LoadedEventsNext(OneEventSchema(), before, SAMPLE);
    hide LoadedEvents, UnknownType, ParseEvent, WithRound, RoundAfter;
  }

  /** Each record with the id loads to the event. */
  lemma SampleLoads()
    ensures LoadedEvents(OneEventSchema(), [SAMPLE, SAMPLE]) == Some([SAMPLE_ID, SAMPLE_ID])
  {
    hide LoadedEvents;
    LoadedNothing(OneEventSchema());
    SampleLoadsAfter([], []);
    SampleLoadsAfter([] + [SAMPLE], [] + [SAMPLE_ID]);
    assert [] + [SAMPLE] + [SAMPLE] == [SAMPLE, SAMPLE];
    assert [] + [SAMPLE_ID] + [SAMPLE_ID] == [SAMPLE_ID, SAMPLE_ID];
  }

  lemma SampleParses(before: seq<Record>)
    ensures ParseEvent(OneEventSchema(), WithRound(SAMPLE, RoundAfter(before + [SAMPLE]))) == Some(SAMPLE_ID)
  {
    ParsingKeepsId(SAMPLE, RoundAfter(before + [SAMPLE]), SAMPLE_ID);
  }

  /**
    A log of one event without a newline, cut at that event, and the same event appended: on lines of
    their own the two load, but the fork's log does not.
   */
  lemma UnterminatedForkIsLost(text: Byte)
    requires !IsSpace(text)
    ensures
      var codec, schema, location := OneEventCodec(text), OneEventSchema(), EventLocation(1, 1, SAMPLE);
      && ObjectsEnd(codec) && Locates(codec, SplitLines([text]), SAMPLE_ID, location)
      && Identifies(schema, SAMPLE_ID) && !UnknownType(schema, SAMPLE)
      && Truncated([text], location.endOffset) == [text]
      && NoneMalformed(codec, SplitLines([text]) + SplitLines([text]))
      && LoadedEvents(schema, Records(codec, SplitLines([text]) + SplitLines([text]))) == Some([SAMPLE_ID, SAMPLE_ID])
      && !StartsNewLine([text], [text])
      && !Loads(schema, codec, SplitLines([text] + [text]))
  {
    var codec, schema, location := OneEventCodec(text), OneEventSchema(), EventLocation(1, 1, SAMPLE);
    ObjectsCanEnd(text);
    OneLineEach(text);
    StrippedAlready(text);
    SampleIsLocated(text);
    SampleIsIdentified();
    SampleRecords(text);
    SampleLoads();
    assert [text][..1] == [text];
    hide ObjectsEnd, Locates, KindOf, Records, LoadedEvents, NoneMalformed, SplitLines, Strip, OneEventCodec,
         Identifies, UnknownType;
    assert [[text]] + [[text]] == [[text], [text]];
    AppendedIsRead(schema, codec, [text], SAMPLE_ID, location, [text], [SAMPLE_ID, SAMPLE_ID]);
  }
}
