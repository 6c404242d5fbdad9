/** Rewriting a JSON Lines file record by record. */
module JsonRewrite {
  import opened Wrappers
  import opened JsonLines

  datatype RewrittenJsonl = RewrittenJsonl(content: Bytes, lineCount: nat)

  /** The records `transform` keeps, as it returns them, in order. */
  function Kept(transform: Record -> Option<Record>, records: seq<Record>): seq<Record> {
    if records == [] then []
    else
      Kept(transform, records[..|records| - 1])
      + match transform(records[|records| - 1]) case Some(kept) => [kept] case None => []
  }

  function Encoded(codec: Codec, records: seq<Record>): seq<Bytes> {
    seq(|records|, i requires 0 <= i < |records| => codec.dumps(records[i]))
  }

  function Join(separator: Bytes, parts: seq<Bytes>): Bytes {
    if parts == [] then []
    else if |parts| == 1 then parts[0]
    else parts[0] + separator + Join(separator, parts[1..])
  }

  /** The kept lines joined by newlines, with one at the end. */
  function Content(codec: Codec, records: seq<Record>): Bytes {
    Join([NEWLINE], Encoded(codec, records)) + [NEWLINE]
  }

  /** Succeeds exactly on a file without malformed lines; otherwise the error is its first one. */
  method RewriteJsonObjects(codec: Codec, lines: seq<Bytes>, transform: Record -> Option<Record>)
    returns (r: Result<RewrittenJsonl, MalformedLine>)
    ensures r.Ok? <==> NoneMalformed(codec, lines)
    ensures r.Ok? ==>
              var kept := Kept(transform, Records(codec, lines));
              r.value == RewrittenJsonl(Content(codec, kept), |kept|)
    ensures r.Err? ==>
              && 1 <= r.error.lineNumber <= |lines|
              && NoneMalformed(codec, lines[..r.error.lineNumber - 1])
              && KindOf(codec, lines[r.error.lineNumber - 1]) == Malformed(r.error.reason)
  {
    hide KindOf, Records, Encoded, Kept;
    EncodedOfNothing(codec, transform);
    RecordsOfNothing(codec, lines);
    var reader := new JsonObjectLines(codec, lines);
    var outputLines: seq<Bytes> := [];
    while true
      invariant reader.Valid() && fresh(reader) && reader.lines == lines && reader.codec == codec
      invariant NoneMalformed(codec, lines[..reader.position])
      invariant outputLines == Encoded(codec, Kept(transform, reader.Consumed()))
      decreases |lines| - reader.position
    {
      ghost var before, consumed := reader.position, reader.Consumed();
      var item := reader.Advance();
      match item {
        case End =>
          break;
        case Raised(bad) =>
          assert NoneMalformed(codec, lines[..reader.position - 1]) by {
            assert forall k | 0 <= k < before :: lines[..before][k] == lines[k];
          }
          return Err(bad);
        case Next(record) =>
          KeptNext(transform, consumed, record);
          var kept := transform(record);
          if kept.Some? {
            EncodedNext(codec, Kept(transform, consumed), kept.value);
            outputLines := outputLines + [codec.dumps(kept.value)];
          }
      }
    }
    assert lines[..|lines|] == lines;
    EncodedCount(codec, Kept(transform, Records(codec, lines)));
    return Ok(RewrittenJsonl(Join([NEWLINE], outputLines) + [NEWLINE], |outputLines|));
  }

  lemma EncodedNext(codec: Codec, records: seq<Record>, next: Record)
    ensures Encoded(codec, records + [next]) == Encoded(codec, records) + [codec.dumps(next)]
  {
  }

  lemma KeptNext(transform: Record -> Option<Record>, records: seq<Record>, last: Record)
    ensures Kept(transform, records + [last]) ==
            match transform(last)
            case Some(kept) => Kept(transform, records) + [kept]
            case None => Kept(transform, records)
  {
    assert (records + [last])[..|records|] == records;
  }

  lemma EncodedOfNothing(codec: Codec, transform: Record -> Option<Record>)
    ensures Encoded(codec, Kept(transform, [])) == []
  {
  }

  lemma EncodedCount(codec: Codec, records: seq<Record>)
    ensures |Encoded(codec, records)| == |records|
  {
  }

  lemma RecordsOfNothing(codec: Codec, lines: seq<Bytes>)
    ensures Records(codec, lines[..0]) == []
  {
  }

  // ----- Round trip -----

  /** The JSON library writes this record on one line that it reads back as the same object. */
  ghost predicate Encodes(codec: Codec, record: Record) {
    var text := codec.dumps(record);
    text != [] && NEWLINE !in text && Strip(text) == text && codec.loads(text) == Some(Object(record))
  }

  lemma {:induction false} StripRightShape(line: Bytes)
    ensures StripRight(line) == line <==> line == [] || !IsSpace(line[|line| - 1])
    ensures |StripRight(line)| <= |line|
    ensures |StripRight(line)| == |line| ==> StripRight(line) == line
  {
    if line != [] && IsSpace(line[|line| - 1]) {
      StripRightShape(line[..|line| - 1]);
    }
  }

  lemma {:induction false} StripLeftShape(line: Bytes)
    ensures StripLeft(line) == line <==> line == [] || !IsSpace(line[0])
    ensures |StripLeft(line)| <= |line|
    ensures |StripLeft(line)| == |line| ==> StripLeft(line) == line
  {
    if line != [] && IsSpace(line[0]) {
      StripLeftShape(line[1..]);
    }
  }

  /** A newline after text that needs no stripping is stripped. */
  lemma StripNewline(text: Bytes)
    requires text != [] && Strip(text) == text
    ensures Strip(text + [NEWLINE]) == text
  {
    StripRightShape(StripLeft(text));
    StripLeftShape(text);
    StripLeftShape(text + [NEWLINE]);
    StripRightShape(text);
    assert StripLeft(text) == text;
    assert (text + [NEWLINE])[..|text|] == text;
  }

  lemma WrittenLineHolds(codec: Codec, record: Record)
    requires Encodes(codec, record)
    ensures KindOf(codec, codec.dumps(record) + [NEWLINE]) == Holds(record)
  {
    StripNewline(codec.dumps(record));
  }

  lemma LoneNewlineIsBlank(codec: Codec)
    ensures KindOf(codec, [NEWLINE]) == Blank && SplitLines([NEWLINE]) == [[NEWLINE]]
  {
    assert [NEWLINE][1..] == [] && [NEWLINE][..1] == [NEWLINE];
    assert StripLeft([NEWLINE][1..]) == [];
    assert StripLeft([NEWLINE]) == [];
  }

  lemma {:induction false} ContentLines(codec: Codec, records: seq<Record>)
    requires records != [] && forall i | 0 <= i < |records| :: Encodes(codec, records[i])
    ensures SplitLines(Content(codec, records))
            == seq(|records|, i requires 0 <= i < |records| => codec.dumps(records[i]) + [NEWLINE])
  {
    hide SplitLines, Strip;
    var first := codec.dumps(records[0]) + [NEWLINE];
    OneLine(codec.dumps(records[0]));
    assert Encoded(codec, records)[1..] == Encoded(codec, records[1..]);
    if |records| == 1 {
      assert Content(codec, records) == first;
    } else {
      ContentLines(codec, records[1..]);
      var rest := Content(codec, records[1..]);
      assert Content(codec, records) == first + rest;
      SplitAppendTerminated(first, rest);
    }
  }

  lemma OneLine(text: Bytes)
    requires NEWLINE !in text
    ensures SplitLines(text + [NEWLINE]) == [text + [NEWLINE]]
  {
    var line := text + [NEWLINE];
    assert line[..|line| - 1] == text && line[..|line|] == line && line[|line|..] == [];
    LineLengthIs(line, |line|);
  }

  lemma {:induction false} RecordsOfWritten(codec: Codec, records: seq<Record>, lines: seq<Bytes>)
    requires |lines| == |records| && forall i | 0 <= i < |records| :: KindOf(codec, lines[i]) == Holds(records[i])
    ensures Records(codec, lines) == records && NoneMalformed(codec, lines)
  {
    hide KindOf;
    if records != [] {
      var n := |records| - 1;
      RecordsOfWritten(codec, records[..n], lines[..n]);
    }
  }

  /** Reading what was rewritten gives exactly the kept records, in order; nothing kept is one blank line. */
  lemma RewriteRoundTrip(codec: Codec, lines: seq<Bytes>, transform: Record -> Option<Record>)
    requires forall i | 0 <= i < |Kept(transform, Records(codec, lines))| ::
               Encodes(codec, Kept(transform, Records(codec, lines))[i])
    ensures
      var kept := Kept(transform, Records(codec, lines));
      var reread := SplitLines(Content(codec, kept));
      && NoneMalformed(codec, reread)
      && Records(codec, reread) == kept
      && (kept == [] ==> Content(codec, kept) == [NEWLINE])
  {
    var kept := Kept(transform, Records(codec, lines));
    if kept == [] {
      LoneNewlineIsBlank(codec);
      assert Content(codec, kept) == [NEWLINE];
      RecordsOfBlank(codec);
    } else {
      ContentLines(codec, kept);
      var reread := SplitLines(Content(codec, kept));
      forall i | 0 <= i < |kept| ensures KindOf(codec, reread[i]) == Holds(kept[i]) {
        WrittenLineHolds(codec, kept[i]);
      }
      RecordsOfWritten(codec, kept, reread);
    }
  }

  lemma RecordsOfBlank(codec: Codec)
    requires KindOf(codec, [NEWLINE]) == Blank
    ensures Records(codec, [[NEWLINE]]) == [] && NoneMalformed(codec, [[NEWLINE]])
  {
    hide KindOf;
    assert [[NEWLINE]][..0] == [];
  }
}
