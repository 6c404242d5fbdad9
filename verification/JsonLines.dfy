/** Files as lines, and the two ways of reading objects from them. */
module JsonLines {
  import opened Sorting
  import opened Wrappers

  type Byte = b: int | 0 <= b < 256

  type Bytes = seq<Byte>

  const NEWLINE: Byte := 10

  /** A parsed JSON value; a number that is no integer is kept as digits and an exponent. */
  datatype Json =
    | Null
    | Bool(bool)
    | Integer(int)
    | Decimal(digits: int, exponent: int)
    | String(string)
    | Array(seq<Json>)
    | Object(fields: map<string, Json>)

  type Record = map<string, Json>

  /** The JSON library: `loads` gives `None` for text that is not JSON. */
  datatype Codec = Codec(loads: Bytes -> Option<Json>, dumps: Record -> Bytes)

  // ----- Lines -----

  /** ASCII whitespace, which `bytes.strip` removes. */
  predicate IsSpace(b: Byte) {
    b == 32 || 9 <= b <= 13
  }

  function StripLeft(line: Bytes): Bytes {
    if line != [] && IsSpace(line[0]) then StripLeft(line[1..]) else line
  }

  function StripRight(line: Bytes): Bytes {
    if line != [] && IsSpace(line[|line| - 1]) then StripRight(line[..|line| - 1]) else line
  }

  function Strip(line: Bytes): Bytes {
    StripRight(StripLeft(line))
  }

  /** Stripping takes the blanks off both ends and nothing else. */
  lemma StripTrims(line: Bytes) returns (a: nat, b: nat)
    ensures a <= b <= |line| && Strip(line) == line[a..b]
    ensures forall i | 0 <= i < a || b <= i < |line| :: IsSpace(line[i])
    ensures Strip(line) != [] ==> !IsSpace(line[a]) && !IsSpace(line[b - 1])
  {
    a := StripLeftAt(line);
    var n := StripRightAt(line[a..]);
    b := a + n;
    assert line[a..][..n] == line[a..b];
    assert forall i | b <= i < |line| :: line[i] == line[a..][i - a];
  }

  lemma {:induction false} StripLeftAt(line: Bytes) returns (a: nat)
    ensures a <= |line| && StripLeft(line) == line[a..] && forall i | 0 <= i < a :: IsSpace(line[i])
    ensures a < |line| ==> !IsSpace(line[a])
  {
    a := 0;
    if line != [] && IsSpace(line[0]) {
      var rest := StripLeftAt(line[1..]);
      a := rest + 1;
      assert forall i | 1 <= i < a :: line[i] == line[1..][i - 1];
    }
  }

  lemma {:induction false} StripRightAt(line: Bytes) returns (n: nat)
    ensures n <= |line| && StripRight(line) == line[..n] && forall i | n <= i < |line| :: IsSpace(line[i])
    ensures n > 0 ==> !IsSpace(line[n - 1])
  {
    n := |line|;
    if line != [] && IsSpace(line[|line| - 1]) {
      n := StripRightAt(line[..|line| - 1]);
      assert forall i | n <= i < |line| - 1 :: line[i] == line[..|line| - 1][i];
    }
  }

  /** The length of the first line, its newline included. */
  function LineLength(raw: Bytes): (n: nat)
    requires raw != []
    ensures 0 < n <= |raw|
  {
    if raw[0] == NEWLINE || |raw| == 1 then 1 else 1 + LineLength(raw[1..])
  }

  /** The lines a binary file yields, each with its newline; the last may lack one. */
  function SplitLines(raw: Bytes): seq<Bytes> {
    if raw == [] then []
    else [raw[..LineLength(raw)]] + SplitLines(raw[LineLength(raw)..])
  }

  function Concat(lines: seq<Bytes>): Bytes {
    if lines == [] then [] else lines[0] + Concat(lines[1..])
  }

  /** A byte run with no newline but at its end. */
  ghost predicate OneLine(line: Bytes) {
    line != [] && NEWLINE !in line[..|line| - 1]
  }

  /** The lines are the file, cut after each of its newlines and nowhere else. */
  lemma {:induction false} SplitKeepsEveryByte(raw: Bytes)
    ensures
      var lines := SplitLines(raw);
      && Concat(lines) == raw
      && (forall i | 0 <= i < |lines| :: OneLine(lines[i]))
      && (forall i | 0 <= i < |lines| - 1 :: EndsLine(lines[i]))
  {
    if raw != [] {
      NewlinesInside(raw);
      SplitKeepsEveryByte(raw[LineLength(raw)..]);
      assert raw == raw[..LineLength(raw)] + raw[LineLength(raw)..];
      assert raw[..LineLength(raw)][..LineLength(raw) - 1] == raw[..LineLength(raw) - 1];
    }
  }

  predicate EndsLine(raw: Bytes) {
    raw != [] && raw[|raw| - 1] == NEWLINE
  }

  /** A line stays the first line when more bytes follow, unless it is the unterminated last one. */
  lemma {:induction false} LineLengthAppend(raw: Bytes, more: Bytes)
    requires raw != []
    requires EndsLine(raw) || LineLength(raw) < |raw|
    ensures LineLength(raw + more) == LineLength(raw)
    ensures LineLength(raw) < |raw| || raw[|raw| - 1] == NEWLINE
  {
    if raw[0] != NEWLINE && |raw| > 1 {
      assert (raw + more)[1..] == raw[1..] + more;
      LineLengthAppend(raw[1..], more);
    }
  }

  lemma {:induction false} SplitAppendTerminated(raw: Bytes, more: Bytes)
    requires raw == [] || EndsLine(raw)
    ensures SplitLines(raw + more) == SplitLines(raw) + SplitLines(more)
  {
    if raw == [] {
      assert raw + more == more;
    } else {
      var n := LineLength(raw);
      LineLengthAppend(raw, more);
      hide SplitLines, LineLength;
      SplitUnfold(raw);
      SplitUnfold(raw + more);
      CutOfAppend(raw, more, n);
      RestEndsLine(raw, n);
      SplitAppendTerminated(raw[n..], more);
      ConcatAssociates([raw[..n]], SplitLines(raw[n..]), SplitLines(more));
    }
  }

  lemma CutOfAppend(raw: Bytes, more: Bytes, n: nat)
    requires n <= |raw|
    ensures (raw + more)[..n] == raw[..n] && (raw + more)[n..] == raw[n..] + more
  {
  }

  lemma RestEndsLine(raw: Bytes, n: nat)
    requires EndsLine(raw) && n <= |raw|
    ensures raw[n..] == [] || EndsLine(raw[n..])
  {
  }

  lemma SplitUnfold(raw: Bytes)
    requires raw != []
    ensures SplitLines(raw) == [raw[..LineLength(raw)]] + SplitLines(raw[LineLength(raw)..])
  {
  }

  lemma {:induction false} NewlinesInside(raw: Bytes)
    requires raw != []
    ensures NEWLINE !in raw[..LineLength(raw) - 1]
    ensures raw[LineLength(raw) - 1] == NEWLINE || LineLength(raw) == |raw|
  {
    if raw[0] != NEWLINE && |raw| > 1 {
      NewlinesInside(raw[1..]);
      var n := LineLength(raw);
      assert raw[..n - 1] == [raw[0]] + raw[1..][..n - 2];
    }
  }

  lemma {:induction false} LineLengthIs(raw: Bytes, n: nat)
    requires 0 < n <= |raw| && NEWLINE !in raw[..n - 1] && (raw[n - 1] == NEWLINE || n == |raw|)
    ensures LineLength(raw) == n
  {
    if n > 1 {
      assert raw[..n - 1][0] == raw[0];
      assert raw[1..][..n - 2] == raw[..n - 1][1..];
      LineLengthIs(raw[1..], n - 1);
    }
  }

  /**
    Appending bytes adds lines and leaves the earlier ones alone exactly when the file ended its
    last line, was empty, or nothing is appended.
   */
  lemma AppendingAddsLines(raw: Bytes, more: Bytes)
    ensures SplitLines(raw + more) == SplitLines(raw) + SplitLines(more)
            <==> raw == [] || more == [] || EndsLine(raw)
  {
    if raw == [] || EndsLine(raw) {
      SplitAppendTerminated(raw, more);
    } else if more == [] {
      assert raw + more == raw;
    } else {
      GluedLines(raw, more);
    }
  }

  /** Two runs of lines with the last of the one and the first of the other made into one line. */
  function Glued(lines: seq<Bytes>, more: seq<Bytes>): seq<Bytes>
    requires lines != [] && more != []
  {
    lines[..|lines| - 1] + [lines[|lines| - 1] + more[0]] + more[1..]
  }

  /** An unterminated last line runs on into the first line of what is appended; every other line stays. */
  lemma {:induction false} GluedLines(raw: Bytes, more: Bytes)
    requires raw != [] && more != [] && !EndsLine(raw)
    ensures SplitLines(raw) != [] && SplitLines(more) != []
    ensures SplitLines(raw + more) == Glued(SplitLines(raw), SplitLines(more))
  {
    var n := LineLength(raw);
    NewlinesInside(raw);
    SplitUnfold(raw);
    SplitUnfold(raw + more);
    if n < |raw| {
      LineLengthAppend(raw, more);
      hide SplitLines, LineLength;
      CutOfAppend(raw, more, n);
      RestIsUnterminated(raw, n);
      GluedLines(raw[n..], more);
      GluedTail(raw[..n], SplitLines(raw[n..]), SplitLines(more));
    } else {
      GluedLine(raw, more);
      SplitUnfold(more);
      hide LineLength;
      assert raw[n..] == [] && raw[..n] == raw;
      assert (raw + more)[..|raw| + LineLength(more)] == raw + more[..LineLength(more)];
    }
  }

  lemma RestIsUnterminated(raw: Bytes, n: nat)
    requires n < |raw| && !EndsLine(raw)
    ensures raw[n..] != [] && !EndsLine(raw[n..])
  {
  }

  lemma GluedTail(first: Bytes, lines: seq<Bytes>, more: seq<Bytes>)
    requires lines != [] && more != []
    ensures Glued([first] + lines, more) == [first] + Glued(lines, more)
  {
    var all := [first] + lines;
    assert all[..|all| - 1] == [first] + lines[..|lines| - 1];
  }

  lemma GluedLine(raw: Bytes, more: Bytes)
    requires raw != [] && more != [] && !EndsLine(raw) && LineLength(raw) == |raw|
    ensures LineLength(raw + more) == |raw| + LineLength(more)
    ensures (raw + more)[LineLength(raw + more)..] == more[LineLength(more)..]
  {
    var n, m := |raw|, LineLength(more);
    NewlinesInside(raw);
    NewlinesInside(more);
    hide LineLength;
    assert (raw + more)[..n + m - 1] == raw[..n - 1] + [raw[n - 1]] + more[..m - 1];
    LineLengthIs(raw + more, n + m);
  }

  lemma SplitFirstLine(raw: Bytes, rest: Bytes)
    requires raw != []
    requires EndsLine(raw[..LineLength(raw)]) || rest == []
    ensures SplitLines(raw[..LineLength(raw)] + rest) == [raw[..LineLength(raw)]] + SplitLines(rest)
  {
    var first := raw[..LineLength(raw)];
    NewlinesInside(raw);
    assert first[..|first| - 1] == raw[..LineLength(raw) - 1];
    LineLengthIs(first, |first|);
    assert first[..|first|] == first && first[|first|..] == [];
    if EndsLine(first) {
      SplitAppendTerminated(first, rest);
    } else {
      assert first + rest == first;
    }
  }

  /** Cutting a file at the end of its `k`-th line leaves its first `k` lines. */
  lemma {:induction false} CutLeavesLines(raw: Bytes, k: nat)
    requires k <= |SplitLines(raw)|
    ensures |Concat(SplitLines(raw)[..k])| <= |raw|
    ensures raw[..|Concat(SplitLines(raw)[..k])|] == Concat(SplitLines(raw)[..k])
    ensures SplitLines(raw[..|Concat(SplitLines(raw)[..k])|]) == SplitLines(raw)[..k]
  {
    if k > 0 {
      FirstOfKept(raw, k);
      CutLeavesLines(raw[LineLength(raw)..], k - 1);
      hide SplitLines, LineLength, Concat;
      CutOneMore(raw, SplitLines(raw[LineLength(raw)..])[..k - 1]);
    }
  }

  /** Where the bytes after the first line can be cut after `kept`, so can the file, one line longer. */
  lemma CutOneMore(raw: Bytes, kept: seq<Bytes>)
    requires raw != [] && |Concat(kept)| <= |raw[LineLength(raw)..]|
    requires raw[LineLength(raw)..][..|Concat(kept)|] == Concat(kept) && SplitLines(Concat(kept)) == kept
    ensures
      var lines := [raw[..LineLength(raw)]] + kept;
      && |Concat(lines)| <= |raw| && raw[..|Concat(lines)|] == Concat(lines) && SplitLines(Concat(lines)) == lines
  {
    hide SplitLines, LineLength, Concat;
    ConcatUnfold(raw[..LineLength(raw)], kept);
    CutAfterFirst(raw, LineLength(raw), |Concat(kept)|);
    FirstLineEnds(raw, |Concat(kept)|);
    SplitFirstLine(raw, Concat(kept));
  }

  /** Only the last line can lack its newline. */
  lemma FirstLineEnds(raw: Bytes, m: nat)
    requires raw != [] && m <= |raw[LineLength(raw)..]|
    ensures EndsLine(raw[..LineLength(raw)]) || m == 0
  {
    NewlinesInside(raw);
  }

  lemma CutAfterFirst(raw: Bytes, n: nat, m: nat)
    requires n <= |raw| && m <= |raw[n..]|
    ensures raw[..n + m] == raw[..n] + raw[n..][..m]
  {
  }

  lemma FirstOfKept(raw: Bytes, k: nat)
    requires 0 < k <= |SplitLines(raw)|
    ensures raw != [] && k - 1 <= |SplitLines(raw[LineLength(raw)..])|
    ensures SplitLines(raw)[..k] == [raw[..LineLength(raw)]] + SplitLines(raw[LineLength(raw)..])[..k - 1]
  {
  }

  lemma ConcatUnfold(first: Bytes, rest: seq<Bytes>)
    ensures Concat([first] + rest) == first + Concat(rest)
  {
    assert ([first] + rest)[1..] == rest;
  }

  // ----- Reading -----

  datatype MalformedReason = NotJson | NotObject

  datatype MalformedLine = MalformedLine(lineNumber: nat, text: Bytes, reason: MalformedReason)

  /** What one line is, once stripped. */
  datatype LineKind = Blank | Malformed(reason: MalformedReason) | Holds(record: Record)

  function KindOf(codec: Codec, line: Bytes): LineKind {
    var stripped := Strip(line);
    if stripped == [] then Blank
    else
      match codec.loads(stripped)
      case None => Malformed(NotJson)
      case Some(Object(fields)) => Holds(fields)
      case Some(_) => Malformed(NotObject)
  }

  /** A report tells the number, the text and the fault of a line that holds something but no object. */
  ghost predicate ReportsTruly(codec: Codec, lines: seq<Bytes>, m: MalformedLine) {
    && 1 <= m.lineNumber <= |lines|
    && m.text == Strip(lines[m.lineNumber - 1]) && m.text != []
    && var loaded := codec.loads(m.text);
       if m.reason == NotJson then loaded == None else loaded.Some? && !loaded.value.Object?
  }

  /** Stripped, the line is the text of an object with these fields. */
  ghost predicate IsObjectLine(codec: Codec, line: Bytes, record: Record) {
    Strip(line) != [] && codec.loads(Strip(line)) == Some(Object(record))
  }

  /** The records of the lines that hold one, in order. */
  function Records(codec: Codec, lines: seq<Bytes>): seq<Record> {
    if lines == [] then []
    else
      var last := KindOf(codec, lines[|lines| - 1]);
      Records(codec, lines[..|lines| - 1]) + (if last.Holds? then [last.record] else [])
  }

  ghost predicate NoneMalformed(codec: Codec, lines: seq<Bytes>) {
    forall i | 0 <= i < |lines| :: !KindOf(codec, lines[i]).Malformed?
  }

  datatype Item = Next(record: Record) | Raised(line: MalformedLine) | End

  lemma {:induction false} BlanksAddNothing(codec: Codec, lines: seq<Bytes>, from: nat, end: nat)
    requires from <= end <= |lines|
    requires forall k | from <= k < end :: KindOf(codec, lines[k]).Blank?
    ensures Records(codec, lines[..end]) == Records(codec, lines[..from])
    decreases end - from
  {
    if from < end {
      BlanksAddNothing(codec, lines, from, end - 1);
      assert lines[..end][..end - 1] == lines[..end - 1];
    }
  }

  /** A strict reader: where it stands, and where its last object stood. */
  class JsonObjectLines {
    const codec: Codec
    const lines: seq<Bytes>
    /** How many lines were consumed. */
    var position: nat
    /** The number of the line of the last object, 0 before any. */
    var lineNumber: nat

    constructor (codec: Codec, lines: seq<Bytes>)
      ensures this.codec == codec && this.lines == lines && position == 0 && lineNumber == 0
      ensures Valid()
    {
      this.codec, this.lines := codec, lines;
      position, lineNumber := 0, 0;
    }

    ghost predicate Valid()
      reads this
    {
      position <= |lines| && lineNumber <= position
    }

    /** The objects read so far, all of them so far if the file is intact up to here. */
    ghost function Consumed(): seq<Record>
      requires Valid()
      reads this
    {
      Records(codec, lines[..position])
    }

    method Advance() returns (item: Item)
      requires Valid()
      modifies this
      ensures Valid() && old(position) <= position
      ensures NoneMalformed(codec, lines[..old(position)]) && !item.Raised? ==> NoneMalformed(codec, lines[..position])
      ensures match item
              case Next(record) =>
                && old(position) < position == lineNumber
                && KindOf(codec, lines[position - 1]) == Holds(record)
                && IsObjectLine(codec, lines[position - 1], record)
                && (forall k | old(position) <= k < position - 1 ::
                      KindOf(codec, lines[k]).Blank? && Strip(lines[k]) == [])
                && Consumed() == old(Consumed()) + [record]
              case Raised(bad) =>
                && old(position) < position == bad.lineNumber && lineNumber == old(lineNumber)
                && KindOf(codec, lines[position - 1]) == Malformed(bad.reason)
                && ReportsTruly(codec, lines, bad)
                && (forall k | old(position) <= k < position - 1 ::
                      KindOf(codec, lines[k]).Blank? && Strip(lines[k]) == [])
              case End =>
                && position == |lines| && lineNumber == old(lineNumber)
                && Consumed() == old(Consumed())
    {
      hide KindOf, Records;
      ghost var from := position;
      while position < |lines|
        invariant from <= position <= |lines| && lineNumber == old(lineNumber)
        invariant forall k | from <= k < position :: KindOf(codec, lines[k]).Blank? && Strip(lines[k]) == []
      {
        var line := lines[position];
        position := position + 1;
        KindOfLine(codec, line);
        var stripped := Strip(line);
        if stripped == [] {
          continue;
        }
        BlanksAddNothing(codec, lines, from, position - 1);
        RecordsNext(codec, lines, position - 1);
        match codec.loads(stripped) {
          case None =>
            return Raised(MalformedLine(position, stripped, NotJson));
          case Some(Object(fields)) =>
            lineNumber := position;
            return Next(fields);
          case Some(_) =>
            return Raised(MalformedLine(position, stripped, NotObject));
        }
      }
      BlanksAddNothing(codec, lines, from, position);
      return End;
    }
  }

  lemma KindOfLine(codec: Codec, line: Bytes)
    ensures KindOf(codec, line) ==
            if Strip(line) == [] then Blank
            else match codec.loads(Strip(line))
                 case None => Malformed(NotJson)
                 case Some(Object(fields)) => Holds(fields)
                 case Some(_) => Malformed(NotObject)
  {
  }

  lemma RecordsNext(codec: Codec, lines: seq<Bytes>, k: nat)
    requires k < |lines|
    ensures Records(codec, lines[..k + 1])
            == Records(codec, lines[..k]) + match KindOf(codec, lines[k]) case Holds(r) => [r] case _ => []
  {
    assert lines[..k + 1][..k] == lines[..k];
  }

  // ----- Blank text after an object -----

  lemma {:induction false} StripLeftAppend(a: Bytes, b: Bytes)
    requires StripLeft(a) != []
    ensures StripLeft(a + b) == StripLeft(a) + b
  {
    if IsSpace(a[0]) {
      StripLeftAppend(a[1..], b);
      assert (a + b)[1..] == a[1..] + b;
    }
  }

  lemma {:induction false} StripLeftBlank(b: Bytes)
    requires StripLeft(b) == []
    ensures forall i | 0 <= i < |b| :: IsSpace(b[i])
  {
    if b != [] {
      StripLeftBlank(b[1..]);
    }
  }

  lemma {:induction false} StripRightBlank(a: Bytes, b: Bytes)
    requires forall i | 0 <= i < |b| :: IsSpace(b[i])
    ensures StripRight(a + b) == StripRight(a)
  {
    if b == [] {
      assert a + b == a;
    } else {
      var n := |b| - 1;
      StripRightBlank(a, b[..n]);
      var all := a + b;
      assert all[|all| - 1] == b[n];
      assert all[..|all| - 1] == a + b[..n];
    }
  }

  lemma {:induction false} StripRightKeepsHead(line: Bytes)
    requires line != [] && !IsSpace(line[0])
    ensures StripRight(line) != []
  {
    if IsSpace(line[|line| - 1]) {
      StripRightKeepsHead(line[..|line| - 1]);
    }
  }

  lemma {:induction false} StripLeftHead(line: Bytes)
    ensures StripLeft(line) != [] ==> !IsSpace(StripLeft(line)[0])
  {
    if line != [] && IsSpace(line[0]) {
      StripLeftHead(line[1..]);
    }
  }

  /** Blank text appended to a line that is not blank is stripped off again. */
  lemma BlankIsStripped(a: Bytes, b: Bytes)
    requires Strip(a) != [] && Strip(b) == []
    ensures Strip(a + b) == Strip(a)
  {
    StripLeftHead(b);
    if StripLeft(b) != [] {
      StripRightKeepsHead(StripLeft(b));
    }
    StripLeftBlank(b);
    StripLeftAppend(a, b);
    StripRightBlank(StripLeft(a), b);
  }

  // ----- Tolerant reading -----

  /** What the tolerant reader did with a non-blank line: yielded its record or reported it. */
  datatype Handled = Yielded(record: Record) | Reported(line: MalformedLine)

  function HandledLines(codec: Codec, lines: seq<Bytes>): seq<Handled> {
    if lines == [] then []
    else
      var n := |lines|;
      HandledLines(codec, lines[..n - 1]) +
      match KindOf(codec, lines[n - 1])
      case Blank => []
      case Holds(record) => [Yielded(record)]
      case Malformed(reason) => [Reported(MalformedLine(n, Strip(lines[n - 1]), reason))]
  }

  /** Every non-blank line either yields a record or is reported, in file order. */
  method ReadSkippingMalformed(codec: Codec, lines: seq<Bytes>) returns (handled: seq<Handled>)
    ensures handled == HandledLines(codec, lines)
  {
    handled := [];
    for i := 0 to |lines|
      invariant handled == HandledLines(codec, lines[..i])
    {
      assert lines[..i + 1][..i] == lines[..i];
      var stripped := Strip(lines[i]);
      if stripped == [] {
        continue;
      }
      match codec.loads(stripped) {
        case None => handled := handled + [Reported(MalformedLine(i + 1, stripped, NotJson))];
        case Some(Object(fields)) => handled := handled + [Yielded(fields)];
        case Some(_) => handled := handled + [Reported(MalformedLine(i + 1, stripped, NotObject))];
      }
    }
    assert lines[..|lines|] == lines;
  }

  function YieldedOf(handled: seq<Handled>): seq<Record> {
    if handled == [] then []
    else YieldedOf(handled[..|handled| - 1])
         + match handled[|handled| - 1] case Yielded(r) => [r] case Reported(_) => []
  }

  function ReportedOf(handled: seq<Handled>): seq<MalformedLine> {
    if handled == [] then []
    else ReportedOf(handled[..|handled| - 1])
         + match handled[|handled| - 1] case Yielded(_) => [] case Reported(m) => [m]
  }

  function NonBlankCount(codec: Codec, lines: seq<Bytes>): nat {
    if lines == [] then 0
    else NonBlankCount(codec, lines[..|lines| - 1]) + (if KindOf(codec, lines[|lines| - 1]).Blank? then 0 else 1)
  }

  lemma YieldedNext(handled: seq<Handled>, next: Handled)
    ensures YieldedOf(handled + [next]) == YieldedOf(handled) + (if next.Yielded? then [next.record] else [])
    ensures ReportedOf(handled + [next]) == ReportedOf(handled) + (if next.Reported? then [next.line] else [])
  {
    assert (handled + [next])[..|handled|] == handled;
  }

  lemma {:induction false} EveryLineHandledOnce(codec: Codec, lines: seq<Bytes>)
    ensures YieldedOf(HandledLines(codec, lines)) == Records(codec, lines)
    ensures |Records(codec, lines)| + |ReportedOf(HandledLines(codec, lines))| == NonBlankCount(codec, lines)
  {
    if lines != [] {
      hide KindOf, YieldedOf, ReportedOf, Strip;
      var n := |lines|;
      EveryLineHandledOnce(codec, lines[..n - 1]);
      var handled := HandledLines(codec, lines[..n - 1]);
      match KindOf(codec, lines[n - 1])
      case Blank =>
        assert HandledLines(codec, lines) == handled;
      case Holds(record) =>
        YieldedNext(handled, Yielded(record));
      case Malformed(reason) =>
        YieldedNext(handled, Reported(MalformedLine(n, Strip(lines[n - 1]), reason)));
    }
  }

  lemma {:induction false} ReportsAreTrue(codec: Codec, lines: seq<Bytes>)
    ensures forall i | 0 <= i < |HandledLines(codec, lines)| && HandledLines(codec, lines)[i].Reported? ::
              ReportsTruly(codec, lines, HandledLines(codec, lines)[i].line)
    ensures forall k | 0 <= k < |lines| && KindOf(codec, lines[k]).Malformed? ::
              exists i | 0 <= i < |HandledLines(codec, lines)| ::
                HandledLines(codec, lines)[i].Reported? && HandledLines(codec, lines)[i].line.lineNumber == k + 1
  {
    hide KindOf, Strip;
    if lines != [] {
      var n := |lines|;
      var before := lines[..n - 1];
      ReportsAreTrue(codec, before);
      var handled, all := HandledLines(codec, before), HandledLines(codec, lines);
      assert handled <= all;
      forall i | 0 <= i < |all| && all[i].Reported? ensures ReportsTruly(codec, lines, all[i].line) {
        if i < |handled| {
          assert all[i] == handled[i];
          assert ReportsTruly(codec, before, handled[i].line);
        } else {
          MalformedIsReportedTruly(codec, lines, n, KindOf(codec, lines[n - 1]).reason);
        }
      }
      forall k | 0 <= k < n && KindOf(codec, lines[k]).Malformed?
        ensures exists i | 0 <= i < |all| :: all[i].Reported? && all[i].line.lineNumber == k + 1
      {
        if k < n - 1 {
          assert before[k] == lines[k];
          var i :| 0 <= i < |handled| && handled[i].Reported? && handled[i].line.lineNumber == k + 1;
          assert all[i] == handled[i];
        } else {
          assert all[|handled|].Reported?;
        }
      }
    }
  }

  ghost predicate HoldsObject(codec: Codec, line: Bytes) {
    exists record :: IsObjectLine(codec, line, record)
  }

  lemma OtherLinesAreMalformed(codec: Codec, line: Bytes)
    ensures Strip(line) != [] && !HoldsObject(codec, line) <==> KindOf(codec, line).Malformed?
  {
    hide Strip;
    var kind := KindOf(codec, line);
    if kind.Holds? {
      assert IsObjectLine(codec, line, kind.record);
    }
  }

  lemma MalformedIsReportedTruly(codec: Codec, lines: seq<Bytes>, n: nat, reason: MalformedReason)
    requires 1 <= n <= |lines| && KindOf(codec, lines[n - 1]) == Malformed(reason)
    ensures ReportsTruly(codec, lines, MalformedLine(n, Strip(lines[n - 1]), reason))
  {
    hide Strip;
  }

  /**
    The records yielded and the lines reported partition the non-blank lines; every report is true
    of its line and every malformed line is reported.
   */
  lemma TolerantReadPartitions(codec: Codec, lines: seq<Bytes>)
    ensures
      var handled := HandledLines(codec, lines);
      && YieldedOf(handled) == Records(codec, lines)
      && |YieldedOf(handled)| + |ReportedOf(handled)| == NonBlankCount(codec, lines)
      && (forall i | 0 <= i < |handled| && handled[i].Reported? :: ReportsTruly(codec, lines, handled[i].line))
      && (forall k | 0 <= k < |lines| && Strip(lines[k]) != [] && !HoldsObject(codec, lines[k]) ::
            exists i | 0 <= i < |handled| :: handled[i].Reported? && handled[i].line.lineNumber == k + 1)
  {
    EveryLineHandledOnce(codec, lines);
    ReportsAreTrue(codec, lines);
    forall k | 0 <= k < |lines|
      ensures Strip(lines[k]) != [] && !HoldsObject(codec, lines[k]) <==> KindOf(codec, lines[k]).Malformed?
    {
      OtherLinesAreMalformed(codec, lines[k]);
    }
  }

  function AllYielded(records: seq<Record>): seq<Handled> {
    seq(|records|, i requires 0 <= i < |records| => Yielded(records[i]))
  }

  lemma {:induction false} HandledPrefix(codec: Codec, lines: seq<Bytes>, k: nat)
    requires k <= |lines|
    ensures HandledLines(codec, lines[..k]) <= HandledLines(codec, lines)
    decreases |lines|
  {
    if k < |lines| {
      HandledPrefix(codec, lines[..|lines| - 1], k);
      assert lines[..|lines| - 1][..k] == lines[..k];
    } else {
      assert lines[..k] == lines;
    }
  }

  /**
    Up to the first malformed line the tolerant reader yields exactly what the strict one does, and
    reports nothing.
   */
  lemma {:induction false} ReadersAgreeUpTo(codec: Codec, lines: seq<Bytes>, k: nat)
    requires k <= |lines| && NoneMalformed(codec, lines[..k])
    ensures HandledLines(codec, lines[..k]) == AllYielded(Records(codec, lines[..k]))
    ensures HandledLines(codec, lines[..k]) <= HandledLines(codec, lines)
  {
    hide KindOf;
    HandledPrefix(codec, lines, k);
    if k > 0 {
      var before := lines[..k - 1];
      assert lines[..k][..k - 1] == before && lines[..k][k - 1] == lines[k - 1];
      forall i | 0 <= i < k - 1 ensures !KindOf(codec, before[i]).Malformed? {
        assert before[i] == lines[..k][i];
      }
      ReadersAgreeUpTo(codec, lines, k - 1);
    }
  }
}
