/** Splitting a written filter `<knob><operator><value>` into its parts. */
module KnobFilter {
  import opened Wrappers

  datatype Operator = EQ | NE | GE | LE | GT | LT

  function Symbol(op: Operator): string {
    match op
    case EQ => "="
    case NE => "!="
    case GE => ">="
    case LE => "<="
    case GT => ">"
    case LT => "<"
  }

  lemma SymbolTexts()
    ensures Symbol(EQ) == "=" && Symbol(NE) == "!=" && Symbol(GE) == ">=" && Symbol(LE) == "<="
    ensures Symbol(GT) == ">" && Symbol(LT) == "<"
  {
  }

  /** The longer operators first, so that at one place the longest is seen first. */
  const OPERATORS_BY_LENGTH: seq<Operator> := [NE, GE, LE, EQ, GT, LT]

  datatype KnobFilter = KnobFilter(knob: string, operator: Operator, valueText: string)

  datatype ParseError = NoOperator | NoKnob

  predicate OccursAt(raw: string, part: string, i: nat) {
    i + |part| <= |raw| && raw[i..i + |part|] == part
  }

  /** `str.find`: the least index `part` occurs at, or -1. */
  method Find(raw: string, part: string) returns (index: int)
    ensures index == -1 || (index >= 0 && OccursAt(raw, part, index))
    ensures forall i: nat | OccursAt(raw, part, i) :: 0 <= index <= i
  {
    for i := 0 to |raw| + 1
      invariant forall j: nat | j < i :: !OccursAt(raw, part, j)
    {
      if i + |part| <= |raw| && raw[i..i + |part|] == part {
        return i;
      }
    }
    return -1;
  }

  /** The place any operator occurs first, and the longest operator there. */
  ghost predicate IsSeparator(raw: string, i: nat, op: Operator) {
    && OccursAt(raw, Symbol(op), i)
    && forall j: nat, other: Operator | OccursAt(raw, Symbol(other), j) ::
         i < j || (i == j && |Symbol(other)| <= |Symbol(op)|)
  }

  lemma SameLengthAtOnePlace(raw: string, i: nat, a: Operator, b: Operator)
    requires OccursAt(raw, Symbol(a), i) && OccursAt(raw, Symbol(b), i) && |Symbol(a)| == |Symbol(b)|
    ensures a == b
  {
    assert raw[i..i + |Symbol(a)|][0] == Symbol(a)[0];
    assert raw[i..i + |Symbol(b)|][0] == Symbol(b)[0];
  }

  /** There is at most one separator. */
  lemma SeparatorIsUnique(raw: string, i: nat, a: Operator, j: nat, b: Operator)
    requires IsSeparator(raw, i, a) && IsSeparator(raw, j, b)
    ensures i == j && a == b
  {
    SameLengthAtOnePlace(raw, i, a, b);
  }

  lemma LengthsFollowOrder(a: nat, b: nat)
    requires a <= b < |OPERATORS_BY_LENGTH|
    ensures |Symbol(OPERATORS_BY_LENGTH[b])| <= |Symbol(OPERATORS_BY_LENGTH[a])|
  {
  }

  predicate IsListed(op: Operator) {
    exists k | 0 <= k < |OPERATORS_BY_LENGTH| :: OPERATORS_BY_LENGTH[k] == op
  }

  lemma EveryOperatorListed(op: Operator)
    ensures IsListed(op)
  {
    match op
    case NE => assert OPERATORS_BY_LENGTH[0] == op;
    case GE => assert OPERATORS_BY_LENGTH[1] == op;
    case LE => assert OPERATORS_BY_LENGTH[2] == op;
    case EQ => assert OPERATORS_BY_LENGTH[3] == op;
    case GT => assert OPERATORS_BY_LENGTH[4] == op;
    case LT => assert OPERATORS_BY_LENGTH[5] == op;
  }

  /** The best separator among the first `k` operators in order of length. */
  ghost predicate BestOf(raw: string, k: nat, best: Option<(nat, Operator)>)
    requires k <= |OPERATORS_BY_LENGTH|
  {
    match best
    case None => forall m, j: nat | 0 <= m < k :: !OccursAt(raw, Symbol(OPERATORS_BY_LENGTH[m]), j)
    case Some((i, op)) =>
      && OccursAt(raw, Symbol(op), i)
      && (exists m | 0 <= m < k :: OPERATORS_BY_LENGTH[m] == op)
      && forall m, j: nat | 0 <= m < k && OccursAt(raw, Symbol(OPERATORS_BY_LENGTH[m]), j) ::
           i < j || (i == j && |Symbol(OPERATORS_BY_LENGTH[m])| <= |Symbol(op)|)
  }

  /** The separator of `raw`, or `None` when no operator occurs in it. */
  method FindSeparator(raw: string) returns (best: Option<(nat, Operator)>)
    ensures match best
            case None => forall op, i: nat :: !OccursAt(raw, Symbol(op), i)
            case Some((i, op)) => IsSeparator(raw, i, op)
  {
    hide Symbol, OccursAt;
    best := None;
    for k := 0 to |OPERATORS_BY_LENGTH|
      invariant BestOf(raw, k, best)
    {
      var operator := OPERATORS_BY_LENGTH[k];
      var index := Find(raw, Symbol(operator));
      ghost var before := best;
      if index < 0 {
        KeepsBest(raw, k, best);
        continue;
      }
      if best.None? || index < best.value.0 {
        best := Some((index, operator));
      }
      if before.Some? {
        var m :| 0 <= m < k && OPERATORS_BY_LENGTH[m] == before.value.1;
        LengthsFollowOrder(m, k);
      }
      BetterBest(raw, k, before, index, best);
    }
    BestOfAll(raw, best);
  }

  lemma BestOfAll(raw: string, best: Option<(nat, Operator)>)
    requires BestOf(raw, |OPERATORS_BY_LENGTH|, best)
    ensures match best
            case None => forall op, i: nat :: !OccursAt(raw, Symbol(op), i)
            case Some((i, op)) => IsSeparator(raw, i, op)
  {
    hide Symbol, OccursAt;
    forall op, j: nat | OccursAt(raw, Symbol(op), j)
      ensures best.Some?
      ensures best.value.0 < j || (best.value.0 == j && |Symbol(op)| <= |Symbol(best.value.1)|)
    {
      EveryOperatorListed(op);
      var k :| 0 <= k < |OPERATORS_BY_LENGTH| && OPERATORS_BY_LENGTH[k] == op;
      assert OccursAt(raw, Symbol(OPERATORS_BY_LENGTH[k]), j);
    }
  }

  lemma KeepsBest(raw: string, k: nat, best: Option<(nat, Operator)>)
    requires k < |OPERATORS_BY_LENGTH| && BestOf(raw, k, best)
    requires forall j: nat :: !OccursAt(raw, Symbol(OPERATORS_BY_LENGTH[k]), j)
    ensures BestOf(raw, k + 1, best)
  {
    hide Symbol, OccursAt;
  }

  lemma BetterBest(raw: string, k: nat, before: Option<(nat, Operator)>, index: nat, best: Option<(nat, Operator)>)
    requires k < |OPERATORS_BY_LENGTH| && BestOf(raw, k, before)
    requires OccursAt(raw, Symbol(OPERATORS_BY_LENGTH[k]), index)
    requires forall j: nat | OccursAt(raw, Symbol(OPERATORS_BY_LENGTH[k]), j) :: index <= j
    requires before.Some? ==> |Symbol(OPERATORS_BY_LENGTH[k])| <= |Symbol(before.value.1)|
    requires best == if before.None? || index < before.value.0 then Some((index, OPERATORS_BY_LENGTH[k])) else before
    ensures BestOf(raw, k + 1, best)
  {
    hide Symbol, OccursAt;
  }

  // ----- Stripping -----

  /** Whitespace as `str.strip` sees it. */
  predicate IsSpace(c: char) {
    var n := c as int;
    9 <= n <= 13 || 28 <= n <= 32 || n == 133 || n == 160 || n == 0x1680 || 0x2000 <= n <= 0x200a
    || n == 0x2028 || n == 0x2029 || n == 0x202f || n == 0x205f || n == 0x3000
  }

  function StripLeft(s: string): string {
    if s != "" && IsSpace(s[0]) then StripLeft(s[1..]) else s
  }

  function StripRight(s: string): string {
    if s != "" && IsSpace(s[|s| - 1]) then StripRight(s[..|s| - 1]) else s
  }

  function Strip(s: string): string {
    StripRight(StripLeft(s))
  }

  lemma {:induction false} StripLeftShape(s: string)
    ensures |StripLeft(s)| <= |s| && (|StripLeft(s)| == |s| ==> StripLeft(s) == s)
    ensures StripLeft(s) != "" ==> !IsSpace(StripLeft(s)[0])
  {
    if s != "" && IsSpace(s[0]) {
      StripLeftShape(s[1..]);
    }
  }

  lemma {:induction false} StripRightShape(s: string)
    ensures |StripRight(s)| <= |s| && (|StripRight(s)| == |s| ==> StripRight(s) == s)
    ensures StripRight(s) != "" ==> StripRight(s)[0] == s[0] && !IsSpace(StripRight(s)[|StripRight(s)| - 1])
  {
    if s != "" && IsSpace(s[|s| - 1]) {
      StripRightShape(s[..|s| - 1]);
    }
  }

  /** Stripping takes the spaces off both ends and nothing else. */
  lemma StripTrims(s: string) returns (a: nat, b: nat)
    ensures a <= b <= |s| && Strip(s) == s[a..b]
    ensures forall i | 0 <= i < a || b <= i < |s| :: IsSpace(s[i])
    ensures Strip(s) != "" ==> !IsSpace(s[a]) && !IsSpace(s[b - 1])
  {
    a := StripLeftAt(s);
    var n := StripRightAt(s[a..]);
    b := a + n;
    StripLeftShape(s);
    StripRightShape(s[a..]);
    assert s[a..][..n] == s[a..b];
    assert forall i | b <= i < |s| :: s[i] == s[a..][i - a];
  }

  lemma {:induction false} StripLeftAt(s: string) returns (a: nat)
    ensures a <= |s| && StripLeft(s) == s[a..] && forall i | 0 <= i < a :: IsSpace(s[i])
  {
    a := 0;
    if s != "" && IsSpace(s[0]) {
      var rest := StripLeftAt(s[1..]);
      a := rest + 1;
      assert forall i | 1 <= i < a :: s[i] == s[1..][i - 1];
    }
  }

  lemma {:induction false} StripRightAt(s: string) returns (n: nat)
    ensures n <= |s| && StripRight(s) == s[..n] && forall i | n <= i < |s| :: IsSpace(s[i])
  {
    n := |s|;
    if s != "" && IsSpace(s[|s| - 1]) {
      n := StripRightAt(s[..|s| - 1]);
      assert forall i | n <= i < |s| - 1 :: s[i] == s[..|s| - 1][i];
    }
  }

  lemma StripShape(s: string)
    ensures |Strip(s)| <= |s| && (|Strip(s)| == |s| ==> Strip(s) == s)
    ensures Strip(Strip(s)) == Strip(s)
  {
    StripLeftShape(s);
    StripRightShape(StripLeft(s));
  }

  // ----- Parsing -----

  function FilterAt(raw: string, i: nat, op: Operator): Result<KnobFilter, ParseError>
    requires OccursAt(raw, Symbol(op), i)
  {
    var knob := Strip(raw[..i]);
    if knob == "" then Err(NoKnob) else Ok(KnobFilter(knob, op, Strip(raw[i + |Symbol(op)|..])))
  }

  /** What parsing `raw` must give. */
  ghost predicate ParsesTo(raw: string, r: Result<KnobFilter, ParseError>) {
    || (r == Err(NoOperator) && forall op, i: nat :: !OccursAt(raw, Symbol(op), i))
    || (exists op, i: nat | IsSeparator(raw, i, op) :: OccursAt(raw, Symbol(op), i) && r == FilterAt(raw, i, op))
  }

  method ParseKnobFilter(raw: string) returns (r: Result<KnobFilter, ParseError>)
    ensures ParsesTo(raw, r)
  {
    var found := FindSeparator(raw);
    if found.None? {
      return Err(NoOperator);
    }
    var (index, operator) := found.value;
    var knob := Strip(raw[..index]);
    if knob == "" {
      assert FilterAt(raw, index, operator) == Err(NoKnob);
      return Err(NoKnob);
    }
    r := Ok(KnobFilter(knob, operator, Strip(raw[index + |Symbol(operator)|..])));
    assert r == FilterAt(raw, index, operator);
  }

  /** Parsing has one answer. */
  lemma ParsingIsDetermined(raw: string, a: Result<KnobFilter, ParseError>, b: Result<KnobFilter, ParseError>)
    requires ParsesTo(raw, a) && ParsesTo(raw, b)
    ensures a == b
  {
    if a != Err(NoOperator) && b != Err(NoOperator) {
      var opA: Operator, i: nat :| IsSeparator(raw, i, opA) && a == FilterAt(raw, i, opA);
      var opB: Operator, j: nat :| IsSeparator(raw, j, opB) && b == FilterAt(raw, j, opB);
      SeparatorIsUnique(raw, i, opA, j, opB);
    }
  }

  // ----- Printing and parsing again -----

  function Print(filter: KnobFilter): string {
    filter.knob + Symbol(filter.operator) + filter.valueText
  }

  predicate Marks(c: char) {
    c == '=' || c == '<' || c == '>'
  }

  /** The filters a written form stands for. */
  predicate Printable(filter: KnobFilter) {
    && filter.knob != "" && Strip(filter.knob) == filter.knob && Strip(filter.valueText) == filter.valueText
    && (forall i | 0 <= i < |filter.knob| :: !Marks(filter.knob[i]))
    && !(filter.operator.EQ? && filter.knob[|filter.knob| - 1] == '!')
    && !((filter.operator.GT? || filter.operator.LT?) && filter.valueText != "" && filter.valueText[0] == '=')
  }

  /** Every operator is one of the marks, or a character followed by `=`. */
  lemma SymbolShape(raw: string, op: Operator, i: nat)
    requires OccursAt(raw, Symbol(op), i)
    ensures Marks(raw[i]) || (op == NE && raw[i] == '!')
    ensures |Symbol(op)| == 2 ==> i + 1 < |raw| && raw[i + 1] == '='
    ensures raw[i] == Symbol(op)[0]
  {
    assert raw[i] == raw[i..i + |Symbol(op)|][0];
    if |Symbol(op)| == 2 {
      assert raw[i + 1] == raw[i..i + |Symbol(op)|][1];
    }
  }

  /** No operator occurs inside the name of a printable filter. */
  lemma NothingInTheName(filter: KnobFilter, other: Operator, j: nat)
    requires Printable(filter) && OccursAt(Print(filter), Symbol(other), j)
    ensures |filter.knob| <= j
  {
    hide Strip;
    var raw, n := Print(filter), |filter.knob|;
    SymbolShape(raw, other, j);
    assert raw[n] == Symbol(filter.operator)[0];
    assert forall k | 0 <= k < n :: raw[k] == filter.knob[k];
  }

  /** No longer operator starts where the filter's own does. */
  lemma NothingLonger(filter: KnobFilter, other: Operator)
    requires Printable(filter) && OccursAt(Print(filter), Symbol(other), |filter.knob|)
    ensures |Symbol(other)| <= |Symbol(filter.operator)|
  {
    hide Strip;
    var raw, n := Print(filter), |filter.knob|;
    SymbolShape(raw, other, n);
    assert raw[n] == Symbol(filter.operator)[0];
    if filter.valueText != "" {
      assert raw[n + |Symbol(filter.operator)|] == filter.valueText[0];
    }
  }

  lemma PrintedSeparator(filter: KnobFilter)
    requires Printable(filter)
    ensures IsSeparator(Print(filter), |filter.knob|, filter.operator)
  {
    var raw, n := Print(filter), |filter.knob|;
    assert raw[n..n + |Symbol(filter.operator)|] == Symbol(filter.operator);
    hide Symbol, Printable, Print;
    forall j: nat, other: Operator | OccursAt(raw, Symbol(other), j)
      ensures n < j || (n == j && |Symbol(other)| <= |Symbol(filter.operator)|)
    {
      NothingInTheName(filter, other, j);
      if j == n {
        NothingLonger(filter, other);
      }
    }
  }

  lemma MarkOccurs(raw: string, i: nat) returns (op: Operator)
    requires i < |raw| && Marks(raw[i])
    ensures OccursAt(raw, Symbol(op), i)
  {
    op := if raw[i] == '=' then EQ else if raw[i] == '<' then LT else GT;
    assert raw[i..i + 1] == [raw[i]];
  }

  lemma PairOccurs(raw: string, i: nat, op: Operator)
    requires i + 1 < |raw| && |Symbol(op)| == 2 && raw[i] == Symbol(op)[0] && raw[i + 1] == '='
    ensures OccursAt(raw, Symbol(op), i)
  {
    assert raw[i..i + 2] == [raw[i], raw[i + 1]];
  }

  /** A filter that comes back has its operator right after its name. */
  lemma ReadBackInPlace(filter: KnobFilter, i: nat)
    requires OccursAt(Print(filter), Symbol(filter.operator), i)
    requires FilterAt(Print(filter), i, filter.operator) == Ok(filter)
    ensures i == |filter.knob| && filter.knob != ""
    ensures Strip(filter.knob) == filter.knob && Strip(filter.valueText) == filter.valueText
  {
    hide Symbol, Strip;
    var raw := Print(filter);
    StripShape(raw[..i]);
    StripShape(raw[i + |Symbol(filter.operator)|..]);
  }

  lemma NameHasNoMarks(filter: KnobFilter)
    requires IsSeparator(Print(filter), |filter.knob|, filter.operator)
    ensures forall k | 0 <= k < |filter.knob| :: !Marks(filter.knob[k])
    ensures filter.operator.EQ? && filter.knob != "" ==> filter.knob[|filter.knob| - 1] != '!'
  {
    var raw, n := Print(filter), |filter.knob|;
    forall k | 0 <= k < n ensures !Marks(filter.knob[k]) {
      assert raw[k] == filter.knob[k];
      if Marks(raw[k]) {
        var other := MarkOccurs(raw, k);
      }
    }
    if filter.operator.EQ? && n > 0 {
      assert raw[n - 1] == filter.knob[n - 1] && raw[n] == '=';
      if raw[n - 1] == '!' {
        PairOccurs(raw, n - 1, NE);
      }
    }
  }

  lemma ValueDoesNotExtend(filter: KnobFilter)
    requires IsSeparator(Print(filter), |filter.knob|, filter.operator)
    requires filter.operator.GT? || filter.operator.LT?
    ensures filter.valueText != "" ==> filter.valueText[0] != '='
  {
    var raw, n := Print(filter), |filter.knob|;
    if filter.valueText != "" {
      assert raw[n] == Symbol(filter.operator)[0] && raw[n + 1] == filter.valueText[0];
      if filter.valueText[0] == '=' {
        PairOccurs(raw, n, if filter.operator.GT? then GE else LE);
      }
    }
  }

  /** When a filter comes back from its written form, nothing in it could be read otherwise. */
  lemma ReadBackIsPrintable(filter: KnobFilter, i: nat)
    requires IsSeparator(Print(filter), i, filter.operator)
    requires FilterAt(Print(filter), i, filter.operator) == Ok(filter)
    ensures Printable(filter)
  {
    hide Symbol, Strip, Print, Marks;
    ReadBackInPlace(filter, i);
    NameHasNoMarks(filter);
    if filter.operator.GT? || filter.operator.LT? {
      ValueDoesNotExtend(filter);
    }
  }

  lemma PrintedName(filter: KnobFilter)
    requires Printable(filter)
    ensures filter.knob != "" && Strip(filter.knob) == filter.knob && Strip(filter.valueText) == filter.valueText
  {
  }

  /** Printing a filter and parsing the text gives the same filter back exactly when it is printable. */
  lemma PrintThenParse(filter: KnobFilter, r: Result<KnobFilter, ParseError>)
    requires ParsesTo(Print(filter), r)
    ensures r == Ok(filter) <==> Printable(filter)
  {
    hide ParsesTo, Print, Printable;
    if Printable(filter) {
      PrintableComesBack(filter);
      ParsingIsDetermined(Print(filter), r, Ok(filter));
    }
    if r == Ok(filter) {
      ComesBackPrintable(filter);
    }
  }

  lemma PrintableComesBack(filter: KnobFilter)
    requires Printable(filter)
    ensures ParsesTo(Print(filter), Ok(filter))
  {
    var raw, n := Print(filter), |filter.knob|;
    assert raw[..n] == filter.knob && raw[n + |Symbol(filter.operator)|..] == filter.valueText;
    PrintedSeparator(filter);
    PrintedName(filter);
    SeparatorOccurs(raw, n, filter.operator);
    hide Symbol, Strip, Print, IsSeparator, Printable, OccursAt;
    assert FilterAt(raw, n, filter.operator) == Ok(filter);
  }

  lemma SeparatorOccurs(raw: string, i: nat, op: Operator)
    requires IsSeparator(raw, i, op)
    ensures OccursAt(raw, Symbol(op), i)
  {
  }

  lemma ComesBackPrintable(filter: KnobFilter)
    requires ParsesTo(Print(filter), Ok(filter))
    ensures Printable(filter)
  {
    hide Symbol, Strip, Print, IsSeparator, Printable, OccursAt;
    var raw := Print(filter);
    var op: Operator, i: nat :| IsSeparator(raw, i, op) && OccursAt(raw, Symbol(op), i)
                                && Ok(filter) == FilterAt(raw, i, op);
    ReadBackIsPrintable(filter, i);
  }
}
