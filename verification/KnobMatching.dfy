/** Testing knob filters against the config a run recorded. */
module KnobMatching {
  import opened Wrappers
  import opened KnobFilter

  /** A recorded config value; `Nothing` is a recorded null. */
  datatype Value =
    | Nothing
    | Truth(truth: bool)
    | Number(number: real)
    | Text(text: string)
    | List(items: seq<Value>)
    | Mapping(fields: Config)

  type Config = map<string, Value>

  /** How text is read: as a number, and folded for comparing and for the truth words. */
  datatype Reading = Reading(number: string -> Option<real>, fold: string -> string, lower: string -> string)

  /** The recorded value is a boolean or a number and the filter's value is not one. */
  datatype ValueError = NotABoolean | NotANumber

  const TRUE_TEXT: set<string> := {"true", "1", "yes", "on"}
  const FALSE_TEXT: set<string> := {"false", "0", "no", "off"}
  const NULL_VALUE_TEXT := "null"

  predicate Orders(operator: Operator) {
    operator.GE? || operator.LE? || operator.GT? || operator.LT?
  }

  // ----- Finding the value -----

  /** `str.split(".")`. */
  function SplitDots(name: string): (parts: seq<string>)
    ensures parts != []
  {
    if name == "" then [""]
    else
      var rest := SplitDots(name[1..]);
      if name[0] == '.' then [""] + rest else [[name[0]] + rest[0]] + rest[1..]
  }

  function JoinDots(parts: seq<string>): string
    requires parts != []
  {
    if |parts| == 1 then parts[0] else parts[0] + "." + JoinDots(parts[1..])
  }

  /** The value at the end of a path of names, if every step of it is there. */
  function At(value: Value, path: seq<string>): Option<Value> {
    if path == [] then Some(value)
    else if value.Mapping? && path[0] in value.fields then At(value.fields[path[0]], path[1..])
    else None
  }

  /** A name as it stands wins over its reading as a path. */
  function Recorded(config: Config, knob: string): Option<Value> {
    if knob in config then Some(config[knob]) else At(Mapping(config), SplitDots(knob))
  }

  lemma {:induction false} NoDotIsOnePart(name: string)
    requires '.' !in name
    ensures SplitDots(name) == [name]
  {
    if name != "" {
      assert name == [name[0]] + name[1..];
      NoDotIsOnePart(name[1..]);
    }
  }

  method Lookup(config: Config, knob: string) returns (found: Option<Value>)
    ensures found == Recorded(config, knob)
  {
    if knob in config {
      return Some(config[knob]);
    }
    if '.' !in knob {
      NoDotIsOnePart(knob);
      return None;
    }
    var parts := SplitDots(knob);
    var current: Value := Mapping(config);
    for i := 0 to |parts|
      invariant At(Mapping(config), parts) == At(current, parts[i..])
    {
      if !current.Mapping? {
        return None;
      }
      if parts[i] !in current.fields {
        return None;
      }
      current := current.fields[parts[i]];
    }
    return Some(current);
  }

  lemma {:induction false} SplitFirst(first: string, rest: string)
    requires '.' !in first
    ensures SplitDots(first + "." + rest) == [first] + SplitDots(rest)
  {
    if first == "" {
      assert first + "." + rest == "." + rest;
      assert ("." + rest)[1..] == rest;
    } else {
      assert first == [first[0]] + first[1..];
      assert (first + "." + rest)[1..] == first[1..] + "." + rest;
      SplitFirst(first[1..], rest);
    }
  }

  /** Splitting undoes joining names that have no dot in them. */
  lemma {:induction false} SplitJoined(parts: seq<string>)
    requires parts != [] && forall i | 0 <= i < |parts| :: '.' !in parts[i]
    ensures SplitDots(JoinDots(parts)) == parts
  {
    if |parts| == 1 {
      NoDotIsOnePart(parts[0]);
    } else {
      SplitJoined(parts[1..]);
      SplitFirst(parts[0], JoinDots(parts[1..]));
    }
  }

  /** Following `path` from `value` leads through nested mappings to `found`. */
  ghost predicate Leads(value: Value, path: seq<string>, found: Value) {
    if path == [] then value == found
    else exists next :: value.Mapping? && path[0] in value.fields && value.fields[path[0]] == next
                        && Leads(next, path[1..], found)
  }

  lemma {:induction false} AtLeads(value: Value, path: seq<string>)
    ensures forall found :: At(value, path) == Some(found) <==> Leads(value, path, found)
  {
    if path != [] && value.Mapping? && path[0] in value.fields {
      AtLeads(value.fields[path[0]], path[1..]);
    }
  }

  /** A dotted name reads the nested value it spells out, unless the config has that very name at the top. */
  lemma DottedNameReadsNested(config: Config, parts: seq<string>)
    requires parts != [] && forall i | 0 <= i < |parts| :: '.' !in parts[i]
    ensures
      var knob := JoinDots(parts);
      if knob in config then Recorded(config, knob) == Some(config[knob])
      else forall found :: Recorded(config, knob) == Some(found) <==> Leads(Mapping(config), parts, found)
  {
    SplitJoined(parts);
    AtLeads(Mapping(config), parts);
  }

  // ----- Comparing -----

  function CoerceToBool(reading: Reading, text: string): Option<bool> {
    var lowered := reading.lower(Strip(text));
    if lowered in TRUE_TEXT then Some(true) else if lowered in FALSE_TEXT then Some(false) else None
  }

  predicate CompareNumbers(left: real, right: real, operator: Operator) {
    match operator
    case EQ => left == right
    case NE => left != right
    case GE => left >= right
    case LE => left <= right
    case GT => left > right
    case LT => left < right
  }

  predicate NamesNull(reading: Reading, valueText: string) {
    reading.fold(Strip(valueText)) == NULL_VALUE_TEXT
  }

  function MatchesTruth(reading: Reading, truth: bool, condition: KnobFilter): Result<bool, ValueError> {
    if Orders(condition.operator) then Ok(false)
    else
      match CoerceToBool(reading, condition.valueText)
      case None => Err(NotABoolean)
      case Some(wanted) => Ok(if condition.operator.EQ? then truth == wanted else truth != wanted)
  }

  function MatchesNumber(reading: Reading, number: real, condition: KnobFilter): Result<bool, ValueError> {
    match reading.number(condition.valueText)
    case None => Err(NotANumber)
    case Some(wanted) => Ok(CompareNumbers(number, wanted, condition.operator))
  }

  predicate MatchesText(reading: Reading, text: string, condition: KnobFilter) {
    && !Orders(condition.operator)
    && (condition.operator.EQ? <==> reading.fold(text) == reading.fold(condition.valueText))
  }

  function MatchesValue(reading: Reading, recorded: Value, condition: KnobFilter): Result<bool, ValueError> {
    if NamesNull(reading, condition.valueText) then
      Ok(if Orders(condition.operator) then false else if condition.operator.EQ? then recorded.Nothing?
            else !recorded.Nothing?)
    else
      match recorded
      case Nothing => Ok(condition.operator.NE?)
      case Truth(truth) => MatchesTruth(reading, truth, condition)
      case Number(number) => MatchesNumber(reading, number, condition)
      case Text(text) => Ok(MatchesText(reading, text, condition))
      case _ => Ok(false)
  }

  /** The answer for the recorded value; no when nothing was recorded. */
  function MatchesOne(reading: Reading, config: Config, condition: KnobFilter): Result<bool, ValueError> {
    match Recorded(config, condition.knob)
    case None => Ok(false)
    case Some(recorded) => MatchesValue(reading, recorded, condition)
  }

  // ----- What the answers promise -----

  /** A value a filter can be compared with: anything but a list or a mapping. */
  predicate Scalar(value: Value) {
    !value.List? && !value.Mapping?
  }

  /** The filter's value is not of the recorded type, which only null or an ordering of a boolean passes over. */
  predicate Misread(reading: Reading, recorded: Value, condition: KnobFilter) {
    && !NamesNull(reading, condition.valueText)
    && (|| (recorded.Truth? && !Orders(condition.operator) && CoerceToBool(reading, condition.valueText).None?)
        || (recorded.Number? && reading.number(condition.valueText).None?))
  }

  predicate Refuses(reading: Reading, config: Config, condition: KnobFilter) {
    var recorded := Recorded(config, condition.knob);
    recorded.Some? && Misread(reading, recorded.value, condition)
  }

  lemma OneIsRefused(reading: Reading, config: Config, condition: KnobFilter)
    ensures MatchesOne(reading, config, condition).Err? <==> Refuses(reading, config, condition)
  {
    hide Recorded, CoerceToBool, NamesNull, MatchesText;
  }

  function WithOperator(condition: KnobFilter, operator: Operator): KnobFilter {
    condition.(operator := operator)
  }

  /**
    `=` and `!=` split the runs between them, each run satisfying exactly one, if and only if the
    run recorded the knob and either the filter asks about null, or the recorded value is one that
    can be compared and the filter's value reads as its type.
   */
  lemma EqualityPartitions(reading: Reading, config: Config, condition: KnobFilter)
    ensures
      var same := WithOperator(condition, EQ);
      var equal, unequal := MatchesOne(reading, config, same), MatchesOne(reading, config, WithOperator(condition, NE));
      var recorded := Recorded(config, condition.knob);
      (equal.Ok? && unequal.Ok? && equal.value != unequal.value)
      <==> recorded.Some? && (NamesNull(reading, condition.valueText)
                              || (Scalar(recorded.value) && !Misread(reading, recorded.value, same)))
  {
    hide Recorded, CoerceToBool, NamesNull;
  }

  /** The filter's value names the unset state: it reads "null" but for case and blanks around it. */
  ghost predicate AsksAboutNull(reading: Reading, condition: KnobFilter) {
    reading.fold(Strip(condition.valueText)) == "null"
  }

  /**
    An ordering holds only of a recorded number, where it is the order of numbers; it is refused
    exactly when the filter's value does not read as one.
   */
  lemma OrderingComparesNumbers(reading: Reading, config: Config, condition: KnobFilter)
    requires condition.operator != EQ && condition.operator != NE
    ensures
      var recorded, wanted := Recorded(config, condition.knob), reading.number(condition.valueText);
      var compares := recorded.Some? && recorded.value.Number? && !AsksAboutNull(reading, condition);
      var answer := MatchesOne(reading, config, condition);
      && (!compares ==> answer == Ok(false))
      && (compares && wanted.None? ==> answer == Err(NotANumber))
      && (compares && wanted.Some? ==>
            var number := recorded.value.number;
            && (condition.operator == GE ==> answer == Ok(number >= wanted.value))
            && (condition.operator == LE ==> answer == Ok(number <= wanted.value))
            && (condition.operator == GT ==> answer == Ok(number > wanted.value))
            && (condition.operator == LT ==> answer == Ok(number < wanted.value)))
  {
    hide Recorded, CoerceToBool;
  }

  /**
    What `=` and `!=` ask: a knob that was not recorded satisfies neither; null of the filter asks
    whether the knob is set; otherwise a number is compared as a number, a truth value as one of its
    words, a text but for case, a recorded null differs from everything, and a list or a mapping
    satisfies neither.
   */
  lemma EqualityAsks(reading: Reading, config: Config, condition: KnobFilter)
    requires condition.operator == EQ || condition.operator == NE
    ensures Recorded(config, condition.knob).None? ==> MatchesOne(reading, config, condition) == Ok(false)
    ensures
      Recorded(config, condition.knob).Some? ==>
      var recorded, equal := Recorded(config, condition.knob).value, condition.operator == EQ;
      var answer := MatchesOne(reading, config, condition);
      if AsksAboutNull(reading, condition) then answer == Ok((recorded == Nothing) == equal)
      else
        var wanted, word := reading.number(condition.valueText), reading.lower(Strip(condition.valueText));
        && (recorded == Nothing ==> answer == Ok(!equal))
        && (recorded.Number? ==>
              answer == if wanted.None? then Err(NotANumber) else Ok((recorded.number == wanted.value) == equal))
        && (recorded.Truth? ==>
              answer == if word in {"true", "1", "yes", "on"} then Ok((recorded.truth == true) == equal)
                        else if word in {"false", "0", "no", "off"} then Ok((recorded.truth == false) == equal)
                        else Err(NotABoolean))
        && (recorded.Text? ==>
              answer == Ok((reading.fold(recorded.text) == reading.fold(condition.valueText)) == equal))
        && (recorded.List? || recorded.Mapping? ==> answer == Ok(false))
  {
    hide Recorded;
  }

  /** Whether a run satisfies every filter, tested in order up to the first that it does not. */
  function MatchesAll(reading: Reading, config: Config, conditions: seq<KnobFilter>): Result<bool, ValueError> {
    if conditions == [] then Ok(true)
    else
      match MatchesOne(reading, config, conditions[0])
      case Ok(true) => MatchesAll(reading, config, conditions[1..])
      case answer => answer
  }

  predicate Satisfies(reading: Reading, config: Config, condition: KnobFilter) {
    MatchesOne(reading, config, condition) == Ok(true)
  }

  /** The `i`-th filter is misread and the run satisfies every filter before it. */
  predicate RefusedAt(reading: Reading, config: Config, conditions: seq<KnobFilter>, i: nat)
    requires i < |conditions|
  {
    && Refuses(reading, config, conditions[i])
    && forall j | 0 <= j < i :: Satisfies(reading, config, conditions[j])
  }

  /**
    A run is selected exactly when it satisfies every filter. A mistyped value is refused exactly
    when the run satisfies every filter before it: behind one that fails it goes unnoticed.
   */
  lemma {:induction false} AllAreTested(reading: Reading, config: Config, conditions: seq<KnobFilter>)
    ensures MatchesAll(reading, config, conditions) == Ok(true)
            <==> forall i | 0 <= i < |conditions| :: Satisfies(reading, config, conditions[i])
    ensures MatchesAll(reading, config, conditions).Err?
            <==> exists i | 0 <= i < |conditions| :: RefusedAt(reading, config, conditions, i)
  {
    hide MatchesOne, Refuses;
    if conditions != [] {
      AllAreTested(reading, config, conditions[1..]);
      OneIsRefused(reading, config, conditions[0]);
      RefusedFurtherOn(reading, config, conditions);
      assert forall i | 0 <= i < |conditions| - 1 :: conditions[1..][i] == conditions[i + 1];
      assert RefusedAt(reading, config, conditions, 0) <==> Refuses(reading, config, conditions[0]);
    }
  }

  lemma RefusedFurtherOn(reading: Reading, config: Config, conditions: seq<KnobFilter>)
    requires conditions != []
    ensures (exists i | 1 <= i < |conditions| :: RefusedAt(reading, config, conditions, i))
            <==> && Satisfies(reading, config, conditions[0])
                 && exists i | 0 <= i < |conditions[1..]| :: RefusedAt(reading, config, conditions[1..], i)
  {
    hide Refuses, Satisfies;
    var rest := conditions[1..];
    if i :| 1 <= i < |conditions| && RefusedAt(reading, config, conditions, i) {
      assert forall j | 0 <= j < i - 1 :: rest[j] == conditions[j + 1];
      assert RefusedAt(reading, config, rest, i - 1);
    }
    if Satisfies(reading, config, conditions[0]) {
      if i :| 0 <= i < |rest| && RefusedAt(reading, config, rest, i) {
        assert forall j | 0 < j < i + 1 :: conditions[j] == rest[j - 1];
        assert RefusedAt(reading, config, conditions, i + 1);
      }
    }
  }

  // ----- A listing of runs -----

  /** Keep the runs that satisfy every filter, by their place; a run without a recorded config is passed over. */
  method SelectRuns(reading: Reading, runs: seq<Option<Config>>, conditions: seq<KnobFilter>)
    returns (r: Result<seq<nat>, ValueError>)
    ensures r.Ok? ==>
              && (forall k | 0 <= k < |runs| :: k in r.value <==> Selected(reading, runs[k], conditions))
              && (forall a | a in r.value :: a < |runs|)
              && (forall a, b | 0 <= a < b < |r.value| :: r.value[a] < r.value[b])
    ensures r.Err? <==> exists k | 0 <= k < |runs| :: Reported(reading, runs[k], conditions)
  {
    hide MatchesAll, MatchesOne, Refuses;
    var kept: seq<nat> := [];
    for i := 0 to |runs|
      invariant forall k | 0 <= k < i :: k in kept <==> Selected(reading, runs[k], conditions)
      invariant forall a | 0 <= a < |kept| :: kept[a] < i
      invariant forall a, b | 0 <= a < b < |kept| :: kept[a] < kept[b]
      invariant forall k | 0 <= k < i :: !Reported(reading, runs[k], conditions)
    {
      match runs[i] {
        case None =>
        case Some(config) =>
          AllAreTested(reading, config, conditions);
          match MatchesAll(reading, config, conditions) {
            case Err(error) =>
              assert Reported(reading, runs[i], conditions);
              return Err(error);
            case Ok(selected) =>
              if selected {
                kept := kept + [i];
              }
          }
      }
    }
    return Ok(kept);
  }

  ghost predicate Selected(reading: Reading, run: Option<Config>, conditions: seq<KnobFilter>) {
    run.Some? && forall i | 0 <= i < |conditions| :: Satisfies(reading, run.value, conditions[i])
  }

  /** Testing the run's config comes upon a filter whose value it cannot read. */
  ghost predicate Reported(reading: Reading, run: Option<Config>, conditions: seq<KnobFilter>) {
    run.Some? && exists i | 0 <= i < |conditions| :: RefusedAt(reading, run.value, conditions, i)
  }

  /** A filter before `m` fails, with no filter refused before it. */
  ghost predicate FailsBefore(reading: Reading, config: Config, conditions: seq<KnobFilter>, m: nat)
    requires m <= |conditions|
  {
    exists j | 0 <= j < m ::
      && !Satisfies(reading, config, conditions[j]) && !Refuses(reading, config, conditions[j])
      && forall k | 0 <= k < j :: Satisfies(reading, config, conditions[k])
  }

  lemma {:induction false} FirstFailure(reading: Reading, config: Config, conditions: seq<KnobFilter>, m: nat)
    returns (j: nat)
    requires m < |conditions| && !Satisfies(reading, config, conditions[m])
    ensures j <= m && !Satisfies(reading, config, conditions[j])
    ensures forall k | 0 <= k < j :: Satisfies(reading, config, conditions[k])
  {
    if k :| 0 <= k < m && !Satisfies(reading, config, conditions[k]) {
      j := FirstFailure(reading, config, conditions, k);
    } else {
      j := m;
    }
  }

  lemma MisreadGoesUnnoticed(reading: Reading, config: Config, conditions: seq<KnobFilter>, m: nat)
    requires m < |conditions| && Refuses(reading, config, conditions[m])
    ensures !Reported(reading, Some(config), conditions) <==> FailsBefore(reading, config, conditions, m)
    ensures !Selected(reading, Some(config), conditions)
  {
    OneIsRefused(reading, config, conditions[m]);
    hide MatchesOne, Refuses;
    var j := FirstFailure(reading, config, conditions, m);
    if Refuses(reading, config, conditions[j]) {
      assert RefusedAt(reading, config, conditions, j);
    } else {
      assert FailsBefore(reading, config, conditions, m);
    }
    forall i | 0 <= i < |conditions| && RefusedAt(reading, config, conditions, i) ensures i == j {
      OneIsRefused(reading, config, conditions[i]);
    }
  }

  /**
    When an empty selection hides a mistyped value. If no listed run can read the value of filter `m`,
    nothing is selected; and the mistake goes unreported if and only if every run fails some earlier
    filter first.
   */
  lemma EmptySelectionHides(reading: Reading, runs: seq<Option<Config>>, conditions: seq<KnobFilter>, m: nat)
    requires m < |conditions|
    requires forall k | 0 <= k < |runs| && runs[k].Some? :: Refuses(reading, runs[k].value, conditions[m])
    ensures forall k | 0 <= k < |runs| :: !Selected(reading, runs[k], conditions)
    ensures (forall k | 0 <= k < |runs| :: !Reported(reading, runs[k], conditions))
            <==> forall k | 0 <= k < |runs| && runs[k].Some? :: FailsBefore(reading, runs[k].value, conditions, m)
  {
    hide Reported, Selected, FailsBefore, Refuses;
    forall k | 0 <= k < |runs|
      ensures !Selected(reading, runs[k], conditions)
      ensures runs[k].Some? ==>
                (!Reported(reading, runs[k], conditions) <==> FailsBefore(reading, runs[k].value, conditions, m))
      ensures runs[k].None? ==> !Reported(reading, runs[k], conditions)
    {
      if runs[k].Some? {
        MisreadGoesUnnoticed(reading, runs[k].value, conditions, m);
        assert runs[k] == Some(runs[k].value);
      } else {
        NoConfig(reading, conditions);
      }
    }
  }

  lemma NoConfig(reading: Reading, conditions: seq<KnobFilter>)
    ensures !Selected(reading, None, conditions) && !Reported(reading, None, conditions)
  {
  }

  /** A mistyped number behind a filter that fails is not refused, though it is refused in front of it. */
  lemma MistypedValueHides(reading: Reading) returns (config: Config, failing: KnobFilter, mistyped: KnobFilter)
    requires reading.number("lots") == None && reading.fold("lots") == "lots" && reading.fold("b") == "b"
    requires reading.fold("a") == "a"
    ensures MatchesAll(reading, config, [failing, mistyped]) == Ok(false)
    ensures MatchesAll(reading, config, [mistyped, failing]).Err?
  {
    config := map["mode" := Text("a"), "round_count" := Number(3.0)];
    failing := KnobFilter("mode", EQ, "b");
    mistyped := KnobFilter("round_count", GE, "lots");
    assert Strip("lots") == "lots" && Strip("b") == "b";
    assert MatchesOne(reading, config, failing) == Ok(false);
    assert |"mode"| != |"round_count"|;
    assert MatchesOne(reading, config, mistyped).Err?;
  }
}
