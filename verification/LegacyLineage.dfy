/**
  Stored queries in the vocabulary of the lineage columns' old names.

  A stored filter is rewritten to the current lineage columns and its bounds move with them. The
  question is whether a run that satisfied the old filter under its old columns satisfies the new
  one under its new columns, and no other run does.
 */
module LegacyLineage {
  import opened Wrappers
  import opened Decimal

  /** The dimension columns a lineage term can name; every other column is one of `Other`. */
  datatype Column =
    | RoundStart | RoundsAfterSwap | RoundsAfterResume | ResumedAt
    | AfterRound | RoundsAfter | ForkedAt
    | DerivationType
    | Other(name: string)

  datatype Operator = In | NotIn | Contains | IsEmpty | IsNotEmpty | GreaterOrEqual | LessOrEqual

  datatype DimensionFilter = DimensionFilter(key: Column, operator: Operator, values: seq<string>)

  const LEGACY_DERIVATION := "resume_at_round"
  const CURRENT_DERIVATION := "fork_at_round"

  // ----- The translation -----

  function RenamedKey(key: Column): Column {
    match key
    case RoundStart => AfterRound
    case RoundsAfterSwap => RoundsAfter
    case RoundsAfterResume => RoundsAfter
    case ResumedAt => ForkedAt
    case _ => key
  }

  function ValueShift(key: Column): Option<int> {
    match key
    case RoundStart => Some(-1)
    case RoundsAfterSwap => Some(1)
    case RoundsAfterResume => Some(1)
    case _ => None
  }

  predicate Numeric(operator: Operator) {
    operator.In? || operator.NotIn? || operator.GreaterOrEqual? || operator.LessOrEqual?
  }

  /** A numeral becomes the canonical numeral of the integer `shift` away; any other text is itself. */
  function ShiftValue(value: string, shift: int): string {
    var digits := if value != "" && value[0] == '-' then value[1..] else value;
    if !IsDecimal(digits) then value else Show(Read(value) + shift)
  }

  function RenameDerivation(value: string): string {
    if value == LEGACY_DERIVATION then CURRENT_DERIVATION else value
  }

  function ShiftValues(values: seq<string>, shift: int): seq<string> {
    seq(|values|, i requires 0 <= i < |values| => ShiftValue(values[i], shift))
  }

  function RenameDerivations(values: seq<string>): seq<string> {
    seq(|values|, i requires 0 <= i < |values| => RenameDerivation(values[i]))
  }

  function TranslateFilter(condition: DimensionFilter): DimensionFilter {
    var renamed := if condition.key.DerivationType? then RenameDerivations(condition.values) else condition.values;
    var shift := ValueShift(condition.key);
    var values := if shift.Some? && Numeric(condition.operator) then ShiftValues(renamed, shift.value) else renamed;
    var key := RenamedKey(condition.key);
    if key == condition.key && values == condition.values then condition
    else DimensionFilter(key, condition.operator, values)
  }

  datatype Query = Query(filters: seq<DimensionFilter>, groupBy: seq<Column>, measures: string)

  datatype ChartSpec = ChartSpec(chartId: string, title: string, query: Query)

  datatype Dashboard = Dashboard(
    dashboardId: string, name: string, description: string, filters: seq<DimensionFilter>, charts: seq<ChartSpec>,
    createdBy: string, createdAt: int, updatedAt: int)

  function TranslateFilters(filters: seq<DimensionFilter>): seq<DimensionFilter> {
    seq(|filters|, i requires 0 <= i < |filters| => TranslateFilter(filters[i]))
  }

  function RenameKeys(keys: seq<Column>): seq<Column> {
    seq(|keys|, i requires 0 <= i < |keys| => RenamedKey(keys[i]))
  }

  function TranslateChart(chart: ChartSpec): ChartSpec {
    var filters := TranslateFilters(chart.query.filters);
    var groupBy := RenameKeys(chart.query.groupBy);
    if filters == chart.query.filters && groupBy == chart.query.groupBy then chart
    else chart.(query := chart.query.(filters := filters, groupBy := groupBy))
  }

  function TranslateCharts(charts: seq<ChartSpec>): seq<ChartSpec> {
    seq(|charts|, i requires 0 <= i < |charts| => TranslateChart(charts[i]))
  }

  function Translate(dashboard: Dashboard): Dashboard {
    var filters := TranslateFilters(dashboard.filters);
    var charts := TranslateCharts(dashboard.charts);
    if filters == dashboard.filters && charts == dashboard.charts then dashboard
    else dashboard.(filters := filters, charts := charts)
  }

  // ----- What is translated into what -----

  ghost predicate KeyBecomes(before: Column, after: Column) {
    if before == RoundStart then after == AfterRound
    else if before == RoundsAfterSwap || before == RoundsAfterResume then after == RoundsAfter
    else if before == ResumedAt then after == ForkedAt
    else after == before
  }

  /** How far the integers of a column move. */
  function Moves(key: Column): int {
    if key == RoundStart then -1 else if key == RoundsAfterSwap || key == RoundsAfterResume then 1 else 0
  }

  /** A value of a filter on `key`, before and after. */
  ghost predicate ValueBecomes(key: Column, operator: Operator, before: string, after: string) {
    if key == DerivationType && before == "resume_at_round" then after == "fork_at_round"
    else if Moves(key) != 0 && IsNumeral(before)
            && operator != Contains && operator != IsEmpty && operator != IsNotEmpty
    then after == Show(Read(before) + Moves(key))
    else after == before
  }

  ghost predicate FilterBecomes(before: DimensionFilter, after: DimensionFilter) {
    && KeyBecomes(before.key, after.key) && after.operator == before.operator
    && |after.values| == |before.values|
    && forall i | 0 <= i < |before.values| ::
         ValueBecomes(before.key, before.operator, before.values[i], after.values[i])
  }

  ghost predicate AllBecome(before: seq<DimensionFilter>, after: seq<DimensionFilter>) {
    |after| == |before| && forall i | 0 <= i < |before| :: FilterBecomes(before[i], after[i])
  }

  ghost predicate ChartBecomes(before: ChartSpec, after: ChartSpec) {
    && after.chartId == before.chartId && after.title == before.title
    && after.query.measures == before.query.measures
    && AllBecome(before.query.filters, after.query.filters)
    && |after.query.groupBy| == |before.query.groupBy|
    && forall i | 0 <= i < |before.query.groupBy| ::
         KeyBecomes(before.query.groupBy[i], after.query.groupBy[i])
  }

  lemma FilterIsTranslated(condition: DimensionFilter)
    ensures FilterBecomes(condition, TranslateFilter(condition))
  {
    hide Show, Read;
  }

  lemma FiltersAreTranslated(filters: seq<DimensionFilter>)
    ensures AllBecome(filters, TranslateFilters(filters))
  {
    forall i | 0 <= i < |filters| ensures FilterBecomes(filters[i], TranslateFilters(filters)[i]) {
      FilterIsTranslated(filters[i]);
    }
  }

  lemma ChartIsTranslated(chart: ChartSpec)
    ensures ChartBecomes(chart, TranslateChart(chart))
  {
    FiltersAreTranslated(chart.query.filters);
    hide FilterBecomes, TranslateFilters;
  }

  /**
    The whole translation: old keys take their new names wherever they stand, the integers filtered
    on move with their column, the old derivation name becomes the new one, and everything else is
    left as written, what `contains` looks for and the text that is no integer included.
   */
  lemma TranslationIs(dashboard: Dashboard)
    ensures
      var translated := Translate(dashboard);
      && translated == dashboard.(filters := translated.filters, charts := translated.charts)
      && AllBecome(dashboard.filters, translated.filters)
      && |translated.charts| == |dashboard.charts|
      && forall i | 0 <= i < |dashboard.charts| :: ChartBecomes(dashboard.charts[i], translated.charts[i])
  {
    FiltersAreTranslated(dashboard.filters);
    var charts := dashboard.charts;
    forall i | 0 <= i < |charts| ensures ChartBecomes(charts[i], TranslateChart(charts[i])) {
      ChartIsTranslated(charts[i]);
    }
    hide AllBecome, ChartBecomes, TranslateFilters, TranslateChart;
  }

  // ----- Nothing legacy is left, and nothing else is touched -----

  predicate LegacyKey(key: Column) {
    key.RoundStart? || key.RoundsAfterSwap? || key.RoundsAfterResume? || key.ResumedAt?
  }

  predicate LegacyFilter(condition: DimensionFilter) {
    LegacyKey(condition.key) || (condition.key.DerivationType? && LEGACY_DERIVATION in condition.values)
  }

  predicate LegacyChart(chart: ChartSpec) {
    || (exists i | 0 <= i < |chart.query.filters| :: LegacyFilter(chart.query.filters[i]))
    || (exists i | 0 <= i < |chart.query.groupBy| :: LegacyKey(chart.query.groupBy[i]))
  }

  predicate Legacy(dashboard: Dashboard) {
    || (exists i | 0 <= i < |dashboard.filters| :: LegacyFilter(dashboard.filters[i]))
    || (exists i | 0 <= i < |dashboard.charts| :: LegacyChart(dashboard.charts[i]))
  }

  /** Renaming leaves `v` in the list exactly when it was there under one of the names that become `v`. */
  lemma RenamedMembers(values: seq<string>, v: string)
    ensures v in RenameDerivations(values) <==> exists i | 0 <= i < |values| :: RenameDerivation(values[i]) == v
  {
    var renamed := RenameDerivations(values);
    if v in renamed {
      var i :| 0 <= i < |renamed| && renamed[i] == v;
      assert RenameDerivation(values[i]) == v;
    }
    if i :| 0 <= i < |values| && RenameDerivation(values[i]) == v {
      assert renamed[i] == v;
    }
  }

  lemma RenamedList(values: seq<string>)
    ensures RenameDerivations(values) == values <==> LEGACY_DERIVATION !in values
  {
    assert |LEGACY_DERIVATION| != |CURRENT_DERIVATION|;
    var renamed := RenameDerivations(values);
    if i :| 0 <= i < |values| && values[i] == LEGACY_DERIVATION {
      assert renamed[i] != values[i];
    }
  }

  lemma RenamedDerivations(values: seq<string>)
    ensures LEGACY_DERIVATION !in RenameDerivations(values)
    ensures CURRENT_DERIVATION in RenameDerivations(values)
            <==> CURRENT_DERIVATION in values || LEGACY_DERIVATION in values
    ensures forall v | v != LEGACY_DERIVATION && v != CURRENT_DERIVATION ::
              v in RenameDerivations(values) <==> v in values
  {
    assert |LEGACY_DERIVATION| != |CURRENT_DERIVATION|;
    RenamedMembers(values, LEGACY_DERIVATION);
    RenamedMembers(values, CURRENT_DERIVATION);
    hide RenameDerivations;
    forall v | v != LEGACY_DERIVATION && v != CURRENT_DERIVATION
      ensures v in RenameDerivations(values) <==> v in values
    {
      RenamedMembers(values, v);
    }
  }

  lemma TranslatedFilter(condition: DimensionFilter)
    ensures !LegacyFilter(TranslateFilter(condition))
    ensures TranslateFilter(condition) == condition <==> !LegacyFilter(condition)
  {
    RenamedDerivations(condition.values);
    RenamedList(condition.values);
    hide RenameDerivations;
  }

  lemma TranslatedChart(chart: ChartSpec)
    ensures !LegacyChart(TranslateChart(chart))
    ensures TranslateChart(chart) == chart <==> !LegacyChart(chart)
  {
    var filters, groupBy := chart.query.filters, chart.query.groupBy;
    forall i | 0 <= i < |filters| ensures !LegacyFilter(TranslateFilters(filters)[i])
      ensures TranslateFilters(filters)[i] == filters[i] <==> !LegacyFilter(filters[i]) {
      TranslatedFilter(filters[i]);
    }
    assert forall i | 0 <= i < |groupBy| :: !LegacyKey(RenameKeys(groupBy)[i]);
    assert forall i | 0 <= i < |groupBy| :: RenameKeys(groupBy)[i] == groupBy[i] <==> !LegacyKey(groupBy[i]);
    assert TranslateFilters(filters) == filters <==> forall i | 0 <= i < |filters| :: !LegacyFilter(filters[i]);
    assert RenameKeys(groupBy) == groupBy <==> forall i | 0 <= i < |groupBy| :: !LegacyKey(groupBy[i]);
  }

  /** A dashboard comes back as it was exactly when it holds no legacy term; afterwards it holds none. */
  lemma TranslationIsExact(dashboard: Dashboard)
    ensures !Legacy(Translate(dashboard))
    ensures Translate(dashboard) == dashboard <==> !Legacy(dashboard)
  {
    hide LegacyFilter, LegacyChart, TranslateFilter, TranslateChart;
    var filters, charts := dashboard.filters, dashboard.charts;
    forall i | 0 <= i < |filters| ensures !LegacyFilter(TranslateFilters(filters)[i])
      ensures TranslateFilters(filters)[i] == filters[i] <==> !LegacyFilter(filters[i]) {
      TranslatedFilter(filters[i]);
    }
    forall i | 0 <= i < |charts| ensures !LegacyChart(TranslateCharts(charts)[i])
      ensures TranslateCharts(charts)[i] == charts[i] <==> !LegacyChart(charts[i]) {
      TranslatedChart(charts[i]);
    }
    assert TranslateFilters(filters) == filters <==> forall i | 0 <= i < |filters| :: !LegacyFilter(filters[i]);
    assert TranslateCharts(charts) == charts <==> forall i | 0 <= i < |charts| :: !LegacyChart(charts[i]);
  }

  lemma TranslationIsIdempotent(dashboard: Dashboard)
    ensures Translate(Translate(dashboard)) == Translate(dashboard)
  {
    hide Translate;
    TranslationIsExact(dashboard);
    TranslationIsExact(Translate(dashboard));
  }

  /** Who made it, when, and what it is called are not part of the translation. */
  lemma TranslationKeepsIdentity(dashboard: Dashboard)
    ensures
      var translated := Translate(dashboard);
      && translated.dashboardId == dashboard.dashboardId && translated.name == dashboard.name
      && translated.createdBy == dashboard.createdBy && translated.createdAt == dashboard.createdAt
      && translated.updatedAt == dashboard.updatedAt && translated.description == dashboard.description
      && |translated.charts| == |dashboard.charts|
  {
  }

  // ----- What a filter means -----

  /** How cells are read: as numbers, and in lower case. */
  datatype Reading = Reading(number: string -> Option<real>, lower: string -> string)

  /** Numerals read as the integers they spell; a blank cell and the old derivation name read as no number. */
  ghost predicate ReadsNumerals(reading: Reading) {
    && (forall s: string | IsNumeral(s) :: reading.number(s) == Some(Read(s) as real))
    && reading.number("") == None && reading.number(LEGACY_DERIVATION) == None
  }

  predicate Substring(part: string, whole: string) {
    exists i | 0 <= i <= |whole| :: part <= whole[i..]
  }

  predicate Matches(reading: Reading, cell: string, condition: DimensionFilter)
    requires condition.operator.GreaterOrEqual? || condition.operator.LessOrEqual? ==> condition.values != []
  {
    match condition.operator
    case In => cell in condition.values
    case NotIn => cell !in condition.values
    case Contains =>
      exists i | 0 <= i < |condition.values| :: Substring(reading.lower(condition.values[i]), reading.lower(cell))
    case IsEmpty => cell == ""
    case IsNotEmpty => cell != ""
    case GreaterOrEqual =>
      var bound, number := reading.number(condition.values[0]), reading.number(cell);
      bound.Some? && number.Some? && number.value >= bound.value
    case LessOrEqual =>
      var bound, number := reading.number(condition.values[0]), reading.number(cell);
      bound.Some? && number.Some? && number.value <= bound.value
  }

  ghost predicate ReadAs(reading: Reading, cell: string, bound: string, n: real, b: real) {
    reading.number(cell) == Some(n) && reading.number(bound) == Some(b)
  }

  /** What each operator asks of a cell; a cell or a bound that is no number fails a comparison. */
  lemma OperatorsAsk(reading: Reading, cell: string, condition: DimensionFilter)
    requires Valid(reading, condition)
    ensures
      var selected, values := Matches(reading, cell, condition), condition.values;
      && (condition.operator == In ==> (selected <==> exists i | 0 <= i < |values| :: values[i] == cell))
      && (condition.operator == NotIn ==> (selected <==> forall i | 0 <= i < |values| :: values[i] != cell))
      && (condition.operator == Contains ==>
            (selected <==> exists i, j, k | 0 <= i < |values| && 0 <= j <= k <= |reading.lower(cell)| ::
               reading.lower(cell)[j..k] == reading.lower(values[i])))
      && (condition.operator == IsEmpty ==> (selected <==> cell == ""))
      && (condition.operator == IsNotEmpty ==> (selected <==> cell != ""))
      && (condition.operator == GreaterOrEqual ==>
            (selected <==> exists n, b :: ReadAs(reading, cell, values[0], n, b) && n >= b))
      && (condition.operator == LessOrEqual ==>
            (selected <==> exists n, b :: ReadAs(reading, cell, values[0], n, b) && n <= b))
  {
    if condition.operator == Contains {
      var whole := reading.lower(cell);
      forall i | 0 <= i < |condition.values|
        ensures Substring(reading.lower(condition.values[i]), whole)
                <==> exists j, k | 0 <= j <= k <= |whole| :: whole[j..k] == reading.lower(condition.values[i])
      {
        SubstringIsSlice(reading.lower(condition.values[i]), whole);
      }
    } else if ComparesNumbers(condition.operator) {
      var bound, number := reading.number(condition.values[0]), reading.number(cell);
      if bound.Some? && number.Some? {
        assert ReadAs(reading, cell, condition.values[0], number.value, bound.value);
      }
    }
  }

  lemma SubstringIsSlice(part: string, whole: string)
    ensures Substring(part, whole) <==> exists j, k | 0 <= j <= k <= |whole| :: whole[j..k] == part
  {
    if j :| 0 <= j <= |whole| && part <= whole[j..] {
      assert whole[j..j + |part|] == part;
    }
    if j, k :| 0 <= j <= k <= |whole| && whole[j..k] == part {
      assert part <= whole[j..];
    }
  }

  /** What the model of a stored filter accepts. */
  predicate Valid(reading: Reading, condition: DimensionFilter) {
    if condition.operator.IsEmpty? || condition.operator.IsNotEmpty? then true
    else
      && condition.values != []
      && (condition.operator.GreaterOrEqual? || condition.operator.LessOrEqual? ==>
            |condition.values| == 1 && reading.number(condition.values[0]).Some?)
  }

  lemma TranslationStaysValid(reading: Reading, condition: DimensionFilter)
    requires ReadsNumerals(reading) && Valid(reading, condition)
    ensures Valid(reading, TranslateFilter(condition))
  {
    var shift := ValueShift(condition.key);
    if shift.Some? && Numeric(condition.operator) {
      var value := condition.values[0];
      assert TranslateFilter(condition).values[0] == ShiftValue(value, shift.value);
      if IsNumeral(value) {
        ReadShow(Read(value) + shift.value);
      }
    }
  }

  /** The filter after translation selects the cell `after` exactly when before it the cell `before` was selected. */
  ghost predicate Agree(reading: Reading, condition: DimensionFilter, before: string, after: string)
    requires Valid(reading, condition)
  {
    Matches(reading, before, condition) <==> Matches(reading, after, TranslateFilter(condition))
  }

  /** Agreement on a cell of a shifted column that held `n`. */
  ghost predicate AgreesAt(reading: Reading, condition: DimensionFilter, n: int)
    requires Valid(reading, condition) && ValueShift(condition.key).Some?
  {
    Agree(reading, condition, Show(n), Show(n + ValueShift(condition.key).value))
  }

  /**
    A filter on a shifted column that a caller can trust: every numeral listed has its canonical
    spelling listed too, and a bound is a numeral. `contains` is never one.
   */
  predicate Translatable(condition: DimensionFilter) {
    match condition.operator
    case In => Canonical(condition.values)
    case NotIn => Canonical(condition.values)
    case GreaterOrEqual => condition.values != [] && IsNumeral(condition.values[0])
    case LessOrEqual => condition.values != [] && IsNumeral(condition.values[0])
    case IsEmpty => true
    case IsNotEmpty => true
    case Contains => false
  }

  /** Some value listed spells `n`. */
  predicate Spelled(values: seq<string>, n: int) {
    exists v | v in values :: IsNumeral(v) && Read(v) == n
  }

  lemma ShiftedValueSpells(value: string, shift: int, n: int)
    ensures ShiftValue(value, shift) == Show(n + shift) <==> IsNumeral(value) && Read(value) == n
  {
    hide Read, Show;
    ReadShow(n + shift);
    if IsNumeral(value) && Read(value) + shift != n + shift {
      ReadShow(Read(value) + shift);
    }
  }

  /** A shifted list holds the shift of an integer exactly when the list held some spelling of it. */
  lemma ShiftedMembers(values: seq<string>, shift: int, n: int)
    ensures Show(n + shift) in ShiftValues(values, shift) <==> Spelled(values, n)
  {
    var shifted := ShiftValues(values, shift);
    forall i | 0 <= i < |values|
      ensures shifted[i] == Show(n + shift) <==> IsNumeral(values[i]) && Read(values[i]) == n
    {
      ShiftedValueSpells(values[i], shift, n);
    }
    hide ShiftValue, IsNumeral, Read, Show;
    if Show(n + shift) in shifted {
      var i :| 0 <= i < |shifted| && shifted[i] == Show(n + shift);
      assert values[i] in values;
    }
    if Spelled(values, n) {
      var v :| v in values && IsNumeral(v) && Read(v) == n;
      var i :| 0 <= i < |values| && values[i] == v;
      assert shifted[i] == Show(n + shift);
    }
  }

  lemma ShiftKeepsBlank(values: seq<string>, shift: int)
    ensures "" in ShiftValues(values, shift) <==> "" in values
  {
    var shifted := ShiftValues(values, shift);
    forall i | 0 <= i < |values| ensures shifted[i] == "" <==> values[i] == "" {
      if IsNumeral(values[i]) {
        ReadShow(Read(values[i]) + shift);
      }
    }
    if "" in values {
      var i :| 0 <= i < |values| && values[i] == "";
      assert shifted[i] == "";
    }
    if "" in shifted {
      var i :| 0 <= i < |shifted| && shifted[i] == "";
      assert values[i] == "";
    }
  }

  /** Every numeral listed has its canonical spelling listed. */
  predicate Canonical(values: seq<string>) {
    forall v | v in values && IsNumeral(v) :: Show(Read(v)) in values
  }

  /**
    An integer with some spelling listed has its canonical one listed, for every integer, exactly
    when the list is canonical.
   */
  lemma SpelledIsListed(values: seq<string>)
    ensures (forall n: int :: Show(n) in values <==> Spelled(values, n)) <==> Canonical(values)
  {
    forall n: int ensures Show(n) in values ==> Spelled(values, n) {
      ReadShow(n);
    }
    if !Canonical(values) {
      var v :| v in values && IsNumeral(v) && Show(Read(v)) !in values;
      assert Spelled(values, Read(v));
    }
  }

  /** Between a real bound and the integers around it, a shift of one changes some answer. */
  lemma BoundSeparates(bound: real, shift: int) returns (n: int, m: int)
    requires shift == 1 || shift == -1
    ensures (n as real >= bound) != ((n + shift) as real >= bound)
    ensures (m as real <= bound) != ((m + shift) as real <= bound)
  {
    var floor := bound.Floor;
    m := if shift == 1 then floor else floor + 1;
    var ceiling := if floor as real == bound then floor else floor + 1;
    n := if shift == 1 then ceiling - 1 else ceiling;
  }

  /**
    The exact condition. Over every integer a shifted column can hold, the translated filter
    selects the shifted integer exactly when the stored one selected the integer, if and only if
    the filter is translatable.
   */
  lemma ShiftPreservesMeaning(reading: Reading, condition: DimensionFilter)
    requires ReadsNumerals(reading) && Valid(reading, condition)
    requires ValueShift(condition.key).Some? && !condition.operator.Contains?
    ensures (forall n: int :: AgreesAt(reading, condition, n)) <==> Translatable(condition)
  {
    match condition.operator {
      case In => ListsAgree(reading, condition);
      case NotIn => ListsAgree(reading, condition);
      case GreaterOrEqual => BoundsAgree(reading, condition);
      case LessOrEqual => BoundsAgree(reading, condition);
      case IsEmpty => CellsAreNotBlank();
      case IsNotEmpty => CellsAreNotBlank();
    }
  }

  lemma TranslatedParts(condition: DimensionFilter)
    requires ValueShift(condition.key).Some?
    ensures TranslateFilter(condition)
            == DimensionFilter(RenamedKey(condition.key), condition.operator,
                               if Numeric(condition.operator)
                               then ShiftValues(condition.values, ValueShift(condition.key).value)
                               else condition.values)
  {
  }

  lemma CellsAreNotBlank()
    ensures forall n: int :: Show(n) != ""
  {
    forall n: int ensures Show(n) != "" {
      ReadShow(n);
    }
  }

  lemma ListsAgree(reading: Reading, condition: DimensionFilter)
    requires ReadsNumerals(reading) && Valid(reading, condition)
    requires ValueShift(condition.key).Some? && (condition.operator.In? || condition.operator.NotIn?)
    ensures (forall n: int :: AgreesAt(reading, condition, n)) <==> Canonical(condition.values)
  {
    hide Canonical, Spelled, TranslateFilter, ShiftValues, Show;
    var shift := ValueShift(condition.key).value;
    var values := condition.values;
    TranslatedParts(condition);
    SpelledIsListed(values);
    if forall n: int :: AgreesAt(reading, condition, n) {
      forall n: int ensures Show(n) in values <==> Spelled(values, n) {
        assert AgreesAt(reading, condition, n);
        ShiftedMembers(values, shift, n);
      }
    } else {
      var n: int :| !AgreesAt(reading, condition, n);
      ShiftedMembers(values, shift, n);
      assert !(Show(n) in values <==> Spelled(values, n));
    }
  }

  predicate ComparesNumbers(operator: Operator) {
    operator.GreaterOrEqual? || operator.LessOrEqual?
  }

  lemma ShiftedBound(reading: Reading, values: seq<string>, shift: int)
    requires ReadsNumerals(reading) && values != [] && IsNumeral(values[0])
    ensures reading.number(values[0]) == Some(Read(values[0]) as real)
    ensures |ShiftValues(values, shift)| == |values|
    ensures reading.number(ShiftValues(values, shift)[0]) == Some((Read(values[0]) + shift) as real)
  {
    ReadShow(Read(values[0]) + shift);
    assert ShiftValues(values, shift)[0] == Show(Read(values[0]) + shift);
  }

  /** A numeral bound moves with the integers it is compared to. */
  lemma NumeralBoundAgrees(reading: Reading, condition: DimensionFilter, n: int)
    requires ReadsNumerals(reading) && Valid(reading, condition) && ValueShift(condition.key).Some?
    requires ComparesNumbers(condition.operator) && IsNumeral(condition.values[0])
    ensures AgreesAt(reading, condition, n)
  {
    var shift, bound := ValueShift(condition.key).value, condition.values[0];
    hide TranslateFilter, ShiftValues, Show, Read, IsNumeral, Matches, ReadsNumerals;
    TranslatedParts(condition);
    ShiftedBound(reading, condition.values, shift);
    ComparedAt(reading, condition, n);
    ComparedAt(reading, TranslateFilter(condition), n + shift);
  }

  /** Any other bound stays where it was, and some integer crosses it. */
  lemma OtherBoundDisagrees(reading: Reading, condition: DimensionFilter) returns (n: int)
    requires ReadsNumerals(reading) && Valid(reading, condition) && ValueShift(condition.key).Some?
    requires ComparesNumbers(condition.operator) && !IsNumeral(condition.values[0])
    ensures !AgreesAt(reading, condition, n)
  {
    var shift, bound := ValueShift(condition.key).value, condition.values[0];
    TranslatedParts(condition);
    assert ShiftValues(condition.values, shift)[0] == bound;
    var low, high := BoundSeparates(reading.number(bound).value, shift);
    n := if condition.operator.GreaterOrEqual? then low else high;
    ComparedAt(reading, condition, n);
    ComparedAt(reading, TranslateFilter(condition), n + shift);
    hide TranslateFilter, ShiftValues, Show, Read, IsNumeral, Matches, ReadsNumerals;
  }

  /** Comparing the cell of an integer with a bound compares the numbers. */
  lemma ComparedAt(reading: Reading, condition: DimensionFilter, n: int)
    requires ReadsNumerals(reading) && condition.values != [] && ComparesNumbers(condition.operator)
    requires reading.number(condition.values[0]).Some?
    ensures Matches(reading, Show(n), condition)
            <==> if condition.operator.GreaterOrEqual? then n as real >= reading.number(condition.values[0]).value
                 else n as real <= reading.number(condition.values[0]).value
  {
    ReadShow(n);
    hide Show, Read, IsNumeral;
  }

  lemma BoundsAgree(reading: Reading, condition: DimensionFilter)
    requires ReadsNumerals(reading) && Valid(reading, condition)
    requires ValueShift(condition.key).Some? && ComparesNumbers(condition.operator)
    ensures (forall n: int :: AgreesAt(reading, condition, n)) <==> Translatable(condition)
  {
    hide AgreesAt;
    if IsNumeral(condition.values[0]) {
      forall n: int ensures AgreesAt(reading, condition, n) {
        NumeralBoundAgrees(reading, condition, n);
      }
    } else {
      var n := OtherBoundDisagrees(reading, condition);
    }
  }

  lemma BlankAgrees(reading: Reading, condition: DimensionFilter)
    requires ReadsNumerals(reading) && Valid(reading, condition)
    requires ValueShift(condition.key).Some? && !condition.operator.Contains?
    ensures Agree(reading, condition, "", "")
  {
    ShiftKeepsBlank(condition.values, ValueShift(condition.key).value);
  }

  // ----- Rows of runs -----

  /** A run's lineage, as the old columns recorded it; `other` are the columns the rename left alone. */
  datatype Lineage = Lineage(roundStart: Option<int>, afterSwap: Option<int>, afterResume: Option<int>,
                             resumedAt: Option<string>, derivation: string, other: map<string, string>)

  /** The old vocabulary: one count of rounds after, and no run derived under the new name. */
  predicate OldVocabulary(run: Lineage) {
    !(run.afterSwap.Some? && run.afterResume.Some?) && run.derivation != CURRENT_DERIVATION
  }

  function IntegerCell(n: Option<int>, shift: int): string {
    match n
    case None => ""
    case Some(value) => Show(value + shift)
  }

  function OtherCell(run: Lineage, name: string): string {
    if name in run.other then run.other[name] else ""
  }

  function OldCell(run: Lineage, key: Column): string {
    match key
    case RoundStart => IntegerCell(run.roundStart, 0)
    case RoundsAfterSwap => IntegerCell(run.afterSwap, 0)
    case RoundsAfterResume => IntegerCell(run.afterResume, 0)
    case ResumedAt => run.resumedAt.GetOr("")
    case DerivationType => run.derivation
    case Other(name) => OtherCell(run, name)
    case _ => ""
  }

  function NewCell(run: Lineage, key: Column): string {
    match key
    case AfterRound => IntegerCell(run.roundStart, -1)
    case RoundsAfter => IntegerCell(if run.afterSwap.Some? then run.afterSwap else run.afterResume, 1)
    case ForkedAt => run.resumedAt.GetOr("")
    case DerivationType => RenameDerivation(run.derivation)
    case Other(name) => OtherCell(run, name)
    case _ => ""
  }

  /** The stored filter on the old row and its translation on the new row give one answer. */
  ghost predicate SameAnswer(reading: Reading, run: Lineage, condition: DimensionFilter)
    requires Valid(reading, condition)
  {
    Agree(reading, condition, OldCell(run, condition.key), NewCell(run, TranslateFilter(condition).key))
  }

  /** Whether the row carries the other of the two counts that the rename merged into one column. */
  predicate CarriesTwin(run: Lineage, key: Column) {
    (key.RoundsAfterSwap? && run.afterResume.Some?) || (key.RoundsAfterResume? && run.afterSwap.Some?)
  }

  /** A translatable filter on a shifted column answers the same for every run that does not carry the twin count. */
  lemma TranslationPreservesAnswers(reading: Reading, run: Lineage, condition: DimensionFilter)
    requires ReadsNumerals(reading) && Valid(reading, condition)
    requires ValueShift(condition.key).Some? && Translatable(condition)
    requires OldVocabulary(run) && !CarriesTwin(run, condition.key)
    ensures SameAnswer(reading, run, condition)
  {
    ShiftPreservesMeaning(reading, condition);
    BlankAgrees(reading, condition);
    var shift := ValueShift(condition.key).value;
    var count := match condition.key
      case RoundStart => run.roundStart
      case RoundsAfterSwap => run.afterSwap
      case _ => run.afterResume;
    if count.Some? {
      assert AgreesAt(reading, condition, count.value);
    }
  }

  function ListsOnly(key: Column, n: int): DimensionFilter {
    DimensionFilter(key, In, [Show(n)])
  }

  lemma TwinIsSelected(reading: Reading, run: Lineage, key: Column, n: int)
    requires ReadsNumerals(reading) && OldVocabulary(run) && CarriesTwin(run, key)
    requires n == if key.RoundsAfterSwap? then run.afterResume.value else run.afterSwap.value
    ensures Valid(reading, ListsOnly(key, n))
    ensures Translatable(ListsOnly(key, n)) && !SameAnswer(reading, run, ListsOnly(key, n))
  {
    ReadShow(n);
    var condition := ListsOnly(key, n);
    assert TranslateFilter(condition).values[0] == Show(n + 1);
    assert OldCell(run, key) == "";
  }

  /**
    Where the two merged counts meet, answers change: every translatable filter on one of them
    keeps its answer for a run if and only if the run does not carry the other.
   */
  lemma MergedColumnsKeepAnswers(reading: Reading, run: Lineage, key: Column)
    requires ReadsNumerals(reading) && OldVocabulary(run)
    requires key.RoundsAfterSwap? || key.RoundsAfterResume?
    ensures
      (forall condition: DimensionFilter |
         condition.key == key && Translatable(condition) && Valid(reading, condition) ::
         SameAnswer(reading, run, condition))
      <==> !CarriesTwin(run, key)
  {
    if CarriesTwin(run, key) {
      TwinIsSelected(reading, run, key, if key.RoundsAfterSwap? then run.afterResume.value else run.afterSwap.value);
    } else {
      forall condition: DimensionFilter |
        condition.key == key && Translatable(condition)
        && Valid(reading, condition)
        ensures SameAnswer(reading, run, condition)
      {
        TranslationPreservesAnswers(reading, run, condition);
      }
    }
  }

  /**
    A filter that lists derivation kinds keeps its answer for every old run if and only if it does
    not list the new name alone.
   */
  lemma DerivationKeepsAnswers(reading: Reading, condition: DimensionFilter)
    requires condition.key.DerivationType? && (condition.operator.In? || condition.operator.NotIn?)
    requires Valid(reading, condition)
    ensures (forall run: Lineage | OldVocabulary(run) :: SameAnswer(reading, run, condition))
            <==> (CURRENT_DERIVATION in condition.values ==> LEGACY_DERIVATION in condition.values)
  {
    var values := condition.values;
    RenamedDerivations(values);
    assert TranslateFilter(condition).values == RenameDerivations(values);
    if CURRENT_DERIVATION in values && LEGACY_DERIVATION !in values {
      assert |LEGACY_DERIVATION| != |CURRENT_DERIVATION|;
      var run := Lineage(None, None, None, None, LEGACY_DERIVATION, map[]);
      assert OldVocabulary(run) && !SameAnswer(reading, run, condition);
    }
  }

  lemma RenamingKeepsAnswers(reading: Reading, run: Lineage, condition: DimensionFilter)
    requires condition.key.ResumedAt? || condition.key.Other?
    requires Valid(reading, condition)
    ensures SameAnswer(reading, run, condition)
  {
  }

  lemma DerivationBlankKeepsAnswers(reading: Reading, run: Lineage, condition: DimensionFilter)
    requires condition.key.DerivationType? && (condition.operator.IsEmpty? || condition.operator.IsNotEmpty?)
    requires Valid(reading, condition)
    ensures SameAnswer(reading, run, condition)
  {
    assert RenameDerivation(run.derivation) == "" <==> run.derivation == "";
  }

  /** A filter whose answer for this run the translation keeps, judged by the filter and the run's counts alone. */
  predicate Trusted(run: Lineage, condition: DimensionFilter) {
    match condition.key
    case RoundStart => Translatable(condition)
    case RoundsAfterSwap => Translatable(condition) && !CarriesTwin(run, condition.key)
    case RoundsAfterResume => Translatable(condition) && !CarriesTwin(run, condition.key)
    case DerivationType =>
      || condition.operator.IsEmpty? || condition.operator.IsNotEmpty?
      || ((condition.operator.In? || condition.operator.NotIn?)
          && (CURRENT_DERIVATION in condition.values ==> LEGACY_DERIVATION in condition.values))
    case ResumedAt => true
    case Other(_) => true
    case _ => false
  }

  lemma TrustedKeepsAnswer(reading: Reading, run: Lineage, condition: DimensionFilter)
    requires ReadsNumerals(reading) && OldVocabulary(run) && Valid(reading, condition) && Trusted(run, condition)
    ensures SameAnswer(reading, run, condition)
  {
    hide SameAnswer, Translatable, ReadsNumerals, Valid;
    match condition.key {
      case RoundStart => TranslationPreservesAnswers(reading, run, condition);
      case RoundsAfterSwap => TranslationPreservesAnswers(reading, run, condition);
      case RoundsAfterResume => TranslationPreservesAnswers(reading, run, condition);
      case DerivationType =>
        if condition.operator.In? || condition.operator.NotIn? {
          DerivationKeepsAnswers(reading, condition);
        } else {
          DerivationBlankKeepsAnswers(reading, run, condition);
        }
      case _ => RenamingKeepsAnswers(reading, run, condition);
    }
  }

  predicate AllValid(reading: Reading, filters: seq<DimensionFilter>) {
    forall i | 0 <= i < |filters| :: Valid(reading, filters[i])
  }

  /** The run passes every filter, its cells read by `cell`. */
  ghost predicate Passes(reading: Reading, cell: Column -> string, filters: seq<DimensionFilter>)
    requires AllValid(reading, filters)
  {
    forall i | 0 <= i < |filters| :: Matches(reading, cell(filters[i].key), filters[i])
  }

  function OldRow(run: Lineage): Column -> string {
    (key: Column) => OldCell(run, key)
  }

  function NewRow(run: Lineage): Column -> string {
    (key: Column) => NewCell(run, key)
  }

  /**
    A run passes a stored list of trusted filters on its old row exactly when it passes the
    translated list on its new row.
   */
  lemma SelectionIsKept(reading: Reading, run: Lineage, filters: seq<DimensionFilter>)
    requires ReadsNumerals(reading) && OldVocabulary(run) && AllValid(reading, filters)
    requires forall i | 0 <= i < |filters| :: Trusted(run, filters[i])
    ensures AllValid(reading, TranslateFilters(filters))
    ensures Passes(reading, OldRow(run), filters) <==> Passes(reading, NewRow(run), TranslateFilters(filters))
  {
    hide Matches, TranslateFilter, Trusted, ReadsNumerals;
    var translated := TranslateFilters(filters);
    forall i | 0 <= i < |filters|
      ensures Valid(reading, translated[i])
      ensures Matches(reading, OldCell(run, filters[i].key), filters[i])
              <==> Matches(reading, NewCell(run, translated[i].key), translated[i])
    {
      TranslationStaysValid(reading, filters[i]);
      TrustedKeepsAnswer(reading, run, filters[i]);
    }
  }
}
