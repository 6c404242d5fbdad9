/** Which stored dashboards a read accepts, before and after their lineage terms are translated. */
module StoredQueries {
  import opened Wrappers
  import opened LegacyLineage
  import Decimal

  /** One key per chart axis. */
  const MAX_GROUP_BY_KEYS := 2

  /**
    What validation depends on beyond filters, keys and ids: how numbers are read, and a verdict on
    the rest of a chart, which translation does not touch.
   */
  datatype Validator = Validator(reading: Reading, acceptsRest: string -> bool)

  predicate Distinct<T(==)>(xs: seq<T>) {
    forall i, j | 0 <= i < j < |xs| :: xs[i] != xs[j]
  }

  predicate AcceptsQuery(validator: Validator, query: Query) {
    && AllValid(validator.reading, query.filters)
    && |query.groupBy| <= MAX_GROUP_BY_KEYS && Distinct(query.groupBy)
    && validator.acceptsRest(query.measures)
  }

  function ChartIds(charts: seq<ChartSpec>): seq<string> {
    seq(|charts|, i requires 0 <= i < |charts| => charts[i].chartId)
  }

  /** What a client may send, and what every read of a file asks of it. */
  predicate AcceptsContent(validator: Validator, filters: seq<DimensionFilter>, charts: seq<ChartSpec>) {
    && AllValid(validator.reading, filters)
    && Distinct(ChartIds(charts))
    && forall i | 0 <= i < |charts| :: AcceptsQuery(validator, charts[i].query)
  }

  predicate Accepts(validator: Validator, dashboard: Dashboard) {
    AcceptsContent(validator, dashboard.filters, dashboard.charts)
  }

  /** A filter that compares with nothing, or with a bound that is not one number. */
  ghost predicate Hollow(reading: Reading, condition: DimensionFilter) {
    && condition.operator != IsEmpty && condition.operator != IsNotEmpty
    && (|| condition.values == []
        || ((condition.operator == GreaterOrEqual || condition.operator == LessOrEqual)
            && (|condition.values| > 1 || reading.number(condition.values[0]) == None)))
  }

  /** A chart with a hollow filter, more than two keys, the same key twice, or a rest that is refused. */
  ghost predicate BadQuery(validator: Validator, query: Query) {
    || (exists i | 0 <= i < |query.filters| :: Hollow(validator.reading, query.filters[i]))
    || |query.groupBy| > 2
    || (exists i, j | 0 <= i < j < |query.groupBy| :: query.groupBy[i] == query.groupBy[j])
    || !validator.acceptsRest(query.measures)
  }

  /** Why a dashboard is refused: a hollow filter, two charts of one id, or a bad query. */
  lemma RefusedExactly(validator: Validator, dashboard: Dashboard)
    ensures !Accepts(validator, dashboard) <==>
            || (exists i | 0 <= i < |dashboard.filters| :: Hollow(validator.reading, dashboard.filters[i]))
            || (exists i, j | 0 <= i < j < |dashboard.charts| ::
                  dashboard.charts[i].chartId == dashboard.charts[j].chartId)
            || (exists i | 0 <= i < |dashboard.charts| :: BadQuery(validator, dashboard.charts[i].query))
  {
    var charts := dashboard.charts;
    forall i | 0 <= i < |charts|
      ensures AcceptsQuery(validator, charts[i].query) <==> !BadQuery(validator, charts[i].query)
    {
      BadQueryIsRefused(validator, charts[i].query);
    }
    hide AcceptsQuery, BadQuery;
    var ids := ChartIds(charts);
    assert forall i | 0 <= i < |charts| :: ids[i] == charts[i].chartId;
  }

  lemma BadQueryIsRefused(validator: Validator, query: Query)
    ensures AcceptsQuery(validator, query) <==> !BadQuery(validator, query)
  {
    forall i | 0 <= i < |query.filters|
      ensures Valid(validator.reading, query.filters[i]) <==> !Hollow(validator.reading, query.filters[i])
    {
    }
  }

  // ----- What translation does to acceptance -----

  /** Two of the keys become one column. */
  predicate KeysMerge(keys: seq<Column>) {
    exists i, j | 0 <= i < j < |keys| :: RenamedKey(keys[i]) == RenamedKey(keys[j])
  }

  predicate MergesKeys(charts: seq<ChartSpec>) {
    exists i | 0 <= i < |charts| :: KeysMerge(charts[i].query.groupBy)
  }

  predicate CountsRoundsAfter(key: Column) {
    key.RoundsAfterSwap? || key.RoundsAfterResume? || key.RoundsAfter?
  }

  /** Which different keys become one column. */
  lemma WhichKeysMerge(a: Column, b: Column)
    requires a != b
    ensures RenamedKey(a) == RenamedKey(b) <==>
            || (CountsRoundsAfter(a) && CountsRoundsAfter(b))
            || (a.RoundStart? && b.AfterRound?) || (a.AfterRound? && b.RoundStart?)
            || (a.ResumedAt? && b.ForkedAt?) || (a.ForkedAt? && b.ResumedAt?)
  {
  }

  lemma DistinctAfterRenaming(keys: seq<Column>)
    ensures Distinct(RenameKeys(keys)) <==> !KeysMerge(keys)
  {
    hide RenamedKey;
    var renamed := RenameKeys(keys);
    if i, j :| 0 <= i < j < |keys| && RenamedKey(keys[i]) == RenamedKey(keys[j]) {
      assert renamed[i] == renamed[j];
    }
  }

  lemma TranslatedQuery(chart: ChartSpec)
    ensures
      var translated := TranslateChart(chart);
      && translated.chartId == chart.chartId && translated.title == chart.title
      && translated.query.measures == chart.query.measures
      && translated.query.filters == TranslateFilters(chart.query.filters)
      && translated.query.groupBy == RenameKeys(chart.query.groupBy)
  {
  }

  lemma FiltersStayValid(reading: Reading, filters: seq<DimensionFilter>)
    requires ReadsNumerals(reading) && AllValid(reading, filters)
    ensures AllValid(reading, TranslateFilters(filters))
  {
    hide TranslateFilter, ReadsNumerals, Valid;
    forall i | 0 <= i < |filters| ensures Valid(reading, TranslateFilters(filters)[i]) {
      TranslationStaysValid(reading, filters[i]);
    }
  }

  lemma TranslatedQueryIsAccepted(validator: Validator, chart: ChartSpec)
    requires ReadsNumerals(validator.reading) && AcceptsQuery(validator, chart.query)
    ensures AcceptsQuery(validator, TranslateChart(chart).query) <==> !KeysMerge(chart.query.groupBy)
  {
    hide TranslateChart, TranslateFilters, ReadsNumerals, AllValid, Distinct, KeysMerge;
    TranslatedQuery(chart);
    FiltersStayValid(validator.reading, chart.query.filters);
    DistinctAfterRenaming(chart.query.groupBy);
  }

  lemma TranslatedCharts(charts: seq<ChartSpec>)
    ensures ChartIds(TranslateCharts(charts)) == ChartIds(charts)
  {
    forall i | 0 <= i < |charts| ensures TranslateCharts(charts)[i].chartId == charts[i].chartId {
      TranslatedQuery(charts[i]);
    }
    hide TranslateChart;
  }

  lemma TranslatedDashboard(dashboard: Dashboard)
    ensures Translate(dashboard).filters == TranslateFilters(dashboard.filters)
    ensures Translate(dashboard).charts == TranslateCharts(dashboard.charts)
  {
    hide TranslateFilters, TranslateCharts;
  }

  /**
    The exact condition. A dashboard that is accepted is still accepted after translation if and only
    if none of its charts groups by two keys that become one column.
   */
  lemma AcceptedAfterTranslation(validator: Validator, dashboard: Dashboard)
    requires ReadsNumerals(validator.reading) && Accepts(validator, dashboard)
    ensures Accepts(validator, Translate(dashboard)) <==> !MergesKeys(dashboard.charts)
  {
    hide AcceptsQuery, Translate, TranslateChart, TranslateFilters, ReadsNumerals, AllValid, Distinct, KeysMerge;
    var charts := dashboard.charts;
    TranslatedDashboard(dashboard);
    FiltersStayValid(validator.reading, dashboard.filters);
    TranslatedCharts(charts);
    forall i | 0 <= i < |charts|
      ensures AcceptsQuery(validator, TranslateCharts(charts)[i].query) <==> !KeysMerge(charts[i].query.groupBy)
    {
      TranslatedQueryIsAccepted(validator, charts[i]);
    }
  }

  /** A chart that sets the two old counts side by side, in a dashboard of its own. */
  function SideBySide(rest: string): Dashboard {
    Dashboard("d", "compare", "", [],
              [ChartSpec("c", "", Query([], [RoundsAfterSwap, RoundsAfterResume], rest))], "me", 1, 1)
  }

  /** It is accepted as stored, and what it is translated to is not. */
  lemma SideBySideIsLost(validator: Validator, rest: string)
    requires ReadsNumerals(validator.reading) && validator.acceptsRest(rest)
    ensures Accepts(validator, SideBySide(rest)) && !Accepts(validator, Translate(SideBySide(rest)))
  {
    var dashboard := SideBySide(rest);
    var keys := dashboard.charts[0].query.groupBy;
    assert RenamedKey(keys[0]) == RenamedKey(keys[1]);
    hide Translate, ReadsNumerals;
    AcceptedAfterTranslation(validator, dashboard);
  }

  // ----- What grouping by a renamed key groups -----

  /** The count that the rename merged with the one `key` names. */
  function TwinCount(run: Lineage, key: Column): Option<int> {
    match key
    case RoundsAfterSwap => run.afterResume
    case RoundsAfterResume => run.afterSwap
    case _ => None
  }

  function OwnCount(run: Lineage, key: Column): Option<int> {
    match key
    case RoundsAfterSwap => run.afterSwap
    case RoundsAfterResume => run.afterResume
    case _ => None
  }

  /** The two runs fall into one group of the key on their old rows exactly when they do on their new ones. */
  predicate GroupedAlike(a: Lineage, b: Lineage, key: Column) {
    OldCell(a, key) == OldCell(b, key) <==> NewCell(a, RenamedKey(key)) == NewCell(b, RenamedKey(key))
  }

  /** A key that old runs have a cell for. */
  predicate OldKey(key: Column) {
    !key.AfterRound? && !key.RoundsAfter? && !key.ForkedAt?
  }

  /** The twin counts do not tell the runs apart where their own do not, nor together where their own do not. */
  predicate TwinsAgree(a: Lineage, b: Lineage, key: Column) {
    match (TwinCount(a, key), TwinCount(b, key))
    case (None, None) => true
    case (Some(m), Some(n)) => m == n
    case (Some(m), None) => OwnCount(b, key).Some? && OwnCount(b, key).value != m
    case (None, Some(n)) => OwnCount(a, key).Some? && OwnCount(a, key).value != n
  }

  lemma ShownIsNotBlank(n: int)
    ensures Decimal.Show(n) != ""
  {
    Decimal.ReadShow(n);
  }

  lemma CellsOfCounts(a: Option<int>, b: Option<int>, shift: int)
    ensures IntegerCell(a, shift) == IntegerCell(b, shift) <==> a == b
  {
    hide Decimal.Show;
    match (a, b) {
      case (None, None) =>
      case (Some(m), None) => ShownIsNotBlank(m + shift);
      case (None, Some(n)) => ShownIsNotBlank(n + shift);
      case (Some(m), Some(n)) =>
        if Decimal.Show(m + shift) == Decimal.Show(n + shift) {
          Decimal.ShowInjective(m + shift, n + shift);
        }
    }
  }

  lemma CountsGroupedAlike(a: Lineage, b: Lineage, key: Column)
    requires OldVocabulary(a) && OldVocabulary(b) && (key.RoundsAfterSwap? || key.RoundsAfterResume?)
    ensures GroupedAlike(a, b, key) <==> TwinsAgree(a, b, key)
  {
    hide IntegerCell;
    CellsOfCounts(a.afterSwap, b.afterSwap, 0);
    CellsOfCounts(a.afterResume, b.afterResume, 0);
    CellsOfCounts(if a.afterSwap.Some? then a.afterSwap else a.afterResume,
                  if b.afterSwap.Some? then b.afterSwap else b.afterResume, 1);
  }

  /**
    Slicing by a renamed key keeps two old runs in one group or apart if and only if their twin counts
    agree; for every key but the two merged counts they always do.
   */
  lemma GroupingIsKept(a: Lineage, b: Lineage, key: Column)
    requires OldVocabulary(a) && OldVocabulary(b) && OldKey(key)
    ensures GroupedAlike(a, b, key) <==> TwinsAgree(a, b, key)
    ensures !CarriesTwin(a, key) && !CarriesTwin(b, key) ==> GroupedAlike(a, b, key)
  {
    if key.RoundsAfterSwap? || key.RoundsAfterResume? {
      CountsGroupedAlike(a, b, key);
    } else if key.RoundStart? {
      hide IntegerCell;
      CellsOfCounts(a.roundStart, b.roundStart, 0);
      CellsOfCounts(a.roundStart, b.roundStart, -1);
    }
  }

  /** By all keys of a chart together, two runs whose twin counts agree share a group exactly when they did. */
  lemma SlicesAreKept(a: Lineage, b: Lineage, keys: seq<Column>)
    requires OldVocabulary(a) && OldVocabulary(b)
    requires forall i | 0 <= i < |keys| :: OldKey(keys[i]) && TwinsAgree(a, b, keys[i])
    ensures (forall i | 0 <= i < |keys| :: OldCell(a, keys[i]) == OldCell(b, keys[i]))
            <==> forall i | 0 <= i < |keys| :: NewCell(a, RenameKeys(keys)[i]) == NewCell(b, RenameKeys(keys)[i])
  {
    forall i | 0 <= i < |keys|
      ensures OldCell(a, keys[i]) == OldCell(b, keys[i])
              <==> NewCell(a, RenameKeys(keys)[i]) == NewCell(b, RenameKeys(keys)[i])
    {
      GroupingIsKept(a, b, keys[i]);
    }
    hide OldCell, NewCell;
  }
}
