/**
 * The page logic of main.py: the dataset range, the year picker, the four
 * metrics with their change from the previous year, and the editor table.
 * The engine is not modelled as such: a query's result is computed from
 * the changesets of the year's file, and the cached `year_stats` is a
 * parameter of the page.
 */
module Dashboard {
  import opened Wrappers
  import opened Decimal
  import opened PyRange
  import opened Utils
  import opened Queries
  import opened Records
  import opened Breakdown
  import opened Labels

  const FirstYear: int := 2005
  const LastYear: int := 2023

  /** `year_options`: the years a user can pick. */
  const YearOptions: seq<int> := Range(FirstYear, LastYear + 1)

  /** The preselected option: `index=len(year_options)-1`. */
  function DefaultYear(): (y: int)
    ensures y == LastYear
  {
    YearOptions[|YearOptions| - 1]
  }

  /** The picker offers every year from 2005 to 2023, in ascending order, once each. */
  lemma YearOptionsSpec()
    ensures |YearOptions| == LastYear - FirstYear + 1
    ensures forall i :: 0 <= i < |YearOptions| ==> YearOptions[i] == FirstYear + i
    ensures forall y :: y in YearOptions <==> FirstYear <= y <= LastYear
  {
    forall y | FirstYear <= y <= LastYear ensures y in YearOptions {
      assert YearOptions[y - FirstYear] == y;
    }
  }

  /** `previous_year`: the year before the selection, absent for the first year. */
  function PreviousYear(selected: int): (r: Option<int>)
    ensures r.Some? <==> selected > FirstYear
    ensures r.Some? ==> r.value + 1 == selected
  {
    if selected > FirstYear then Some(selected - 1) else None
  }

  /** For a selectable year, the previous year is absent exactly for the first option and selectable otherwise. */
  lemma PreviousYearSelectable(selected: int)
    requires selected in YearOptions
    ensures PreviousYear(selected).None? <==> selected == YearOptions[0]
    ensures PreviousYear(selected).Some? ==> PreviousYear(selected).value in YearOptions
  {
    YearOptionsSpec();
  }

  /** `min_max_timestamps`: the range query paired with the two timestamps it returned. */
  function RangeStats<T>(range: (T, T)): (d: DatasetStats<T>)
    ensures d.query == MinMaxQuery()
    ensures (d.minOpenedDate, d.maxOpenedDate) == range
  {
    DatasetStats(MinMaxQuery(), range.0, range.1)
  }

  /** The users who opened the changesets. */
  function Uids(cs: seq<Changeset>): set<int> {
    set c | c in cs :: c.uid
  }

  /** The sum of a column over the rows. */
  function Total(xs: seq<nat>): nat
    decreases |xs|
  {
    if xs == [] then 0 else xs[0] + Total(xs[1..])
  }

  /** SQL `sum`: NULL over no rows. */
  function SqlSum(xs: seq<nat>): (r: Option<nat>)
    ensures r.None? <==> xs == []
    ensures r.Some? ==> r.value == Total(xs)
  {
    if xs == [] then None else Some(Total(xs))
  }

  function NumChanges(cs: seq<Changeset>): (xs: seq<nat>)
    ensures |xs| == |cs| && forall i :: 0 <= i < |cs| ==> xs[i] == cs[i].numChanges
  {
    seq(|cs|, i requires 0 <= i < |cs| => cs[i].numChanges)
  }

  function CommentCounts(cs: seq<Changeset>): (xs: seq<nat>)
    ensures |xs| == |cs| && forall i :: 0 <= i < |cs| ==> xs[i] == cs[i].commentsCount
  {
    seq(|cs|, i requires 0 <= i < |cs| => cs[i].commentsCount)
  }

  /** Distinct users are at most as many as changesets, and at least one when there is a changeset. */
  lemma {:induction false} UidsBound(cs: seq<Changeset>)
    ensures |Uids(cs)| <= |cs|
    ensures cs != [] ==> |Uids(cs)| >= 1
    decreases |cs|
  {
    if cs != [] {
      UidsBound(cs[1..]);
      assert Uids(cs) == {cs[0].uid} + Uids(cs[1..]) by {
        forall u ensures u in Uids(cs) <==> u in {cs[0].uid} + Uids(cs[1..]) {
          if u in Uids(cs) {
            var c :| c in cs && c.uid == u;
            if c != cs[0] {
              assert c in cs[1..];
            }
          }
        }
      }
      assert cs[0].uid in Uids(cs);
    }
  }

  /**
   * The four counts `year_stats` selects, over the changesets of one file:
   * the row count, the distinct users, and the two sums, which are absent
   * for a file without changesets.
   */
  function YearCounts(cs: seq<Changeset>): (s: StatsForYear)
    ensures s.numberOfChangesets == Some(|cs|)
    ensures s.numberOfUniqueUsers == Some(|Uids(cs)|)
    ensures s.numberOfUniqueUsers.value <= |cs|
    ensures cs != [] ==> s.numberOfUniqueUsers.value >= 1
    ensures s.numberOfObjectChanges == SqlSum(NumChanges(cs))
    ensures s.numberOfComments == SqlSum(CommentCounts(cs))
    ensures s.numberOfObjectChanges.None? <==> cs == []
    ensures s.numberOfComments.None? <==> cs == []
    ensures s.Complete() <==> cs != []
  {
    UidsBound(cs);
    StatsForYear(None, Some(|cs|), Some(|Uids(cs)|), SqlSum(NumChanges(cs)), SqlSum(CommentCounts(cs)))
  }

  /** `year_stats(year)`: the statistics query of `year` paired with the counts over that year's changesets. */
  function YearStats(year: int, cs: seq<Changeset>): (s: StatsForYear)
    ensures s.query == Some(YearStatsQuery(year))
    ensures s.numberOfChangesets == Some(|cs|)
    ensures s.numberOfUniqueUsers == Some(|Uids(cs)|)
    ensures s.numberOfUniqueUsers.value <= |cs|
    ensures cs != [] ==> s.numberOfUniqueUsers.value >= 1
    ensures s.numberOfObjectChanges == SqlSum(NumChanges(cs))
    ensures s.numberOfComments == SqlSum(CommentCounts(cs))
    ensures s.numberOfObjectChanges.None? <==> cs == []
    ensures s.numberOfComments.None? <==> cs == []
    ensures s.Complete() <==> cs != []
  {
    YearCounts(cs).(query := Some(YearStatsQuery(year)))
  }

  /** Two years' records carry different query texts: the text determines the year. */
  lemma YearStatsQueryDiffers(a: int, b: int, csA: seq<Changeset>, csB: seq<Changeset>)
    requires a != b
    ensures YearStats(a, csA).query != YearStats(b, csB).query
  {
    if YearStatsQuery(a) == YearStatsQuery(b) {
      YearStatsQueryInjective(a, b);
    }
  }

  /**
   * `stats_for_previous_year`: the record `year_stats` gives for the
   * previous year, or the all-absent record when there is none.
   */
  function PreviousStats(previous: Option<int>, yearStats: int -> StatsForYear): (s: StatsForYear)
    ensures previous.None? ==> s == NoStats
    ensures previous.Some? ==> s == yearStats(previous.value)
  {
    match previous
    case None => NoStats
    case Some(p) => yearStats(p)
  }

  /** One `st.metric`: caption, value rendered `{:,d}`, and the optional delta. */
  datatype Metric = Metric(caption: string, value: string, delta: Option<string>)

  const Captions: seq<string> := [
    "Changesets open",
    "Unique users who opened a changeset",
    "Objects edited",
    "Comments in discussions under changesets"
  ]

  /** One metric from the current count and the previous year's count, if any. */
  function MetricOf(caption: string, current: int, previous: Option<int>): (m: Metric)
    ensures m.caption == caption
    ensures StripCommas(m.value) == IntText(current)
    ensures current >= 0 ==> WellGrouped(m.value)
    ensures m.delta.None? <==> previous.None?
    ensures m.delta.Some? ==> ParseSigned(m.delta.value) == Some(current - previous.value)
  {
    var ds := Digits(Abs(current));
    GroupStripCommas(ds);
    GroupWellGrouped(ds);
    var v := FormatGrouped(current);
    assert StripCommas(v) == IntText(current) by {
      if current < 0 {
        assert v == "-" + Group(ds);
        StripCommasConcat("-", Group(ds));
        assert StripCommas("-") == "-";
      } else {
        assert v == Group(ds);
      }
    }
    Metric(caption, v, GetDelta(current, previous))
  }

  /**
   * The four metrics, from the selected year's record and the previous
   * year's (possibly all-absent) record. The selected year's counts must be
   * present: rendering an absent count with `{:,d}` raises.
   */
  function Metrics(current: StatsForYear, previous: StatsForYear): (ms: seq<Metric>)
    requires current.Complete()
    ensures |ms| == 4
    ensures forall i :: 0 <= i < 4 ==>
      && ms[i].caption == Captions[i]
      && StripCommas(ms[i].value) == IntText(current.Counts()[i].value)
      && (ms[i].delta.None? <==> previous.Counts()[i].None?)
      && (ms[i].delta.Some? ==> ParseSigned(ms[i].delta.value) == Some(current.Counts()[i].value - previous.Counts()[i].value))
  {
    var c, p := current.Counts(), previous.Counts();
    seq(4, i requires 0 <= i < 4 => MetricOf(Captions[i], c[i].value, p[i]))
  }

  /**
   * The metrics section for the selected year, `yearStats` standing for
   * the cached `year_stats`. The selected year's counts must be present:
   * rendering an absent count raises.
   */
  function YearMetrics(selected: int, yearStats: int -> StatsForYear): (ms: seq<Metric>)
    requires yearStats(selected).Complete()
    ensures |ms| == 4
  {
    Metrics(yearStats(selected), PreviousStats(PreviousYear(selected), yearStats))
  }

  /** In the first year there is nothing to compare with: every delta is absent. */
  lemma YearMetricsFirstYear(selected: int, yearStats: int -> StatsForYear)
    requires yearStats(selected).Complete() && selected <= FirstYear
    ensures forall i :: 0 <= i < 4 ==> YearMetrics(selected, yearStats)[i].delta.None?
  {
    assert PreviousStats(PreviousYear(selected), yearStats) == NoStats;
  }

  /**
   * In a later year each delta is present exactly when the year before has
   * that count, and then reads back as the change from it.
   */
  lemma YearMetricsLaterYear(selected: int, yearStats: int -> StatsForYear)
    requires yearStats(selected).Complete() && selected > FirstYear
    ensures forall i :: 0 <= i < 4 ==>
      var m, previous := YearMetrics(selected, yearStats)[i], yearStats(selected - 1).Counts()[i];
      && (m.delta.Some? <==> previous.Some?)
      && (m.delta.Some? ==> ParseSigned(m.delta.value) == Some(yearStats(selected).Counts()[i].value - previous.value))
  {
    assert PreviousYear(selected) == Some(selected - 1);
    assert PreviousStats(PreviousYear(selected), yearStats) == yearStats(selected - 1);
  }

  /** The column names of the editor table, as the query names them. */
  const EditorColumnNames: seq<string> := ["editor", "number_of_object_changes", "number_of_changesets"]

  /** `most_popular_editors(year)`: the query paired with the table it computes over the year's changesets. */
  function EditorsResult(year: int, cs: seq<Changeset>): (r: DataFrameResult)
    ensures r.query == EditorsQuery(year)
    ensures r.df.columns == EditorColumnNames
    ensures r.df.rows == MostPopularEditors(cs)
  {
    DataFrameResult(EditorsQuery(year), Frame(EditorColumnNames, MostPopularEditors(cs)))
  }

  /**
   * The renaming of the columns before display: the query and the rows are
   * untouched, and every column is humanised, so it keeps its length and
   * loses its underscores.
   */
  function Relabel(r: DataFrameResult): (d: DataFrameResult)
    ensures d.query == r.query && d.df.rows == r.df.rows
    ensures |d.df.columns| == |r.df.columns|
    ensures forall i :: 0 <= i < |r.df.columns| ==> d.df.columns[i] == Humanise(r.df.columns[i])
    ensures forall i :: 0 <= i < |r.df.columns| ==>
      |d.df.columns[i]| == |r.df.columns[i]| && '_' !in d.df.columns[i]
  {
    var columns := HumaniseColumns(r.df.columns);
    forall i | 0 <= i < |columns| ensures |columns[i]| == |r.df.columns[i]| && '_' !in columns[i] {
      HumaniseSpec(r.df.columns[i]);
    }
    r.(df := r.df.(columns := columns))
  }

  /** The words of the object-changes column. */
  const ObjectChangesWords: seq<string> := ["number", "of", "object", "changes"]

  /** The object-changes column name is four lower-case words joined by `_`. */
  lemma ObjectChangesSnakeCase()
    ensures forall k :: 0 <= k < |ObjectChangesWords| ==> LowerWord(ObjectChangesWords[k])
    ensures JoinWith(ObjectChangesWords, '_') == "number_of_object_changes"
  {
    assert LowerWord("number") && LowerWord("of") && LowerWord("object") && LowerWord("changes");
  }

  /** Those words capitalised and joined by spaces. */
  lemma ObjectChangesCapitalised()
    ensures JoinWith(CapitaliseAll(ObjectChangesWords), ' ') == "Number Of Object Changes"
  {
    assert ToUpper('n') == 'N' && ToUpper('o') == 'O' && ToUpper('c') == 'C';
    assert Capitalise("number") == "Number" && Capitalise("of") == "Of";
    assert Capitalise("object") == "Object" && Capitalise("changes") == "Changes";
    var caps := CapitaliseAll(ObjectChangesWords);
    assert caps[0] == "Number" && caps[1] == "Of" && caps[2] == "Object" && caps[3] == "Changes";
    assert caps == ["Number", "Of", "Object", "Changes"];
    assert JoinWith(["Number", "Of", "Object", "Changes"], ' ') == "Number Of Object Changes";
  }

  /** The object-changes column of the editor table is displayed as "Number Of Object Changes". */
  lemma ObjectChangesLabel(name: string)
    requires name == "number_of_object_changes"
    ensures Humanise(name) == "Number Of Object Changes"
  {
    ObjectChangesSnakeCase();
    ObjectChangesCapitalised();
    HumaniseSnakeCase(ObjectChangesWords, name, "Number Of Object Changes");
  }

  /** The editor table shows its object-changes column as "Number Of Object Changes". */
  lemma EditorTableObjectChangesLabel(year: int, cs: seq<Changeset>)
    ensures Relabel(EditorsResult(year, cs)).df.columns[1] == "Number Of Object Changes"
  {
    var r := EditorsResult(year, cs);
    assert r.df.columns[1] == "number_of_object_changes";
    ObjectChangesLabel(r.df.columns[1]);
  }
}
