/** The result records the dashboard passes around. */
module Records {
  import opened Wrappers
  import opened Breakdown

  /** `DatasetStats`: the range query and the two timestamps it returned, kept as opaque values. */
  datatype DatasetStats<T> = DatasetStats(query: string, minOpenedDate: T, maxOpenedDate: T)

  /**
   * `StatsForYear`: a statistics query and its four counts. Every field may
   * be absent, which is how the dashboard represents "no previous year".
   */
  datatype StatsForYear = StatsForYear(
    query: Option<string>,
    numberOfChangesets: Option<int>,
    numberOfUniqueUsers: Option<int>,
    numberOfObjectChanges: Option<int>,
    numberOfComments: Option<int>)
  {
    /** Every count is present. */
    predicate Complete() {
      numberOfChangesets.Some? && numberOfUniqueUsers.Some? && numberOfObjectChanges.Some? && numberOfComments.Some?
    }

    /** The four counts in the order the dashboard shows them. */
    function Counts(): (c: seq<Option<int>>)
      ensures |c| == 4
      ensures Complete() <==> forall i :: 0 <= i < 4 ==> c[i].Some?
    {
      var c := [numberOfChangesets, numberOfUniqueUsers, numberOfObjectChanges, numberOfComments];
      assert c[0] == numberOfChangesets && c[1] == numberOfUniqueUsers;
      assert c[2] == numberOfObjectChanges && c[3] == numberOfComments;
      c
    }
  }

  /** The record with every field absent. */
  const NoStats: StatsForYear := StatsForYear(None, None, None, None, None)

  /** The part of a data frame the dashboard uses: its column names and its rows. */
  datatype Frame = Frame(columns: seq<string>, rows: seq<EditorRow>)

  /** `DataFrameResult`: a query and the frame it produced. */
  datatype DataFrameResult = DataFrameResult(query: string, df: Frame)
}
