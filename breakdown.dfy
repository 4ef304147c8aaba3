/**
 * The rest of `most_popular_editors`: `GROUP BY 1` on the editor label,
 * `sum(num_changes)` and `count(*)` per group, `ORDER BY 2 DESC`, `LIMIT 25`.
 */
module Breakdown {
  import opened Wrappers
  import opened Editors

  /** `LIMIT 25`. */
  const Limit: nat := 25

  /** The columns of a changeset row that the queries read; `tags` is the changeset's tag map. */
  datatype Changeset = Changeset(uid: int, tags: map<string, string>, numChanges: nat, commentsCount: nat)

  /** A changeset after the `CASE`: its editor label and its object changes. */
  datatype Tagged = Tagged(editor: string, changes: nat)

  /** One output row: `editor`, `number_of_object_changes`, `number_of_changesets`. */
  datatype EditorRow = EditorRow(editor: string, objectChanges: nat, changesets: nat)

  function Tag(cs: seq<Changeset>): (ts: seq<Tagged>)
    ensures |ts| == |cs|
    ensures forall i :: 0 <= i < |cs| ==> ts[i] == Tagged(Editor(CreatedBy(cs[i].tags)), cs[i].numChanges)
  {
    seq(|cs|, i requires 0 <= i < |cs| => Tagged(Editor(CreatedBy(cs[i].tags)), cs[i].numChanges))
  }

  function LabelsOf(ts: seq<Tagged>): (ls: seq<string>)
    ensures |ls| == |ts| && forall i :: 0 <= i < |ts| ==> ls[i] == ts[i].editor
  {
    seq(|ts|, i requires 0 <= i < |ts| => ts[i].editor)
  }

  /** `sum(num_changes)` over the group of `name`. */
  function SumFor(ts: seq<Tagged>, name: string): nat
    decreases |ts|
  {
    if ts == [] then 0
    else (if ts[0].editor == name then ts[0].changes else 0) + SumFor(ts[1..], name)
  }

  /** `count(*)` over the group of `name`. */
  function CountFor(ts: seq<Tagged>, name: string): (n: nat)
    ensures n >= 1 <==> name in LabelsOf(ts)
    decreases |ts|
  {
    if ts == [] then 0
    else
      assert LabelsOf(ts) == [ts[0].editor] + LabelsOf(ts[1..]);
      (if ts[0].editor == name then 1 else 0) + CountFor(ts[1..], name)
  }

  /** The output row of the group of `name`. */
  function RowFor(ts: seq<Tagged>, name: string): EditorRow {
    EditorRow(name, SumFor(ts, name), CountFor(ts, name))
  }

  predicate NoDuplicates(ls: seq<string>) {
    forall i, j :: 0 <= i < j < |ls| ==> ls[i] != ls[j]
  }

  /** The distinct labels, in order of first appearance. */
  function Distinct(ls: seq<string>): (d: seq<string>)
    ensures NoDuplicates(d)
    ensures forall x :: x in d <==> x in ls
    decreases |ls|
  {
    if ls == [] then []
    else
      var d := Distinct(ls[..|ls| - 1]);
      assert forall x :: x in ls <==> x in ls[..|ls| - 1] || x == ls[|ls| - 1];
      if ls[|ls| - 1] in d then d else d + [ls[|ls| - 1]]
  }

  /** `GROUP BY 1`: one row per distinct label. */
  function Groups(ts: seq<Tagged>): (g: seq<EditorRow>)
    ensures |g| == |Distinct(LabelsOf(ts))|
    ensures forall k :: 0 <= k < |g| ==> g[k] == RowFor(ts, Distinct(LabelsOf(ts))[k])
  {
    var d := Distinct(LabelsOf(ts));
    seq(|d|, k requires 0 <= k < |d| => RowFor(ts, d[k]))
  }

  predicate SortedDesc(rows: seq<EditorRow>) {
    forall i, j :: 0 <= i < j < |rows| ==> rows[i].objectChanges >= rows[j].objectChanges
  }

  predicate EditorsDistinct(rows: seq<EditorRow>) {
    forall i, j :: 0 <= i < j < |rows| ==> rows[i].editor != rows[j].editor
  }

  function Insert(x: EditorRow, rows: seq<EditorRow>): seq<EditorRow>
    decreases |rows|
  {
    if rows == [] || x.objectChanges >= rows[0].objectChanges then [x] + rows
    else [rows[0]] + Insert(x, rows[1..])
  }

  /** `ORDER BY 2 DESC`; rows with equal sums keep their relative order. */
  function SortDesc(rows: seq<EditorRow>): seq<EditorRow>
    decreases |rows|
  {
    if rows == [] then [] else Insert(rows[0], SortDesc(rows[1..]))
  }

  /** The breakdown of already-labelled changesets. */
  function Aggregate(ts: seq<Tagged>): seq<EditorRow> {
    var sorted := SortDesc(Groups(ts));
    sorted[..if |sorted| < Limit then |sorted| else Limit]
  }

  /** The result table of `most_popular_editors` for one year's changesets. */
  function MostPopularEditors(cs: seq<Changeset>): seq<EditorRow> {
    Aggregate(Tag(cs))
  }

  lemma {:induction false} InsertSpec(x: EditorRow, rows: seq<EditorRow>)
    requires SortedDesc(rows)
    ensures SortedDesc(Insert(x, rows))
    ensures multiset(Insert(x, rows)) == multiset(rows) + multiset{x}
    decreases |rows|
  {
    if rows == [] || x.objectChanges >= rows[0].objectChanges {
    } else {
      InsertSpec(x, rows[1..]);
      var tail := Insert(x, rows[1..]);
      assert rows == [rows[0]] + rows[1..];
      forall k | 0 <= k < |tail| ensures rows[0].objectChanges >= tail[k].objectChanges {
        assert tail[k] in multiset(rows[1..]) + multiset{x};
      }
    }
  }

  /** Sorting orders the rows and keeps exactly the same rows. */
  lemma {:induction false} SortDescSpec(rows: seq<EditorRow>)
    ensures SortedDesc(SortDesc(rows))
    ensures multiset(SortDesc(rows)) == multiset(rows)
    decreases |rows|
  {
    if rows != [] {
      SortDescSpec(rows[1..]);
      InsertSpec(rows[0], SortDesc(rows[1..]));
      assert rows == [rows[0]] + rows[1..];
    }
  }

  /** Rows of distinct groups stay rows of distinct groups after sorting. */
  lemma {:induction false} InsertDistinct(x: EditorRow, rows: seq<EditorRow>)
    requires EditorsDistinct(rows)
    requires forall k :: 0 <= k < |rows| ==> rows[k].editor != x.editor
    ensures EditorsDistinct(Insert(x, rows))
    decreases |rows|
  {
    if rows != [] && x.objectChanges < rows[0].objectChanges {
      InsertDistinct(x, rows[1..]);
      InsertElements(x, rows[1..]);
      var tail := Insert(x, rows[1..]);
      forall k | 0 <= k < |tail| ensures tail[k].editor != rows[0].editor {
        assert tail[k] in multiset(rows[1..]) + multiset{x};
        if tail[k] in rows[1..] {
          var m :| 0 <= m < |rows[1..]| && rows[1..][m] == tail[k];
          assert rows[m + 1] == tail[k];
        }
      }
    }
  }

  /** The elements of `Insert(x, rows)`, without assuming `rows` sorted. */
  lemma {:induction false} InsertElements(x: EditorRow, rows: seq<EditorRow>)
    ensures multiset(Insert(x, rows)) == multiset(rows) + multiset{x}
    decreases |rows|
  {
    if rows != [] && x.objectChanges < rows[0].objectChanges {
      InsertElements(x, rows[1..]);
      assert rows == [rows[0]] + rows[1..];
    }
  }

  lemma {:induction false} SortDescDistinct(rows: seq<EditorRow>)
    requires EditorsDistinct(rows)
    ensures EditorsDistinct(SortDesc(rows))
    decreases |rows|
  {
    if rows != [] {
      SortDescDistinct(rows[1..]);
      SortDescSpec(rows[1..]);
      var s := SortDesc(rows[1..]);
      forall k | 0 <= k < |s| ensures s[k].editor != rows[0].editor {
        assert s[k] in multiset(rows[1..]);
        var m :| 0 <= m < |rows[1..]| && rows[1..][m] == s[k];
        assert rows[m + 1] == s[k];
      }
      InsertDistinct(rows[0], s);
    }
  }

  lemma GroupsDistinct(ts: seq<Tagged>)
    ensures EditorsDistinct(Groups(ts))
  {
    var d := Distinct(LabelsOf(ts));
    var g := Groups(ts);
    forall i, j | 0 <= i < j < |g| ensures g[i].editor != g[j].editor {
      assert g[i].editor == d[i] && g[j].editor == d[j];
    }
  }

  /** Every label present in the input has its group row somewhere in the sorted groups. */
  lemma SortedHasGroup(ts: seq<Tagged>, l: string)
    requires l in LabelsOf(ts)
    ensures exists j :: 0 <= j < |SortDesc(Groups(ts))| && SortDesc(Groups(ts))[j] == RowFor(ts, l)
  {
    var d := Distinct(LabelsOf(ts));
    var g := Groups(ts);
    SortDescSpec(g);
    var m :| 0 <= m < |d| && d[m] == l;
    assert g[m] == RowFor(ts, l);
    assert RowFor(ts, l) in multiset(SortDesc(g));
  }

  /** Exactly the first 25 groups (all of them when there are fewer), ordered by non-increasing object changes, one row per editor label. */
  lemma AggregateShape(ts: seq<Tagged>)
    ensures |Aggregate(ts)| <= Limit
    ensures |Aggregate(ts)| == if |Distinct(LabelsOf(ts))| < Limit then |Distinct(LabelsOf(ts))| else Limit
    ensures SortedDesc(Aggregate(ts))
    ensures EditorsDistinct(Aggregate(ts))
  {
    var sorted := SortDesc(Groups(ts));
    SortDescSpec(Groups(ts));
    GroupsDistinct(ts);
    SortDescDistinct(Groups(ts));
    assert |multiset(sorted)| == |multiset(Groups(ts))|;
    assert Aggregate(ts) == sorted[..|Aggregate(ts)|];
  }

  /** Each row is the group of a label that occurs, with that group's exact sum and count. */
  lemma AggregateRows(ts: seq<Tagged>)
    ensures forall k :: 0 <= k < |Aggregate(ts)| ==>
      Aggregate(ts)[k] == RowFor(ts, Aggregate(ts)[k].editor) && Aggregate(ts)[k].editor in LabelsOf(ts)
  {
    var d := Distinct(LabelsOf(ts));
    var g := Groups(ts);
    var sorted := SortDesc(g);
    var out := Aggregate(ts);
    SortDescSpec(g);
    forall k | 0 <= k < |out|
      ensures out[k] == RowFor(ts, out[k].editor) && out[k].editor in LabelsOf(ts)
    {
      assert out[k] == sorted[k];
      assert sorted[k] in multiset(g);
      var m :| 0 <= m < |g| && g[m] == sorted[k];
      assert d[m] in d;
    }
  }

  /** `LIMIT 25` after `ORDER BY 2 DESC` keeps the top labels: a label left out has no more changes than any kept. */
  lemma AggregateKeepsTop(ts: seq<Tagged>, l: string)
    requires l in LabelsOf(ts)
    requires forall k :: 0 <= k < |Aggregate(ts)| ==> Aggregate(ts)[k].editor != l
    ensures forall k :: 0 <= k < |Aggregate(ts)| ==> SumFor(ts, l) <= Aggregate(ts)[k].objectChanges
  {
    var sorted := SortDesc(Groups(ts));
    var out := Aggregate(ts);
    SortDescSpec(Groups(ts));
    SortedHasGroup(ts, l);
    var j :| 0 <= j < |sorted| && sorted[j] == RowFor(ts, l);
    assert forall k :: 0 <= k < |out| ==> sorted[k] == out[k];
    assert sorted[j].editor == l;
    assert j >= |out|;
    forall k | 0 <= k < |out| ensures SumFor(ts, l) <= out[k].objectChanges {
      assert out[k] == sorted[k];
    }
  }

  /** With at most 25 distinct labels, every label gets its row. */
  lemma AggregateComplete(ts: seq<Tagged>, l: string)
    requires |Distinct(LabelsOf(ts))| <= Limit
    requires l in LabelsOf(ts)
    ensures exists k :: 0 <= k < |Aggregate(ts)| && Aggregate(ts)[k] == RowFor(ts, l)
  {
    var sorted := SortDesc(Groups(ts));
    SortDescSpec(Groups(ts));
    assert |multiset(sorted)| == |multiset(Groups(ts))|;
    assert Aggregate(ts) == sorted;
    SortedHasGroup(ts, l);
  }
}
