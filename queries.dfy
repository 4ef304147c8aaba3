/** Python's `str.strip()` on the ASCII whitespace characters. */
module SqlText {

  /** The ASCII characters Python's `str.isspace` accepts. */
  predicate IsSpace(c: char) {
    c == ' ' || 9 <= c as int <= 13 || 28 <= c as int <= 31
  }

  function StripStart(s: string): (r: string)
    ensures |r| <= |s| && r == s[|s| - |r|..]
    ensures forall i :: 0 <= i < |s| - |r| ==> IsSpace(s[i])
    ensures r == [] || !IsSpace(r[0])
    decreases |s|
  {
    if s != [] && IsSpace(s[0]) then StripStart(s[1..]) else s
  }

  function StripEnd(s: string): (r: string)
    ensures |r| <= |s| && r == s[..|r|]
    ensures forall i :: |r| <= i < |s| ==> IsSpace(s[i])
    ensures r == [] || !IsSpace(r[|r| - 1])
    decreases |s|
  {
    if s != [] && IsSpace(s[|s| - 1]) then StripEnd(s[..|s| - 1]) else s
  }

  /** `s.strip()`. */
  function Strip(s: string): string {
    StripEnd(StripStart(s))
  }

  /** The triple-quoted query texts start and end with a newline; `strip` removes exactly those. */
  lemma StripFramed(x: string)
    requires x != [] && !IsSpace(x[0]) && !IsSpace(x[|x| - 1])
    ensures Strip("\n" + x + "\n") == x
  {
    var s := "\n" + x + "\n";
    assert s[1..] == x + "\n";
    assert StripStart(s) == StripStart(x + "\n");
    assert StripStart(x + "\n") == x + "\n";
    assert (x + "\n")[..|x|] == x;
    assert StripEnd(x + "\n") == StripEnd(x);
  }
}

/**
 * The SQL texts of `min_max_timestamps`, `year_stats` and
 * `most_popular_editors`, kept as exact strings: each result record
 * carries the text of the query that produced it.
 */
module Queries {
  import opened Wrappers
  import opened Decimal
  import opened Template
  import opened Utils
  import opened SqlText
  import opened Editors
  import Breakdown

  /** `url_template`: the location of one year's Parquet file. */
  const UrlPrefix: string := "s3://tt-osm-changesets/full_by_year/"
  const UrlSuffix: string := ".parquet"
  const UrlTemplate: string := UrlPrefix + Placeholder + UrlSuffix

  lemma UrlTemplateFormat(v: string)
    ensures Format(UrlTemplate, v) == Some(UrlPrefix + v + UrlSuffix)
  {
    assert NoBraces(UrlPrefix);
    assert NoBraces(UrlSuffix);
    FormatSinglePlaceholder(UrlPrefix, UrlSuffix, v);
  }

  /** `url_template.format(year=v)`, which never raises for this template. */
  function DatasetPath(v: string): (p: string)
    ensures p == UrlPrefix + v + UrlSuffix
  {
    UrlTemplateFormat(v);
    Format(UrlTemplate, v).value
  }

  const MinMaxColumns: string :=
    "SELECT\n" +
    "    min(created_at) start_range,\n" +
    "    max(created_at) end_range\n"

  const YearStatsColumns: string :=
    "SELECT\n" +
    "    count(*) number_of_changesets,\n" +
    "    count(distinct uid) number_of_unique_users,\n" +
    "    sum(num_changes) number_of_object_changes,\n" +
    "    sum(comments_count) number_of_comments\n"

  /** The `WHEN` arm of one rule, as it appears in the query text. */
  function WhenLine(r: Rule): string {
    "        WHEN tags['created_by'][1] like '" + Pattern(r) + "' then '" + r.name + "'\n"
  }

  /** The lines of the text, one after the other. */
  function Join(lines: seq<string>): string
    decreases |lines|
  {
    if lines == [] then [] else lines[0] + Join(lines[1..])
  }

  /** The `WHEN` arms of `rules`, in rule order. */
  function WhenLines(rules: seq<Rule>): string {
    Join(seq(|rules|, k requires 0 <= k < |rules| => WhenLine(rules[k])))
  }

  const EditorHead: string :=
    "SELECT\n" +
    "    CASE -- using [1] since in duckdb map lookups return 1-indexed array\n"

  const EditorFoot: string :=
    "        ELSE coalesce(tags['created_by'][1], '" + Unknown + "')\n" +
    "    END editor,\n" +
    "    sum(num_changes)::bigint number_of_object_changes, -- cast to bigint makes formatting later easier\n" +
    "    count(*) number_of_changesets\n"

  /** The select list of the editor breakdown: the `CASE` arms are generated from the rule table. */
  const EditorColumns: string := EditorHead + WhenLines(EditorRules) + EditorFoot

  const EditorTail: string := "\nGROUP BY 1\nORDER BY 2 DESC\nLIMIT 25"

  /** The `LIMIT` written in the text is the one the breakdown applies. */
  lemma EditorTailLimit()
    ensures EditorTail == "\nGROUP BY 1\nORDER BY 2 DESC\nLIMIT " + IntText(Breakdown.Limit)
  {
    assert Digits(2) == "2";
    assert Digits(25) == Digits(2) + [DigitChar(5)];
  }

  /**
   * The common shape of the three queries: a triple-quoted f-string holding
   * the select list, `FROM '<location>'` and an optional tail, then `strip()`.
   * The result is the text without its framing newlines, with the location
   * quoted as `stringify` quotes it.
   */
  function QueryText(columns: string, location: string, tail: string): (q: string)
    requires columns != [] && !IsSpace(columns[0])
    requires tail == [] || !IsSpace(tail[|tail| - 1])
    ensures q == columns + "FROM " + Stringify(location) + tail
  {
    var text := columns + "FROM '" + location + "'" + tail;
    assert text == columns + "FROM " + Stringify(location) + tail;
    assert text != [] && !IsSpace(text[0]) && !IsSpace(text[|text| - 1]) by {
      assert text[0] == columns[0];
      assert tail != [] ==> text[|text| - 1] == tail[|tail| - 1];
    }
    StripFramed(text);
    Strip("\n" + text + "\n")
  }

  /** `min_max_timestamps`: the range query scans every year through the `*` wildcard. */
  function MinMaxQuery(): (q: string)
    ensures q == MinMaxColumns + "FROM " + Stringify(UrlPrefix + "*" + UrlSuffix)
  {
    assert MinMaxColumns[0] == 'S';
    QueryText(MinMaxColumns, DatasetPath("*"), [])
  }

  /** `year_stats(year)`: the statistics query reads the one file of `year`. */
  function YearStatsQuery(year: int): (q: string)
    ensures q == YearStatsColumns + "FROM " + Stringify(UrlPrefix + IntText(year) + UrlSuffix)
  {
    assert YearStatsColumns[0] == 'S';
    QueryText(YearStatsColumns, DatasetPath(IntText(year)), [])
  }

  /** `most_popular_editors(year)`. */
  function EditorsQuery(year: int): (q: string)
    ensures q == EditorColumns + "FROM " + Stringify(UrlPrefix + IntText(year) + UrlSuffix) + EditorTail
  {
    assert EditorColumns[0] == EditorHead[0] == 'S';
    assert EditorTail[|EditorTail| - 1] == '5';
    QueryText(EditorColumns, DatasetPath(IntText(year)), EditorTail)
  }

  lemma {:induction false} JoinAt(lines: seq<string>, i: nat)
    requires i < |lines|
    ensures Join(lines) == Join(lines[..i]) + lines[i] + Join(lines[i + 1..])
    decreases i
  {
    if i == 0 {
      assert lines[..0] == [];
      assert lines[1..] == lines[i + 1..];
    } else {
      var tl := lines[1..];
      JoinAt(tl, i - 1);
      assert tl[..i - 1] == lines[..i][1..];
      assert tl[i - 1] == lines[i];
      assert tl[i..] == lines[i + 1..];
      assert Join(lines[..i]) == lines[0] + Join(tl[..i - 1]);
      var a, b, c, d := lines[0], Join(tl[..i - 1]), lines[i], Join(lines[i + 1..]);
      assert a + (b + c + d) == (a + b) + c + d;
    }
  }

  /**
   * The `WHEN` arms appear in the query in rule order: the arm of rule `i`
   * comes after the arms of the rules before it and before those after it.
   */
  lemma WhenLinesOrder(rules: seq<Rule>, i: nat)
    requires i < |rules|
    ensures WhenLines(rules) == WhenLines(rules[..i]) + WhenLine(rules[i]) + WhenLines(rules[i + 1..])
  {
    var lines := seq(|rules|, k requires 0 <= k < |rules| => WhenLine(rules[k]));
    JoinAt(lines, i);
    assert lines[..i] == seq(i, k requires 0 <= k < i => WhenLine(rules[..i][k]));
    assert lines[i + 1..] == seq(|rules| - i - 1, k requires 0 <= k < |rules| - i - 1 => WhenLine(rules[i + 1..][k]));
  }

  /** Two texts that differ only in the year spliced into the location belong to the same year. */
  lemma SplicedYearInjective(head: string, tail: string, a: int, b: int)
    requires head + Stringify(UrlPrefix + IntText(a) + UrlSuffix) + tail
          == head + Stringify(UrlPrefix + IntText(b) + UrlSuffix) + tail
    ensures a == b
  {
    var x, y := Stringify(UrlPrefix + IntText(a) + UrlSuffix), Stringify(UrlPrefix + IntText(b) + UrlSuffix);
    assert |x| == |y|;
    assert x == (head + x + tail)[|head|..|head| + |x|];
    assert y == (head + y + tail)[|head|..|head| + |y|];
    FilledPathInjective(UrlPrefix, UrlSuffix, a, b);
  }

  /** Different years give different statistics queries: the text determines the year. */
  lemma YearStatsQueryInjective(a: int, b: int)
    requires YearStatsQuery(a) == YearStatsQuery(b)
    ensures a == b
  {
    var head := YearStatsColumns + "FROM ";
    assert YearStatsQuery(a) == head + Stringify(UrlPrefix + IntText(a) + UrlSuffix) + [];
    assert YearStatsQuery(b) == head + Stringify(UrlPrefix + IntText(b) + UrlSuffix) + [];
    SplicedYearInjective(head, [], a, b);
  }

  /** Different years give different editor queries: the text determines the year. */
  lemma EditorsQueryInjective(a: int, b: int)
    requires EditorsQuery(a) == EditorsQuery(b)
    ensures a == b
  {
    SplicedYearInjective(EditorColumns + "FROM ", EditorTail, a, b);
  }
}
