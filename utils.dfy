/** Python's `range(lo, hi)`: the integers `lo, lo + 1, …, hi - 1`. */
module PyRange {

  function Range(lo: int, hi: int): (r: seq<int>)
    ensures |r| == if lo < hi then hi - lo else 0
    ensures forall i :: 0 <= i < |r| ==> r[i] == lo + i
    decreases hi - lo
  {
    if lo >= hi then [] else [lo] + Range(lo + 1, hi)
  }
}

/** The helpers of utils.py: metric deltas and per-year dataset locations. */
module Utils {
  import opened Wrappers
  import opened Decimal
  import opened Template
  import opened PyRange

  /**
   * `get_delta`: the change from `previous` to `current`, rendered as
   * `{:+,d}`, or nothing when there is no previous value.
   */
  function GetDelta(current: int, previous: Option<int>): (r: Option<string>)
    ensures r.None? <==> previous.None?
    ensures r.Some? ==> |r.value| >= 2 && r.value[0] == (if current >= previous.value then '+' else '-')
    ensures r.Some? ==> ParseSigned(r.value) == Some(current - previous.value)
    ensures r.Some? ==> WellGrouped(r.value[1..])
    ensures r.Some? ==> StripCommas(r.value[1..]) == Digits(Abs(current - previous.value))
  {
    match previous
    case None => None
    case Some(p) =>
      FormatSignedRoundTrip(current - p);
      Some(FormatSigned(current - p))
  }

  /** `stringify`: a location as a single-quoted SQL string literal. */
  function Stringify(path: string): (r: string)
    ensures |r| == |path| + 2
    ensures r[0] == '\'' && r[|r| - 1] == '\''
    ensures r[1..|r| - 1] == path
  {
    "'" + path + "'"
  }

  /** One element of the comprehension: `stringify(template.format(year=year))`. */
  function QuotedPath(template: string, year: int): Option<string> {
    match Format(template, IntText(year))
    case None => None
    case Some(p) => Some(Stringify(p))
  }

  /** The list comprehension of `paths_for_years`, over any sequence of years. */
  function QuotedPaths(years: seq<int>, template: string): Option<seq<string>>
    decreases |years|
  {
    if years == [] then Some([])
    else
      match QuotedPath(template, years[0])
      case None => None
      case Some(p) =>
        match QuotedPaths(years[1..], template)
        case None => None
        case Some(ps) => Some([p] + ps)
  }

  /** `paths_for_years`: one quoted location per year of `start..end`, inclusive. */
  function PathsForYears(start: int, end: int, template: string): Option<seq<string>> {
    QuotedPaths(Range(start, end + 1), template)
  }

  ghost predicate PathsFor(years: seq<int>, template: string, ps: seq<string>) {
    |ps| == |years| && forall i :: 0 <= i < |ps| ==> QuotedPath(template, years[i]) == Some(ps[i])
  }

  lemma {:induction false} QuotedPathsSpec(years: seq<int>, template: string)
    ensures QuotedPaths(years, template).Some? <==> (years == [] || Format(template, "").Some?)
    ensures QuotedPaths(years, template).Some? ==> PathsFor(years, template, QuotedPaths(years, template).value)
    decreases |years|
  {
    if years != [] {
      FormatFailsIndependently(template, IntText(years[0]), "");
      QuotedPathsSpec(years[1..], template);
      if QuotedPaths(years, template).Some? {
        var ps := QuotedPaths(years, template).value;
        var rest := QuotedPaths(years[1..], template).value;
        assert ps == [QuotedPath(template, years[0]).value] + rest;
        forall i | 0 <= i < |ps|
          ensures QuotedPath(template, years[i]) == Some(ps[i])
        {
          if i > 0 {
            assert ps[i] == rest[i - 1];
            assert years[i] == years[1..][i - 1];
          }
        }
      }
    }
  }

  /**
   * An empty range gives no paths; otherwise `format` raises exactly when
   * the template is malformed, and the i-th path is the template filled
   * with year `start + i`, quoted: one path per year, in ascending order.
   */
  lemma PathsForYearsSpec(start: int, end: int, template: string)
    ensures start > end ==> PathsForYears(start, end, template) == Some([])
    ensures PathsForYears(start, end, template).Some? <==> (start > end || Format(template, "").Some?)
    ensures PathsForYears(start, end, template).Some? ==>
      var ps := PathsForYears(start, end, template).value;
      |ps| == (if start <= end then end - start + 1 else 0) &&
      forall i :: 0 <= i < |ps| ==> QuotedPath(template, start + i) == Some(ps[i])
  {
    var years := Range(start, end + 1);
    QuotedPathsSpec(years, template);
    if PathsForYears(start, end, template).Some? {
      var ps := PathsForYears(start, end, template).value;
      forall i | 0 <= i < |ps|
        ensures QuotedPath(template, start + i) == Some(ps[i])
      {
        assert years[i] == start + i;
      }
    }
  }

  /** Filling the one placeholder with different years gives different locations. */
  lemma FilledPathInjective(prefix: string, suffix: string, a: int, b: int)
    requires Stringify(prefix + IntText(a) + suffix) == Stringify(prefix + IntText(b) + suffix)
    ensures a == b
  {
    var x, y := IntText(a), IntText(b);
    var px, py := prefix + x + suffix, prefix + y + suffix;
    assert px == Stringify(px)[1..|Stringify(px)| - 1];
    assert py == Stringify(py)[1..|Stringify(py)| - 1];
    assert x == px[|prefix|..|prefix| + |x|];
    assert y == py[|prefix|..|prefix| + |y|];
    IntTextInjective(a, b);
  }

  /**
   * For a template with one `{year}` and no other braces, every year of
   * the range gets a location of its own: the list is ordered by year and
   * has no repeats.
   */
  lemma PathsForYearsSingle(start: int, end: int, prefix: string, suffix: string)
    requires NoBraces(prefix) && NoBraces(suffix)
    ensures PathsForYears(start, end, prefix + Placeholder + suffix).Some?
    ensures var ps := PathsForYears(start, end, prefix + Placeholder + suffix).value;
      (forall i :: 0 <= i < |ps| ==> ps[i] == Stringify(prefix + IntText(start + i) + suffix))
      && (forall i, j :: 0 <= i < j < |ps| ==> ps[i] != ps[j])
  {
    var t := prefix + Placeholder + suffix;
    FormatSinglePlaceholder(prefix, suffix, "");
    PathsForYearsSpec(start, end, t);
    var ps := PathsForYears(start, end, t).value;
    forall i | 0 <= i < |ps|
      ensures ps[i] == Stringify(prefix + IntText(start + i) + suffix)
    {
      FormatSinglePlaceholder(prefix, suffix, IntText(start + i));
      assert QuotedPath(t, start + i) == Some(ps[i]);
    }
    forall i, j | 0 <= i < j < |ps|
      ensures ps[i] != ps[j]
    {
      var x, y := start + i, start + j;
      assert ps[i] == Stringify(prefix + IntText(x) + suffix);
      assert ps[j] == Stringify(prefix + IntText(y) + suffix);
      if Stringify(prefix + IntText(x) + suffix) == Stringify(prefix + IntText(y) + suffix) {
        FilledPathInjective(prefix, suffix, x, y);
      }
    }
  }
}
