/** SQL `LIKE` as evaluated by the query engine: `%` matches any run of characters, `_` any one character. */
module Like {
  import opened Wrappers

  /** Whole-string, case-sensitive match of `s` against `pattern`. */
  function Like(s: string, pattern: string): bool
    decreases |s| + |pattern|
  {
    if pattern == [] then s == []
    else if pattern[0] == '%' then Like(s, pattern[1..]) || (s != [] && Like(s[1..], pattern))
    else s != [] && (pattern[0] == '_' || pattern[0] == s[0]) && Like(s[1..], pattern[1..])
  }

  /** `v LIKE pattern` with SQL's NULL propagation: a NULL operand gives NULL. */
  function SqlLike(v: Option<string>, pattern: string): (r: Option<bool>)
    ensures r.None? <==> v.None?
  {
    match v
    case None => None
    case Some(s) => Some(Like(s, pattern))
  }

  /**
   * Reference meaning of a prefix pattern: `s` is at least as long as
   * `prefix` and agrees with it at every position where `prefix` does not
   * hold the one-character wildcard `_`.
   */
  predicate PrefixMatch(s: string, prefix: string) {
    |prefix| <= |s| && forall i :: 0 <= i < |prefix| ==> prefix[i] == '_' || prefix[i] == s[i]
  }

  lemma {:induction false} LikeAnything(s: string)
    ensures Like(s, "%")
    decreases |s|
  {
    if s != [] {
      LikeAnything(s[1..]);
    }
  }

  /** A pattern made of a `%`-free prefix and a trailing `%` is exactly a prefix test with `_` wildcards. */
  lemma {:induction false} LikePrefix(s: string, prefix: string)
    requires '%' !in prefix
    ensures Like(s, prefix + "%") <==> PrefixMatch(s, prefix)
    decreases |prefix|
  {
    if prefix == [] {
      assert prefix + "%" == "%";
      LikeAnything(s);
    } else {
      var p := prefix + "%";
      assert p[0] == prefix[0] && p[0] != '%';
      assert p[1..] == prefix[1..] + "%";
      if s != [] {
        LikePrefix(s[1..], prefix[1..]);
        if PrefixMatch(s[1..], prefix[1..]) && (prefix[0] == '_' || prefix[0] == s[0]) {
          forall i | 0 <= i < |prefix|
            ensures prefix[i] == '_' || prefix[i] == s[i]
          {
            if i > 0 {
              assert prefix[1..][i - 1] == prefix[i] && s[1..][i - 1] == s[i];
            }
          }
        }
        if PrefixMatch(s, prefix) {
          forall i | 0 <= i < |prefix| - 1
            ensures prefix[1..][i] == '_' || prefix[1..][i] == s[1..][i]
          {
            assert prefix[i + 1] == '_' || prefix[i + 1] == s[i + 1];
          }
        }
      }
    }
  }
}

/**
 * The `CASE` expression of `most_popular_editors`: the free-text
 * `created_by` tag is mapped to an editor name by the first matching
 * pattern of an ordered list.
 */
module Editors {
  import opened Wrappers
  import opened Like

  /** The literal part of a `'<prefix>%'` pattern: no `%` of its own, at least two characters. */
  type Prefix = s: string | |s| >= 2 && '%' !in s witness "iD"

  /** An editor name produced by an arm of the `CASE`. */
  type Name = s: string | |s| >= 1 witness "iD"

  /** One `WHEN … like '<prefix>%' then '<name>'` arm. */
  datatype Rule = Rule(prefix: Prefix, name: Name)

  function Pattern(r: Rule): (p: string)
    ensures |p| == |r.prefix| + 1 && p[|p| - 1] == '%'
  {
    r.prefix + "%"
  }

  /** The `coalesce` fallback for a missing `created_by` tag. */
  const Unknown: string := "<unknown>"

  /** The arms of the `CASE`, in the order they are tried (split in four for the verifier). */
  const EditorRules: seq<Rule> := RulesA + RulesB + RulesC + RulesD

  const RulesA: seq<Rule> := [
    Rule("iD", "iD"),
    Rule("JOSM", "JOSM"),
    Rule("Level0", "Level0"),
    Rule("StreetComplete", "StreetComplete"),
    Rule("RapiD", "RapiD"),
    Rule("Potlach", "Potlach")
  ]

  const RulesB: seq<Rule> := [
    Rule("Potlatch", "Potlatch"),
    Rule("Go Map!!", "Go Map!!"),
    Rule("Merkaartor", "Merkaartor"),
    Rule("OsmAnd", "OsmAnd"),
    Rule("MAPS.ME", "MAPS.ME"),
    Rule("Vespucci", "Vespucci")
  ]

  const RulesC: seq<Rule> := [
    Rule("Organic Maps", "Organic Maps"),
    Rule("ArcGIS Editor", "ArcGIS Editor"),
    Rule("bulk_upload.py", "bulk_upload.py"),
    Rule("reverter", "reverter"),
    Rule("Every_Door", "EveryDoor"),
    Rule("osmtools", "osmtools")
  ]

  const RulesD: seq<Rule> := [
    Rule("osmapi", "osmapi"),
    Rule("rosemary", "rosemary"),
    Rule("Globe", "Globe"),
    Rule("PythonOsmApi", "PythonOsmApi"),
    Rule("bot-source-cadastre.py", "bot-source-cadastre.py"),
    Rule("upload.py", "upload.py")
  ]

  /** `tags['created_by'][1]`: the tag's value, or NULL when the changeset has no such tag. */
  function CreatedBy(tags: map<string, string>): (v: Option<string>)
    ensures v.Some? <==> "created_by" in tags
  {
    if "created_by" in tags then Some(tags["created_by"]) else None
  }

  /** `CASE WHEN v like p1 then l1 … ELSE coalesce(v, '<unknown>') END`: a NULL test is not true. */
  function CaseLabel(v: Option<string>, rules: seq<Rule>): string
    decreases |rules|
  {
    if rules == [] then GetOr(v, Unknown)
    else if SqlLike(v, Pattern(rules[0])) == Some(true) then rules[0].name
    else CaseLabel(v, rules[1..])
  }

  /** The editor label of one changeset. */
  function Editor(createdBy: Option<string>): string {
    CaseLabel(createdBy, EditorRules)
  }

  /** Rule `r` fires on `v`: `v` is present and has `r`'s prefix, `_` standing for any character. */
  predicate Fires(v: Option<string>, r: Rule) {
    v.Some? && PrefixMatch(v.value, r.prefix)
  }

  lemma FiresIffTrue(v: Option<string>, r: Rule)
    ensures SqlLike(v, Pattern(r)) == Some(true) <==> Fires(v, r)
  {
    if v.Some? {
      LikePrefix(v.value, r.prefix);
    }
  }

  /** First match wins: the label is that of the earliest rule that fires, whatever later rules say. */
  lemma {:induction false} CaseLabelFirstMatch(v: Option<string>, rules: seq<Rule>, i: nat)
    requires i < |rules| && Fires(v, rules[i])
    requires forall j :: 0 <= j < i ==> !Fires(v, rules[j])
    ensures CaseLabel(v, rules) == rules[i].name
    decreases i
  {
    FiresIffTrue(v, rules[0]);
    if i > 0 {
      assert !Fires(v, rules[0]);
      assert rules[1..][i - 1] == rules[i];
      CaseLabelFirstMatch(v, rules[1..], i - 1);
    }
  }

  /** When no rule fires the value is kept as it is, and a missing value becomes `<unknown>`. */
  lemma {:induction false} CaseLabelNoMatch(v: Option<string>, rules: seq<Rule>)
    requires forall j :: 0 <= j < |rules| ==> !Fires(v, rules[j])
    ensures CaseLabel(v, rules) == GetOr(v, Unknown)
    decreases |rules|
  {
    if rules != [] {
      FiresIffTrue(v, rules[0]);
      assert !Fires(v, rules[0]);
      CaseLabelNoMatch(v, rules[1..]);
    }
  }

  /**
   * The classification as a whole: a NULL tag is `<unknown>`; otherwise the
   * first firing rule decides, and an unmatched value is returned unchanged.
   * The result is empty only for an empty tag value.
   */
  lemma EditorSpec(v: Option<string>)
    ensures v.None? ==> Editor(v) == Unknown
    ensures forall i ::
      (0 <= i < |EditorRules| && Fires(v, EditorRules[i]) && forall j :: 0 <= j < i ==> !Fires(v, EditorRules[j]))
      ==> Editor(v) == EditorRules[i].name
    ensures (forall i :: 0 <= i < |EditorRules| ==> !Fires(v, EditorRules[i])) ==> Editor(v) == GetOr(v, Unknown)
    ensures Editor(v) == "" <==> v == Some("")
  {
    forall i | 0 <= i < |EditorRules| && Fires(v, EditorRules[i])
      && (forall j :: 0 <= j < i ==> !Fires(v, EditorRules[j]))
      ensures Editor(v) == EditorRules[i].name
    {
      CaseLabelFirstMatch(v, EditorRules, i);
    }
    if forall i :: 0 <= i < |EditorRules| ==> !Fires(v, EditorRules[i]) {
      CaseLabelNoMatch(v, EditorRules);
    } else {
      var i :| 0 <= i < |EditorRules| && Fires(v, EditorRules[i]);
      FirstFiring(v, EditorRules, i);
    }
  }

  /** If some rule fires, there is an earliest one. */
  lemma {:induction false} FirstFiring(v: Option<string>, rules: seq<Rule>, i: nat)
    requires i < |rules| && Fires(v, rules[i])
    ensures exists k ::
      && 0 <= k <= i && Fires(v, rules[k])
      && (forall j :: 0 <= j < k ==> !Fires(v, rules[j]))
      && CaseLabel(v, rules) == rules[k].name
    decreases i
  {
    if exists j :: 0 <= j < i && Fires(v, rules[j]) {
      var j :| 0 <= j < i && Fires(v, rules[j]);
      FirstFiring(v, rules, j);
    } else {
      CaseLabelFirstMatch(v, rules, i);
    }
  }

  /** A rule whose prefix starts with a character other than `_` and `v[0]` cannot fire on `v`. */
  lemma FirstCharDecides(v: string, i: nat)
    requires |v| >= 1 && i < |EditorRules| && PrefixMatch(v, EditorRules[i].prefix)
    requires forall j :: 0 <= j < i ==> EditorRules[j].prefix[0] != v[0] && EditorRules[j].prefix[0] != '_'
    ensures Editor(Some(v)) == EditorRules[i].name
  {
    CaseLabelFirstMatch(Some(v), EditorRules, i);
  }

  lemma RuleInitials()
    ensures forall j :: 0 <= j < 16 ==> EditorRules[j].prefix[0] != 'E' && EditorRules[j].prefix[0] != '_'
    ensures forall j :: 0 <= j < 14 ==> EditorRules[j].prefix[0] != 'b' && EditorRules[j].prefix[0] != '_'
  {
    assert EditorRules[..6] == RulesA;
    assert EditorRules[6..12] == RulesB;
    assert EditorRules[12..18] == RulesC;
    assert forall j :: 0 <= j < 6 ==> EditorRules[j] == RulesA[j];
    assert forall j :: 6 <= j < 12 ==> EditorRules[j] == RulesB[j - 6];
    assert forall j :: 12 <= j < 16 ==> EditorRules[j] == RulesC[j - 12];
  }

  /**
   * `_` in a `LIKE` pattern is a wildcard: `Every_Door%` also catches the
   * tag written with a space, and `bulk_upload.py%` one written with a dash.
   */
  lemma UnderscoreIsWildcard()
    ensures Editor(Some("Every Door Android 1.2")) == "EveryDoor"
    ensures Editor(Some("bulk-upload.py v0.9")) == "bulk_upload.py"
  {
    RuleInitials();
    assert EditorRules[16] == RulesC[4] && EditorRules[14] == RulesC[2];
    FirstCharDecides("Every Door Android 1.2", 16);
    FirstCharDecides("bulk-upload.py v0.9", 14);
  }
}
