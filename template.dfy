/**
 * Python `str.format(year=v)` on a dataset location template, restricted to
 * the replacement fields the dashboard uses: `{year}` is replaced by `v`,
 * `{{` and `}}` stand for literal braces, and any other brace makes `format`
 * raise (here: `None`).
 */
module Template {
  import opened Wrappers

  const Placeholder: string := "{year}"

  predicate NoBraces(s: string) {
    '{' !in s && '}' !in s
  }

  function Prepend(p: string, o: Option<string>): (r: Option<string>)
    ensures r.Some? <==> o.Some?
    ensures r.Some? ==> r.value == p + o.value
  {
    match o
    case None => None
    case Some(s) => Some(p + s)
  }

  /** `t.format(year=v)`; `None` where Python raises. */
  function Format(t: string, v: string): Option<string>
    decreases |t|
  {
    if t == [] then Some([])
    else if |t| >= 2 && t[..2] == "{{" then Prepend("{", Format(t[2..], v))
    else if |t| >= 2 && t[..2] == "}}" then Prepend("}", Format(t[2..], v))
    else if |t| >= |Placeholder| && t[..|Placeholder|] == Placeholder then Prepend(v, Format(t[|Placeholder|..], v))
    else if t[0] == '{' || t[0] == '}' then None
    else Prepend([t[0]], Format(t[1..], v))
  }

  /** Whether `format` raises depends on the template only, never on the substituted value. */
  lemma {:induction false} FormatFailsIndependently(t: string, v: string, w: string)
    ensures Format(t, v).Some? <==> Format(t, w).Some?
    decreases |t|
  {
    if t == [] {
    } else if |t| >= 2 && t[..2] == "{{" {
      FormatFailsIndependently(t[2..], v, w);
    } else if |t| >= 2 && t[..2] == "}}" {
      FormatFailsIndependently(t[2..], v, w);
    } else if |t| >= |Placeholder| && t[..|Placeholder|] == Placeholder {
      FormatFailsIndependently(t[|Placeholder|..], v, w);
    } else if t[0] == '{' || t[0] == '}' {
    } else {
      FormatFailsIndependently(t[1..], v, w);
    }
  }

  /** Text without braces passes through `format` unchanged. */
  lemma {:induction false} FormatPrefix(p: string, u: string, v: string)
    requires NoBraces(p)
    ensures Format(p + u, v) == Prepend(p, Format(u, v))
    decreases |p|
  {
    if p == [] {
      assert p + u == u;
      match Format(u, v)
      case None =>
      case Some(x) =>
        assert p + x == x;
    } else {
      var t := p + u;
      assert t[0] == p[0];
      assert t[1..] == p[1..] + u;
      assert |t| >= 2 ==> t[..2] != "{{" && t[..2] != "}}" by {
        if |t| >= 2 { assert t[..2][0] == p[0]; }
      }
      assert |t| >= |Placeholder| ==> t[..|Placeholder|] != Placeholder by {
        if |t| >= |Placeholder| { assert t[..|Placeholder|][0] == p[0]; }
      }
      assert Format(t, v) == Prepend([p[0]], Format(t[1..], v));
      FormatPrefix(p[1..], u, v);
      assert [p[0]] + p[1..] == p;
      match Format(u, v)
      case None =>
      case Some(x) =>
        assert [p[0]] + (p[1..] + x) == p + x;
    }
  }

  lemma FormatPlaceholderHead(s: string, v: string)
    ensures Format(Placeholder + s, v) == Prepend(v, Format(s, v))
  {
    var t := Placeholder + s;
    assert t[..2] == "{y";
    assert t[..|Placeholder|] == Placeholder;
    assert t[|Placeholder|..] == s;
  }

  /** A template with exactly one `{year}` and no other braces: the value lands in its place. */
  lemma FormatSinglePlaceholder(prefix: string, suffix: string, v: string)
    requires NoBraces(prefix) && NoBraces(suffix)
    ensures Format(prefix + Placeholder + suffix, v) == Some(prefix + v + suffix)
  {
    assert prefix + Placeholder + suffix == prefix + (Placeholder + suffix);
    FormatPrefix(prefix, Placeholder + suffix, v);
    FormatPlaceholderHead(suffix, v);
    FormatPrefix(suffix, [], v);
    assert suffix + [] == suffix;
    assert prefix + (v + suffix) == prefix + v + suffix;
  }
}
