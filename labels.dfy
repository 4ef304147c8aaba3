/**
 * Column-label humanisation: `str(x).replace("_", " ").title()`, over
 * ASCII, where the cased characters are the letters `A`-`Z` and `a`-`z`.
 */
module Labels {

  predicate IsUpper(c: char) { 'A' <= c <= 'Z' }
  predicate IsLower(c: char) { 'a' <= c <= 'z' }
  predicate IsCased(c: char) { IsUpper(c) || IsLower(c) }

  function ToUpper(c: char): (u: char)
    ensures IsCased(u) <==> IsCased(c)
    ensures !IsLower(u)
  {
    if IsLower(c) then (c as int - 'a' as int + 'A' as int) as char else c
  }

  function ToLower(c: char): (l: char)
    ensures IsCased(l) <==> IsCased(c)
    ensures !IsUpper(l)
  {
    if IsUpper(c) then (c as int - 'A' as int + 'a' as int) as char else c
  }

  /** `s.replace(a, b)` for single characters. */
  function ReplaceChar(s: string, a: char, b: char): (r: string)
    ensures |r| == |s|
    ensures forall i :: 0 <= i < |s| ==> r[i] == if s[i] == a then b else s[i]
  {
    seq(|s|, i requires 0 <= i < |s| => if s[i] == a then b else s[i])
  }

  /** `str.title()` scanning left to right, remembering whether the previous character was cased. */
  function TitleFrom(s: string, previousCased: bool): (r: string)
    ensures |r| == |s|
    decreases |s|
  {
    if s == [] then []
    else
      var c := s[0];
      var t := if !IsCased(c) then c else if previousCased then ToLower(c) else ToUpper(c);
      [t] + TitleFrom(s[1..], IsCased(c))
  }

  function Title(s: string): string {
    TitleFrom(s, false)
  }

  /** The label shown for column `name`. */
  function Humanise(name: string): string {
    Title(ReplaceChar(name, '_', ' '))
  }

  /** `df.columns.map(...)`. */
  function HumaniseColumns(names: seq<string>): (r: seq<string>)
    ensures |r| == |names|
    ensures forall i :: 0 <= i < |names| ==> r[i] == Humanise(names[i])
  {
    seq(|names|, i requires 0 <= i < |names| => Humanise(names[i]))
  }

  /**
   * Reference meaning of title case, position by position: a cased
   * character is upper case when it starts a word (nothing cased just
   * before it) and lower case otherwise; other characters are unchanged.
   */
  function TitleCharAt(s: string, i: nat): char
    requires i < |s|
  {
    if !IsCased(s[i]) then s[i]
    else if i > 0 && IsCased(s[i - 1]) then ToLower(s[i])
    else ToUpper(s[i])
  }

  lemma {:induction false} TitleFromAt(s: string, previousCased: bool, i: nat)
    requires 0 < i < |s|
    ensures TitleFrom(s, previousCased)[i] == TitleCharAt(s, i)
    decreases i
  {
    if i > 1 {
      TitleFromAt(s[1..], IsCased(s[0]), i - 1);
    }
    assert TitleFrom(s, previousCased)[i] == TitleFrom(s[1..], IsCased(s[0]))[i - 1];
  }

  lemma TitleSpec(s: string)
    ensures |Title(s)| == |s|
    ensures forall i :: 0 <= i < |s| ==> Title(s)[i] == TitleCharAt(s, i)
  {
    forall i | 0 < i < |s| ensures Title(s)[i] == TitleCharAt(s, i) {
      TitleFromAt(s, false, i);
    }
  }

  /**
   * Humanised labels keep their length, contain no `_`, turn each `_` into
   * a space, and put the cased letters in title case with the underscores
   * acting as word breaks.
   */
  lemma HumaniseSpec(name: string)
    ensures |Humanise(name)| == |name|
    ensures '_' !in Humanise(name)
    ensures forall i :: 0 <= i < |name| ==> Humanise(name)[i] == HumanisedAt(name, i)
  {
    var spaced := ReplaceChar(name, '_', ' ');
    TitleSpec(spaced);
    var r := Humanise(name);
    forall i | 0 <= i < |r| ensures r[i] != '_' {
      assert r[i] == TitleCharAt(spaced, i);
    }
  }

  /** The pointwise meaning of humanising, for one position. */
  function HumanisedAt(name: string, i: nat): char
    requires i < |name|
  {
    if name[i] == '_' then ' '
    else if !IsCased(name[i]) then name[i]
    else if i > 0 && IsCased(name[i - 1]) then ToLower(name[i])
    else ToUpper(name[i])
  }

  /** Humanising a humanised label changes nothing. */
  lemma HumaniseIdempotent(name: string)
    ensures Humanise(Humanise(name)) == Humanise(name)
  {
    var h := Humanise(name);
    HumaniseSpec(name);
    HumaniseSpec(h);
    forall i | 0 <= i < |h| ensures Humanise(h)[i] == h[i] {
      assert h[i] == HumanisedAt(name, i);
      assert Humanise(h)[i] == HumanisedAt(h, i);
      if i > 0 {
        assert h[i - 1] == HumanisedAt(name, i - 1);
      }
    }
  }

  /** An underscore is a word break: the words on either side are humanised separately. */
  lemma HumaniseSplit(a: string, b: string)
    requires b != []
    ensures Humanise(a + "_" + b) == Humanise(a) + " " + Humanise(b)
  {
    var s := a + "_" + b;
    HumaniseSpec(s);
    HumaniseSpec(a);
    HumaniseSpec(b);
    var r := Humanise(a) + " " + Humanise(b);
    forall i | 0 <= i < |s| ensures Humanise(s)[i] == r[i] {
      assert Humanise(s)[i] == HumanisedAt(s, i);
      if i < |a| {
        assert s[i] == a[i] && (i > 0 ==> s[i - 1] == a[i - 1]);
        assert r[i] == Humanise(a)[i] == HumanisedAt(a, i);
      } else if i > |a| {
        var k := i - |a| - 1;
        assert s[i] == b[k] && s[i - 1] == (if k == 0 then '_' else b[k - 1]);
        assert r[i] == Humanise(b)[k] == HumanisedAt(b, k);
      }
    }
  }

  /** `sep.join(words)`. */
  function JoinWith(words: seq<string>, sep: char): (r: string)
    decreases |words|
  {
    if words == [] then []
    else if |words| == 1 then words[0]
    else words[0] + [sep] + JoinWith(words[1..], sep)
  }

  /** A word with its first letter in upper case. */
  function Capitalise(w: string): string {
    if w == [] then [] else [ToUpper(w[0])] + w[1..]
  }

  /** Every word capitalised. */
  function CapitaliseAll(words: seq<string>): (r: seq<string>)
    ensures |r| == |words| && forall k :: 0 <= k < |words| ==> r[k] == Capitalise(words[k])
  {
    seq(|words|, k requires 0 <= k < |words| => Capitalise(words[k]))
  }

  predicate LowerWord(w: string) {
    w != [] && forall i :: 0 <= i < |w| ==> IsLower(w[i])
  }

  /** A lower-case word is capitalised. */
  lemma HumaniseWord(w: string)
    requires LowerWord(w)
    ensures Humanise(w) == Capitalise(w)
  {
    HumaniseSpec(w);
    var c := Capitalise(w);
    forall i | 0 <= i < |w| ensures Humanise(w)[i] == c[i] {
      assert Humanise(w)[i] == HumanisedAt(w, i);
      if i > 0 {
        assert c[i] == w[i];
      }
    }
  }

  /** Humanising lower-case words joined by `_` capitalises each and joins them by spaces. */
  lemma {:induction false} HumaniseJoin(words: seq<string>)
    requires forall k :: 0 <= k < |words| ==> LowerWord(words[k])
    ensures Humanise(JoinWith(words, '_'))
         == JoinWith(CapitaliseAll(words), ' ')
    decreases |words|
  {
    var caps := CapitaliseAll(words);
    if words == [] {
      HumaniseSpec([]);
    } else if |words| == 1 {
      HumaniseWord(words[0]);
    } else {
      var tail := words[1..];
      HumaniseJoin(tail);
      var rest := JoinWith(tail, '_');
      assert rest != [] by {
        assert tail[0] != [];
        if |tail| > 1 {
          assert rest == tail[0] + "_" + JoinWith(tail[1..], '_');
        }
      }
      HumaniseWord(words[0]);
      HumaniseSplit(words[0], rest);
      assert caps[1..] == CapitaliseAll(tail);
    }
  }

  /**
   * A snake_case column name made of lower-case words is shown as those
   * words, each capitalised, separated by single spaces.
   */
  lemma HumaniseSnakeCase(words: seq<string>, name: string, shown: string)
    requires forall k :: 0 <= k < |words| ==> LowerWord(words[k])
    requires name == JoinWith(words, '_')
    requires shown == JoinWith(CapitaliseAll(words), ' ')
    ensures Humanise(name) == shown
  {
    HumaniseJoin(words);
  }

}
