/**
 * Helpers.FileNamePattern, "[/\\]([^/\\(]+)\(" with no options: the
 * leftmost '/' or '\' followed by one or more characters other than '/',
 * '\' and '(', and then '('; group 1 is those characters.
 */
module FileNamePattern {
  import opened Wrappers
  import opened Text

  predicate IsSeparator(c: char) { c == '/' || c == '\\' }

  predicate IsNameChar(c: char) { c != '/' && c != '\\' && c != '(' }

  /** The end of the run of name characters that starts at i. */
  function NameEnd(s: string, i: nat): (r: nat)
    requires i <= |s|
    ensures i <= r <= |s|
    ensures forall k :: i <= k < r ==> IsNameChar(s[k])
    ensures r < |s| ==> !IsNameChar(s[r])
    decreases |s| - i
  {
    if i == |s| || !IsNameChar(s[i]) then i else NameEnd(s, i + 1)
  }

  /** The pattern matches s at i, its group being s[i + 1..j] and its '(' at j. */
  ghost predicate MatchesAt(s: string, i: nat, j: nat)
  {
    && i + 1 < j < |s|
    && IsSeparator(s[i])
    && (forall k :: i < k < j ==> IsNameChar(s[k]))
    && s[j] == '('
  }

  ghost predicate IsMatch(s: string, m: Match)
  {
    && m.groupIndex == m.index + 1
    && m.end == m.groupIndex + |m.group| + 1
    && MatchesAt(s, m.index, m.end - 1)
    && m.group == s[m.groupIndex..m.end - 1]
  }

  /** An attempt at i: the character class takes its whole run, and a shorter run would leave a name character where '(' must be. */
  function MatchAt(s: string, i: nat): (r: Option<Match>)
    requires i <= |s|
    ensures r.Some? ==> r.value.index == i && IsMatch(s, r.value)
    ensures forall j: nat :: MatchesAt(s, i, j) ==> r == Some(Match(i, j + 1, i + 1, s[i + 1..j]))
  {
    if i < |s| && IsSeparator(s[i]) then
      var j := NameEnd(s, i + 1);
      if i + 1 < j < |s| && s[j] == '(' then Some(Match(i, j + 1, i + 1, s[i + 1..j])) else None
    else None
  }

  /** The leftmost match at or after i. */
  function FirstMatchFrom(s: string, i: nat): (r: Option<Match>)
    requires i <= |s|
    ensures r.Some? ==> i <= r.value.index && IsMatch(s, r.value)
    ensures r.Some? ==> forall j, k :: i <= j < r.value.index ==> !MatchesAt(s, j, k)
    ensures r.None? ==> forall j, k :: i <= j ==> !MatchesAt(s, j, k)
    decreases |s| - i
  {
    match MatchAt(s, i)
    case Some(m) => Some(m)
    case None => if i == |s| then None else FirstMatchFrom(s, i + 1)
  }

  /** m is the match Regex.Match returns: no match starts before it. */
  ghost predicate IsLeftmostMatch(s: string, m: Match)
  {
    IsMatch(s, m) && forall j: nat, k: nat :: j < m.index ==> !MatchesAt(s, j, k)
  }

  /** Groups[1].Value of FileNamePattern.Match(line), or None when the match fails. */
  function FileNameOf(line: string): (r: Option<string>)
    ensures r.Some? <==> exists j, k :: MatchesAt(line, j, k)
    ensures r.Some? ==> exists m :: IsMatch(line, m) && m.group == r.value
  {
    match FirstMatchFrom(line, 0)
    case Some(m) => Some(m.group)
    case None => None
  }

  /** The file name is group 1 of the leftmost match, the one Regex.Match returns. */
  lemma FileNameOfLeftmost(line: string)
    requires FileNameOf(line).Some?
    ensures exists m :: IsLeftmostMatch(line, m) && m.group == FileNameOf(line).value
  {
    var m := FirstMatchFrom(line, 0).value;
    assert IsLeftmostMatch(line, m);
  }

  /**
   * In a path followed by '(' the file name captured is what follows the
   * last separator, as long as no '(' comes earlier: every earlier separator
   * is followed by a later one before any '('.
   */
  lemma {:induction false} LastPathComponent(dir: string, sep: char, name: string, rest: string)
    requires '(' !in dir && IsSeparator(sep)
    requires name != [] && '/' !in name && '\\' !in name && '(' !in name
    ensures FileNameOf(dir + [sep] + name + "(" + rest) == Some(name)
  {
    var s := dir + [sep] + name + "(" + rest;
    var i0 := |dir|;
    var j0 := |dir| + 1 + |name|;
    assert s[i0] == sep && s[j0] == '(';
    assert forall k :: i0 < k < j0 ==> s[k] == name[k - i0 - 1] && IsNameChar(s[k]);
    assert s[i0 + 1..j0] == name;
    assert MatchesAt(s, i0, j0);
    forall j: nat, k: nat | j < i0
      ensures !MatchesAt(s, j, k)
    {
      if k < i0 {
        assert s[k] == dir[k];
      } else if k > i0 {
        assert !IsNameChar(s[i0]);
      }
    }
    var m := FirstMatchFrom(s, 0).value;
    assert m.index == i0;
    assert MatchAt(s, i0) == Some(Match(i0, j0 + 1, i0 + 1, name));
    assert MatchesAt(s, i0, m.end - 1);
  }

  /** The directory of the find-all-references line the source's comment gives. */
  const ExampleDirectory := "D:\\roslyn-C" + "\\src\\Compilers" + "\\CSharp\\Portable" + "\\Binder" + "\\Semantics" + "\\OverloadResolution"

  /** That line, with any text after the '('. */
  function ExampleLine(rest: string): string
  {
    ExampleDirectory + "\\" + "OverloadResolutionResult.cs" + "(" + rest
  }

  /** The example line yields the file name after the last backslash. */
  lemma SourceExample(rest: string)
    ensures FileNameOf(ExampleLine(rest)) == Some("OverloadResolutionResult.cs")
  {
    var name := "OverloadResolutionResult.cs";
    NoParenInExampleDirectory();
    assert "\\" == ['\\'];
    assert '/' !in name && '\\' !in name && '(' !in name;
    LastPathComponent(ExampleDirectory, '\\', name, rest);
  }

  lemma NoParenInExampleDirectory()
    ensures '(' !in ExampleDirectory
  {
    assert '(' !in "D:\\roslyn-C" && '(' !in "\\src\\Compilers" && '(' !in "\\CSharp\\Portable";
    assert '(' !in "\\Binder" && '(' !in "\\Semantics" && '(' !in "\\OverloadResolution";
  }
}
