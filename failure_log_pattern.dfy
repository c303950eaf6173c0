/**
 * Helpers.FailureLogPattern, "Failure log: (.+)$" with no options: the
 * leftmost "Failure log: " whose remainder is non-empty and holds no '\n',
 * except for one '\n' that ends the text. `.` is any character but '\n',
 * and `$` matches at the end of the text or just before a final '\n'.
 */
module FailureLogPattern {
  import opened Wrappers
  import opened Text

  const Prefix := "Failure log: "

  /** `$` without RegexOptions.Multiline. */
  predicate EndAnchor(s: string, e: nat)
  {
    e == |s| || (e + 1 == |s| && s[e] == '\n')
  }

  /** The pattern matches s at i, and group 1 is s[i + |Prefix|..g]. */
  ghost predicate MatchesAt(s: string, i: nat, g: nat)
  {
    && i + |Prefix| < g <= |s|
    && s[i..i + |Prefix|] == Prefix
    && (forall k :: i + |Prefix| <= k < g ==> s[k] != '\n')
    && EndAnchor(s, g)
  }

  /** m describes a match of the pattern in s. */
  ghost predicate IsMatch(s: string, m: Match)
  {
    && m.groupIndex == m.index + |Prefix|
    && m.end == m.groupIndex + |m.group|
    && MatchesAt(s, m.index, m.end)
    && m.group == s[m.groupIndex..m.end]
  }

  /** An attempt at position i: `.+` takes the rest of the line, and giving characters back cannot help `$`. */
  function MatchAt(s: string, i: nat): (r: Option<Match>)
    requires i <= |s|
    ensures r.Some? ==> r.value.index == i && IsMatch(s, r.value)
    ensures forall g: nat :: MatchesAt(s, i, g) ==> r == Some(Match(i, g, i + |Prefix|, s[i + |Prefix|..g]))
  {
    if i + |Prefix| <= |s| && s[i..i + |Prefix|] == Prefix then
      var start := i + |Prefix|;
      var g := LineEnd(s, start);
      if start < g && EndAnchor(s, g) then Some(Match(i, g, start, s[start..g])) else None
    else None
  }

  /** The leftmost match at or after i (Regex.Match scans start positions left to right). */
  function FirstMatchFrom(s: string, i: nat): (r: Option<Match>)
    requires i <= |s|
    ensures r.Some? ==> i <= r.value.index && IsMatch(s, r.value)
    ensures r.Some? ==> forall j, g :: i <= j < r.value.index ==> !MatchesAt(s, j, g)
    ensures r.None? ==> forall j, g :: i <= j ==> !MatchesAt(s, j, g)
    decreases |s| - i
  {
    match MatchAt(s, i)
    case Some(m) => Some(m)
    case None => if i == |s| then None else FirstMatchFrom(s, i + 1)
  }

  /** m is the match Regex.Match returns: no match starts before it. */
  ghost predicate IsLeftmostMatch(s: string, m: Match)
  {
    IsMatch(s, m) && forall j: nat, g: nat :: j < m.index ==> !MatchesAt(s, j, g)
  }

  /** Groups[1].Value of FailureLogPattern.Match(message), or None when the match fails. */
  function FailureLogUrl(message: string): (r: Option<string>)
    ensures r.Some? ==> r.value != [] && '\n' !in r.value
    ensures r.None? ==> forall j, g :: !MatchesAt(message, j, g)
  {
    match FirstMatchFrom(message, 0)
    case Some(m) =>
      MatchShape(message, m.index, m.end);
      Some(m.group)
    case None => None
  }

  /** The URL is group 1 of the leftmost match, the one Regex.Match returns. */
  lemma FailureLogUrlLeftmost(message: string)
    requires FailureLogUrl(message).Some?
    ensures exists m :: IsLeftmostMatch(message, m) && m.group == FailureLogUrl(message).value
  {
    var m := FirstMatchFrom(message, 0).value;
    assert IsLeftmostMatch(message, m);
  }

  predicate EndsWith(s: string, t: string)
  {
    |t| <= |s| && s[|s| - |t|..] == t
  }

  /** The group of a match at i ending at g is non-empty, holds no '\n', and ends the text after the prefix, but for one final '\n'. */
  lemma MatchShape(s: string, i: nat, g: nat)
    requires MatchesAt(s, i, g)
    ensures s[i + |Prefix|..g] != [] && '\n' !in s[i + |Prefix|..g]
    ensures EndsWith(s, Prefix + s[i + |Prefix|..g]) || EndsWith(s, Prefix + s[i + |Prefix|..g] + "\n")
  {
    var url := s[i + |Prefix|..g];
    forall k | 0 <= k < |url|
      ensures url[k] != '\n'
    {
      assert url[k] == s[i + |Prefix| + k];
    }
    SliceConcat(s, i, i + |Prefix|, g);
    assert s[i..g] == Prefix + url;
    if g == |s| {
      assert s[|s| - |Prefix + url|..] == s[i..g];
    } else {
      SliceConcat(s, i, g, |s|);
      assert s[g..] == "\n";
      assert s[|s| - |Prefix + url + "\n"|..] == s[i..];
    }
  }

  /** A captured URL is non-empty, holds no '\n', and is the whole rest of the message after "Failure log: ", but for one final '\n'. */
  lemma UrlShape(message: string, url: string)
    requires FailureLogUrl(message) == Some(url)
    ensures url != [] && '\n' !in url
    ensures EndsWith(message, Prefix + url) || EndsWith(message, Prefix + url + "\n")
  {
    var m := FirstMatchFrom(message, 0).value;
    assert IsMatch(message, m) && url == m.group;
    MatchShape(message, m.index, m.end);
  }

  /** No match starts before a '\n' at i0 - 1 that is not the last character: the match would have to cross it. */
  lemma NoMatchAcrossLineBreak(s: string, i0: nat)
    requires 0 < i0 < |s| && s[i0 - 1] == '\n'
    ensures forall j: nat, g: nat :: j < i0 ==> !MatchesAt(s, j, g)
  {
    forall j: nat, g: nat | j < i0
      ensures !MatchesAt(s, j, g)
    {
      if i0 - 1 < j + |Prefix| <= |s| {
        assert s[j..j + |Prefix|][i0 - 1 - j] == '\n';
      }
    }
  }

  /**
   * When "Failure log: <url>" opens the message or follows a '\n', and is
   * followed by nothing or by one final '\n', the URL captured is exactly
   * <url>: no earlier position can match, as any attempt there would have to
   * cross the '\n'.
   */
  lemma {:induction false} UrlAfterLine(lead: string, url: string, tail: string)
    requires lead == [] || lead[|lead| - 1] == '\n'
    requires url != [] && '\n' !in url
    requires tail == [] || tail == "\n"
    ensures FailureLogUrl(lead + Prefix + url + tail) == Some(url)
  {
    var s := lead + Prefix + url + tail;
    var i0 := |lead|;
    var g0 := i0 + |Prefix| + |url|;
    assert s[i0..i0 + |Prefix|] == Prefix;
    assert s[i0 + |Prefix|..g0] == url;
    assert forall k :: i0 + |Prefix| <= k < g0 ==> s[k] == url[k - i0 - |Prefix|];
    assert MatchesAt(s, i0, g0);
    if i0 > 0 {
      NoMatchAcrossLineBreak(s, i0);
    }
    var r := FirstMatchFrom(s, 0);
    assert r.Some? && r.value.index == i0;
    assert MatchAt(s, i0) == Some(Match(i0, g0, i0 + |Prefix|, url));
    assert MatchesAt(s, i0, r.value.end);
  }

  /** The message format the source's comment gives: the URL on the line after the work-item line. */
  lemma SourceExample()
    ensures FailureLogUrl("Work item workitem_0 in job <GUID> has failed.\n" + Prefix + "https://helix.dot.net/api/.../console")
         == Some("https://helix.dot.net/api/.../console")
  {
    UrlAfterLine("Work item workitem_0 in job <GUID> has failed.\n", "https://helix.dot.net/api/.../console", "");
    assert "Work item workitem_0 in job <GUID> has failed.\n" + Prefix + "https://helix.dot.net/api/.../console" + ""
        == "Work item workitem_0 in job <GUID> has failed.\n" + Prefix + "https://helix.dot.net/api/.../console";
  }

  /** This pattern is bounded by the end of the text only, so a bracketed project suffix stays in the capture. */
  lemma BracketSuffixKept()
    ensures FailureLogUrl(Prefix + "https://example/foo [D:\\a\\1\\s\\x.csproj]")
         == Some("https://example/foo [D:\\a\\1\\s\\x.csproj]")
  {
    UrlAfterLine("", "https://example/foo [D:\\a\\1\\s\\x.csproj]", "");
    assert "" + Prefix + "https://example/foo [D:\\a\\1\\s\\x.csproj]" + ""
        == Prefix + "https://example/foo [D:\\a\\1\\s\\x.csproj]";
  }
}
