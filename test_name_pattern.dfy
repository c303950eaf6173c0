/**
 * Helpers.TestNamePattern, "^\[[^]]+\]\s+([^(\r\n]+).* \[FAIL\]\r?$" with
 * RegexOptions.Multiline, and the Matches scan over a failure log.
 *
 * A match starts at a line start with '[', runs to the first ']' (at least
 * one character in between, which may include line breaks), takes at least
 * one \s character, then the group: characters other than '(', '\r' and
 * '\n'; then anything up to " [FAIL]", an optional '\r', and the end of a
 * line. The backtracking engine prefers the longest \s run and then the
 * longest group, so the group starts at the first non-\s character when a
 * line allows it and stops at the first '(' or where " [FAIL]" begins.
 */
module TestNamePattern {
  import opened Wrappers
  import opened Text

  const FailMarker := " [FAIL]"

  /** " [FAIL]" stands at f, checked character by character. */
  predicate MarkerAt(s: string, f: nat)
  {
    && f + 7 <= |s|
    && s[f] == ' ' && s[f + 1] == '[' && s[f + 2] == 'F' && s[f + 3] == 'A'
    && s[f + 4] == 'I' && s[f + 5] == 'L' && s[f + 6] == ']'
  }

  /** '^' under RegexOptions.Multiline. */
  predicate AtLineStart(s: string, p: nat) { p <= |s| && (p == 0 || s[p - 1] == '\n') }

  /** '$' under RegexOptions.Multiline. */
  predicate AtLineEnd(s: string, e: nat) { e <= |s| && (e == |s| || s[e] == '\n') }

  /** The class [^(\r\n] of the capture group. */
  predicate IsNameChar(c: char) { c != '(' && c != '\r' && c != '\n' }

  /** Index of the first ']' at or after i, or |s| when there is none. */
  function BracketEnd(s: string, i: nat): (r: nat)
    requires i <= |s|
    ensures i <= r <= |s|
    ensures forall k :: i <= k < r ==> s[k] != ']'
    ensures r < |s| ==> s[r] == ']'
    decreases |s| - i
  {
    if i == |s| || s[i] == ']' then i else BracketEnd(s, i + 1)
  }

  /** The end of the run of \s characters that starts at i. */
  function SpaceEnd(s: string, i: nat): (r: nat)
    requires i <= |s|
    ensures i <= r <= |s|
    ensures forall k :: i <= k < r ==> IsRegexSpace(s[k])
    ensures r < |s| ==> !IsRegexSpace(s[r])
    decreases |s| - i
  {
    if i == |s| || !IsRegexSpace(s[i]) then i else SpaceEnd(s, i + 1)
  }

  /** The end of the run of group characters that starts at i. */
  function NameEnd(s: string, i: nat): (r: nat)
    requires i <= |s|
    ensures i <= r <= |s|
    ensures forall k :: i <= k < r ==> IsNameChar(s[k])
    ensures r < |s| ==> !IsNameChar(s[r])
    decreases |s| - i
  {
    if i == |s| || !IsNameChar(s[i]) then i else NameEnd(s, i + 1)
  }

  /**
   * One way the pattern can match s from p to e: ']' at b, the \s run
   * (b, q), the group [q, g), ".*" over [g, f), " [FAIL]" at f and '\r'
   * before e when e is f + 8.
   */
  ghost predicate Decomposition(s: string, p: nat, b: nat, q: nat, g: nat, f: nat, e: nat)
  {
    && p + 1 < b && b + 1 < q && q < g <= f && f + |FailMarker| <= e <= |s|
    && AtLineStart(s, p) && s[p] == '['
    && (forall k :: p < k < b ==> s[k] != ']') && s[b] == ']'
    && (forall k :: b < k < q ==> IsRegexSpace(s[k]))
    && (forall k :: q <= k < g ==> IsNameChar(s[k]))
    && (forall k :: g <= k < f ==> s[k] != '\n')
    && MarkerAt(s, f)
    && (e == f + |FailMarker| || (e == f + |FailMarker| + 1 && s[e - 1] == '\r'))
    && AtLineEnd(s, e)
  }

  ghost predicate NoMatchAt(s: string, p: nat)
  {
    forall b: nat, q: nat, g: nat, f: nat, e: nat :: !Decomposition(s, p, b, q, g, f, e)
  }

  /** m records the decomposition with ']' at b and " [FAIL]" at f. */
  ghost predicate DecomposesAs(s: string, m: Match, b: nat, f: nat)
  {
    Decomposition(s, m.index, b, m.groupIndex, m.groupIndex + |m.group|, f, m.end)
  }

  /** m is a match of the pattern in s, its group being s[m.groupIndex..] of length |m.group|. */
  ghost predicate IsMatch(s: string, m: Match)
  {
    && m.index < m.groupIndex < m.groupIndex + |m.group| < m.end <= |s|
    && m.group == s[m.groupIndex..m.groupIndex + |m.group|]
    && exists b: nat, f: nat :: DecomposesAs(s, m, b, f)
  }

  /** m is the decomposition the backtracking engine reaches first: the longest \s run, then the longest group. */
  ghost predicate Preferred(s: string, m: Match)
  {
    forall b: nat, q: nat, g: nat, f: nat, e: nat :: Decomposition(s, m.index, b, q, g, f, e) ==>
      q < m.groupIndex || (q == m.groupIndex && g <= m.groupIndex + |m.group|)
  }

  /** Where the group ends, where " [FAIL]" starts and where the match ends, for a group starting at q. */
  datatype Tail = Tail(g: nat, f: nat, e: nat)

  /**
   * Where " [FAIL]" starts when the line holding q ends with it, possibly
   * followed by '\r'; ".*" cannot pass the line end and '$' only holds there.
   */
  function MarkerStart(s: string, q: nat): (r: Option<nat>)
    requires q <= |s|
    ensures r.Some? ==> q <= r.value && r.value + |FailMarker| <= LineEnd(s, q)
  {
    var e := LineEnd(s, q);
    if q + 8 <= e && s[e - 1] == '\r' && MarkerAt(s, e - 8) then Some(e - 8)
    else if q + 7 <= e && MarkerAt(s, e - 7) then Some(e - 7)
    else None
  }

  /** The rest of the match once the group starts at q: the longest group that leaves room for " [FAIL]". */
  function TailAt(s: string, q: nat): (r: Option<Tail>)
    requires q <= |s|
    ensures r.Some? ==> q < r.value.g <= r.value.f && r.value.f + |FailMarker| <= r.value.e <= |s|
  {
    var e := LineEnd(s, q);
    match MarkerStart(s, q)
    case None => None
    case Some(f) =>
      var run := NameEnd(s, q);
      var g := if run < f then run else f;
      if q < g then Some(Tail(g, f, e)) else None
  }

  /** What TailAt finds is the group, ".*", " [FAIL]" and '\r' of a decomposition, ending at a line end. */
  lemma TailAtSound(s: string, q: nat)
    requires q <= |s| && TailAt(s, q).Some?
    ensures var t := TailAt(s, q).value;
      && (forall k :: q <= k < t.g ==> IsNameChar(s[k]))
      && (forall k :: t.g <= k < t.f ==> s[k] != '\n')
      && MarkerAt(s, t.f)
      && (t.e == t.f + |FailMarker| || (t.e == t.f + |FailMarker| + 1 && s[t.e - 1] == '\r'))
      && AtLineEnd(s, t.e)
  {
  }

  /** The \s+ backtracking: group starts q, q - 1, ..., b + 2 are tried in turn, and the first that TailAt accepts is taken. */
  function GroupStart(s: string, b: nat, q: nat): (r: Option<nat>)
    requires q <= |s|
    ensures r.Some? ==> b + 1 < r.value <= q && TailAt(s, r.value).Some?
    ensures r.Some? ==> forall q': nat :: r.value < q' <= q ==> TailAt(s, q').None?
    ensures r.None? ==> forall q': nat :: b + 1 < q' <= q ==> TailAt(s, q').None?
    decreases q
  {
    if q <= b + 1 then None
    else if TailAt(s, q).Some? then Some(q)
    else GroupStart(s, b, q - 1)
  }

  /** The attempt the engine makes at position p. */
  function MatchAt(s: string, p: nat): (r: Option<Match>)
    requires p <= |s|
    ensures r.Some? ==> r.value.index == p < r.value.end <= |s| && p < r.value.groupIndex
  {
    if p < |s| && AtLineStart(s, p) && s[p] == '[' then
      var b := BracketEnd(s, p + 1);
      if p + 1 < b < |s| then
        match GroupStart(s, b, SpaceEnd(s, b + 1))
        case Some(q) =>
          var t := TailAt(s, q).value;
          Some(Match(p, t.e, q, s[q..t.g]))
        case None => None
      else None
    else None
  }

  /** Any decomposition with its group at q lets TailAt succeed at q, with a group at least as long. */
  lemma TailAtComplete(s: string, p: nat, b: nat, q: nat, g: nat, f: nat, e: nat)
    requires Decomposition(s, p, b, q, g, f, e)
    ensures TailAt(s, q).Some? && TailAt(s, q).value.g >= g && TailAt(s, q).value.e == e
  {
    assert forall k :: q <= k < e ==> s[k] != '\n';
    assert LineEnd(s, q) == e;
    assert MarkerStart(s, q) == Some(f);
  }

  /** A decomposition at p fixes where the attempt at p finds ']', and its group starts within the \s run after it. */
  lemma AttemptReaches(s: string, p: nat, b: nat, q: nat, g: nat, f: nat, e: nat)
    requires Decomposition(s, p, b, q, g, f, e)
    ensures p < |s| && AtLineStart(s, p) && s[p] == '['
    ensures BracketEnd(s, p + 1) == b && p + 1 < b < |s|
    ensures b + 1 < q <= SpaceEnd(s, b + 1)
  {
  }

  /** A successful attempt at p has passed its tests at p: '[' at a line start, a ']' after it, and a group start. */
  lemma MatchAtPasses(s: string, p: nat)
    requires p <= |s| && MatchAt(s, p).Some?
    ensures p < |s| && AtLineStart(s, p) && s[p] == '['
    ensures p + 1 < BracketEnd(s, p + 1) < |s|
    ensures GroupStart(s, BracketEnd(s, p + 1), SpaceEnd(s, BracketEnd(s, p + 1) + 1)).Some?
  {
  }

  /** The attempt at p, once it has found ']' at b and the backtracking settles on the group start r. */
  lemma MatchAtSome(s: string, p: nat, b: nat, r: nat)
    requires p < |s| && AtLineStart(s, p) && s[p] == '['
    requires BracketEnd(s, p + 1) == b && p + 1 < b < |s|
    requires GroupStart(s, b, SpaceEnd(s, b + 1)) == Some(r)
    ensures MatchAt(s, p).Some? && MatchAt(s, p).value.index == p && MatchAt(s, p).value.groupIndex == r
    ensures MatchAt(s, p).value.end == TailAt(s, r).value.e
    ensures MatchAt(s, p).value.group == s[r..TailAt(s, r).value.g]
  {
  }

  /** The pieces the attempt finds form a decomposition. */
  lemma AttemptDecomposes(s: string, p: nat, b: nat, r: nat)
    requires p < |s| && AtLineStart(s, p) && s[p] == '['
    requires BracketEnd(s, p + 1) == b && p + 1 < b < |s|
    requires GroupStart(s, b, SpaceEnd(s, b + 1)) == Some(r)
    ensures var t := TailAt(s, r).value; Decomposition(s, p, b, r, t.g, t.f, t.e)
  {
    TailAtSound(s, r);
  }

  /** The attempt at p, once it has found ']' at b and TailAt accepts a group start q inside the \s run, succeeds as MatchAtComplete states. */
  lemma AttemptSucceeds(s: string, p: nat, b: nat, q: nat, g: nat)
    requires p < |s| && AtLineStart(s, p) && s[p] == '['
    requires BracketEnd(s, p + 1) == b && p + 1 < b < |s|
    requires b + 1 < q <= SpaceEnd(s, b + 1)
    requires TailAt(s, q).Some? && TailAt(s, q).value.g >= g
    ensures MatchAt(s, p).Some?
    ensures q < MatchAt(s, p).value.groupIndex
         || (q == MatchAt(s, p).value.groupIndex && g <= q + |MatchAt(s, p).value.group|)
  {
    var w := SpaceEnd(s, b + 1);
    GroupStartFinds(s, b, w, q);
    MatchAtSome(s, p, b, GroupStart(s, b, w).value);
  }

  /** Every decomposition at p makes the attempt at p succeed, with a group starting no earlier, or as early and ending no earlier. */
  lemma MatchAtComplete(s: string, p: nat, b: nat, q: nat, g: nat, f: nat, e: nat)
    requires Decomposition(s, p, b, q, g, f, e)
    ensures MatchAt(s, p).Some?
    ensures q < MatchAt(s, p).value.groupIndex
         || (q == MatchAt(s, p).value.groupIndex && g <= q + |MatchAt(s, p).value.group|)
  {
    AttemptReaches(s, p, b, q, g, f, e);
    TailAtComplete(s, p, b, q, g, f, e);
    AttemptSucceeds(s, p, b, q, g);
  }

  /** When TailAt accepts q, the backtracking from w down stops at q or at a later start. */
  lemma GroupStartFinds(s: string, b: nat, w: nat, q: nat)
    requires b + 1 < q <= w <= |s| && TailAt(s, q).Some?
    ensures GroupStart(s, b, w).Some? && q <= GroupStart(s, b, w).value
  {
  }

  /** A decomposition is a match, its group being the characters from its group start to its group end. */
  lemma DecompositionIsMatch(s: string, p: nat, b: nat, q: nat, g: nat, f: nat, e: nat)
    requires Decomposition(s, p, b, q, g, f, e)
    ensures IsMatch(s, Match(p, e, q, s[q..g]))
  {
    var m := Match(p, e, q, s[q..g]);
    assert m.groupIndex + |m.group| == g;
    assert DecomposesAs(s, m, b, f);
  }

  /** What the attempt at p yields is a match of the pattern starting at p. */
  lemma MatchAtSound(s: string, p: nat)
    requires p <= |s| && MatchAt(s, p).Some?
    ensures MatchAt(s, p).value.index == p && IsMatch(s, MatchAt(s, p).value)
  {
    MatchAtPasses(s, p);
    var b := BracketEnd(s, p + 1);
    var r := GroupStart(s, b, SpaceEnd(s, b + 1)).value;
    MatchAtSome(s, p, b, r);
    var t := TailAt(s, r).value;
    AttemptDecomposes(s, p, b, r);
    DecompositionIsMatch(s, p, b, r, t.g, t.f, t.e);
    assert MatchAt(s, p).value == Match(p, t.e, r, s[r..t.g]);
  }

  /** The attempt at p yields the decomposition the engine prefers. */
  lemma MatchAtPreferred(s: string, p: nat)
    requires p <= |s| && MatchAt(s, p).Some?
    ensures Preferred(s, MatchAt(s, p).value)
  {
    forall b: nat, q: nat, g: nat, f: nat, e: nat | Decomposition(s, p, b, q, g, f, e)
      ensures q < MatchAt(s, p).value.groupIndex
           || (q == MatchAt(s, p).value.groupIndex && g <= q + |MatchAt(s, p).value.group|)
    {
      MatchAtComplete(s, p, b, q, g, f, e);
    }
  }

  /** The attempt at p fails only where the pattern cannot match at p. */
  lemma MatchAtNone(s: string, p: nat)
    requires p <= |s| && MatchAt(s, p).None?
    ensures NoMatchAt(s, p)
  {
    forall b: nat, q: nat, g: nat, f: nat, e: nat | Decomposition(s, p, b, q, g, f, e)
      ensures false
    {
      MatchAtComplete(s, p, b, q, g, f, e);
    }
  }

  /** The leftmost match at or after i. */
  function FirstMatchFrom(s: string, i: nat): (r: Option<Match>)
    requires i <= |s|
    ensures r.Some? ==> i <= r.value.index < r.value.end <= |s|
    decreases |s| - i
  {
    match MatchAt(s, i)
    case Some(m) => Some(m)
    case None => if i == |s| then None else FirstMatchFrom(s, i + 1)
  }

  /** What FirstMatchFrom returns is the successful attempt at its own index. */
  lemma {:induction false} FirstMatchFromIsAttempt(s: string, i: nat)
    requires i <= |s| && FirstMatchFrom(s, i).Some?
    ensures MatchAt(s, FirstMatchFrom(s, i).value.index) == FirstMatchFrom(s, i)
    decreases |s| - i
  {
    if MatchAt(s, i).None? {
      FirstMatchFromIsAttempt(s, i + 1);
    }
  }

  /** No match of the pattern starts in [lo, hi). */
  ghost predicate NoMatchBetween(s: string, lo: nat, hi: nat)
  {
    forall p: nat :: lo <= p < hi ==> NoMatchAt(s, p)
  }

  lemma NoMatchBetweenExtend(s: string, lo: nat, hi: nat)
    requires NoMatchAt(s, lo) && NoMatchBetween(s, lo + 1, hi)
    ensures NoMatchBetween(s, lo, hi)
  {
  }

  /** A failed attempt at i < |s| passes the scan on to i + 1. */
  lemma FirstMatchFromSkips(s: string, i: nat)
    requires i < |s| && MatchAt(s, i).None?
    ensures FirstMatchFrom(s, i) == FirstMatchFrom(s, i + 1)
  {
  }

  /** Nothing before what FirstMatchFrom finds can match, and when it finds nothing, nothing from i on can. */
  lemma {:induction false} FirstMatchFromLeftmost(s: string, i: nat)
    requires i <= |s|
    ensures FirstMatchFrom(s, i).Some? ==> NoMatchBetween(s, i, FirstMatchFrom(s, i).value.index)
    ensures FirstMatchFrom(s, i).None? ==> NoMatchBetween(s, i, |s| + 1)
    decreases |s| - i
  {
    if MatchAt(s, i).None? {
      MatchAtNone(s, i);
      if i < |s| {
        FirstMatchFromLeftmost(s, i + 1);
        FirstMatchFromSkips(s, i);
        if FirstMatchFrom(s, i).Some? {
          NoMatchBetweenExtend(s, i, FirstMatchFrom(s, i).value.index);
        } else {
          NoMatchBetweenExtend(s, i, |s| + 1);
        }
      }
    }
  }

  /** Regex.Matches: each scan resumes where the previous match ended. */
  function MatchesFrom(s: string, i: nat): (r: seq<Match>)
    requires i <= |s|
    ensures forall k :: 0 <= k < |r| ==> i <= r[k].index < r[k].end <= |s|
    ensures forall k :: 0 < k < |r| ==> r[k - 1].end <= r[k].index
    decreases |s| - i
  {
    match FirstMatchFrom(s, i)
    case None => []
    case Some(m) =>
      var rest := MatchesFrom(s, m.end);
      assert forall k :: 0 < k < |rest| + 1 ==> ([m] + rest)[k] == rest[k - 1];
      [m] + rest
  }

  /** Every match of the scan is a match of the pattern, in the decomposition the engine prefers. */
  lemma {:induction false} MatchesArePreferred(s: string, i: nat)
    requires i <= |s|
    ensures forall m <- MatchesFrom(s, i) :: IsMatch(s, m) && Preferred(s, m)
    decreases |s| - i
  {
    match FirstMatchFrom(s, i)
    case None =>
    case Some(m) =>
      FirstMatchFromIsAttempt(s, i);
      MatchAtSound(s, m.index);
      MatchAtPreferred(s, m.index);
      MatchesArePreferred(s, m.end);
  }

  /** No match could start before the first of r (from i on), between two of them, or after the last. */
  ghost predicate SkipsNothing(s: string, i: nat, r: seq<Match>)
  {
    && (forall k :: 0 < k < |r| ==> NoMatchBetween(s, r[k - 1].end, r[k].index))
    && (r != [] ==> NoMatchBetween(s, i, r[0].index) && NoMatchBetween(s, r[|r| - 1].end, |s| + 1))
    && (r == [] ==> NoMatchBetween(s, i, |s| + 1))
  }

  /** Putting a match found from i, with nothing before it, in front of a scan from its end that skips nothing. */
  lemma ConsSkipsNothing(s: string, i: nat, m: Match, rest: seq<Match>)
    requires NoMatchBetween(s, i, m.index) && SkipsNothing(s, m.end, rest)
    ensures SkipsNothing(s, i, [m] + rest)
  {
    var r := [m] + rest;
    forall k | 0 < k < |r|
      ensures NoMatchBetween(s, r[k - 1].end, r[k].index)
    {
      if k > 1 {
        assert r[k - 1] == rest[k - 2] && r[k] == rest[k - 1];
      }
    }
  }

  /** The scan skips no position where a match could start: none before the first, none between two, none after the last. */
  lemma {:induction false} MatchesSkipNothing(s: string, i: nat)
    requires i <= |s|
    ensures SkipsNothing(s, i, MatchesFrom(s, i))
    decreases |s| - i
  {
    FirstMatchFromLeftmost(s, i);
    match FirstMatchFrom(s, i)
    case None =>
    case Some(m) =>
      MatchesSkipNothing(s, m.end);
      ConsSkipsNothing(s, i, m, MatchesFrom(s, m.end));
  }

  /** Groups[1].Value of each match, in order. */
  function Groups(ms: seq<Match>): (r: seq<string>)
    ensures |r| == |ms| && forall k :: 0 <= k < |ms| ==> r[k] == ms[k].group
  {
    if ms == [] then [] else [ms[0].group] + Groups(ms[1..])
  }

  /** The test names a failure log reports, in the order of their lines. */
  function TestNames(content: string): (r: seq<string>)
    ensures |r| == |MatchesFrom(content, 0)|
    ensures forall k :: 0 <= k < |r| ==> r[k] == MatchesFrom(content, 0)[k].group
  {
    Groups(MatchesFrom(content, 0))
  }

  /** A captured name is never empty and holds no '(' and no line-break character. */
  lemma GroupShape(s: string, m: Match)
    requires IsMatch(s, m)
    ensures m.group != [] && '(' !in m.group && '\r' !in m.group && '\n' !in m.group
  {
    var b: nat, f: nat :| DecomposesAs(s, m, b, f);
    assert forall k :: 0 <= k < |m.group| ==> m.group[k] == s[m.groupIndex + k];
  }

  lemma TestNamesShape(content: string)
    ensures forall name <- TestNames(content) :: name != [] && '(' !in name && '\r' !in name && '\n' !in name
  {
    var ms := MatchesFrom(content, 0);
    MatchesArePreferred(content, 0);
    forall k | 0 <= k < |ms|
      ensures ms[k].group != [] && '(' !in ms[k].group && '\r' !in ms[k].group && '\n' !in ms[k].group
    {
      assert ms[k] in ms;
      GroupShape(content, ms[k]);
    }
  }

  /** The conditions SingleLineMatches places on its line. */
  ghost predicate SingleLine(s: string, b0: nat, q0: nat, g0: nat)
  {
    && 1 < b0 && b0 + 1 < q0 < g0 && g0 + |FailMarker| <= |s|
    && (forall k :: 0 <= k < |s| ==> s[k] != '\n')
    && s[0] == '[' && s[b0] == ']' && (forall k :: 0 < k < b0 ==> s[k] != ']')
    && (forall k :: b0 < k < q0 ==> IsRegexSpace(s[k]))
    && !IsRegexSpace(s[q0]) && (forall k :: q0 <= k < g0 ==> IsNameChar(s[k]))
    && MarkerAt(s, |s| - |FailMarker|)
    && (g0 == |s| - |FailMarker| || s[g0] == '(')
  }

  /** The attempt at 0 on such a line finds ']' at b0, the group at q0 and " [FAIL]" at the end. */
  lemma SingleLineMatchAt(s: string, b0: nat, q0: nat, g0: nat)
    requires SingleLine(s, b0, q0, g0)
    ensures MatchAt(s, 0) == Some(Match(0, |s|, q0, s[q0..g0]))
  {
    assert BracketEnd(s, 1) == b0;
    assert SpaceEnd(s, b0 + 1) == q0;
    SingleLineTail(s, b0, q0, g0);
    assert GroupStart(s, b0, q0) == Some(q0);
  }

  /** On such a line the group starting at q0 ends at g0 and " [FAIL]" closes the line. */
  lemma SingleLineTail(s: string, b0: nat, q0: nat, g0: nat)
    requires SingleLine(s, b0, q0, g0)
    ensures TailAt(s, q0) == Some(Tail(g0, |s| - |FailMarker|, |s|))
  {
    var f0 := |s| - |FailMarker|;
    assert LineEnd(s, q0) == |s|;
    assert MarkerStart(s, q0) == Some(f0);
    var run := NameEnd(s, q0);
    assert run >= g0;
    assert g0 < f0 ==> run == g0;
  }

  /**
   * A line with no line break, '[' at 0, its first ']' at b0, white space up
   * to q0, a non-white name character at q0, name characters up to g0, where
   * either '(' or " [FAIL]" follows, and " [FAIL]" at its end, is matched
   * once, from its start to its end, with the group [q0, g0).
   */
  lemma SingleLineMatches(s: string, b0: nat, q0: nat, name: string)
    requires SingleLine(s, b0, q0, q0 + |name|) && s[q0..q0 + |name|] == name
    ensures TestNames(s) == [name]
  {
    SingleLineScan(s, b0, q0, q0 + |name|);
    assert MatchesFrom(s, 0)[0].group == name;
  }

  lemma SingleLineScan(s: string, b0: nat, q0: nat, g0: nat)
    requires SingleLine(s, b0, q0, g0)
    ensures MatchesFrom(s, 0) == [Match(0, |s|, q0, s[q0..g0])]
  {
    SingleLineMatchAt(s, b0, q0, g0);
    assert FirstMatchFrom(s, 0) == MatchAt(s, 0);
    assert FirstMatchFrom(s, |s|) == None;
  }

  /** The conditions SingleFailedTest places on the parts of its line. */
  ghost predicate FailedTestParts(tag: string, spaces: string, name: string, rest: string)
  {
    && tag != [] && ']' !in tag && '\n' !in tag
    && spaces != [] && '\n' !in spaces && (forall k :: 0 <= k < |spaces| ==> IsRegexSpace(spaces[k]))
    && name != [] && !IsRegexSpace(name[0]) && '(' !in name && '\r' !in name && '\n' !in name
    && (rest == [] || rest[0] == '(') && '\n' !in rest
  }

  /** The line assembled from such parts satisfies SingleLine, the name lying between q0 and g0. */
  lemma {:induction false} PartsFormSingleLine(tag: string, spaces: string, name: string, rest: string)
    requires FailedTestParts(tag, spaces, name, rest)
    ensures SingleLine("[" + tag + "]" + spaces + name + rest + FailMarker,
                       1 + |tag|, 2 + |tag| + |spaces|, 2 + |tag| + |spaces| + |name|)
    ensures ("[" + tag + "]" + spaces + name + rest + FailMarker)[2 + |tag| + |spaces|..2 + |tag| + |spaces| + |name|] == name
  {
    var s := "[" + tag + "]" + spaces + name + rest + FailMarker;
    var b0 := 1 + |tag|;
    var q0 := b0 + 1 + |spaces|;
    var g0 := q0 + |name|;
    var f0 := g0 + |rest|;
    assert |s| == f0 + |FailMarker|;
    assert s[0] == '[' && s[b0] == ']';
    assert forall k :: 0 < k < b0 ==> s[k] == tag[k - 1];
    assert forall k :: b0 < k < q0 ==> s[k] == spaces[k - b0 - 1];
    assert forall k :: q0 <= k < g0 ==> s[k] == name[k - q0];
    assert forall k :: g0 <= k < f0 ==> s[k] == rest[k - g0];
    assert s[f0..] == FailMarker;
    assert forall k :: f0 <= k < |s| ==> s[k] == FailMarker[k - f0];
    assert s[q0..g0] == name;
  }

  /**
   * A log holding one failed-test line, "[tag]", white space, the test name,
   * then either nothing or a parenthesised argument list and anything else,
   * then " [FAIL]", reports exactly that test name.
   */
  lemma SingleFailedTest(tag: string, spaces: string, name: string, rest: string)
    requires FailedTestParts(tag, spaces, name, rest)
    ensures TestNames("[" + tag + "]" + spaces + name + rest + FailMarker) == [name]
  {
    var s := "[" + tag + "]" + spaces + name + rest + FailMarker;
    var q0 := 2 + |tag| + |spaces|;
    PartsFormSingleLine(tag, spaces, name, rest);
    assert SingleLine(s, 1 + |tag|, q0, q0 + |name|) && s[q0..q0 + |name|] == name;
    SingleLineMatches(s, 1 + |tag|, q0, name);
  }

  /** The line the source's comment gives as an example reports the name before the parameters. */
  lemma SourceExample()
    ensures TestNames("[" + "xUnit.net 00:00:23.67" + "]" + "     " + "Some.Namespace.Test_Name"
                      + "(theory: \"parameters\")" + FailMarker) == ["Some.Namespace.Test_Name"]
  {
    ExampleTag();
    ExampleName();
    assert '\n' !in "(theory: \"parameters\")";
    assert forall k :: 0 <= k < |"     "| ==> "     "[k] == ' ';
    assert FailedTestParts("xUnit.net 00:00:23.67", "     ", "Some.Namespace.Test_Name", "(theory: \"parameters\")");
    SingleFailedTest("xUnit.net 00:00:23.67", "     ", "Some.Namespace.Test_Name", "(theory: \"parameters\")");
  }

  lemma ExampleTag()
    ensures ']' !in "xUnit.net 00:00:23.67" && '\n' !in "xUnit.net 00:00:23.67"
  {
  }

  lemma ExampleName()
    ensures '(' !in "Some.Namespace.Test_Name" && '\r' !in "Some.Namespace.Test_Name" && '\n' !in "Some.Namespace.Test_Name"
  {
  }
}
