/**
 * The test playlist the tool writes for a pull request or build: created
 * lazily when the first new failed test is met, one property line per
 * distinct test name in first-seen order, closed with the footer at the
 * end; and the file name built from the pull request number and the
 * build number.
 */
module Playlist {
  import opened Wrappers
  import opened Text
  import opened SeenOrder
  import Args

  /** A line of a playlist file; Render gives its text. */
  datatype Line =
    | Header
    | TestProperty(testName: string)
    | ClassProperty(className: string)
    | Footer

  const PropertyOpen := "<Property Name=\""
  const ValueOpen := "\" Value=\""
  const PropertyEnd := "\" />"
  const HeaderText := "<Playlist Version=\"2.0\"><Rule Match=\"Any\">"
  const FooterText := "</Rule></Playlist>"

  /** The text written for a line; names are written as they are, without escaping. */
  function Render(line: Line): (r: string)
    ensures |r| > 1 && r[0] == '<' && r[|r| - 1] == '>'
  {
    match line
    case Header => HeaderText
    case TestProperty(name) => PropertyOpen + "TestWithNormalizedFullyQualifiedName" + ValueOpen + name + PropertyEnd
    case ClassProperty(name) => PropertyOpen + "Class" + ValueOpen + name + PropertyEnd
    case Footer => FooterText
  }

  /** Two property lines with the same start are equal only for the same value. */
  lemma PropertyValueUnique(start: string, a: string, b: string)
    requires start + a + PropertyEnd == start + b + PropertyEnd
    ensures a == b
  {
    var x := start + a + PropertyEnd;
    assert |a| == |b|;
    assert a == x[|start|..|start| + |a|];
    assert b == x[|start|..|start| + |b|];
  }

  /** A property line starts with the property opening and then its tag. */
  lemma PropertyPrefix(tag: string, value: string)
    requires tag != []
    ensures var t := PropertyOpen + tag + ValueOpen + value + PropertyEnd;
      |t| > |PropertyOpen| && t[1] == 'P' && t[2] == 'r' && t[|PropertyOpen|] == tag[0]
  {
    var t := PropertyOpen + tag + ValueOpen + value + PropertyEnd;
    assert t == PropertyOpen + (tag + ValueOpen + value + PropertyEnd);
  }

  /** The characters that tell the kinds of line apart: the second and third, and the one after the property's opening. */
  lemma RenderSignature(line: Line)
    ensures |Render(line)| > |PropertyOpen|
    ensures line.Header? ==> Render(line)[1] == 'P' && Render(line)[2] == 'l'
    ensures line.Footer? ==> Render(line)[1] == '/' && Render(line)[2] == 'R'
    ensures line.TestProperty? ==> Render(line)[1] == 'P' && Render(line)[2] == 'r' && Render(line)[|PropertyOpen|] == 'T'
    ensures line.ClassProperty? ==> Render(line)[1] == 'P' && Render(line)[2] == 'r' && Render(line)[|PropertyOpen|] == 'C'
  {
    match line
    case Header => assert |HeaderText| > |PropertyOpen| && HeaderText[1] == 'P' && HeaderText[2] == 'l';
    case Footer => assert |FooterText| > |PropertyOpen| && FooterText[1] == '/' && FooterText[2] == 'R';
    case TestProperty(n) => PropertyPrefix("TestWithNormalizedFullyQualifiedName", n);
    case ClassProperty(n) => PropertyPrefix("Class", n);
  }

  /**
   * Different lines have different texts: the header, the footer and the
   * two kinds of property differ within their first characters, and a
   * property's value can be read back from its text.
   */
  lemma RenderInjective(a: Line, b: Line)
    ensures Render(a) == Render(b) <==> a == b
  {
    RenderSignature(a);
    RenderSignature(b);
    if a.TestProperty? && b.TestProperty? && Render(a) == Render(b) {
      PropertyValueUnique(PropertyOpen + "TestWithNormalizedFullyQualifiedName" + ValueOpen, a.testName, b.testName);
    }
    if a.ClassProperty? && b.ClassProperty? && Render(a) == Render(b) {
      PropertyValueUnique(PropertyOpen + "Class" + ValueOpen, a.className, b.className);
    }
  }

  /** The text of a file, line by line. */
  function RenderAll(lines: seq<Line>): (r: seq<string>)
    ensures |r| == |lines| && forall k :: 0 <= k < |lines| ==> r[k] == Render(lines[k])
  {
    if lines == [] then [] else [Render(lines[0])] + RenderAll(lines[1..])
  }

  /** Distinct lines are written as distinct texts. */
  lemma RenderAllDistinct(lines: seq<Line>)
    requires Distinct(lines)
    ensures Distinct(RenderAll(lines))
  {
    forall i, j | 0 <= i < j < |lines|
      ensures RenderAll(lines)[i] != RenderAll(lines)[j]
    {
      RenderInjective(lines[i], lines[j]);
    }
  }

  function TestProperties(names: seq<string>): (r: seq<Line>)
    ensures |r| == |names| && forall k :: 0 <= k < |names| ==> r[k] == TestProperty(names[k])
  {
    if names == [] then [] else [TestProperty(names[0])] + TestProperties(names[1..])
  }

  function ClassProperties(names: seq<string>): (r: seq<Line>)
    ensures |r| == |names| && forall k :: 0 <= k < |names| ==> r[k] == ClassProperty(names[k])
  {
    if names == [] then [] else [ClassProperty(names[0])] + ClassProperties(names[1..])
  }

  lemma ClassPropertiesAppend(classes: seq<string>, c: string)
    ensures ClassProperties(classes + [c]) == ClassProperties(classes) + [ClassProperty(c)]
  {
    assert forall k :: 0 <= k < |classes| ==> (classes + [c])[k] == classes[k];
  }

  /**
   * The lines written while the playlist is open, as the writer produces
   * them name by name: a name already seen writes nothing; a new name
   * writes its line, after creating the file with the header if this is
   * the first.
   */
  function OpenLines(names: seq<string>): (r: seq<Line>)
    ensures r == [] <==> names == []
    ensures r != [] ==> r[0] == Header
    ensures |r| <= |names| + 1
  {
    if names == [] then []
    else
      var front := names[..|names| - 1];
      var name := names[|names| - 1];
      if name in front then OpenLines(front)
      else (if front == [] then [Header] else OpenLines(front)) + [TestProperty(name)]
  }

  lemma TestPropertiesAppend(names: seq<string>, name: string)
    ensures TestProperties(names + [name]) == TestProperties(names) + [TestProperty(name)]
  {
    assert forall k :: 0 <= k < |names| ==> (names + [name])[k] == names[k];
  }

  /** What the writer has written once it has met some name: the header and one line per distinct name, in first-seen order. */
  lemma {:induction false} OpenLinesDedup(names: seq<string>)
    ensures OpenLines(names) == if names == [] then [] else [Header] + TestProperties(Dedup(names))
  {
    if names != [] {
      var front := names[..|names| - 1];
      var name := names[|names| - 1];
      assert names == front + [name];
      OpenLinesDedup(front);
      if name in front {
        DedupSeen(front, name);
      } else {
        DedupNew(front, name);
        TestPropertiesAppend(Dedup(front), name);
      }
    }
  }

  /** The lines of the finished playlist for the test names met, in order; no file at all when there were none. */
  function PlaylistLines(names: seq<string>): (r: seq<Line>)
    ensures r == [] <==> names == []
    ensures r != [] ==> r[0] == Header && r[|r| - 1] == Footer && |r| <= |names| + 2
  {
    if names == [] then [] else OpenLines(names) + [Footer]
  }

  /** A playlist is written exactly when some failed test was found, framed by the header and the footer with one line per distinct name. */
  lemma PlaylistFrame(names: seq<string>)
    ensures PlaylistLines(names) == [] <==> names == []
    ensures names != [] ==>
      && PlaylistLines(names)[0] == Header
      && PlaylistLines(names)[|PlaylistLines(names)| - 1] == Footer
      && |PlaylistLines(names)| == |Elements(names)| + 2
  {
    OpenLinesDedup(names);
    if names != [] {
      DedupCard(names);
    }
  }

  /** Distinct names give distinct test lines. */
  lemma TestPropertiesDistinct(names: seq<string>)
    requires Distinct(names)
    ensures Distinct(TestProperties(names))
  {
    var r := TestProperties(names);
    forall i, j | 0 <= i < j < |r|
      ensures r[i] != r[j]
    {
      assert r[i].testName == names[i] && r[j].testName == names[j];
    }
  }

  /** No line of a playlist is written twice, neither as a line nor as text. */
  lemma PlaylistDistinct(names: seq<string>)
    ensures Distinct(PlaylistLines(names))
    ensures Distinct(RenderAll(PlaylistLines(names)))
  {
    OpenLinesDedup(names);
    if names != [] {
      var props := TestProperties(Dedup(names));
      DedupIsDistinct(names);
      TestPropertiesDistinct(Dedup(names));
      var lines := [Header] + props + [Footer];
      assert PlaylistLines(names) == lines;
      forall i, j | 0 <= i < j < |lines|
        ensures lines[i] != lines[j]
      {
        if 0 < i && j < |lines| - 1 {
          assert lines[i] == props[i - 1] && lines[j] == props[j - 1];
        }
      }
    }
    RenderAllDistinct(PlaylistLines(names));
  }

  /** The playlist selects a test exactly when the test was found failing. */
  lemma PlaylistSelects(names: seq<string>, n: string)
    ensures TestProperty(n) in PlaylistLines(names) <==> n in names
  {
    OpenLinesDedup(names);
    DedupMember(names, n);
    if names != [] {
      var d := Dedup(names);
      var lines := [Header] + TestProperties(d) + [Footer];
      assert PlaylistLines(names) == lines;
      if n in d {
        var k :| 0 <= k < |d| && d[k] == n;
        assert lines[k + 1] == TestProperty(n);
      }
      if TestProperty(n) in lines {
        var k :| 0 <= k < |lines| && lines[k] == TestProperty(n);
        assert d[k - 1] == n;
      }
    }
  }

  /** A build as the build service returns it. */
  datatype Build = Build(id: int, buildNumber: string)

  /**
   * Which build the number names: the first build the service returns for
   * the pull request's merge branch when there is one, with the number and '-' as file-name
   * prefix; otherwise the build with that id, with no prefix; None when
   * neither exists ("Build not found.").
   */
  function ResolveBuild(num: nat, pullRequestBuilds: seq<Build>, buildWithId: Option<Build>): (r: Option<(Build, string)>)
    ensures r.None? <==> pullRequestBuilds == [] && buildWithId.None?
    ensures pullRequestBuilds != [] ==> r.value.0 == pullRequestBuilds[0]
    ensures pullRequestBuilds == [] && buildWithId.Some? ==> r.value.0 == buildWithId.value && r.value.1 == ""
  {
    if pullRequestBuilds != [] then Some((pullRequestBuilds[0], Decimal(num) + "-"))
    else match buildWithId
      case Some(b) => Some((b, ""))
      case None => None
  }

  function PlaylistFileName(prefix: string, buildNumber: string): string
  {
    prefix + buildNumber + ".playlist"
  }

  /**
   * A playlist named after a pull request is "<num>-<build number>.playlist",
   * its leading digits reading back as the number that was given.
   */
  lemma PullRequestFileName(num: nat, pullRequestBuilds: seq<Build>, buildWithId: Option<Build>)
    requires num <= Args.Int32Max && pullRequestBuilds != []
    ensures
      var (build, prefix) := ResolveBuild(num, pullRequestBuilds, buildWithId).value;
      var name := PlaylistFileName(prefix, build.buildNumber);
      && |Decimal(num)| < |name|
      && Args.ParseInt32(name[..|Decimal(num)|]) == Some(num as int)
      && name[|Decimal(num)|] == '-'
      && name[|Decimal(num)| + 1..] == build.buildNumber + ".playlist"
  {
    var d := Decimal(num);
    var bn := pullRequestBuilds[0].buildNumber;
    var name := d + "-" + bn + ".playlist";
    assert name == d + ("-" + (bn + ".playlist"));
    assert name[..|d|] == d;
    assert name[|d| + 1..] == bn + ".playlist";
    Args.ParseDecimal(num);
  }

  /**
   * The playlist writer of the pull-request mode: the seen-name set, the
   * writer that is null until the first new name, and the lines written so
   * far. offered is every name handed to Add, in order.
   */
  class PlaylistWriter {
    const fileName: string
    var seen: set<string>
    var created: bool
    var lines: seq<Line>
    var finished: bool
    ghost var offered: seq<string>

    ghost predicate Valid()
      reads this
    {
      && seen == Elements(offered)
      && created == (offered != [])
      && lines == (if finished then PlaylistLines(offered) else OpenLines(offered))
    }

    constructor(fileName: string)
      ensures Valid() && this.fileName == fileName
      ensures offered == [] && !created && !finished && lines == []
    {
      this.fileName := fileName;
      seen := {};
      created := false;
      lines := [];
      finished := false;
      offered := [];
    }

    /**
     * seenTestNames.Add(name) and, when the name is new, the header on the
     * first occasion and the name's property line.
     */
    method Add(name: string) returns (added: bool)
      requires Valid() && !finished
      modifies this
      ensures Valid() && !finished
      ensures offered == old(offered) + [name]
      ensures added == (name !in old(seen))
      ensures lines == if added then (if old(created) then old(lines) else [Header]) + [TestProperty(name)] else old(lines)
    {
      added := name !in seen;
      ElementsMember(offered, name);
      ElementsAppend(offered, name);
      assert (offered + [name])[..|offered|] == offered;
      if added {
        seen := seen + {name};
        if !created {
          created := true;
          lines := [Header];
        }
        lines := lines + [TestProperty(name)];
      }
      offered := offered + [name];
    }

    /** The footer, written only when the file was created. */
    method Finish() returns (file: Option<PlaylistFile>)
      requires Valid() && !finished
      modifies this
      ensures Valid() && finished && offered == old(offered)
      ensures lines == PlaylistLines(offered)
      ensures file == if offered == [] then None else Some(PlaylistFile(fileName, PlaylistLines(offered)))
    {
      finished := true;
      if created {
        lines := lines + [Footer];
        file := Some(PlaylistFile(fileName, lines));
      } else {
        file := None;
      }
    }
  }

  /** A written playlist file: its name and its lines. */
  datatype PlaylistFile = PlaylistFile(fileName: string, lines: seq<Line>)
}
