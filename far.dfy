/**
 * processFar: the find-all-references mode. Every line read from the console
 * that names a source file ("<path>(<line>): ...") contributes the file name
 * once, however often it recurs, and the playlist selects the class named
 * like the file without its extension.
 */
module FindAllReferences {
  import opened Wrappers
  import opened SeenOrder
  import opened Playlist
  import FileNamePattern

  /** The index of the last '.' in s, or None when there is none. */
  function LastDot(s: string): (r: Option<nat>)
    ensures r.Some? ==> r.value < |s| && s[r.value] == '.' && '.' !in s[r.value + 1..]
    ensures r.None? ==> '.' !in s
  {
    if s == [] then None
    else if s[|s| - 1] == '.' then Some(|s| - 1)
    else
      var r := LastDot(s[..|s| - 1]);
      assert s == s[..|s| - 1] + [s[|s| - 1]];
      if r.Some? then
        assert s[r.value + 1..] == s[..|s| - 1][r.value + 1..] + [s[|s| - 1]];
        r
      else r
  }

  /**
   * Path.GetFileNameWithoutExtension on a name that holds no directory
   * separator: everything before the last '.', or the whole name when it
   * has none.
   */
  function StripExtension(fileName: string): (r: string)
    ensures r <= fileName
    ensures '.' !in fileName ==> r == fileName
  {
    match LastDot(fileName)
    case Some(i) => fileName[..i]
    case None => fileName
  }

  /** The extension after the last '.' is removed, and a name without '.' is kept whole. */
  lemma StripExtensionSpec(stem: string, ext: string)
    requires '.' !in ext
    ensures StripExtension(stem + "." + ext) == stem
    ensures '.' !in stem ==> StripExtension(stem) == stem
  {
    var s := stem + "." + ext;
    assert s[|stem|] == '.';
    assert s[|stem| + 1..] == ext;
  }

  /** The file names captured from the lines read, in reading order, repetitions included. */
  function FileNames(lines: seq<string>): (r: seq<string>)
  {
    if lines == [] then []
    else
      var front := FileNames(lines[..|lines| - 1]);
      match FileNamePattern.FileNameOf(lines[|lines| - 1])
      case Some(name) => front + [name]
      case None => front
  }

  /** GetFileNameWithoutExtension of each name. */
  function Stems(names: seq<string>): (r: seq<string>)
    ensures |r| == |names| && forall k :: 0 <= k < |names| ==> r[k] == StripExtension(names[k])
  {
    if names == [] then [] else [StripExtension(names[0])] + Stems(names[1..])
  }

  /**
   * The class lines written for the file names in reading order: a name
   * seen before writes nothing, a new one the line for its name without
   * extension.
   */
  function ClassLines(names: seq<string>): (r: seq<Line>)
  {
    if names == [] then []
    else
      var front := names[..|names| - 1];
      var name := names[|names| - 1];
      if name in front then ClassLines(front) else ClassLines(front) + [ClassProperty(StripExtension(name))]
  }

  /** The class lines are the stems of the distinct file names, in first-seen order. */
  lemma {:induction false} ClassLinesDedup(names: seq<string>)
    ensures ClassLines(names) == ClassProperties(Stems(Dedup(names)))
  {
    if names != [] {
      var front := names[..|names| - 1];
      var name := names[|names| - 1];
      ClassLinesDedup(front);
      if name !in front {
        StemsAppend(Dedup(front), name);
        ClassPropertiesAppend(Stems(Dedup(front)), StripExtension(name));
      }
    }
  }

  /** The playlist file, always written: the header, one class line per distinct file name, and the footer. */
  function FarLines(lines: seq<string>): (r: seq<Line>)
    ensures 2 <= |r|
    ensures r[0] == Header && r[|r| - 1] == Footer
  {
    [Header] + ClassLines(FileNames(lines)) + [Footer]
  }

  /** far-<timestamp>.playlist; the UTC time formatted as yyyyMMdd-HHmmss is a parameter. */
  function FarFileName(stamp: string): string
  {
    "far-" + stamp + ".playlist"
  }

  /** A line that names a file adds its file name after the others. */
  lemma FileNamesCaptured(lines: seq<string>, line: string, name: string)
    requires FileNamePattern.FileNameOf(line) == Some(name)
    ensures FileNames(lines + [line]) == FileNames(lines) + [name]
  {
    assert (lines + [line])[..|lines|] == lines;
  }

  /** A line that names no file adds nothing. */
  lemma FileNamesSkipped(lines: seq<string>, line: string)
    requires FileNamePattern.FileNameOf(line).None?
    ensures FileNames(lines + [line]) == FileNames(lines)
  {
    assert (lines + [line])[..|lines|] == lines;
  }

  lemma StemsAppend(names: seq<string>, name: string)
    ensures Stems(names + [name]) == Stems(names) + [StripExtension(name)]
  {
    assert forall k :: 0 <= k < |names| ==> (names + [name])[k] == names[k];
  }

  /** Regrouping a line appended after a fixed first line (keeps the header's literal out of the sequence reasoning). */
  lemma AppendAfterFirst(first: Line, lines: seq<Line>, line: Line)
    ensures [first] + (lines + [line]) == [first] + lines + [line]
  {
  }

  /**
   * processFar: the header first, then for each line read the file name it
   * captures, written once per distinct name, then the footer; exit code 0.
   */
  method ProcessFar(stamp: string, input: seq<string>) returns (file: PlaylistFile, code: int)
    ensures code == 0
    ensures file == PlaylistFile(FarFileName(stamp), FarLines(input))
  {
    var written := [Header];
    var seenFileNames: set<string> := {};
    ghost var names: seq<string> := [];
    var i := 0;
    while i < |input|
      invariant 0 <= i <= |input|
      invariant names == FileNames(input[..i])
      invariant seenFileNames == Elements(names)
      invariant written == [Header] + ClassLines(names)
    {
      assert input[..i + 1] == input[..i] + [input[i]];
      var captured := FileNamePattern.FileNameOf(input[i]);
      if captured.Some? {
        var fileName := captured.value;
        FileNamesCaptured(input[..i], input[i], fileName);
        ElementsAppend(names, fileName);
        ElementsMember(names, fileName);
        assert (names + [fileName])[..|names|] == names;
        if fileName !in seenFileNames {
          seenFileNames := seenFileNames + {fileName};
          AppendAfterFirst(Header, ClassLines(names), ClassProperty(StripExtension(fileName)));
          written := written + [ClassProperty(StripExtension(fileName))];
        }
        names := names + [fileName];
      } else {
        FileNamesSkipped(input[..i], input[i]);
      }
      i := i + 1;
    }
    assert input[..|input|] == input;
    written := written + [Footer];
    file := PlaylistFile(FarFileName(stamp), written);
    code := 0;
  }

  /**
   * The find-all-references playlist always exists and is framed by the
   * header and the footer, with one class line per distinct file name.
   */
  lemma FarFrame(lines: seq<string>)
    ensures FarLines(lines)[0] == Header
    ensures FarLines(lines)[|FarLines(lines)| - 1] == Footer
    ensures |FarLines(lines)| == |Elements(FileNames(lines))| + 2
  {
    ClassLinesDedup(FileNames(lines));
    DedupCard(FileNames(lines));
  }

  /** A class line is present exactly when its class is among the names. */
  lemma ClassPropertiesMember(classes: seq<string>, c: string)
    ensures ClassProperty(c) in ClassProperties(classes) <==> c in classes
  {
    if ClassProperty(c) in ClassProperties(classes) {
      var j :| 0 <= j < |classes| && ClassProperties(classes)[j] == ClassProperty(c);
    }
  }

  /** The stem of a name is listed exactly when the name was seen. */
  lemma StemsOfDedup(names: seq<string>, c: string)
    ensures c in Stems(Dedup(names)) <==> exists k :: 0 <= k < |names| && StripExtension(names[k]) == c
  {
    var d := Dedup(names);
    if c in Stems(d) {
      var j :| 0 <= j < |d| && Stems(d)[j] == c;
      DedupMember(names, d[j]);
      var k :| 0 <= k < |names| && names[k] == d[j];
    }
    if exists k :: 0 <= k < |names| && StripExtension(names[k]) == c {
      var k :| 0 <= k < |names| && StripExtension(names[k]) == c;
      DedupMember(names, names[k]);
      var j :| 0 <= j < |d| && d[j] == names[k];
      assert Stems(d)[j] == c;
    }
  }

  /** One of the file names has c as its name without extension. */
  ghost predicate HasStem(names: seq<string>, c: string)
  {
    exists k :: 0 <= k < |names| && StripExtension(names[k]) == c
  }

  /** The class lines select a class exactly when one of the names has it as its name without extension. */
  lemma ClassesSelect(names: seq<string>, c: string)
    ensures ClassProperty(c) in ClassLines(names) <==> HasStem(names, c)
  {
    ClassLinesDedup(names);
    ClassPropertiesMember(Stems(Dedup(names)), c);
    StemsOfDedup(names, c);
  }

  /** A class is selected exactly when some captured file name has it as its name without extension. */
  lemma FarSelects(lines: seq<string>, c: string)
    ensures ClassProperty(c) in FarLines(lines) <==> HasStem(FileNames(lines), c)
  {
    ClassesSelect(FileNames(lines), c);
  }

  /** A name the file-name group can capture: non-empty, with no separator and no '('. */
  predicate Capturable(name: string)
  {
    name != [] && '/' !in name && '\\' !in name && '(' !in name
  }

  /**
   * Files are told apart by their full name, so two files that differ only
   * in their extension (A.cs and A.vb) each give a line for the same class,
   * and the class is listed twice.
   */
  lemma SameStemListedTwice(dir: string, stem: string, ext1: string, ext2: string, rest1: string, rest2: string)
    requires '(' !in dir
    requires Capturable(stem + "." + ext1) && Capturable(stem + "." + ext2)
    requires '.' !in ext1 && '.' !in ext2 && ext1 != ext2
    ensures FarLines([dir + ['/'] + (stem + "." + ext1) + "(" + rest1, dir + ['/'] + (stem + "." + ext2) + "(" + rest2])
         == [Header, ClassProperty(stem), ClassProperty(stem), Footer]
  {
    var a, b := stem + "." + ext1, stem + "." + ext2;
    var lines := [dir + ['/'] + a + "(" + rest1, dir + ['/'] + b + "(" + rest2];
    TwoFileNames(dir, a, b, rest1, rest2);
    ListingOf(lines, [a, b]);
    TwoSourceFiles(stem, ext1, ext2);
  }

  /** Two listing lines, each naming a file after the last '/', give the two file names in order. */
  lemma TwoFileNames(dir: string, a: string, b: string, rest1: string, rest2: string)
    requires '(' !in dir && Capturable(a) && Capturable(b)
    ensures FileNames([dir + ['/'] + a + "(" + rest1, dir + ['/'] + b + "(" + rest2]) == [a, b]
  {
    var l1 := dir + ['/'] + a + "(" + rest1;
    var l2 := dir + ['/'] + b + "(" + rest2;
    FileNamePattern.LastPathComponent(dir, '/', a, rest1);
    FileNamePattern.LastPathComponent(dir, '/', b, rest2);
    assert [l1, l2][..1] == [l1];
    assert [l1][..0] == [];
    assert FileNames([l1]) == [] + [a];
    assert FileNames([l1, l2]) == FileNames([l1]) + [b];
  }

  /** Two files with the same stem and different extensions are distinct file names, and each writes the class line of the stem. */
  lemma TwoSourceFiles(stem: string, ext1: string, ext2: string)
    requires '.' !in ext1 && '.' !in ext2 && ext1 != ext2
    ensures stem + "." + ext1 != stem + "." + ext2
    ensures ClassLines([stem + "." + ext1, stem + "." + ext2]) == [ClassProperty(stem), ClassProperty(stem)]
  {
    var a, b := stem + "." + ext1, stem + "." + ext2;
    assert a[|stem| + 1..] == ext1 && b[|stem| + 1..] == ext2;
    TwoNames(a, b);
    StripExtensionSpec(stem, ext1);
    StripExtensionSpec(stem, ext2);
  }

  /** One file name writes the class line for its name without extension. */
  lemma OneName(name: string)
    ensures ClassLines([name]) == [ClassProperty(StripExtension(name))]
  {
    assert [name][..0] == [];
  }

  /** Two different file names write a class line each, in order. */
  lemma TwoNames(a: string, b: string)
    requires a != b
    ensures ClassLines([a, b]) == [ClassProperty(StripExtension(a)), ClassProperty(StripExtension(b))]
  {
    assert [a, b][..1] == [a];
    OneName(a);
  }

  /** The playlist of a listing is the header, the class lines of its file names, and the footer. */
  lemma ListingOf(lines: seq<string>, names: seq<string>)
    requires FileNames(lines) == names
    ensures FarLines(lines) == [Header] + ClassLines(names) + [Footer]
  {
  }

  /** A listing of one line naming the file <stem>.<ext> writes the class line of the stem, framed by the header and the footer. */
  lemma OneFileListing(line: string, stem: string, ext: string)
    requires FileNamePattern.FileNameOf(line) == Some(stem + "." + ext) && '.' !in ext
    ensures FarLines([line]) == [Header, ClassProperty(stem), Footer]
  {
    assert [line][..0] == [];
    assert FileNames([line]) == [stem + "." + ext];
    OneName(stem + "." + ext);
    StripExtensionSpec(stem, ext);
  }

  /** The listing line of the source's comment writes the class OverloadResolutionResult between the header and the footer. */
  lemma SourceExample(rest: string)
    ensures FarLines([FileNamePattern.ExampleLine(rest)]) == [Header, ClassProperty("OverloadResolutionResult"), Footer]
  {
    FileNamePattern.SourceExample(rest);
    assert "OverloadResolutionResult" + "." + "cs" == "OverloadResolutionResult.cs";
    OneFileListing(FileNamePattern.ExampleLine(rest), "OverloadResolutionResult", "cs");
  }
}
