/**
 * The pull-request mode end to end: resolve the build, walk its test-log
 * artifacts, find each one's replay log, collect the failure-log URLs its
 * error events carry, and feed every failed test name of every failure log
 * to the playlist writer. The build service, the replay and the HTTP
 * downloads are the fields of a Service value. The scan of a failure log's
 * text for failed tests is a parameter of the loops and of the functions
 * that specify them; the mode itself passes TestNamePattern.TestNames.
 */
module PullRequestMode {
  import opened Wrappers
  import opened SeenOrder
  import opened Playlist
  import opened Selection
  import TestNamePattern

  /**
   * What the build service and the web return: the pull request's builds
   * (at most one is asked for), the build with the number as id, each
   * build's artifacts, each artifact's file listing, the events replayed
   * from a log file (cut short where the replay throws), and the text
   * behind each failure-log URL.
   */
  datatype Service = Service(
    pullRequestBuilds: seq<Build>,
    buildWithId: Option<Build>,
    artifactsOf: int -> seq<Artifact>,
    filesOf: (int, Artifact) -> seq<ArtifactFile>,
    eventsOf: (int, Artifact, ArtifactFile) -> seq<BuildEvent>,
    contentOf: string -> string)

  /** The exit code and the playlist file written, if any. */
  datatype Outcome = Outcome(code: int, playlist: Option<PlaylistFile>)

  /** The failed test names found in the text of a failure log, in order, repetitions included. */
  type Scan = string -> seq<string>

  /** The failed test names of the failure logs behind the URLs, log after log. */
  function LogNames(svc: Service, scan: Scan, urls: seq<string>): seq<string>
  {
    if urls == [] then []
    else LogNames(svc, scan, urls[..|urls| - 1]) + scan(svc.contentOf(urls[|urls| - 1]))
  }

  /** The failed test names one test-log artifact yields; none when it has no replay log. */
  function ArtifactNames(svc: Service, scan: Scan, buildId: int, t: TestLogArtifact): seq<string>
  {
    match FindLogFile(svc.filesOf(buildId, t.artifact))
    case None => []
    case Some(logFile) => LogNames(svc, scan, FailureLogUrls(svc.eventsOf(buildId, t.artifact, logFile)))
  }

  /** The failed test names of the artifacts, artifact after artifact, repetitions included. */
  function BuildNames(svc: Service, scan: Scan, buildId: int, ts: seq<TestLogArtifact>): seq<string>
  {
    if ts == [] then []
    else BuildNames(svc, scan, buildId, ts[..|ts| - 1]) + ArtifactNames(svc, scan, buildId, ts[|ts| - 1])
  }

  /** What the pull-request mode ends with for the number num. */
  function PlaylistMode(svc: Service, num: nat): (r: Outcome)
    ensures r.code == 0 || (r.code == -1 && r.playlist.None?)
    ensures r.playlist.Some? ==> var lines := r.playlist.value.lines;
      lines != [] && lines[0] == Header && lines[|lines| - 1] == Footer
  {
    match ResolveBuild(num, svc.pullRequestBuilds, svc.buildWithId)
    case None => Outcome(-1, None)
    case Some((build, prefix)) =>
      var names := BuildNames(svc, TestNamePattern.TestNames, build.id, TestLogArtifacts(svc.artifactsOf(build.id)));
      Outcome(0, if names == [] then None else Some(PlaylistFile(PlaylistFileName(prefix, build.buildNumber), PlaylistLines(names))))
  }

  /** One more URL adds the failed test names of its log after the others. */
  lemma LogNamesStep(svc: Service, scan: Scan, urls: seq<string>, j: nat)
    requires j < |urls|
    ensures LogNames(svc, scan, urls[..j + 1]) == LogNames(svc, scan, urls[..j]) + scan(svc.contentOf(urls[j]))
  {
    assert urls[..j + 1][..j] == urls[..j];
  }

  /** One more artifact adds the failed test names it yields after the others. */
  lemma BuildNamesStep(svc: Service, scan: Scan, buildId: int, ts: seq<TestLogArtifact>, i: nat)
    requires i < |ts|
    ensures BuildNames(svc, scan, buildId, ts[..i + 1]) == BuildNames(svc, scan, buildId, ts[..i]) + ArtifactNames(svc, scan, buildId, ts[i])
  {
    assert ts[..i + 1][..i] == ts[..i];
  }

  /** The innermost loop: each match of the failure log, in order, offered to the seen-name set and the writer. */
  method AddTestNames(writer: PlaylistWriter, names: seq<string>)
    requires writer.Valid() && !writer.finished
    modifies writer
    ensures writer.Valid() && !writer.finished
    ensures writer.offered == old(writer.offered) + names
  {
    var k := 0;
    while k < |names|
      invariant 0 <= k <= |names|
      invariant writer.Valid() && !writer.finished
      invariant writer.offered == old(writer.offered) + names[..k]
    {
      var _ := writer.Add(names[k]);
      PrefixStep(names, k);
      AppendAssoc(old(writer.offered), names[..k], [names[k]]);
      k := k + 1;
    }
    assert names[..|names|] == names;
  }

  /** The loop over the failure-log URLs: download each log and add the failed tests the scan finds in it. */
  method AddLogNames(writer: PlaylistWriter, svc: Service, scan: Scan, urls: seq<string>)
    requires writer.Valid() && !writer.finished
    modifies writer
    ensures writer.Valid() && !writer.finished
    ensures writer.offered == old(writer.offered) + LogNames(svc, scan, urls)
  {
    ghost var before := writer.offered;
    var j := 0;
    while j < |urls|
      invariant 0 <= j <= |urls|
      invariant writer.Valid() && !writer.finished
      invariant writer.offered == before + LogNames(svc, scan, urls[..j])
    {
      ghost var done := LogNames(svc, scan, urls[..j]);
      var content := svc.contentOf(urls[j]);
      var found := scan(content);
      AddTestNames(writer, found);
      assert writer.offered == before + done + found;
      LogNamesStep(svc, scan, urls, j);
      AppendAssoc(before, done, found);
      j := j + 1;
    }
    assert urls[..|urls|] == urls;
  }

  /** One leg: the file listing, the replay log ("No log file found." skips the leg), the replay and the logs. */
  method ProcessArtifact(writer: PlaylistWriter, svc: Service, scan: Scan, buildId: int, t: TestLogArtifact)
    requires writer.Valid() && !writer.finished
    modifies writer
    ensures writer.Valid() && !writer.finished
    ensures writer.offered == old(writer.offered) + ArtifactNames(svc, scan, buildId, t)
  {
    var files := svc.filesOf(buildId, t.artifact);
    var logFile := FindLogFile(files);
    if logFile.None? {
      return;
    }
    var events := svc.eventsOf(buildId, t.artifact, logFile.value);
    var urls := CollectFailureLogUrls(events);
    AddLogNames(writer, svc, scan, urls);
  }

  /** The loop over the test-log artifacts: each leg's failed tests, leg after leg. */
  method AddBuildNames(writer: PlaylistWriter, svc: Service, scan: Scan, buildId: int, ts: seq<TestLogArtifact>)
    requires writer.Valid() && !writer.finished
    modifies writer
    ensures writer.Valid() && !writer.finished
    ensures writer.offered == old(writer.offered) + BuildNames(svc, scan, buildId, ts)
  {
    ghost var before := writer.offered;
    var i := 0;
    while i < |ts|
      invariant 0 <= i <= |ts|
      invariant writer.Valid() && !writer.finished
      invariant writer.offered == before + BuildNames(svc, scan, buildId, ts[..i])
    {
      ghost var done := BuildNames(svc, scan, buildId, ts[..i]);
      ProcessArtifact(writer, svc, scan, buildId, ts[i]);
      ghost var added := ArtifactNames(svc, scan, buildId, ts[i]);
      assert writer.offered == before + done + added;
      BuildNamesStep(svc, scan, buildId, ts, i);
      AppendAssoc(before, done, added);
      i := i + 1;
    }
    assert ts[..|ts|] == ts;
  }

  /** The pull-request mode after the argument is read: exit code -1 when the build is not found, else 0. */
  method RunPlaylistMode(svc: Service, num: nat) returns (code: int, playlist: Option<PlaylistFile>)
    ensures Outcome(code, playlist) == PlaylistMode(svc, num)
  {
    var resolved := ResolveBuild(num, svc.pullRequestBuilds, svc.buildWithId);
    if resolved.None? {
      return -1, None;
    }
    var (build, prefix) := resolved.value;
    var testLogArtifacts := TestLogArtifacts(svc.artifactsOf(build.id));
    var writer := new PlaylistWriter(PlaylistFileName(prefix, build.buildNumber));
    AddBuildNames(writer, svc, TestNamePattern.TestNames, build.id, testLogArtifacts);
    assert writer.offered == BuildNames(svc, TestNamePattern.TestNames, build.id, testLogArtifacts);
    playlist := writer.Finish();
    code := 0;
  }

  /** n is in one of the lists. */
  ghost predicate InSome(lists: seq<seq<string>>, n: string)
  {
    exists j :: 0 <= j < |lists| && n in lists[j]
  }

  /** A list more: n is in one of them exactly when it is in an earlier one or in the last. */
  lemma InSomeStep(lists: seq<seq<string>>, n: string)
    requires lists != []
    ensures InSome(lists, n) <==> InSome(lists[..|lists| - 1], n) || n in lists[|lists| - 1]
  {
    var front := lists[..|lists| - 1];
    if InSome(front, n) {
      var j :| 0 <= j < |front| && n in front[j];
      assert lists[j] == front[j];
    }
    if InSome(lists, n) {
      var j :| 0 <= j < |lists| && n in lists[j];
      if j < |front| {
        assert front[j] == lists[j];
      }
    }
  }

  /** The failed test names of each failure log behind the URLs, one list per log. */
  function LogLists(svc: Service, scan: Scan, urls: seq<string>): (r: seq<seq<string>>)
    ensures |r| == |urls| && forall j :: 0 <= j < |urls| ==> r[j] == scan(svc.contentOf(urls[j]))
  {
    if urls == [] then [] else LogLists(svc, scan, urls[..|urls| - 1]) + [scan(svc.contentOf(urls[|urls| - 1]))]
  }

  /** The names gathered from the logs are exactly the failed tests some log lists. */
  lemma {:induction false} LogNamesMember(svc: Service, scan: Scan, urls: seq<string>, n: string)
    ensures n in LogNames(svc, scan, urls) <==> InSome(LogLists(svc, scan, urls), n)
  {
    if urls != [] {
      var front := urls[..|urls| - 1];
      LogNamesMember(svc, scan, front, n);
      assert LogLists(svc, scan, urls)[..|urls| - 1] == LogLists(svc, scan, front);
      InSomeStep(LogLists(svc, scan, urls), n);
    }
  }

  /** The failed test names each test-log artifact yields, one list per artifact. */
  function ArtifactLists(svc: Service, scan: Scan, buildId: int, ts: seq<TestLogArtifact>): (r: seq<seq<string>>)
    ensures |r| == |ts| && forall k :: 0 <= k < |ts| ==> r[k] == ArtifactNames(svc, scan, buildId, ts[k])
  {
    if ts == [] then [] else ArtifactLists(svc, scan, buildId, ts[..|ts| - 1]) + [ArtifactNames(svc, scan, buildId, ts[|ts| - 1])]
  }

  /** The names gathered from the artifacts are exactly the failed tests some artifact yields. */
  lemma {:induction false} BuildNamesMember(svc: Service, scan: Scan, buildId: int, ts: seq<TestLogArtifact>, n: string)
    ensures n in BuildNames(svc, scan, buildId, ts) <==> InSome(ArtifactLists(svc, scan, buildId, ts), n)
  {
    if ts != [] {
      var front := ts[..|ts| - 1];
      BuildNamesMember(svc, scan, buildId, front, n);
      assert ArtifactLists(svc, scan, buildId, ts)[..|ts| - 1] == ArtifactLists(svc, scan, buildId, front);
      InSomeStep(ArtifactLists(svc, scan, buildId, ts), n);
    }
  }

  /** An artifact yields a failed test only when it has a replay log and one of its failure logs lists the test. */
  lemma ArtifactNamesMember(svc: Service, scan: Scan, buildId: int, t: TestLogArtifact, n: string)
    ensures n in ArtifactNames(svc, scan, buildId, t) <==>
      && FindLogFile(svc.filesOf(buildId, t.artifact)).Some?
      && InSome(LogLists(svc, scan, FailureLogUrls(svc.eventsOf(buildId, t.artifact, FindLogFile(svc.filesOf(buildId, t.artifact)).value))), n)
  {
    match FindLogFile(svc.filesOf(buildId, t.artifact))
    case None =>
    case Some(logFile) => LogNamesMember(svc, scan, FailureLogUrls(svc.eventsOf(buildId, t.artifact, logFile)), n);
  }

  /** The exit code is -1 exactly when neither a pull-request build nor a build with that id exists, and then no playlist is written. */
  lemma PlaylistModeCode(svc: Service, num: nat)
    ensures PlaylistMode(svc, num).code == -1 <==> svc.pullRequestBuilds == [] && svc.buildWithId.None?
    ensures PlaylistMode(svc, num).code == -1 || PlaylistMode(svc, num).code == 0
    ensures PlaylistMode(svc, num).code == -1 ==> PlaylistMode(svc, num).playlist.None?
  {
  }

  /** Some failed test is gathered exactly when some artifact yields one. */
  lemma BuildNamesNonEmpty(svc: Service, scan: Scan, buildId: int, ts: seq<TestLogArtifact>)
    ensures BuildNames(svc, scan, buildId, ts) != [] <==> exists m :: InSome(ArtifactLists(svc, scan, buildId, ts), m)
  {
    var names := BuildNames(svc, scan, buildId, ts);
    if names != [] {
      BuildNamesMember(svc, scan, buildId, ts, names[0]);
    }
    if m :| InSome(ArtifactLists(svc, scan, buildId, ts), m) {
      BuildNamesMember(svc, scan, buildId, ts, m);
    }
  }

  /** For a resolved build, a playlist is written exactly when some test-log artifact of the build yields a failed test. */
  lemma PlaylistModeWritten(svc: Service, num: nat)
    requires ResolveBuild(num, svc.pullRequestBuilds, svc.buildWithId).Some?
    ensures
      var build := ResolveBuild(num, svc.pullRequestBuilds, svc.buildWithId).value.0;
      var lists := ArtifactLists(svc, TestNamePattern.TestNames, build.id, TestLogArtifacts(svc.artifactsOf(build.id)));
      PlaylistMode(svc, num).playlist.Some? <==> exists m :: InSome(lists, m)
  {
    var build := ResolveBuild(num, svc.pullRequestBuilds, svc.buildWithId).value.0;
    var ts := TestLogArtifacts(svc.artifactsOf(build.id));
    var lists := ArtifactLists(svc, TestNamePattern.TestNames, build.id, ts);
    BuildNamesNonEmpty(svc, TestNamePattern.TestNames, build.id, ts);
  }

  /**
   * For a resolved build, the playlist is named after the build, selects a
   * test exactly when some test-log artifact of the build yields it as
   * failed, and is written only when there is such a test.
   */
  lemma PlaylistModeSelects(svc: Service, num: nat, n: string)
    requires ResolveBuild(num, svc.pullRequestBuilds, svc.buildWithId).Some?
    ensures
      var (build, prefix) := ResolveBuild(num, svc.pullRequestBuilds, svc.buildWithId).value;
      var lists := ArtifactLists(svc, TestNamePattern.TestNames, build.id, TestLogArtifacts(svc.artifactsOf(build.id)));
      var out := PlaylistMode(svc, num);
      && out.code == 0
      && (out.playlist.Some? ==> out.playlist.value.fileName == PlaylistFileName(prefix, build.buildNumber))
      && (InSome(lists, n) ==> out.playlist.Some?)
      && (out.playlist.Some? ==> exists m :: InSome(lists, m))
      && (out.playlist.Some? && TestProperty(n) in out.playlist.value.lines <==> InSome(lists, n))
  {
    var (build, prefix) := ResolveBuild(num, svc.pullRequestBuilds, svc.buildWithId).value;
    var ts := TestLogArtifacts(svc.artifactsOf(build.id));
    var names := BuildNames(svc, TestNamePattern.TestNames, build.id, ts);
    BuildNamesMember(svc, TestNamePattern.TestNames, build.id, ts, n);
    PlaylistSelects(names, n);
    PlaylistModeWritten(svc, num);
  }
}
