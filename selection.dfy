/**
 * What the pull-request mode picks out of a build: the test-log artifacts
 * with their leg names, the replay log among an artifact's files, and the
 * failure-log URLs carried by the error events of the replayed log.
 */
module Selection {
  import opened Wrappers
  import TestArtifactNamePattern
  import FailureLogPattern

  /** A build artifact: its name and the id of its file listing (Resource.Data). */
  datatype Artifact = Artifact(name: string, resourceData: string)

  /** An artifact the filter keeps, with the leg name its name carries. */
  datatype TestLogArtifact = TestLogArtifact(artifact: Artifact, legName: string)

  /** The Select/Where over the build's artifacts: those with a test leg name, in the order listed. */
  function TestLogArtifacts(artifacts: seq<Artifact>): (r: seq<TestLogArtifact>)
    ensures |r| <= |artifacts|
  {
    if artifacts == [] then []
    else
      var rest := TestLogArtifacts(artifacts[1..]);
      match TestArtifactNamePattern.TryGetTestLegName(artifacts[0].name)
      case Some(leg) => [TestLogArtifact(artifacts[0], leg)] + rest
      case None => rest
  }

  /** An artifact is kept, with its leg name, exactly when its name carries a leg name. */
  lemma {:induction false} TestLogArtifactsMember(artifacts: seq<Artifact>, t: TestLogArtifact)
    ensures t in TestLogArtifacts(artifacts) <==>
      t.artifact in artifacts && TestArtifactNamePattern.TryGetTestLegName(t.artifact.name) == Some(t.legName)
  {
    if artifacts != [] {
      TestLogArtifactsMember(artifacts[1..], t);
      assert artifacts == [artifacts[0]] + artifacts[1..];
    }
  }

  /** The filter keeps the listing order: it can be applied to any split of the listing. */
  lemma {:induction false} TestLogArtifactsAppend(xs: seq<Artifact>, ys: seq<Artifact>)
    ensures TestLogArtifacts(xs + ys) == TestLogArtifacts(xs) + TestLogArtifacts(ys)
  {
    if xs != [] {
      assert (xs + ys)[1..] == xs[1..] + ys;
      TestLogArtifactsAppend(xs[1..], ys);
    } else {
      assert xs + ys == ys;
    }
  }

  const LogFilePath := "/helix.binlog"

  /** One entry of an artifact's file listing. */
  datatype ArtifactFile = ArtifactFile(path: string, blobId: string)

  /** FirstOrDefault over the listing for the path "/helix.binlog". */
  function FindLogFile(files: seq<ArtifactFile>): (r: Option<ArtifactFile>)
    ensures r.Some? ==> r.value in files && r.value.path == LogFilePath
  {
    if files == [] then None
    else if files[0].path == LogFilePath then Some(files[0])
    else FindLogFile(files[1..])
  }

  /** The log file is the first entry with that exact path, and there is none exactly when no entry has it. */
  lemma {:induction false} FindLogFileFirst(files: seq<ArtifactFile>)
    ensures FindLogFile(files).None? <==> forall k :: 0 <= k < |files| ==> files[k].path != LogFilePath
    ensures FindLogFile(files).Some? ==>
      exists i :: (0 <= i < |files| && files[i] == FindLogFile(files).value
        && files[i].path == LogFilePath && forall k :: 0 <= k < i ==> files[k].path != LogFilePath)
  {
    if files != [] && files[0].path != LogFilePath {
      var rest := files[1..];
      FindLogFileFirst(rest);
      assert forall k :: 1 <= k < |files| ==> files[k] == rest[k - 1];
      if FindLogFile(rest).Some? {
        var i :| 0 <= i < |rest| && rest[i] == FindLogFile(rest).value
          && rest[i].path == LogFilePath && forall k :: 0 <= k < i ==> rest[k].path != LogFilePath;
        assert files[i + 1] == rest[i];
      }
    }
  }

  /** A replayed build event; only error events matter, and their message may be null. */
  datatype BuildEvent = BuildError(message: Option<string>) | OtherEvent

  /** What the event handler records for one event: the failure-log URL of an error event with a non-empty message. */
  function EventUrl(e: BuildEvent): (r: Option<string>)
    ensures r.Some? ==> e.BuildError? && e.message.Some? && e.message.value != []
    ensures e.BuildError? && e.message.Some? && e.message.value != [] ==> r == FailureLogPattern.FailureLogUrl(e.message.value)
  {
    match e
    case BuildError(Some(message)) => if message == [] then None else FailureLogPattern.FailureLogUrl(message)
    case _ => None
  }

  /** The URLs the handler records while the events are replayed, in event order. */
  function FailureLogUrls(events: seq<BuildEvent>): (r: seq<string>)
    ensures |r| <= |events|
  {
    if events == [] then []
    else
      var front := FailureLogUrls(events[..|events| - 1]);
      match EventUrl(events[|events| - 1])
      case Some(url) => front + [url]
      case None => front
  }

  /** The replay loop: the handler runs once per event and appends to failureLogUrls. */
  method CollectFailureLogUrls(events: seq<BuildEvent>) returns (urls: seq<string>)
    ensures urls == FailureLogUrls(events)
  {
    urls := [];
    var i := 0;
    while i < |events|
      invariant 0 <= i <= |events|
      invariant urls == FailureLogUrls(events[..i])
    {
      var url := EventUrl(events[i]);
      if url.Some? {
        urls := urls + [url.value];
      }
      i := i + 1;
      assert events[..i][..i - 1] == events[..i - 1];
    }
    assert events[..|events|] == events;
  }

  /** One event more adds at most its own URL after those already recorded. */
  lemma FailureLogUrlsStep(events: seq<BuildEvent>, k: nat)
    requires k < |events|
    ensures FailureLogUrls(events[..k + 1]) == FailureLogUrls(events[..k]) + match EventUrl(events[k]) case Some(url) => [url] case None => []
  {
    assert events[..k + 1][..k] == events[..k];
  }

  /**
   * A replay cut short by an exception has delivered a prefix of the events,
   * and then the URLs recorded are a prefix of those of the whole log.
   */
  lemma {:induction false} FailureLogUrlsPrefix(events: seq<BuildEvent>, k: nat)
    requires k <= |events|
    ensures FailureLogUrls(events[..k]) <= FailureLogUrls(events)
    decreases |events| - k
  {
    if k < |events| {
      var before, after, all := FailureLogUrls(events[..k]), FailureLogUrls(events[..k + 1]), FailureLogUrls(events);
      FailureLogUrlsStep(events, k);
      FailureLogUrlsPrefix(events, k + 1);
      assert after[..|before|] == before;
      assert all[..|after|][..|before|] == all[..|before|];
    } else {
      assert events[..k] == events;
    }
  }

  /** A URL is recorded exactly when some error event's message yields it. */
  lemma {:induction false} FailureLogUrlsMember(events: seq<BuildEvent>, url: string)
    ensures url in FailureLogUrls(events) <==> exists i :: 0 <= i < |events| && EventUrl(events[i]) == Some(url)
  {
    if events != [] {
      var front := events[..|events| - 1];
      FailureLogUrlsMember(front, url);
      assert forall i :: 0 <= i < |front| ==> front[i] == events[i];
    }
  }

  /**
   * Only error events with a message can yield a URL, and each URL recorded
   * is non-empty, holds no line break, and ends the message after
   * "Failure log: " (but for one final line break).
   */
  lemma EventUrlShape(e: BuildEvent, url: string)
    requires EventUrl(e) == Some(url)
    ensures e.BuildError? && e.message.Some?
    ensures url != [] && '\n' !in url
    ensures FailureLogPattern.EndsWith(e.message.value, FailureLogPattern.Prefix + url)
         || FailureLogPattern.EndsWith(e.message.value, FailureLogPattern.Prefix + url + "\n")
  {
    FailureLogPattern.UrlShape(e.message.value, url);
  }
}
