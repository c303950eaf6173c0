/**
 * The top-level statements: the argument check, then either the
 * find-all-references mode or the pull-request mode. The console is the
 * sequence of lines it delivers: the start-up check reads the first one
 * only when the single argument is missing or refused, and the
 * find-all-references mode reads the lines that remain.
 */
module Program {
  import opened Wrappers
  import opened Args
  import opened Playlist
  import opened PullRequestMode
  import FindAllReferences

  /** Whether the start-up check is settled by the command line without reading the console. */
  predicate ArgumentAccepted(args: seq<string>)
  {
    |args| == 1 && ClassifyArg(args[0]) != Invalid
  }

  /** The console line the start-up check reads, if it reads one. */
  function StartupLine(args: seq<string>, console: seq<string>): Option<string>
  {
    if ArgumentAccepted(args) || console == [] then None else Some(console[0])
  }

  /** The console lines left for the find-all-references listing. */
  function Listing(args: seq<string>, console: seq<string>): seq<string>
  {
    if ArgumentAccepted(args) || console == [] then console else console[1..]
  }

  /** What a run returns and writes, with the clock's timestamp text as a parameter. */
  function Run(args: seq<string>, console: seq<string>, svc: Service, stamp: string): (r: Outcome)
    ensures r.code == -1 <==>
      || Startup(args, StartupLine(args, console)) == Invalid
      || (Startup(args, StartupLine(args, console)).PullRequestOrBuild? && svc.pullRequestBuilds == [] && svc.buildWithId.None?)
    ensures r.code == -1 || r.code == 0
    ensures Startup(args, StartupLine(args, console)) == Invalid ==> r.playlist.None?
    ensures Startup(args, StartupLine(args, console)) == FarToPlaylist ==>
      r.playlist.Some? && r.playlist.value.fileName == FindAllReferences.FarFileName(stamp)
  {
    match Startup(args, StartupLine(args, console))
    case Invalid => Outcome(-1, None)
    case FarToPlaylist =>
      Outcome(0, Some(PlaylistFile(FindAllReferences.FarFileName(stamp), FindAllReferences.FarLines(Listing(args, console)))))
    case PullRequestOrBuild(n) =>
      PlaylistModeCode(svc, n);
      PlaylistMode(svc, n)
  }

  /** "f" as the only argument always writes the find-all-references playlist of the whole console input. */
  lemma FarArgument(console: seq<string>, svc: Service, stamp: string)
    ensures Run(["f"], console, svc, stamp)
         == Outcome(0, Some(PlaylistFile(FindAllReferences.FarFileName(stamp), FindAllReferences.FarLines(console))))
  {
    assert ArgumentAccepted(["f"]);
  }

  /** With no argument and an empty console, the run ends with -1 and writes nothing. */
  lemma NothingToRead(svc: Service, stamp: string)
    ensures Run([], [], svc, stamp) == Outcome(-1, None)
  {
  }

  /** The top-level statements, on the command-line state and the two mode methods. */
  method RunProgram(args: seq<string>, console: seq<string>, svc: Service, stamp: string)
    returns (code: int, playlist: Option<PlaylistFile>)
    ensures Outcome(code, playlist) == Run(args, console, svc, stamp)
  {
    var commandLine := new CommandLine();
    var ok := commandLine.ParseArguments(args, StartupLine(args, console));
    if !ok {
      return -1, None;
    }
    if commandLine.farToPlaylist {
      var file;
      file, code := FindAllReferences.ProcessFar(stamp, Listing(args, console));
      playlist := Some(file);
      return;
    }
    code, playlist := RunPlaylistMode(svc, commandLine.num);
  }
}
