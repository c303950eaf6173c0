# TestUtil playlist builder, modelled in Dafny

TestUtil (`src/TestUtil/Program.cs`) is a console tool with two modes.

- **Pull-request mode.** Given a pull-request number or a build id, it finds the CI build and walks the build's test-log artifacts (`Test_<leg> Attempt <n> Logs`). For each one it:
  - replays the artifact's `/helix.binlog`;
  - collects the failure-log URLs that error events carry (`Failure log: <url>`);
  - downloads each failure log and scans it for `[...] <test name>... [FAIL]` lines.

  It writes each distinct failed test once into a test playlist, `<num>-<build number>.playlist` or `<build number>.playlist`. The file is created only when the first failed test turns up.
- **Find-all-references mode** (argument `f`). It reads a find-all-references listing from the console. It writes one `Class` line for every distinct source file named before a `(`, using the file name without its extension, into `far-<timestamp>.playlist`.

The model keeps the program's structure, one module per concern:

- `Args` (args.dfy): `int.TryParse` with `NumberStyles.Integer`, `tryParseArg` as a method of a `CommandLine` class that holds the two top-level locals `num` and `farToPlaylist`, and the start-up check.
- `FailureLogPattern`, `TestArtifactNamePattern`, `TestNamePattern`, `FileNamePattern`: the four regular expressions.
  - Each is a hand-written matcher that follows the backtracking engine: the leftmost start, greedy quantifiers, and the multiline or plain `^`/`$`.
  - Each is proved against a declarative description of what a match is.
- `SeenOrder` (dedup.dfy): the `HashSet.Add` test. What it lets through is the input without repetitions, in first-seen order.
- `Playlist` (playlist.dfy): the playlist lines and their text, and build resolution with the file name. The lazy writer is a `PlaylistWriter` class whose `Add` and `Finish` update its fields in place.
- `Selection` (selection.dfy): the artifact filter, the replay-log lookup and the URL collection over replayed events.
- `PullRequestMode` (pipeline.dfy): the nested loops of the pull-request mode, as methods over the writer proved against functions of the inputs.
- `FindAllReferences` (far.dfy): `processFar`, as a method with its loop.
- `Program` (program.dfy): the top-level statements. The start-up check reads the console only when the argument does not settle the mode, and then one of the two modes runs.

The build service, the binlog replay and the HTTP downloads are the fields of a `Service` value, so the pull-request mode is a function of what they return. The clock is a parameter: the timestamp text of the far file name. The loops of the pull-request mode take the failure-log scan as a parameter, and the mode itself passes `TestNamePattern.TestNames`. This keeps their proofs independent of the regex.

## Model

| member | source | states |
|---|---|---|
| Args.ParseInt32 | src/TestUtil/Program.cs:25 | int.TryParse succeeds only with a value in the Int32 range |
| Args.ParseDecimal | src/TestUtil/Program.cs:25 | a decimal numeral parses to its value exactly when the value fits an Int32, and fails otherwise |
| Args.ParseNegatedDecimal | src/TestUtil/Program.cs:25 | "-" followed by a numeral parses to the negated value exactly when it fits an Int32 |
| Args.ParseFormatted | src/TestUtil/Program.cs:25 | every Int32 formatted in decimal parses back to itself |
| Args.TrimNonWhite | src/TestUtil/Program.cs:25 | a string that neither starts nor ends with white space is parsed as it stands |
| Args.ClassifyNumber | src/TestUtil/Program.cs:17-31 | a formatted integer is accepted as itself exactly when it is in 0..Int32.MaxValue; negative numbers and numbers that overflow are refused |
| Args.ClassifyLetters | src/TestUtil/Program.cs:19-23 | only the exact lower-case "f" selects find-all-references; "F" and "" are refused |
| Args.ClassifySigned | src/TestUtil/Program.cs:25 | "-0" is accepted as 0 and "-5" is refused, since the sign is parsed before the `num >= 0` test |
| Args.ClassifyPadded | src/TestUtil/Program.cs:25 | white space around the digits is skipped |
| Args.ClassifyArg | src/TestUtil/Program.cs:17-31 | an argument selects find-all-references exactly when it is "f"; any other argument is accepted exactly when int.TryParse returns a value >= 0, and then as that value |
| Args.Startup | src/TestUtil/Program.cs:33-42 | a single accepted argument decides the mode; otherwise a non-empty console line that is accepted decides it; any mode other than Invalid comes from one of the two |
| Args.CommandLine.constructor | src/TestUtil/Program.cs:14-15 | num starts at -1 and farToPlaylist at false |
| Args.CommandLine.TryParseArg | src/TestUtil/Program.cs:17-31 | returns whether the argument is "f" or a non-negative Int32; "f" sets farToPlaylist and leaves num; otherwise num receives the parsed value, or 0 when the parse fails |
| Args.CommandLine.ParseArguments | src/TestUtil/Program.cs:33-42 | a single argument is tried first, then the console line; an absent or empty line fails; the outcome, the mode and num agree with Startup |
| Text.Decimal | src/TestUtil/Program.cs:64 | the numeral interpolated for num is non-empty, all digits, has num as its value and has no leading zero |
| FailureLogPattern.MatchAt | src/TestUtil/Program.cs:224 | an attempt succeeds only with a match of "Failure log: (.+)$", and whenever the pattern can match at that position the attempt returns exactly that match |
| FailureLogPattern.FirstMatchFrom | src/TestUtil/Program.cs:224 | the match found is a match and is the leftmost; None means no position matches |
| FailureLogPattern.FailureLogUrl | src/TestUtil/Program.cs:136-138 | a captured URL is non-empty and holds no line break; no URL means no position of the message matches (`FailureLogUrlLeftmost`: it is group 1 of the leftmost match) |
| FailureLogPattern.FailureLogUrlLeftmost | src/TestUtil/Program.cs:136-138 | the URL returned is group 1 of the leftmost match, the one Regex.Match returns |
| FailureLogPattern.MatchShape | src/TestUtil/Program.cs:224 | the group of any match is non-empty, holds no line break and runs to the end of the text, but for one final '\n' |
| FailureLogPattern.NoMatchAcrossLineBreak | src/TestUtil/Program.cs:224 | no match starts before a line break that is not the last character, since `.+$` cannot cross it |
| FailureLogPattern.UrlShape | src/TestUtil/Program.cs:136-138 | a captured URL is non-empty, holds no line break, and ends the message after "Failure log: ", but for one final '\n' |
| FailureLogPattern.UrlAfterLine | src/TestUtil/Program.cs:224 | "Failure log: <url>" at a line start at the end of the message yields exactly <url> |
| FailureLogPattern.SourceExample | src/TestUtil/Program.cs:133 | the message of the source's comment yields the URL on its second line |
| FailureLogPattern.BracketSuffixKept | src/TestUtil/Program.cs:224 | a bracketed suffix after the URL stays in the capture |
| TestArtifactNamePattern.AttemptAt | src/TestUtil/Program.cs:227 | " Attempt (\d+) Logs$" succeeds only on a non-empty run of digits followed by " Logs" and at most one final '\n' |
| TestArtifactNamePattern.AttemptParts | src/TestUtil/Program.cs:227 | " Attempt ", digits, " Logs" and the end anchor found at their positions make up the whole rest of the name |
| TestArtifactNamePattern.AttemptAtComplete | src/TestUtil/Program.cs:227 | every such suffix is recognised, with exactly its digits |
| TestArtifactNamePattern.TryLegLength | src/TestUtil/Program.cs:227 | the `.+` backtracking only returns a split that matches the whole pattern |
| TestArtifactNamePattern.MatchName | src/TestUtil/Program.cs:227 | a success is a match of "^Test_(.+) Attempt (\d+) Logs$" with those groups |
| TestArtifactNamePattern.SplitUnique | src/TestUtil/Program.cs:227 | a name matches in at most one way, so the groups are determined by the name |
| TestArtifactNamePattern.TryGetTestLegName | src/TestUtil/Program.cs:216-220 | a leg name is returned only when the name matches the pattern with that leg as group 1 |
| TestArtifactNamePattern.AttemptAfterLeg | src/TestUtil/Program.cs:227 | in any match, the attempt suffix is recognised right after the leg, with its digits |
| TestArtifactNamePattern.TryLegLengthFinds | src/TestUtil/Program.cs:227 | when some leg length up to n leaves a valid suffix, the backtracking from n finds one |
| TestArtifactNamePattern.LegWithinLine | src/TestUtil/Program.cs:227 | in any match, the name starts with "Test_" and the leg lies within its first line |
| TestArtifactNamePattern.LegNameComplete | src/TestUtil/Program.cs:216-220 | every name of the form Test_<leg> Attempt <digits> Logs yields its leg name (with MatchName, an if and only if) |
| TestArtifactNamePattern.NoTestPrefix | src/TestUtil/Program.cs:216-220 | names that do not start with "Test_" give null |
| TestArtifactNamePattern.LegNameExample | src/TestUtil/Program.cs:216-220 | "Test_Foo Attempt 2 Logs" gives "Foo" |
| TestArtifactNamePattern.GreedyLegNameExample | src/TestUtil/Program.cs:227 | with two " Attempt <n>" parts, the first stays in the leg name, since the digits must be followed by " Logs" at the end |
| TestArtifactNamePattern.OtherConventionRejected | src/TestUtil/Program.cs:216-220 | "3-Logs Release OOP64_False" gives no leg name |
| TestNamePattern.BracketEnd | src/TestUtil/Program.cs:230 | `[^]]+\]` stops at the first ']' |
| TestNamePattern.SpaceEnd | src/TestUtil/Program.cs:230 | `\s+` runs greedily to the first character outside .NET's \s class |
| TestNamePattern.NameEnd | src/TestUtil/Program.cs:230 | the group class [^(\r\n] runs to the first '(', '\r' or '\n' |
| TestNamePattern.TailAt | src/TestUtil/Program.cs:230 | once the group starts, the group, ".*", " [FAIL]" and "\r?$" fit within the line in order |
| TestNamePattern.TailAtSound | src/TestUtil/Program.cs:230 | what TailAt finds satisfies every character condition of the pattern after the group start |
| TestNamePattern.TailAtComplete | src/TestUtil/Program.cs:230 | any decomposition with its group at q lets TailAt succeed at q, with a group at least as long |
| TestNamePattern.GroupStart | src/TestUtil/Program.cs:230 | the `\s+` backtracking takes the latest group start that leaves a tail, and no later start works |
| TestNamePattern.MatchAt | src/TestUtil/Program.cs:230 | a successful attempt at p starts at p, ends within the text, and its group starts after p |
| TestNamePattern.MatchAtSound | src/TestUtil/Program.cs:230 | a successful attempt is a match of the pattern at that position |
| TestNamePattern.MatchAtComplete | src/TestUtil/Program.cs:230 | whenever the pattern can match at a position, the attempt there succeeds |
| TestNamePattern.MatchAtPreferred | src/TestUtil/Program.cs:230 | the attempt picks the decomposition the engine prefers: the longest \s run, then the longest group |
| TestNamePattern.MatchAtNone | src/TestUtil/Program.cs:230 | a failed attempt means no decomposition exists at that position |
| TestNamePattern.FirstMatchFrom | src/TestUtil/Program.cs:158 | the next match found lies after the scan position and within the text |
| TestNamePattern.FirstMatchFromIsAttempt | src/TestUtil/Program.cs:158 | the match the scan finds is the attempt at its own position |
| TestNamePattern.FirstMatchFromLeftmost | src/TestUtil/Program.cs:158 | no match starts between the scan position and the match found, nor anywhere after when none is found |
| TestNamePattern.MatchesFrom | src/TestUtil/Program.cs:158 | the matches of Regex.Matches lie within the text, in order and without overlap |
| TestNamePattern.MatchesArePreferred | src/TestUtil/Program.cs:158 | every match of the scan is a match of the pattern, in the decomposition the engine prefers |
| TestNamePattern.MatchesSkipNothing | src/TestUtil/Program.cs:158 | no match of the pattern starts between two successive matches of the scan, or after the last |
| TestNamePattern.Groups | src/TestUtil/Program.cs:160 | the test names are the groups of the matches, one per match, in order |
| TestNamePattern.TestNames | src/TestUtil/Program.cs:158-160 | one test name per match of the scan, in order: the match's group |
| TestNamePattern.GroupShape | src/TestUtil/Program.cs:230 | a captured name is non-empty and holds no '(', '\r' or '\n' |
| TestNamePattern.TestNamesShape | src/TestUtil/Program.cs:158-160 | every test name found is non-empty and holds no '(', '\r' or '\n' |
| TestNamePattern.SingleLineMatchAt | src/TestUtil/Program.cs:230 | on a single failed-test line, the attempt at 0 takes the group from the first non-space character to the first '(' or to " [FAIL]" |
| TestNamePattern.SingleLineTail | src/TestUtil/Program.cs:230 | on such a line the group starting at its first name character ends at g0, and " [FAIL]" closes the line |
| TestNamePattern.SingleLineScan | src/TestUtil/Program.cs:158 | such a line gives exactly one match |
| TestNamePattern.SingleLineMatches | src/TestUtil/Program.cs:158-160 | such a line reports exactly its test name |
| TestNamePattern.PartsFormSingleLine | src/TestUtil/Program.cs:230 | "[tag]", white space, a name, an optional parameter list and " [FAIL]" form such a line |
| TestNamePattern.SingleFailedTest | src/TestUtil/Program.cs:157-160 | a log holding one failed-test line reports exactly the name before the parameter list |
| TestNamePattern.SourceExample | src/TestUtil/Program.cs:157 | the line of the source's comment reports "Some.Namespace.Test_Name" |
| FileNamePattern.NameEnd | src/TestUtil/Program.cs:233 | the class [^/\\(] runs to the first '/', '\' or '(' |
| FileNamePattern.MatchAt | src/TestUtil/Program.cs:233 | an attempt succeeds only with a match of "[/\\]([^/\\(]+)\(", and returns that match whenever one starts there |
| FileNamePattern.FirstMatchFrom | src/TestUtil/Program.cs:200 | Regex.Match finds the leftmost match; None means there is no match at all |
| FileNamePattern.FileNameOf | src/TestUtil/Program.cs:200-202 | a file name is captured exactly when the line has a match, and it is the group of a match (`FileNameOfLeftmost`: of the leftmost one) |
| FileNamePattern.FileNameOfLeftmost | src/TestUtil/Program.cs:200-202 | the file name returned is group 1 of the leftmost match, the one Regex.Match returns |
| FileNamePattern.LastPathComponent | src/TestUtil/Program.cs:200-202 | in a path followed by '(', with no '(' earlier, the captured file name is the last path component |
| FileNamePattern.SourceExample | src/TestUtil/Program.cs:199 | the listing line of the source's comment, whatever follows its '(', gives "OverloadResolutionResult.cs" |
| FileNamePattern.NoParenInExampleDirectory | src/TestUtil/Program.cs:199 | the directory of that listing line holds no '(' |
| SeenOrder.ElementsMember | src/TestUtil/Program.cs:161 | the seen-name set holds exactly the names offered so far |
| SeenOrder.Dedup | src/TestUtil/Program.cs:161 | what the seen-name test lets through holds only offered names and is no longer than the input |
| SeenOrder.DedupMember | src/TestUtil/Program.cs:161 | every offered name gets through once, and nothing else does |
| SeenOrder.DedupIsDistinct | src/TestUtil/Program.cs:161 | nothing gets through twice |
| SeenOrder.DedupFirstSeenOrder | src/TestUtil/Program.cs:161 | the names that get through keep the order of their first occurrence |
| SeenOrder.DedupCard | src/TestUtil/Program.cs:161 | as many names get through as the seen-name set ends up holding |
| SeenOrder.DedupDistinct | src/TestUtil/Program.cs:161 | without repetitions in the input, everything gets through unchanged |
| SeenOrder.DedupIdempotent | src/TestUtil/Program.cs:161 | passing the names through the seen-name test twice lets through the same names as once |
| SeenOrder.DedupSeen | src/TestUtil/Program.cs:161 | a name seen before adds nothing |
| SeenOrder.DedupNew | src/TestUtil/Program.cs:161 | a new name is let through after the others |
| SeenOrder.FirstIndex | src/TestUtil/Program.cs:161 | the first position holding a name has no earlier occurrence of it |
| Playlist.RenderSignature | src/TestUtil/Program.cs:169-180 | the header, the footer, test properties and class properties are told apart by their first characters |
| Playlist.Render | src/TestUtil/Program.cs:169-180 | every line of the file is an XML element text: it opens with '<' and closes with '>' |
| Playlist.RenderInjective | src/TestUtil/Program.cs:169-180 | two lines have the same text exactly when they are the same line |
| Playlist.PropertyValueUnique | src/TestUtil/Program.cs:172 | a property's value can be read back from its text |
| Playlist.RenderAll | src/TestUtil/Program.cs:169-180 | the file text has one text line per playlist line, in order |
| Playlist.RenderAllDistinct | src/TestUtil/Program.cs:169-180 | distinct lines give distinct texts |
| Playlist.OpenLines | src/TestUtil/Program.cs:161-172 | the open file is empty exactly when no name has been met; otherwise it starts with the header and has at most one line per name after it |
| Playlist.PlaylistLines | src/TestUtil/Program.cs:166-183 | the finished file is empty exactly when no name has been met; otherwise it opens with the header, closes with the footer, and has at most one line per name in between |
| Playlist.OpenLinesDedup | src/TestUtil/Program.cs:161-172 | once a name has been met, the open file is the header followed by one test line per distinct name, in first-seen order |
| Playlist.PlaylistFrame | src/TestUtil/Program.cs:166-183 | a playlist exists exactly when some failed test was met; it opens with the header, closes with the footer, and has one line per distinct name in between |
| Playlist.PlaylistDistinct | src/TestUtil/Program.cs:161-172 | no line of the playlist appears twice, as a line or as text |
| Playlist.PlaylistSelects | src/TestUtil/Program.cs:161-172 | the playlist holds a test's line exactly when the test was met |
| Playlist.ResolveBuild | src/TestUtil/Program.cs:59-81 | the build is the pull request's first build when there is one; otherwise the build with that id, with no prefix; None ("Build not found.") exactly when neither exists |
| Playlist.PullRequestFileName | src/TestUtil/Program.cs:59-94 | a pull request's playlist is "<num>-<build number>.playlist", and its leading digits parse back to num |
| Playlist.PlaylistWriter.constructor | src/TestUtil/Program.cs:94-97 | before any name: nothing seen, no file, no lines |
| Playlist.PlaylistWriter.Add | src/TestUtil/Program.cs:161-172 | returns whether the name is new; a new name adds its line, after the header if this is the first; a seen name changes no line; the writer's invariant is kept |
| Playlist.PlaylistWriter.Finish | src/TestUtil/Program.cs:178-184 | the footer is written only when the file was created; the file returned holds the playlist lines of all names met |
| Selection.TestLogArtifacts | src/TestUtil/Program.cs:90-92 | the filter keeps at most the artifacts listed |
| Selection.TestLogArtifactsMember | src/TestUtil/Program.cs:90-92 | an artifact is kept, with its leg name, exactly when tryGetTestLegName accepts its name |
| Selection.TestLogArtifactsAppend | src/TestUtil/Program.cs:90-92 | the filter keeps the listing's order |
| Selection.FindLogFileFirst | src/TestUtil/Program.cs:114-120 | the log file is the first entry whose path is exactly "/helix.binlog"; None exactly when no entry has it |
| Selection.FindLogFile | src/TestUtil/Program.cs:114 | the log file found is an entry of the listing whose path is "/helix.binlog" |
| Selection.EventUrl | src/TestUtil/Program.cs:131-139 | only an error event with a non-empty message yields a URL, and for such an event it is the URL the failure-log pattern captures in the message |
| Selection.FailureLogUrls | src/TestUtil/Program.cs:129-142 | the replay records at most one URL per event |
| Selection.FailureLogUrlsStep | src/TestUtil/Program.cs:131-142 | one event more adds at most its own URL after those already recorded |
| Selection.CollectFailureLogUrls | src/TestUtil/Program.cs:129-151 | the replay loop records, in event order, the URL of every error event with a non-empty message that matches |
| Selection.FailureLogUrlsPrefix | src/TestUtil/Program.cs:144-151 | a replay cut short by an exception has recorded a prefix of the URLs of the whole log |
| Selection.FailureLogUrlsMember | src/TestUtil/Program.cs:131-142 | a URL is recorded exactly when some event yields it |
| Selection.EventUrlShape | src/TestUtil/Program.cs:134-139 | only error events with a message yield a URL; it is non-empty, holds no line break and ends the message after "Failure log: " |
| PullRequestMode.AddTestNames | src/TestUtil/Program.cs:158-174 | every match of a failure log is offered to the writer in order, and the writer's invariant is kept |
| PullRequestMode.AddLogNames | src/TestUtil/Program.cs:153-175 | the names of each failure log are offered log after log |
| PullRequestMode.ProcessArtifact | src/TestUtil/Program.cs:103-175 | an artifact without "/helix.binlog" offers nothing; otherwise the names of its failure logs are offered |
| PullRequestMode.AddBuildNames | src/TestUtil/Program.cs:101-176 | the test-log artifacts are processed in order, each adding its names |
| PullRequestMode.RunPlaylistMode | src/TestUtil/Program.cs:59-186 | the exit code and the playlist written are those of PlaylistMode |
| PullRequestMode.LogNamesStep | src/TestUtil/Program.cs:153-158 | one more URL adds its log's names after the others |
| PullRequestMode.BuildNamesStep | src/TestUtil/Program.cs:101 | one more artifact adds its names after the others |
| PullRequestMode.InSomeStep | src/TestUtil/Program.cs:153 | a name is in one of the lists exactly when it is in an earlier one or in the last |
| PullRequestMode.LogLists | src/TestUtil/Program.cs:153-158 | one list of scanned names per URL, in order |
| PullRequestMode.LogNamesMember | src/TestUtil/Program.cs:153-161 | a name is offered exactly when some failure log lists it |
| PullRequestMode.ArtifactLists | src/TestUtil/Program.cs:101 | one list of names per test-log artifact, in order |
| PullRequestMode.BuildNamesMember | src/TestUtil/Program.cs:101-176 | a name is offered exactly when some test-log artifact yields it |
| PullRequestMode.ArtifactNamesMember | src/TestUtil/Program.cs:114-158 | an artifact yields a name exactly when it has a replay log and one of that log's failure logs lists the name |
| PullRequestMode.PlaylistMode | src/TestUtil/Program.cs:55-186 | the mode ends with 0, or with -1 and no playlist; a playlist written opens with the header and closes with the footer |
| PullRequestMode.BuildNamesNonEmpty | src/TestUtil/Program.cs:101-176 | some failed test is gathered exactly when some test-log artifact yields one |
| PullRequestMode.PlaylistModeWritten | src/TestUtil/Program.cs:94-184 | for a resolved build, a playlist is written exactly when some test-log artifact yields a failed test |
| PullRequestMode.PlaylistModeCode | src/TestUtil/Program.cs:59-186 | the exit code is -1 exactly when neither a pull-request build nor a build with that id exists, and then no playlist is written; otherwise it is 0 |
| PullRequestMode.PlaylistModeSelects | src/TestUtil/Program.cs:94-184 | for a resolved build, the playlist is named after the build; it is written when some artifact yields a failed test and only then, and it selects a test exactly when some artifact yields it |
| FindAllReferences.LastDot | src/TestUtil/Program.cs:206 | the extension starts at the last '.' of the name |
| FindAllReferences.StripExtension | src/TestUtil/Program.cs:206 | the name without extension is a prefix of the file name, and a name without '.' is kept whole |
| FindAllReferences.StripExtensionSpec | src/TestUtil/Program.cs:206 | the name without extension drops what follows the last '.' and keeps a name without '.' whole |
| FindAllReferences.Stems | src/TestUtil/Program.cs:206 | one name without extension per file name, in order |
| FindAllReferences.FileNamesCaptured | src/TestUtil/Program.cs:200-202 | a line that names a file adds its file name after the others |
| FindAllReferences.FileNamesSkipped | src/TestUtil/Program.cs:200 | a line that names no file adds nothing |
| FindAllReferences.ClassLinesDedup | src/TestUtil/Program.cs:195-207 | the class lines are the names without extension of the distinct file names, in first-seen order |
| FindAllReferences.ProcessFar | src/TestUtil/Program.cs:188-214 | the file is far-<timestamp>.playlist: the header, the class lines of the lines read, and the footer; exit code 0 |
| FindAllReferences.FarLines | src/TestUtil/Program.cs:188-214 | the far playlist has at least two lines: it opens with the header and closes with the footer |
| FindAllReferences.FarFrame | src/TestUtil/Program.cs:194-210 | the far playlist always opens with the header and closes with the footer, with one line per distinct file name |
| FindAllReferences.ClassPropertiesMember | src/TestUtil/Program.cs:206 | a class line is present exactly when its class is listed |
| FindAllReferences.StemsOfDedup | src/TestUtil/Program.cs:203-206 | a class is listed exactly when some file name seen has it as its name without extension |
| FindAllReferences.ClassesSelect | src/TestUtil/Program.cs:196-207 | a class line is written exactly when some captured file name has that name without extension |
| FindAllReferences.FarSelects | src/TestUtil/Program.cs:188-214 | the far playlist selects a class exactly when some line read names a file with that name without extension |
| FindAllReferences.TwoFileNames | src/TestUtil/Program.cs:200-202 | two listing lines "<dir>/<a>(..." and "<dir>/<b>(..." give the file names a and b, in order |
| FindAllReferences.TwoSourceFiles | src/TestUtil/Program.cs:203-206 | <stem>.<ext1> and <stem>.<ext2> with different extensions are distinct file names, and each writes the class <stem> |
| FindAllReferences.SameStemListedTwice | src/TestUtil/Program.cs:195-206 | files are told apart by their full name, so <stem>.<ext1> and <stem>.<ext2> in one listing list the class <stem> twice |
| FindAllReferences.OneName | src/TestUtil/Program.cs:203-206 | one file name writes the class line of its name without extension |
| FindAllReferences.TwoNames | src/TestUtil/Program.cs:203-206 | two different file names write a class line each, in order |
| FindAllReferences.OneFileListing | src/TestUtil/Program.cs:188-214 | a listing of one line naming <stem>.<ext> gives the header, the class line of <stem> and the footer |
| FindAllReferences.SourceExample | src/TestUtil/Program.cs:199-206 | the listing line of the source's comment gives a playlist selecting the class OverloadResolutionResult |
| Program.Run | src/TestUtil/Program.cs:33-47 | the run ends with -1 exactly when the start-up check fails, or when no build is found in pull-request mode, and with 0 otherwise; a failed check writes nothing; "f" writes far-<timestamp>.playlist |
| Program.FarArgument | src/TestUtil/Program.cs:44-47 | "f" as the only argument writes the find-all-references playlist of all the console lines, with exit code 0 |
| Program.NothingToRead | src/TestUtil/Program.cs:33-42 | no argument and an empty console end the run with -1 and write nothing |
| Program.RunProgram | src/TestUtil/Program.cs:10-47 | the top-level statements, over the command-line state and the two mode methods, return the exit code and the playlist of Run |

## Left out

- The network: the Azure DevOps client, the JSON file listings and the HTTP downloads. Their results are the fields of `Service`, and `async`/`await` is not modelled.
- PullRequestMode.PlaylistMode, RunPlaylistMode: a fetch that fails is not modelled. In the source, `GetBuildsAsync2`, `GetBuildAsync`, `GetArtifactsAsync`, the file listing and the replay-log download (`GetFileAsync`, `ReadFromJsonAsync`) and `GetStringAsync` of a failure log sit outside any `try`, so an HTTP error such as an expired failure log ends the run with an unhandled exception. `Service` always answers, so the exit codes and the framed playlist (`PlaylistFrame`, `PlaylistModeWritten`) hold only for runs in which every fetch succeeds. A run that fails after the first failed test leaves the file without its footer and unflushed.
- The binlog format and `BinaryLogReplayEventSource`. The replay is the sequence of events `Service.eventsOf` returns. A replay that throws has delivered a prefix of the events, and `FailureLogUrlsPrefix` states what is then recorded.
- Console output, the "PR number: ..." and "Leg: ..." lines, `Flush`, `Close` and file creation. The playlist is returned as a `PlaylistFile` value of lines, and `Render` gives each line's text.
- `DateTimeOffset.UtcNow` and its `yyyyMMdd-HHmmss` format: the formatted timestamp is a parameter of `ProcessFar`.
- Reading the console: `ProcessFar` takes the lines read, and the start-up check takes the console line as an `Option` (None at the end of input).
- `Helpers.DebugAsync` and the `ArtifactFiles` JSON records: the first is a debugging aid the code does not call; the second is only deserialized.
- PullRequestMode.AddLogNames, ProcessArtifact, AddBuildNames: the failure-log scan is a parameter of these loops. They are proved for any scan, and the mode passes `TestNamePattern.TestNames`.
- Args.ParseInt32: `\d` and int.TryParse take ASCII digits only. The culture's sign symbols, a trailing '\0' and the other NumberStyles.Integer details are left out.
- TestArtifactNamePattern.AttemptAt: `\d` is modelled as the ASCII digits, not the whole Unicode Nd category.
- FindAllReferences.StripExtension: `Path.GetFileNameWithoutExtension` is modelled as a cut at the last '.'. The names it receives never hold '/' or '\', since the regex excludes them.
- Playlist.Render: test names and class names are written without XML escaping, as the source does.
- Strings are sequences of Unicode scalar values (Dafny's `char`), while .NET strings are sequences of UTF-16 code units. A character outside the Basic Multilingual Plane is one `char` in the model but two code units in the source, so `.`, `[^]]`, `[^(\r\n]` and `\s` consume it in one step here and in two there. The positions differ, but what the classes accept does not, since none of the patterns names a surrogate.
- A lone surrogate code unit, which a .NET string may hold, cannot be represented in the model at all.
- Case folding and culture-sensitive comparison are not modelled. The source compares ordinally.

Facts about the code that the model records:

- `Program.cs` has one failure-log URL pattern, `Failure log: (.+)$`. A bracketed suffix after the URL stays in the capture (`FailureLogPattern.BracketSuffixKept`).
- Only artifact names of the form `Test_<leg> Attempt <n> Logs` are recognised. A name such as "3-Logs Release OOP64_False" gives no leg (`TestArtifactNamePattern.OtherConventionRejected`).
- The captured test name may contain spaces. The group `[^(\r\n]+` takes everything up to the first '(' or to the start of the last " [FAIL]" on the line (`TestNamePattern.SingleLineMatchAt`).
