# smcmanager core, modelled in Dafny

smcmanager is a small service manager. Each service is described by a TOML
manifest: a name, an optional `enable` flag, and shell scripts for the health
check, pre-start, start, stop and post-stop. The core of the program does four things:

- it scans the raw manifest text for `{name}` placeholders (`src/manifest.rs`);
- it turns a script string into a `sh -c` invocation (`src/executor.rs`);
- it derives a service's status from `enable` and the health check, and runs
  the start and stop script sequences (`src/service.rs`);
- it selects services by name, queries their status and starts the ones that
  are not running (`src/cmd.rs`).

The project has seven modules:

- `Wrappers` holds `Option`, `Result`, `Run` and the error values.
- `Seqs` holds counting and an order-preserving filter `Keep` with its
  index characterisation.
- `Manifest` holds the records and the placeholder scanner. The scanner is
  written as nested loops (`ExtractVars`) proved equal to a state-machine
  function (`ExtractVarsSpec`).
- `ManifestScan` holds an independent token reading of the text. Everything
  proved about `ExtractVarsSpec` goes through it.
- `Executor` holds the `Executor` class, string splitting and joining, and a
  `Host` class. The `Host` stands in for the operating system: it records
  every invocation in a trace and answers each one from an oracle.
- `Service` holds the status query, start and stop. Each is a method over the
  `Host`, proved equal to a function of the service, the oracle and the
  trace before the call.
- `Cmd` holds `filt_services`, `update_all_status`, `start_all_services`,
  and the service selection of `CMD::start` and `CMD::list`.

A panic (`expect` on a failed spawn, wait or missing exit code) is the value
`Panicked`. The program runs on one asynchronous task, so a panic ends the
whole command, and every caller passes `Panicked` on. An `anyhow` error
raised with `?` is `Err`.

The model follows the code as written, including where it likely departs
from what was intended:

- The placeholder accumulator is never cleared. `{A}{B}` yields `["A", "AB"]`
  (`AccumulatorExample`).
- A `}` outside braces still records the accumulator (`StrayCloseRecords`).
- A `\` escapes the next byte inside or outside braces, and the escaped byte
  always joins the accumulator. So `\{A}` yields `["{"]`, not an empty list
  (`EscapedBraceIsText`).
- An unclosed `{` is reported with the number of lines and the length of the
  last line, not at the `{` (`UnclosedReportsEndOfText`). The recorded
  `{` position is never read.
- A failed placeholder scan fails `ManifestContent::new` as a whole (`?` at
  `src/manifest.rs:31`).
- No executor in the core sets a working directory, so every script is
  spawned with the empty path `""` as its working directory, and `start` is
  given no data directory. Under the usual Unix reading, changing into `""`
  fails and the spawn fails with it; `EmptyDirectoryRefused` states what
  follows then.
- `ServiceInformation::new` keeps only the parsed name and uses the default
  manifest. Every discovered service is therefore reported `Disable`, and
  starting one asks to spawn `sh -c " "` (`DiscoveredServiceBehaviour`).

## Model

| member | source | states |
|---|---|---|
| Manifest.DefaultManifest | src/manifest.rs:4-20 | the derived `Default`: empty name and scripts, every option absent, no placeholders |
| Manifest.Lines | src/manifest.rs:49 | the lines of the text hold no line feed, and there are none exactly when the text is empty |
| ManifestScan.LinesNumber | src/manifest.rs:49 | the number of lines is the number of line feeds, plus one for an unterminated last line |
| ManifestScan.LinesCrlf | src/manifest.rs:49 | lines without a line feed, each followed by `\r\n`, come back unchanged: the `\r` before a line feed belongs to the line ending, and a `\r` of the line's own is kept |
| ManifestScan.LinesTerminated | src/manifest.rs:49 | for text without carriage returns, each line followed by a line feed gives back the text, with a line feed added after an unterminated last line |
| Manifest.ExtractVars | src/manifest.rs:36-89 | the nested line and byte loops return exactly the state-machine result `ExtractVarsSpec` of the text |
| Manifest.New | src/manifest.rs:24-34 | a parse error or a scan error is returned as is; otherwise the parsed manifest with the scanned placeholders as `vars` |
| ManifestScan.ScanLinesIsReplay | src/manifest.rs:49-80 | scanning line by line with `skip` cleared at each line start equals replaying the per-line tokens |
| ManifestScan.ExtractVarsByTokens | src/manifest.rs:49-88 | the scan result read off the token replay: an error at (line count, last line length) when a brace is left open, else the recorded entries |
| ManifestScan.ExtractVarsCount | src/manifest.rs:69-72 | every unescaped `}` adds exactly one entry |
| ManifestScan.ExtractVarsCountBytes | src/manifest.rs:69-72 | without backslashes the number of entries equals the number of `}` bytes |
| ManifestScan.ExtractVarsFails | src/manifest.rs:64-87 | the scan fails if and only if the last unescaped brace of the text is `{` |
| ManifestScan.ExtractVarsPrefixes | src/manifest.rs:48-75 | since the accumulator is never cleared, each entry is a prefix of the next |
| ManifestScan.NoLeftBraceNeverFails | src/manifest.rs:82-88 | text without `{` never fails, whatever its `}` and `\` bytes |
| ManifestScan.PlainTextCapturesNothing | src/manifest.rs:73-77 | text without braces or backslashes yields no entries |
| ManifestScan.CaptureThenText | src/manifest.rs:64-77 | `{name}` followed by plain text yields exactly `[name]` |
| ManifestScan.TwoCaptures | src/manifest.rs:48-75 | `{a}{b}` yields `[a, a+b]` |
| ManifestScan.ReopenFails | src/manifest.rs:64-87 | `{name{` fails at line 1, offset `|name| + 2` |
| ManifestScan.EscapeOutsideBraces | src/manifest.rs:56-60 | an escaped byte outside braces still joins the accumulator (`\c{name}` yields `[c+name]`) |
| ManifestScan.EscapedBraceIsText | src/manifest.rs:56-63 | `\{name}` yields `["{"]`: the escaped brace is text and the name is dropped |
| ManifestScan.StrayCloseRecords | src/manifest.rs:69-72 | a lone `}` records the empty accumulator |
| ManifestScan.EscapeStopsAtLineEnd | src/manifest.rs:49-53 | a `\` at the end of a line escapes nothing on the next line |
| ManifestScan.TwoLines | src/manifest.rs:49 | two lines joined by a line feed come back as those two lines |
| ManifestScan.UnclosedReportsEndOfText | src/manifest.rs:82-86 | an unclosed `{` over two lines is reported at line 2, at the length of the last line |
| ManifestScan.RepositoryTestCases | src/manifest.rs:94-106 | `{TEST_VAR}1122333` yields `["TEST_VAR"]`, and `{TEST_VAR{` is an error |
| ManifestScan.AccumulatorExample | src/manifest.rs:48-75 | `{A}{B}` yields `["A", "AB"]` |
| Executor.Split | src/executor.rs:63 | splitting always yields at least one piece |
| Executor.SplitPieces | src/executor.rs:63 | there is one piece more than there are separators, and no piece holds a separator |
| Executor.JoinSplit | src/executor.rs:63 | joining the pieces with the separator gives the original string back |
| Executor.SplitJoin | src/executor.rs:63 | pieces without separators split back out of their join |
| Executor.CommandLineSpaced | src/executor.rs:31-37 | the command line is the executable followed by a space and each argument |
| Executor.ScriptCommandLine | src/executor.rs:59-66 | a script run through `from` reaches the shell as a space followed by the unchanged script |
| Executor.ListRootExample | src/executor.rs:77 | `new("ls", ["/"])` runs the command line `ls /` |
| Executor.Executor.New | src/executor.rs:18-28 | keeps the executable and the arguments, with an empty working directory |
| Executor.Executor.From | src/executor.rs:59-66 | the script split on every single space is the argument list; executable and working directory are empty |
| Executor.Executor.SetCurrentDir | src/executor.rs:42-47 | replaces the working directory and nothing else |
| Executor.Executor.Command | src/executor.rs:30-39 | the command is `sh` with exactly `-c` and the joined command line, in the working directory, stdout piped |
| Executor.Executor.Exec | src/executor.rs:30-40 | spawns exactly that command once, appending it to the trace, and its outcome is the oracle's answer |
| Executor.Host.Run | src/executor.rs:34-39 | appends one invocation to the trace and answers from the oracle given the earlier trace |
| Service.DefaultStatus | src/service.rs:34-38 | `ServiceStatus::default()` is `Unknow` |
| Service.NewService | src/service.rs:41-55 | read or parse errors propagate; the name is kept, the status is `Unknow`, the manifest is the default one |
| Service.ScriptInvocationText | src/service.rs:62 | a script is spawned as `sh -c " " + script` with an empty working directory |
| Service.UpdateStatusSpec | src/service.rs:57-86 | without `enable = true`: `Disable`, nothing spawned; otherwise one health check: `Start` iff exit code 0, `Stop` iff another code, panic iff no code or failure; only the status changes, never to `Unknow` |
| Service.UpdateStatus | src/service.rs:57-86 | its result and trace are those of `UpdateStatusSpec` |
| Service.Last | src/service.rs:99-109 | the script is spawned once; a pass is the success value, a nonzero code is reported with that code, a failed spawn or wait is `Err(SpawnError)` or `Err(WaitError)`, no code panics |
| Service.StartSpec | src/service.rs:88-110 | pre-start, when present, is spawned first; unless it passes, start is never spawned and its outcome is reported (`PreStartFailed(code)` for a nonzero code, `Err` for a failed spawn or wait, a panic for no code); otherwise start is spawned and reported the same way with `StartFailed(code)`; `Success` exactly when every script spawned passed |
| Service.StartService | src/service.rs:88-110 | its result and trace are those of `StartSpec` |
| Service.StopSpec | src/service.rs:112-132 | stop, when present, is spawned first; unless it passes, post-stop is never spawned and its outcome is reported (`StopFailed(code)`, `Err` for a failed spawn or wait, a panic for no code); otherwise the result is `PostStop` on the trace after it; `Success` exactly when every script spawned passed |
| Service.PostStop | src/service.rs:122-131 | an absent post-stop script is `Success` with no spawn; a present one spawns once: `Success` exactly when it passes, `PostStopFailed(code)` for a nonzero code, `Err` for a failed spawn or wait, a panic for no code |
| Service.StopService | src/service.rs:112-132 | its result and trace are those of `StopSpec` |
| Service.EmptyDirectoryRefused | src/executor.rs:34-35 | if every spawn in the directory `""` fails, an enabled service's status query panics, start fails with `Err(SpawnError)` on its first script, and stop does too unless it has no script |
| Service.DiscoveredServiceBehaviour | src/service.rs:51-54 | a discovered service reports `Disable` without spawning, and starting it asks to spawn exactly `sh -c " "` |
| Seqs.KeepMembers | src/cmd.rs:238 | the kept elements all satisfy the predicate and come from the input, and every satisfying input element is kept |
| Seqs.KeepInOrder | src/cmd.rs:238 | the kept elements are the input at strictly increasing positions, containing every position whose element satisfies the predicate |
| Cmd.FiltServices | src/cmd.rs:234-241 | the `retain` loop returns exactly `Keep` of the services by name |
| Cmd.NoNamesSelectNothing | src/cmd.rs:238 | with no names, no service is selected |
| Cmd.CmdList | src/cmd.rs:19-39 | no argument lists every discovered service; an argument lists the selected ones; an empty argument lists none |
| Cmd.UpdateAll | src/cmd.rs:194-202 | on return, one refreshed service per input, and the trace grew by exactly the enabled services' health checks in input order |
| Cmd.UpdateAllElement | src/cmd.rs:197-199 | element `i` is `update_status` of input `i`, run after the health checks of the inputs before it |
| Cmd.UpdateAllRefreshes | src/cmd.rs:194-202 | each refreshed service keeps its input's name and manifest and has a known status |
| Cmd.UpdateAllDisabled | src/cmd.rs:194-202 | with no enabled service nothing is spawned and every service is reported `Disable` |
| Cmd.UpdateAllReturns | src/cmd.rs:194-202 | the query of a list returns exactly when `update_status` returns for every service, each run after the health checks of those before it |
| Cmd.UpdateAllCompletes | src/cmd.rs:194-202 | when every process can be spawned and reports an exit code, the query of a list returns |
| Cmd.UpdateAllStatus | src/cmd.rs:194-202 | its result and trace are those of `UpdateAll` |
| Cmd.StartEach | src/cmd.rs:215-222 | on return, one pair per service, whose first component is that service |
| Cmd.StartEachElement | src/cmd.rs:217-222 | pair `i` holds `start` of service `i`, run after the services before it were started |
| Cmd.StartEachReturns | src/cmd.rs:215-222 | starting a list returns exactly when `start` returns for every service, each run after the services before it: errors and failure codes are recorded and the loop goes on |
| Cmd.StartCompletes | src/service.rs:88-110 | when no process ends without an exit code, `start` returns, failed spawns and waits included as errors |
| Cmd.StartEachCompletes | src/cmd.rs:215-222 | when no process ends without an exit code, starting a list returns: one service's error does not stop the others |
| Cmd.StartAll | src/cmd.rs:204-225 | the inputs' health checks are spawned first, and on return there is one pair per input |
| Cmd.StartAllElement | src/cmd.rs:204-225 | pair `i` is `(after[i], start(after[i]))` with `after[i]` input `i` queried again, same name and manifest |
| Cmd.StartAllReturns | src/cmd.rs:204-225 | `start_all_services` returns exactly when every re-query returns and then every start returns |
| Cmd.StartAllServices | src/cmd.rs:204-225 | its result and trace are those of `StartAll` |
| Cmd.CmdStartSpec | src/cmd.rs:40-59 | selecting, querying, dropping running services and starting the rest only extends the trace |
| Cmd.CmdStart | src/cmd.rs:40-59 | its result and trace are those of `CmdStartSpec` |
| Cmd.CmdStartCompletes | src/cmd.rs:40-59 | when every process can be spawned and reports an exit code, `CMD::start` reaches its rendering, whatever the codes |
| Cmd.CmdStartWithoutNames | src/cmd.rs:41-51 | without names (absent or empty), nothing is spawned and nothing is started |
| Cmd.PendingNamed | src/cmd.rs:53-57 | every service passed on for starting was named and was not `Start` at the first query |
| Cmd.CmdStartShape | src/cmd.rs:51-59 | every started service was named and not running, in discovered order; health checks run for the selected services, then again for the pending ones, before any start script; the result is `StartAll` of the pending services, so `StartAllElement` gives each start result |

## Left out

- Reading manifest files and TOML parsing are not modelled. `New` and `NewService` take the parse outcome as a parameter.
- Directory discovery (`src/work.rs`), templates (`src/template.rs`) and the command-line parser (`src/main.rs`) are not part of this model. The discovered services are a parameter of `CmdList` and `CmdStart`.
- Rendering is not modelled: the tables and the JSON output of `CMD::start`, `print` and `into_status_table`, as I/O. `CMD::start` is modelled up to the list of pairs it renders.
- The `template` subcommand is not modelled (`src/cmd.rs:94-177`), because it only creates directories and files.
- The empty stubs `stop`, `status`, `create`, `delete` and `init` do nothing, so they are not modelled. `health_check` is `todo!()`.
- `Display` implementations are not modelled, because they only format text.
- Processes are not executed. Spawning and waiting are answered by the oracle, which sees the whole earlier trace.
- The oracle always answers, so a script that never exits is outside the model. So is a child that blocks writing to its piped standard output, which nobody reads (`src/executor.rs:38`): the model treats every spawned process as ending.
- The oracle decides what the empty working directory `""` means. On Unix, changing into `""` fails, so the oracle to expect answers `SpawnFailed` for every invocation with `dir == ""`, and then nothing the core spawns runs (`EmptyDirectoryRefused`). The other oracles are kept because the model is about the scripts' outcomes, not the OS.
- `CMD::start` reads the argument `services` (`src/cmd.rs:42-44`), but the command line declares `--service` for `start` (`src/main.rs:22,44`). So under the program's own parser the name list is always empty, and only `CmdStartWithoutNames` describes a reachable run. `main.rs` is not part of this model, so `CmdStart` takes the name list as a parameter.
- `Lines` follows `str::lines` in current Rust toolchains: only `\r\n` and `\n` end a line, and a bare `\r` at the end of the last line is kept. Older toolchains also dropped that `\r`; only the reported offset would differ.
- `output_reader` is not modelled beyond the stdout pipe flag. It takes the piped stdout, which is always present, and the reader is dropped unread.
- Asynchrony is not modelled. All `await`s run in order on one task.
- pre-start is waited on twice. The second wait returns the status the first one collected, so the model waits once.
- Exit codes are unbounded integers, not `i32`.
- The text of error messages is not modelled. Only the line and offset of `UnbalancedBrace` are.
- `Executor.Executor.Exec`: `to_str().unwrap()` on the executable is not modelled, because the executable is always a string here.
- Cmd.StartAllServices calls `UpdateAllStatus` instead of repeating its loop, as `start_all_services` does. The two loops are identical.
- Cmd.CmdStartSpec: its own contract states only that the trace grows. What the command does is stated by `CmdStartWithoutNames` and `CmdStartShape`.
