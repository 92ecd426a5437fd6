# 0-shell core, modelled in Dafny

This project models the deterministic core of `0-shell`, a small Unix shell written in Rust.
It covers:

- **Command-line front end.** The double-quote-aware whitespace tokenizer (`tokenize`) and the
  line parser (`parse_line`), which splits on `;`, detects a trailing `&` and separates the command
  name from its arguments.
- **Builtins.** Builtin-name membership, the dispatch routing (`exit` gives `EXIT_SIGNAL`, an
  unknown name 127), the `ls` flag parser and the argument handling of `echo`, `cd`, `mkdir`,
  `cp`, `mv`, `rm`, `sleep` and `read`.
- **Listing helpers.** `is_hidden` and the hidden-entry filter of `ls`, the permission string of `ls -l` (both platform variants) and
  the `ls -F` suffix.
- **Expansion.** `$NAME` expansion against the shell variables and the process environment, and
  `~/` expansion against `HOME`.
- **Jobs.** The job records, `Job::summary` and the `jobs` listing formatter.
- **Functions.** The shell-function table.
- **Execution.** The foreground wait loop, the `PATH` search of `which`, the return codes of
  `run_external`, and the builtins-first routing of `run_parsed_command`.
- **Scripts.** The script runner `run_script_string`.

Code that works by changing variables step by step is modelled as methods with loops:
`tokenize`, `parse_line`, `parse_ls_flags`, the entry loop of `ls`, the `rm` partition, `format_jobs_simple`,
`wait_foreground`, `which` and `run_script_string`. Each method is proved equal to a function
that specifies it, and the lemmas state what the source promises about that function.
`FunctionTable` is a class whose `bodies` map is updated in place.
Pure code is modelled as functions with lemmas.

Everything the operating system answers is a parameter:

- the shell variables and the environment (maps);
- `HOME` and `PATH` (optional strings);
- file metadata (a function from paths to optional metadata);
- the result of `fork`;
- the successive results of `waitpid` (a finite sequence);
- the effect of each builtin's body (a function from builtin and arguments to a result);
- the execution of a command inside a script (a state-passing function).

Strings are sequences of Unicode scalar values. Whitespace is Rust's `char::is_whitespace`, the
Unicode White_Space set. Mode bits are `bv32`, like the source's `u32`. `u64` parsing and
decimal printing are modelled exactly, since `sleep` reads a `u64` and the job listing prints ids.

Where the code and its design description disagree, the model follows the code:

- A failing `fork` propagates as an error from `run_external`. The design says the parent returns
  127.
- A wait error ends `wait_foreground` with status 1 and no job update. The design says the
  operation aborts.
- `format_jobs_simple` reads a `current` field that `Job` does not have. The model uses
  `Job.is_current`, the field the record declares.

## Model

| member | source | states |
|---|---|---|
| Text.TrimEmptyIffBlank | src/shell/parser/grammar.rs:14-15 | a segment trims to the empty string exactly when all of its characters are whitespace |
| Text.SplitCount | src/shell/parser/grammar.rs:13 | splitting on `;` gives one more segment than the line has `;` characters |
| Text.JoinSplit | src/shell/parser/grammar.rs:13 | the segments of a split, joined by the separator, give back the line |
| Text.SplitAppend | src/shell/parser/grammar.rs:13 | a separator splits the text into the pieces on either side of it, whatever surrounds it |
| Text.SplitJoin | src/shell/scripting/runner.rs:13 | pieces without the separator, joined by it, split back into the same pieces |
| Text.StripSuffix | src/shell/exec/builtins.rs:277 | one trailing character removed if present, the text unchanged otherwise; `read` uses it for the newline, and `str::lines` in the script runner for a carriage return before a newline |
| Text.PadRight | src/shell/jobs/format.rs:12 | `{:<10}` padding: the text followed by spaces up to the width, never truncated |
| Text.TrimPadding | src/shell/jobs/format.rs:12 | trimming trailing spaces from the padded state word gives the word back |
| Decimal.ParseU64NatToString | src/shell/exec/builtins.rs:264 | every `u64` printed in decimal parses back to itself |
| Decimal.ParseU64RejectsNonDigit | src/shell/exec/builtins.rs:264 | text with a non-digit anywhere, other than a `+` in first place, does not parse as a `u64` |
| Decimal.ValueOfNatToString | src/shell/jobs/format.rs:12 | the printed digits of a job id denote that id |
| Lexer.Tokenize | src/shell/parser/lexer.rs:2-22 | the tokenizer's loop returns the tokens of its input; no token is empty or holds a quote; the tokens concatenated are the input without its quotes and its unquoted whitespace |
| Lexer.TokensFacts | src/shell/parser/lexer.rs:7-21 | tokens are never empty and never hold `"`; their concatenation is exactly the kept characters |
| Lexer.RunAppend | src/shell/parser/lexer.rs:7-17 | the tokenizer reads its input one character at a time, so reading `a + b` is reading `a` then `b` |
| Lexer.TokensOfWord | src/shell/parser/lexer.rs:7-21 | a non-empty word without quotes or whitespace is exactly one token |
| Lexer.TokensOfQuoted | src/shell/parser/lexer.rs:9-15 | whitespace between quotes stays in the token, and the quotes are dropped |
| Lexer.TokensOfUnclosedQuote | src/shell/parser/lexer.rs:18-20 | text after an unbalanced quote is still emitted as a final token |
| Lexer.TokensOfBlank | src/shell/parser/lexer.rs:10-13 | an empty or all-whitespace input has no tokens |
| Lexer.TokensSeparated | src/shell/parser/lexer.rs:10-14 | whitespace outside quotes separates: the tokens of `a c b` are those of `a` followed by those of `b` |
| Grammar.ParseLine | src/shell/parser/grammar.rs:11-32 | the parser's loop yields one command per segment that has a token, in segment order, and never more commands than segments |
| Grammar.SegmentMeaning | src/shell/parser/grammar.rs:13-29 | a segment yields a command exactly when its stripped text has a token; `[cmd] + args` are those tokens; `background` holds exactly when the trimmed segment ends with `&` |
| Grammar.CommandsAppend | src/shell/parser/grammar.rs:13 | `;` splits the line even inside double quotes, because splitting comes before tokenizing |
| Grammar.CommandsBound | src/shell/parser/grammar.rs:13-29 | a line never yields more commands than it has segments |
| Grammar.TrailingAmpersands | src/shell/parser/grammar.rs:17-26 | every trailing `&` is stripped before tokenizing, so `w &&` for a word `w` is command `w`, no arguments, in the background |
| Grammar.LoneAmpersand | src/shell/parser/grammar.rs:21-24 | a lone `&` tokenizes to nothing and yields no command |
| Builtins.DispatchAgreesWithIsBuiltin | src/shell/exec/builtins.rs:8-46 | `dispatch_builtin` handles exactly the sixteen names `is_builtin` accepts, and each builtin is reached by its own name |
| Builtins.DispatchBuiltin | src/shell/exec/builtins.rs:16-46 | `exit` returns `EXIT_SIGNAL`, a name that is not a builtin returns 127, and every other builtin returns what its handler returns |
| Builtins.EchoArguments | src/shell/exec/builtins.rs:48-52 | `echo` prints arguments that do not start with `$` unchanged, one space apart |
| Builtins.EchoVariables | src/shell/exec/builtins.rs:48-52 | `echo` prints `$NAME` arguments as the values of their names (shell variable, else environment variable, else empty), one space apart |
| Builtins.EchoAppend | src/shell/exec/builtins.rs:48-52 | each argument is expanded on its own: echoing two non-empty argument lists together is echoing each, with one space between |
| Builtins.CdTarget | src/shell/exec/builtins.rs:60-65 | `cd` goes to its first argument, else to `HOME`, else to `/` |
| Builtins.MkdirOperands | src/shell/exec/builtins.rs:73-77 | `mkdir` is refused exactly when it has no operand, with status 1; otherwise every argument is an operand |
| Builtins.TwoOperands | src/shell/exec/builtins.rs:193-198 | `cp` (and `mv`, lines 247-252) fail with status 1 unless given exactly a source and a destination |
| Builtins.SleepSeconds | src/shell/exec/builtins.rs:264 | `sleep` waits for the value of its first argument read as a `u64`, or 1 second when it is missing or does not parse |
| Builtins.SleepSecondsOfMalformed | src/shell/exec/builtins.rs:264 | `sleep` with a stray non-digit in its first argument (such as `2s`) waits 1 second |
| Builtins.SleepSecondsOfNumber | src/shell/exec/builtins.rs:264 | `sleep n` waits `n` seconds for every `u64` written in decimal |
| Builtins.StripOneNewline | src/shell/exec/builtins.rs:277 | `read` strips exactly one trailing newline: a line keeps every newline before it |
| Builtins.ReadInto | src/shell/exec/builtins.rs:269-280 | `read` without a name fails with status 1 and changes no variable; with a name it succeeds and binds the name to the stripped line |
| Builtins.LsTargets | src/shell/exec/builtins.rs:111 | `ls` lists its operands, or `.` when it has none |
| Builtins.LsListsOperands | src/shell/exec/builtins.rs:110-111 | every path `ls` lists is a non-flag argument, or `.` when all arguments are flag groups |
| Builtins.ParseLsFlags | src/shell/exec/builtins.rs:87-107 | `long`, `all` and `classify` hold exactly when some flag group holds `l`, `a` or `F` after its `-`; `rest` is the non-flag arguments in order |
| Builtins.HasFlagSnoc | src/shell/exec/builtins.rs:92-101 | one more argument sets a flag exactly when it is a flag group holding that letter |
| Builtins.NonFlagsMembers | src/shell/exec/builtins.rs:92-105 | an argument is an operand exactly when it is not a flag group; a lone `-` is an operand |
| Builtins.ListEntries | src/shell/exec/builtins.rs:134-137 | the loop over a directory's entries lists them in order, skipping hidden ones unless `-a` was given |
| Builtins.VisibleMembers | src/shell/exec/builtins.rs:134-137 | with `-a` every entry is listed; without it the listed entries are exactly those that are not hidden |
| Builtins.RmArgs | src/shell/exec/builtins.rs:214-227 | `rm` without operands fails with status 1; otherwise `recursive` holds exactly when `-r` is present and the targets are the other arguments in order |
| Builtins.WithoutMembers | src/shell/exec/builtins.rs:221-227 | the targets of `rm` are exactly the arguments other than `-r` |
| FileOps.HiddenNames | src/shell/exec/fileops.rs:5-7 | a name is hidden exactly when it is a dot followed by anything (so `.` and `..` are); the empty name is not |
| FileOps.ModeTriplet | src/shell/exec/fileops.rs:10-17 | a permission triplet is three characters: `r`, `w` and `x` exactly for the 4, 2 and 1 bits, `-` otherwise |
| FileOps.ModeString | src/shell/exec/fileops.rs:20-28 | the permission string has ten characters and starts with `d` exactly for a directory |
| FileOps.ModeStringAt | src/shell/exec/fileops.rs:23-27 | characters 1-3, 4-6 and 7-9 show `r`, `w`, `x` exactly for mode bits 8-6, 5-3 and 2-0 |
| FileOps.ModeStringLowBits | src/shell/exec/fileops.rs:23 | only the low nine mode bits are shown |
| FileOps.ModeStringRoundTrip | src/shell/exec/fileops.rs:20-28 | reading the letters of the permission string back gives the low nine mode bits |
| FileOps.ModeStringPlain | src/shell/exec/fileops.rs:31-35 | without Unix permissions the string is `d---------` or `----------` |
| FileOps.ClassifySuffix | src/shell/exec/fileops.rs:38-47 | `/` for a directory; otherwise `*` exactly when the metadata lookup succeeds with an execute bit set, and the empty string else |
| FileOps.ClassifySuffixPlain | src/shell/exec/fileops.rs:50-53 | without Unix permissions the suffix is `/` exactly for a directory, and empty otherwise |
| Env.Lookup | src/shell/exec/env.rs:8-12 | a shell variable wins over an environment variable, and an unset name is the empty string |
| Env.ExpandVars | src/shell/exec/env.rs:5-17 | the output has one token per input token, each expanded on its own |
| Env.ExpandPlain | src/shell/exec/env.rs:13-15 | a token that does not start with `$` is returned unchanged |
| Env.OneDollarStripped | src/shell/exec/env.rs:7 | only the first `$` is stripped and the whole remainder is the name; a bare `$` names the empty variable |
| Env.ShellVarsFirst | src/shell/exec/env.rs:8-9 | `$NAME` is the shell variable when there is one |
| Env.EnvFallback | src/shell/exec/env.rs:10-11 | without a shell variable `$NAME` is the environment variable, or empty when unset |
| Env.ExpandAppend | src/shell/exec/env.rs:6-16 | expansion works token by token, so it distributes over concatenation |
| Env.ExpandIdempotent | src/shell/exec/env.rs:5-17 | when no value starts with `$`, expanding twice is expanding once |
| PathUtil.JoinPath | src/shell/util/path.rs:8 | `PathBuf::join`: an absolute remainder replaces the base; otherwise a single `/` separates them |
| PathUtil.ExpandTilde | src/shell/util/path.rs:5-12 | a path without the `~/` prefix, or with `HOME` unset, is returned unchanged |
| PathUtil.TildeReplacedByHome | src/shell/util/path.rs:6-8 | with `HOME` set, `~/rest` becomes `HOME/rest` when `HOME` does not end in `/`, `HOME` followed directly by `rest` when `HOME` is empty or ends in `/`, and `rest` alone when `rest` is absolute |
| PathUtil.BareTildeUnchanged | src/shell/util/path.rs:6-11 | a bare `~` is not expanded |
| Jobs.Summary | src/shell/jobs/job.rs:24-27 | the summary is the first process's command line, or the empty string without processes |
| Jobs.SummaryDependsOnFirstProcess | src/shell/jobs/job.rs:24-27 | the summary ignores the id, the group, the state, the current marker and every later process |
| JobFormat.FormatJobsSimple | src/shell/jobs/format.rs:3-15 | the formatter's loop produces the listing: one line per job, in order |
| JobFormat.FormatJobsLines | src/shell/jobs/format.rs:4-14 | when no summary spans lines, the listing splits at its newlines into exactly the jobs' lines, in order, with nothing after the last newline |
| JobFormat.FormatJobsLineCount | src/shell/jobs/format.rs:4-14 | the listing has one newline per job, and no jobs give the empty string |
| JobFormat.ParseLineBody | src/shell/jobs/format.rs:6-12 | every line reads back as the job's id, current marker (`+` or a space), state word and summary, at fixed columns |
| JobFormat.StateWordInjective | src/shell/jobs/format.rs:7-11 | the three states print three distinct words |
| Functions.FunctionTable.constructor | src/shell/scripting/functions.rs:5-8 | a new table defines no function |
| Functions.FunctionTable.Get | src/shell/scripting/functions.rs:14-16 | `get` returns the body defined for the name, if any, and changes nothing |
| Functions.FunctionTable.Define | src/shell/scripting/functions.rs:11-13 | `define` binds the name to the body, replacing an earlier body, and leaves every other name as it was |
| Exec.WaitForeground | src/shell/exec/mod.rs:148-174 | the wait loop applies the updates and returns the status that the wait results determine |
| Exec.WaitConcludesAtFirst | src/shell/exec/mod.rs:150-172 | the first `Exited`, `Signaled`, `Stopped` or error result decides the status (`code`, 128, 0 or 1); each earlier `Continued` marks the job running; later results are never read |
| Exec.WaitBlocked | src/shell/exec/mod.rs:164-167 | while only `Continued` and other results arrive, the shell keeps waiting, marking the job running once per `Continued` |
| Exec.WaitUpdatesOwnJob | src/shell/exec/mod.rs:152-165 | every update names the waited-for group, and only the last can end or suspend it |
| Exec.SlashNameIgnoresPath | src/shell/exec/mod.rs:62-67 | a name holding a `/` is never searched on `PATH`: it resolves to itself exactly when something exists there, whatever `PATH` is |
| Exec.Which | src/shell/exec/mod.rs:61-82 | the search loop returns the program `which` finds |
| Exec.FirstRunnableMeaning | src/shell/exec/mod.rs:69-81 | the search returns the candidate of the first `PATH` entry, in order, that is a regular file with an execute bit, and nothing exactly when there is no such entry |
| Exec.FoundIsRunnable | src/shell/exec/mod.rs:72-76 | a program found on `PATH` is a regular file with an execute bit |
| Exec.RunExternal | src/shell/exec/mod.rs:86-145 | an unknown command returns 127 and registers no job; a fork failure is an error; a launched job is registered under its process group; a background launch returns 0 without waiting; a foreground launch returns the status and applies the updates of the wait loop on the child; every update is about the launched job |
| Exec.ForegroundExitStatus | src/shell/exec/mod.rs:136-141 | a foreground command that exits with a code returns that code and marks its job terminated with it |
| Exec.ForkedCommandIsRegistered | src/shell/exec/mod.rs:126-131 | a command found and forked is registered as a job before any wait |
| Exec.RunParsedCommand | src/shell/exec/mod.rs:21-38 | builtins are dispatched before any external lookup; elsewhere than Unix a non-builtin returns 127 |
| Exec.BuiltinsRunInForeground | src/shell/exec/mod.rs:23-25 | a builtin never becomes a job and a trailing `&` on it is ignored; `exit` gives `EXIT_SIGNAL` |
| Runner.Lines | src/shell/scripting/runner.rs:13 | the lines are the newline-separated pieces, without a final empty piece; a piece ended by a newline loses one carriage return before it, an unterminated last piece is kept whole; no line holds a newline |
| Runner.UnterminatedLineKeepsReturn | src/shell/scripting/runner.rs:13 | a last line with no newline after it keeps its trailing carriage return |
| Runner.TerminatedLineDropsReturn | src/shell/scripting/runner.rs:13 | a line ended by carriage return and newline is read without either |
| Runner.LinesOfText | src/shell/scripting/runner.rs:13 | lines written one after another, each ending in a newline, are read back as they were |
| Runner.RunCommandsAppend | src/shell/scripting/runner.rs:13-25 | running two command lists in turn is running their concatenation; a finished run ignores the rest |
| Runner.RunLine | src/shell/scripting/runner.rs:19-24 | the inner loop runs a line's commands in order until one fails or returns `EXIT_SIGNAL` |
| Runner.RunScriptString | src/shell/scripting/runner.rs:11-27 | the runner's loops return the state and result that running the script's commands gives |
| Runner.SkippedLinesRunNothing | src/shell/scripting/runner.rs:14-17 | blank lines and lines starting with `#` run nothing |
| Runner.EmptyScript | src/shell/scripting/runner.rs:12-26 | a script with no command lines returns 0 and leaves the state unchanged |
| Runner.ExitStopsScript | src/shell/scripting/runner.rs:21-23 | a command returning `EXIT_SIGNAL` ends the script with 0, and no later command runs |
| Runner.ErrorStopsScript | src/shell/scripting/runner.rs:20 | an error from a command ends the script with that error, and no later command runs |
| Runner.LastStatusWins | src/shell/scripting/runner.rs:20-26 | a script that runs to its end returns the status of its last command |
| Runner.LineCommandsAppend | src/shell/scripting/runner.rs:13-25 | the commands of consecutive lines are those of the first lines followed by those of the rest |

## Left out

- The job table (`add_job`, `apply_update`, `UpdateKind`) is not part of this model; its module is absent. Registration is recorded as a `JobRecord` and wait updates as a list of `Update`s.
- The job-control builtins `jobs`, `fg`, `bg` and `kill` (`src/shell/jobs/control.rs`) are placeholders. They are reached through the builtin handler parameter.
- `fork`, `execve`, `setpgid` and `waitpid` are system calls. Their answers are parameters. A child whose `execve` fails exits with 127, which reaches the model as an `Exited(127)` wait result.
- Terminal hand-off and the signal handlers: `give_terminal_to` (src/shell/signals/tty.rs) and the signal handlers are stubs in the source, and `give_terminal_back_to_shell` is called (src/shell/exec/mod.rs:140) but not defined in the source; none has an observable effect here.
- `maybe_reap` is a non-blocking polling loop that feeds the absent job table.
- The file-system bodies of the builtins are I/O: listing directories and sorting them by OS file name (the sorted names are the input of `Builtins.ListEntries`), `cat`, the copying and removal of `cp`/`mv`/`rm`, directory creation, `cd`, `pwd`, the thread sleep and stdin reads. The argument checks listed in the table are modelled; what the bodies then do with the file system is not.
- `cat` without operands copies standard input to standard output (src/shell/exec/builtins.rs:172-177). That is I/O only and is not modelled.
- Exec.RunExternal: does not model the argv/envp building (src/shell/exec/mod.rs:100-104). `CString::new(..).unwrap()` panics, ending the shell, when the program path, an argument or an environment entry holds a NUL character; the model treats every string as passable to `execve`.
- Printing is left out: error messages, `echo`'s trailing newline, and the `[id] pid` line of a background launch.
- Exec.WaitForeground: the wait results are a finite sequence. When it runs out before a concluding result, the status is `None`, standing for a shell that is still blocked.
- `Job.id` is a `usize` and `pgid` an `i32` in the source. The model uses unbounded integers. Job-line parsing is stated for ids below 2^64.
- The REPL, input, prompt and print helpers, `main`, the `Shell` aggregate, the prelude and `util/time.rs` are plumbing, I/O or clock reads.
- PathUtil.JoinPath models Unix `PathBuf::join` on strings. Windows path semantics are left out.
- Runner.RunScriptString: each command's effect on the shell is an abstract state-passing function, so variables, functions and jobs are not modelled inside the runner.
