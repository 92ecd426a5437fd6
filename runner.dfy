/** Running a script held in a string: line by line, skipping blank lines
    and comments, each line parsed into commands that run in order until one
    fails or asks the shell to exit.

    The shell's state (variables, functions, jobs, working directory) is a
    value of type `S` that each command may change; `exec` stands for
    `run_parsed_command`. */
module Runner {
  import opened Base
  import opened Text
  import opened Status
  import opened Grammar

  /** `str::lines`: the pieces between newlines; a piece that a newline ends
      loses one carriage return before it, a last piece with no newline after
      it is kept whole, and an empty last piece is no line at all. */
  function Lines(src: string): (lines: seq<string>)
    ensures var parts := Split(src, '\n');
      && |lines| == (if parts[|parts| - 1] == [] then |parts| - 1 else |parts|)
      && (forall i :: 0 <= i < |parts| - 1 ==> lines[i] == StripSuffix(parts[i], '\r'))
      && (parts[|parts| - 1] != [] ==> lines[|parts| - 1] == parts[|parts| - 1])
    ensures forall i :: 0 <= i < |lines| ==> '\n' !in lines[i]
  {
    var parts := Split(src, '\n');
    var n := |parts| - 1;
    var ended := Ended(parts[..n]);
    assert forall i :: 0 <= i <= n ==> parts[i] in parts;
    if parts[n] == [] then ended else ended + [parts[n]]
  }

  /** The pieces a newline ended, each without one carriage return. */
  function Ended(pieces: seq<string>): (lines: seq<string>)
    ensures |lines| == |pieces|
    ensures forall i :: 0 <= i < |pieces| ==> lines[i] == StripSuffix(pieces[i], '\r') && lines[i] <= pieces[i]
  {
    seq(|pieces|, i requires 0 <= i < |pieces| => StripSuffix(pieces[i], '\r'))
  }

  /** Text of lines each ended by a newline splits into those lines and a
      final empty piece. */
  lemma SplitOfText(ls: seq<string>)
    requires ls != []
    requires forall i :: 0 <= i < |ls| ==> '\n' !in ls[i]
    ensures Split(Join(ls, '\n') + "\n", '\n') == ls + [[]]
  {
    var text := Join(ls, '\n');
    SplitJoin(ls, '\n');
    assert text + "\n" == text + ['\n'] + [];
    SplitAppend(text, '\n', []);
  }

  /** Lines written one after another, each ending in a newline, are read
      back as they were. */
  lemma LinesOfText(ls: seq<string>)
    requires ls != []
    requires forall i :: 0 <= i < |ls| ==> '\n' !in ls[i] && !EndsWith(ls[i], '\r')
    ensures Lines(Join(ls, '\n') + "\n") == ls
  {
    SplitOfText(ls);
    var parts := Split(Join(ls, '\n') + "\n", '\n');
    var lines := Lines(Join(ls, '\n') + "\n");
    forall i | 0 <= i < |ls|
      ensures lines[i] == ls[i]
    {
      assert parts[i] == ls[i];
    }
  }

  /** A last line with no newline after it keeps a trailing carriage return:
      only the `\r\n` pair ends a line. */
  lemma UnterminatedLineKeepsReturn(line: string)
    requires '\n' !in line
    ensures Lines(line + "\r") == [line + "\r"]
  {
    SplitNoSep(line + "\r", '\n');
  }

  /** The same line followed by a newline loses the carriage return. */
  lemma TerminatedLineDropsReturn(line: string)
    requires '\n' !in line
    ensures Lines(line + "\r\n") == [line]
  {
    SplitNoSep(line + "\r", '\n');
    assert line + "\r\n" == (line + "\r") + ['\n'] + [];
    SplitAppend(line + "\r", '\n', []);
    assert Split(line + "\r\n", '\n') == [line + "\r", []];
  }

  /** A line that runs nothing: empty after trimming, or a comment. */
  predicate Skipped(line: string) {
    Trim(line) == [] || StartsWith(Trim(line), '#')
  }

  /** The commands of the lines, in order. */
  function LineCommands(lines: seq<string>): seq<ParsedCommand>
    decreases |lines|
  {
    if lines == [] then []
    else (if Skipped(lines[0]) then [] else Commands(Trim(lines[0]))) + LineCommands(lines[1..])
  }

  /** The commands of a script. */
  function ScriptCommands(src: string): seq<ParsedCommand> {
    LineCommands(Lines(src))
  }

  /** Where a run stands: still going, with the state and the last status, or
      finished, with the state and the result. */
  datatype Progress<S> = Going(st: S, last: int) | Done(st: S, result: Result<int>)

  /** Running `cmds` from `p`: an error is returned at once, `EXIT_SIGNAL`
      ends the run with status 0, and any other status becomes the last
      status. */
  function RunCommands<S>(p: Progress<S>, cmds: seq<ParsedCommand>,
                          exec: (S, ParsedCommand) -> (S, Result<int>)): Progress<S>
    decreases |cmds|
  {
    if p.Done? || cmds == [] then p
    else
      var (st, res) := exec(p.st, cmds[0]);
      var next :=
        if res.Err? then Done(st, Err(res.error))
        else if res.value == EXIT_SIGNAL then Done(st, Ok(OK))
        else Going(st, res.value);
      RunCommands(next, cmds[1..], exec)
  }

  /** The state and the result a finished or exhausted run leaves. */
  function Finish<S>(p: Progress<S>): (S, Result<int>) {
    if p.Going? then (p.st, Ok(p.last)) else (p.st, p.result)
  }

  /** The state and the result of running the script `src` from state `st`. */
  function RunScript<S>(src: string, st: S, exec: (S, ParsedCommand) -> (S, Result<int>)): (S, Result<int>) {
    Finish(RunCommands(Going(st, OK), ScriptCommands(src), exec))
  }

  /** Running two command lists one after the other is running their
      concatenation; a finished run ignores the rest. */
  lemma {:induction false} RunCommandsAppend<S>(p: Progress<S>, a: seq<ParsedCommand>, b: seq<ParsedCommand>,
                                                exec: (S, ParsedCommand) -> (S, Result<int>))
    ensures RunCommands(p, a + b, exec) == RunCommands(RunCommands(p, a, exec), b, exec)
    decreases |a|
  {
    if p.Going? && a != [] {
      assert (a + b)[0] == a[0] && (a + b)[1..] == a[1..] + b;
      var (st, res) := exec(p.st, a[0]);
      var next :=
        if res.Err? then Done(st, Err(res.error))
        else if res.value == EXIT_SIGNAL then Done(st, Ok(OK))
        else Going(st, res.value);
      RunCommandsAppend(next, a[1..], b, exec);
    } else if a == [] {
      assert a + b == b;
    }
  }

  /** The inner loop of `run_script_string`: the commands of one line, run
      in order until one fails or asks the shell to exit. */
  method RunLine<S>(st0: S, last0: int, cmds: seq<ParsedCommand>, exec: (S, ParsedCommand) -> (S, Result<int>))
    returns (p: Progress<S>)
    ensures p == RunCommands(Going(st0, last0), cmds, exec)
  {
    var st, last := st0, last0;
    assert cmds[0..] == cmds;
    for j := 0 to |cmds|
      invariant RunCommands(Going(st0, last0), cmds, exec) == RunCommands(Going(st, last), cmds[j..], exec)
    {
      assert cmds[j..][0] == cmds[j] && cmds[j..][1..] == cmds[j + 1..];
      var step := exec(st, cmds[j]);
      var res := step.1;
      st := step.0;
      if res.Err? {
        return Done(st, Err(res.error));
      }
      last := res.value;
      if last == EXIT_SIGNAL {
        return Done(st, Ok(OK));
      }
    }
    assert cmds[|cmds|..] == [];
    p := Going(st, last);
  }

  lemma LineCommandsAt(lines: seq<string>, i: nat)
    requires i < |lines|
    ensures LineCommands(lines[i..]) ==
      (if Skipped(lines[i]) then [] else Commands(Trim(lines[i]))) + LineCommands(lines[i + 1..])
  {
    assert lines[i..][0] == lines[i] && lines[i..][1..] == lines[i + 1..];
  }

  /** `run_script_string`: a loop over the lines, skipping blank and comment
      lines and running the commands `parse_line` finds on the others. */
  method RunScriptString<S>(src: string, st0: S, exec: (S, ParsedCommand) -> (S, Result<int>))
    returns (st: S, r: Result<int>)
    ensures (st, r) == RunScript(src, st0, exec)
  {
    var lines := Lines(src);
    ghost var whole := RunCommands(Going(st0, OK), ScriptCommands(src), exec);
    st := st0;
    var last := OK;
    assert lines[0..] == lines;
    for i := 0 to |lines|
      invariant whole == RunCommands(Going(st, last), LineCommands(lines[i..]), exec)
    {
      LineCommandsAt(lines, i);
      ghost var rest := LineCommands(lines[i + 1..]);
      var line := Trim(lines[i]);
      if line == [] || StartsWith(line, '#') {
        assert [] + rest == rest;
        continue;
      }
      var cmds := ParseLine(line);
      RunCommandsAppend(Going(st, last), cmds, rest, exec);
      var p := RunLine(st, last, cmds, exec);
      if p.Done? {
        return p.st, p.result;
      }
      st, last := p.st, p.last;
    }
    assert lines[|lines|..] == [];
    r := Ok(last);
  }

  // ---------------------------------------------------------------------
  // Properties of a script run.

  /** Blank lines and comments contribute no commands. */
  lemma {:induction false} SkippedLinesRunNothing(lines: seq<string>)
    requires forall i :: 0 <= i < |lines| ==> Skipped(lines[i])
    ensures LineCommands(lines) == []
    decreases |lines|
  {
    if lines != [] {
      SkippedLinesRunNothing(lines[1..]);
    }
  }

  /** A script with nothing to run succeeds with status 0 and leaves the
      state as it was. */
  lemma EmptyScript<S>(src: string, st: S, exec: (S, ParsedCommand) -> (S, Result<int>))
    requires forall i :: 0 <= i < |Lines(src)| ==> Skipped(Lines(src)[i])
    ensures RunScript(src, st, exec) == (st, Ok(OK))
  {
    SkippedLinesRunNothing(Lines(src));
  }

  /** Once a command asks the shell to exit, the script stops with status 0
      and no later command runs. */
  lemma ExitStopsScript<S>(before: seq<ParsedCommand>, c: ParsedCommand, after: seq<ParsedCommand>,
                           st: S, exec: (S, ParsedCommand) -> (S, Result<int>))
    requires RunCommands(Going(st, OK), before, exec).Going?
    requires exec(RunCommands(Going(st, OK), before, exec).st, c).1 == Ok(EXIT_SIGNAL)
    ensures Finish(RunCommands(Going(st, OK), before + [c] + after, exec))
      == (exec(RunCommands(Going(st, OK), before, exec).st, c).0, Ok(OK))
  {
    RunCommandsAppend(Going(st, OK), before + [c], after, exec);
    RunCommandsAppend(Going(st, OK), before, [c], exec);
  }

  /** An error stops the script and is its result; no later command runs. */
  lemma ErrorStopsScript<S>(before: seq<ParsedCommand>, c: ParsedCommand, after: seq<ParsedCommand>,
                            st: S, exec: (S, ParsedCommand) -> (S, Result<int>))
    requires RunCommands(Going(st, OK), before, exec).Going?
    requires exec(RunCommands(Going(st, OK), before, exec).st, c).1.Err?
    ensures Finish(RunCommands(Going(st, OK), before + [c] + after, exec))
      == exec(RunCommands(Going(st, OK), before, exec).st, c)
  {
    RunCommandsAppend(Going(st, OK), before + [c], after, exec);
    RunCommandsAppend(Going(st, OK), before, [c], exec);
  }

  /** A script that runs to its end returns the status of its last command. */
  lemma LastStatusWins<S>(before: seq<ParsedCommand>, c: ParsedCommand,
                          st: S, exec: (S, ParsedCommand) -> (S, Result<int>))
    requires RunCommands(Going(st, OK), before, exec).Going?
    requires exec(RunCommands(Going(st, OK), before, exec).st, c).1.Ok?
    requires exec(RunCommands(Going(st, OK), before, exec).st, c).1.value != EXIT_SIGNAL
    ensures Finish(RunCommands(Going(st, OK), before + [c], exec))
      == exec(RunCommands(Going(st, OK), before, exec).st, c)
  {
    RunCommandsAppend(Going(st, OK), before, [c], exec);
  }

  /** The commands of consecutive lines are those of the first lines
      followed by those of the rest. */
  lemma {:induction false} LineCommandsAppend(a: seq<string>, b: seq<string>)
    ensures LineCommands(a + b) == LineCommands(a) + LineCommands(b)
    decreases |a|
  {
    if a == [] {
      assert a + b == b;
    } else {
      assert (a + b)[0] == a[0] && (a + b)[1..] == a[1..] + b;
      LineCommandsAppend(a[1..], b);
    }
  }
}
