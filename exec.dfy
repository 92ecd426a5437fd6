/** Running one parsed command: builtins first, then a `PATH` search and a
    fork with job registration, and for a foreground job a wait loop that
    turns wait results into job-table updates and an exit status.

    Everything the operating system answers is a parameter: the `PATH`
    variable, the file metadata lookup, the result of `fork` and the sequence
    of results successive `waitpid` calls return. */
module Exec {
  import opened Base
  import opened Text
  import opened Status
  import opened PathUtil
  import opened FileOps
  import opened Grammar
  import opened Builtins

  // ---------------------------------------------------------------------
  // Waiting for a foreground job.

  /** What one `waitpid` call on the job's process group returns. */
  datatype WaitResult =
    | Exited(code: int)
    | Signaled
    | Stopped
    | Continued
    | OtherStatus
    | Failed

  /** The job-table updates the wait loop applies. */
  datatype Update =
    | Terminated(pgid: int, code: int)
    | Suspended(pgid: int)
    | Resumed(pgid: int)

  /** A wait result that ends the wait loop. */
  predicate Concludes(w: WaitResult) {
    !w.Continued? && !w.OtherStatus?
  }

  /** The status the shell takes from a concluding wait result. */
  function StatusOf(w: WaitResult): int
    requires Concludes(w)
  {
    match w
    case Exited(code) => code
    case Signaled => SIGNALED
    case Stopped => OK
    case Failed => ERR
  }

  /** The update applied together with a concluding wait result. */
  function FinalUpdates(pgid: int, w: WaitResult): seq<Update>
    requires Concludes(w)
  {
    match w
    case Exited(code) => [Terminated(pgid, code)]
    case Signaled => [Terminated(pgid, SIGNALED)]
    case Stopped => [Suspended(pgid)]
    case Failed => []
  }

  /** The updates applied and the status returned when the successive wait
      calls return `waits`; no status when `waits` runs out before a
      concluding result (the shell is still waiting). */
  function Wait(pgid: int, waits: seq<WaitResult>): (seq<Update>, Option<int>)
    decreases |waits|
  {
    if waits == [] then ([], None)
    else
      var w := waits[0];
      if Concludes(w) then (FinalUpdates(pgid, w), Some(StatusOf(w)))
      else
        var rest := Wait(pgid, waits[1..]);
        ((if w.Continued? then [Resumed(pgid)] else []) + rest.0, rest.1)
  }

  /** `wait_foreground`: a loop that consumes wait results until one
      concludes. */
  method WaitForeground(pgid: int, waits: seq<WaitResult>) returns (updates: seq<Update>, status: Option<int>)
    ensures (updates, status) == Wait(pgid, waits)
  {
    updates := [];
    assert waits[0..] == waits && [] + Wait(pgid, waits).0 == Wait(pgid, waits).0;
    for i := 0 to |waits|
      invariant Wait(pgid, waits).0 == updates + Wait(pgid, waits[i..]).0
      invariant Wait(pgid, waits).1 == Wait(pgid, waits[i..]).1
    {
      WaitAt(pgid, waits, i);
      match waits[i]
      case Exited(code) =>
        return updates + [Terminated(pgid, code)], Some(code);
      case Signaled =>
        return updates + [Terminated(pgid, SIGNALED)], Some(SIGNALED);
      case Stopped =>
        return updates + [Suspended(pgid)], Some(OK);
      case Continued =>
        updates := updates + [Resumed(pgid)];
      case OtherStatus =>
      case Failed =>
        assert updates + [] == updates;
        return updates, Some(ERR);
    }
    assert Wait(pgid, waits[|waits|..]) == ([], None);
    assert updates + [] == updates;
    status := None;
  }

  /** One step of the wait loop, at position `i` of the wait results. */
  lemma WaitAt(pgid: int, waits: seq<WaitResult>, i: nat)
    requires i < |waits|
    ensures Concludes(waits[i]) ==> Wait(pgid, waits[i..]) == (FinalUpdates(pgid, waits[i]), Some(StatusOf(waits[i])))
    ensures waits[i].Continued? ==>
      Wait(pgid, waits[i..]) == ([Resumed(pgid)] + Wait(pgid, waits[i + 1..]).0, Wait(pgid, waits[i + 1..]).1)
    ensures waits[i].OtherStatus? ==> Wait(pgid, waits[i..]) == Wait(pgid, waits[i + 1..])
  {
    assert waits[i..][0] == waits[i] && waits[i..][1..] == waits[i + 1..];
    if waits[i].OtherStatus? {
      assert [] + Wait(pgid, waits[i + 1..]).0 == Wait(pgid, waits[i + 1..]).0;
    }
  }

  /** The number of `Continued` results in `waits`. */
  function Resumptions(waits: seq<WaitResult>): nat
    decreases |waits|
  {
    if waits == [] then 0 else (if waits[0].Continued? then 1 else 0) + Resumptions(waits[1..])
  }

  /** `n` updates marking the job running. */
  function Resumes(pgid: int, n: nat): seq<Update> {
    if n == 0 then [] else [Resumed(pgid)] + Resumes(pgid, n - 1)
  }

  /** The first concluding result decides the status; before it, each
      `Continued` marks the job running once, and the results after it are
      never read. */
  lemma {:induction false} WaitConcludesAtFirst(pgid: int, waits: seq<WaitResult>, k: nat)
    requires k < |waits| && Concludes(waits[k])
    requires forall j :: 0 <= j < k ==> !Concludes(waits[j])
    ensures Wait(pgid, waits).1 == Some(StatusOf(waits[k]))
    ensures Wait(pgid, waits).0 == Resumes(pgid, Resumptions(waits[..k])) + FinalUpdates(pgid, waits[k])
    decreases k
  {
    if k > 0 {
      assert waits[1..][k - 1] == waits[k];
      WaitConcludesAtFirst(pgid, waits[1..], k - 1);
      assert waits[..k][1..] == waits[1..][..k - 1];
    }
  }

  /** Without a concluding result the shell is still waiting, having marked
      the job running once per `Continued`. */
  lemma {:induction false} WaitBlocked(pgid: int, waits: seq<WaitResult>)
    requires forall j :: 0 <= j < |waits| ==> !Concludes(waits[j])
    ensures Wait(pgid, waits) == (Resumes(pgid, Resumptions(waits)), None)
    decreases |waits|
  {
    if waits != [] {
      assert !Concludes(waits[0]);
      WaitBlocked(pgid, waits[1..]);
      var rest := Resumes(pgid, Resumptions(waits[1..]));
      if waits[0].Continued? {
        assert Resumes(pgid, Resumptions(waits)) == [Resumed(pgid)] + rest;
      } else {
        assert Resumes(pgid, Resumptions(waits)) == [] + rest;
      }
    }
  }

  /** Every update the wait loop applies is about the job it waits for, and
      only the last one can end or suspend it. */
  lemma {:induction false} WaitUpdatesOwnJob(pgid: int, waits: seq<WaitResult>)
    ensures forall u :: u in Wait(pgid, waits).0 ==> u.pgid == pgid
    ensures forall i :: 0 <= i < |Wait(pgid, waits).0| - 1 ==> Wait(pgid, waits).0[i].Resumed?
    ensures Wait(pgid, waits).1.None? ==> forall u :: u in Wait(pgid, waits).0 ==> u.Resumed?
    decreases |waits|
  {
    if waits != [] && !Concludes(waits[0]) {
      WaitUpdatesOwnJob(pgid, waits[1..]);
    }
  }

  // ---------------------------------------------------------------------
  // Finding a program.

  /** What `fs::metadata` reports about a path, as far as the search needs. */
  datatype Metadata = Metadata(isFile: bool, mode: Mode)

  /** A regular file with at least one execute bit. */
  predicate Runnable(md: Option<Metadata>) {
    md.Some? && md.value.isFile && md.value.mode & 0x49 != 0
  }

  /** The first directory of `dirs` holding a runnable `cmd`, joined with it. */
  function FirstRunnable(dirs: seq<string>, cmd: string, stat: string -> Option<Metadata>): Option<string>
    decreases |dirs|
  {
    if dirs == [] then None
    else if Runnable(stat(JoinPath(dirs[0], cmd))) then Some(JoinPath(dirs[0], cmd))
    else FirstRunnable(dirs[1..], cmd, stat)
  }

  /** The program `which` finds: a name with a `/` is taken as a path when
      something exists there; otherwise the `:`-separated entries of `PATH`
      are searched in order, and there is nothing without `PATH`. */
  function Resolve(cmd: string, path: Option<string>, stat: string -> Option<Metadata>): Option<string> {
    if '/' in cmd then (if stat(cmd).Some? then Some(cmd) else None)
    else if path.None? then None
    else FirstRunnable(Split(path.value, ':'), cmd, stat)
  }

  /** A name holding a `/` is never looked up on `PATH`: it is found exactly
      when something exists at that path, whatever `PATH` says. */
  lemma SlashNameIgnoresPath(cmd: string, p: Option<string>, q: Option<string>, stat: string -> Option<Metadata>)
    requires '/' in cmd
    ensures Resolve(cmd, p, stat) == Resolve(cmd, q, stat)
    ensures Resolve(cmd, p, stat).Some? <==> stat(cmd).Some?
    ensures Resolve(cmd, p, stat).Some? ==> Resolve(cmd, p, stat).value == cmd
  {
  }

  /** `which`: a loop over the `PATH` entries that returns the first
      candidate that is a runnable regular file. */
  method Which(cmd: string, path: Option<string>, stat: string -> Option<Metadata>) returns (r: Option<string>)
    ensures r == Resolve(cmd, path, stat)
  {
    if '/' in cmd {
      if stat(cmd).Some? {
        return Some(cmd);
      }
      return None;
    }
    if path.None? {
      return None;
    }
    var dirs := Split(path.value, ':');
    for i := 0 to |dirs|
      invariant FirstRunnable(dirs, cmd, stat) == FirstRunnable(dirs[i..], cmd, stat)
    {
      assert dirs[i..][1..] == dirs[i + 1..];
      var cand := JoinPath(dirs[i], cmd);
      if Runnable(stat(cand)) {
        return Some(cand);
      }
    }
    return None;
  }

  /** The search finds the candidate of the first `PATH` entry that holds a
      runnable file, and finds nothing exactly when no entry does. */
  lemma {:induction false} FirstRunnableMeaning(dirs: seq<string>, cmd: string, stat: string -> Option<Metadata>)
    ensures FirstRunnable(dirs, cmd, stat).None? <==>
      forall i :: 0 <= i < |dirs| ==> !Runnable(stat(JoinPath(dirs[i], cmd)))
    ensures FirstRunnable(dirs, cmd, stat).Some? ==>
      exists i :: 0 <= i < |dirs| && FirstRunnable(dirs, cmd, stat).value == JoinPath(dirs[i], cmd)
        && Runnable(stat(JoinPath(dirs[i], cmd)))
        && forall j :: 0 <= j < i ==> !Runnable(stat(JoinPath(dirs[j], cmd)))
    decreases |dirs|
  {
    if dirs != [] && !Runnable(stat(JoinPath(dirs[0], cmd))) {
      var tail := dirs[1..];
      FirstRunnableMeaning(tail, cmd, stat);
      if FirstRunnable(tail, cmd, stat).Some? {
        var i :| 0 <= i < |tail| && FirstRunnable(tail, cmd, stat).value == JoinPath(tail[i], cmd)
          && Runnable(stat(JoinPath(tail[i], cmd)))
          && forall j :: 0 <= j < i ==> !Runnable(stat(JoinPath(tail[j], cmd)));
        assert dirs[i + 1] == tail[i];
        assert forall j :: 0 <= j < i + 1 ==> !Runnable(stat(JoinPath(dirs[j], cmd))) by {
          forall j | 0 <= j < i + 1
            ensures !Runnable(stat(JoinPath(dirs[j], cmd)))
          {
            if j > 0 { assert dirs[j] == tail[j - 1]; }
          }
        }
      } else {
        forall i | 0 <= i < |dirs|
          ensures !Runnable(stat(JoinPath(dirs[i], cmd)))
        {
          if i > 0 { assert dirs[i] == tail[i - 1]; }
        }
      }
    }
  }

  /** A program found on `PATH` always has an execute bit set, whatever the
      entry it came from. */
  lemma FoundIsRunnable(cmd: string, path: string, stat: string -> Option<Metadata>)
    requires '/' !in cmd
    requires Resolve(cmd, Some(path), stat).Some?
    ensures Runnable(stat(Resolve(cmd, Some(path), stat).value))
  {
    FirstRunnableMeaning(Split(path, ':'), cmd, stat);
  }

  // ---------------------------------------------------------------------
  // Running a command.

  /** The answers of the operating system while one command runs. */
  datatype System = System(
    path: Option<string>,
    stat: string -> Option<Metadata>,
    fork: Result<int>,
    waits: seq<WaitResult>)

  /** The job `add_job` registers: the child's process group, in the
      `Running` state, with the command line it runs. */
  datatype JobRecord = JobRecord(pgid: int, cmd: string, args: seq<string>)

  /** What running a command did: the status it returned (none while a
      foreground job is still being waited for), the job it registered and
      the job-table updates it applied. */
  datatype Outcome = Outcome(status: Option<int>, job: Option<JobRecord>, updates: seq<Update>)

  /** `run_external` on a Unix platform. */
  function RunExternal(cmd: string, args: seq<string>, background: bool, sys: System): (r: Result<Outcome>)
    ensures Resolve(cmd, sys.path, sys.stat).None? ==> r == Ok(Outcome(Some(NOT_FOUND), None, []))
    ensures Resolve(cmd, sys.path, sys.stat).Some? ==> (r.Err? <==> sys.fork.Err?)
    ensures r.Ok? && r.value.job.Some? ==> r.value.job.value == JobRecord(sys.fork.value, cmd, args)
    ensures r.Ok? ==> forall u :: u in r.value.updates ==> u.pgid == sys.fork.value
    ensures Resolve(cmd, sys.path, sys.stat).Some? && background && r.Ok? ==> r.value.status == Some(OK) && r.value.updates == []
    ensures Resolve(cmd, sys.path, sys.stat).Some? && sys.fork.Ok? && !background ==>
      r == Ok(Outcome(Wait(sys.fork.value, sys.waits).1, Some(JobRecord(sys.fork.value, cmd, args)),
                      Wait(sys.fork.value, sys.waits).0))
  {
    if Resolve(cmd, sys.path, sys.stat).None? then Ok(Outcome(Some(NOT_FOUND), None, []))
    else if sys.fork.Err? then Err(sys.fork.error)
    else
      var child := sys.fork.value;
      var job := Some(JobRecord(child, cmd, args));
      if background then Ok(Outcome(Some(OK), job, []))
      else
        WaitUpdatesOwnJob(child, sys.waits);
        var (updates, status) := Wait(child, sys.waits);
        Ok(Outcome(status, job, updates))
  }

  /** A command found and forked is registered as a job before any wait. */
  lemma ForkedCommandIsRegistered(cmd: string, args: seq<string>, background: bool, sys: System)
    requires Resolve(cmd, sys.path, sys.stat).Some? && sys.fork.Ok?
    ensures RunExternal(cmd, args, background, sys).Ok?
    ensures RunExternal(cmd, args, background, sys).value.job == Some(JobRecord(sys.fork.value, cmd, args))
  {
  }

  /** A foreground command whose first wait result is an exit returns that
      exit code, and its job is marked terminated with it. */
  lemma ForegroundExitStatus(cmd: string, args: seq<string>, sys: System, code: int)
    requires Resolve(cmd, sys.path, sys.stat).Some? && sys.fork.Ok?
    requires sys.waits != [] && sys.waits[0] == Exited(code)
    ensures RunExternal(cmd, args, false, sys)
         == Ok(Outcome(Some(code), Some(JobRecord(sys.fork.value, cmd, args)), [Terminated(sys.fork.value, code)]))
  {
  }

  datatype Platform = Unix | OtherPlatform

  /** `run_parsed_command`: builtins first (their handlers are `run`), then an
      external program on Unix, and status 127 elsewhere. */
  function RunParsedCommand(p: ParsedCommand, platform: Platform, sys: System,
                            run: (Builtin, seq<string>) -> Result<int>): (r: Result<Outcome>)
    ensures IsBuiltin(p.cmd) ==> (r.Err? <==> DispatchBuiltin(p.cmd, p.args, run).Err?)
    ensures IsBuiltin(p.cmd) && r.Ok? ==>
      r.value == Outcome(Some(DispatchBuiltin(p.cmd, p.args, run).value), None, [])
    ensures !IsBuiltin(p.cmd) && platform == OtherPlatform ==> r == Ok(Outcome(Some(NOT_FOUND), None, []))
    ensures !IsBuiltin(p.cmd) && platform == Unix ==> r == RunExternal(p.cmd, p.args, p.background, sys)
  {
    if IsBuiltin(p.cmd) then
      match DispatchBuiltin(p.cmd, p.args, run)
      case Ok(code) => Ok(Outcome(Some(code), None, []))
      case Err(e) => Err(e)
    else if platform == OtherPlatform then Ok(Outcome(Some(NOT_FOUND), None, []))
    else RunExternal(p.cmd, p.args, p.background, sys)
  }

  /** A builtin never becomes a job: a trailing `&` on it is ignored, and
      `exit` always yields `EXIT_SIGNAL`. */
  lemma BuiltinsRunInForeground(p: ParsedCommand, platform: Platform, sys: System,
                                run: (Builtin, seq<string>) -> Result<int>)
    requires IsBuiltin(p.cmd)
    ensures RunParsedCommand(p, platform, sys, run) == RunParsedCommand(p.(background := false), platform, sys, run)
    ensures RunParsedCommand(p, platform, sys, run).Ok? ==> RunParsedCommand(p, platform, sys, run).value.job.None?
    ensures p.cmd == "exit" ==> RunParsedCommand(p, platform, sys, run) == Ok(Outcome(Some(EXIT_SIGNAL), None, []))
  {
  }
}
