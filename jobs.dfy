/** Job records: a job is one process group launched for one command line. */
module Jobs {

  datatype JobState = Running | Stopped | Terminated

  datatype Process = Process(pid: int, cmdline: string)

  /** `id` is a `usize` and `pgid` an `i32` in the source. */
  datatype Job = Job(id: nat, pgid: int, state: JobState, procs: seq<Process>, isCurrent: bool)

  /** `Job::summary`: the command line of the first process, or the empty
      string for a job without processes. */
  function Summary(j: Job): (s: string)
    ensures j.procs == [] ==> s == []
    ensures j.procs != [] ==> s == j.procs[0].cmdline
  {
    if j.procs == [] then [] else j.procs[0].cmdline
  }

  /** The summary depends on the first process alone: not on the id, the
      group, the state, the current marker or any later process. */
  lemma SummaryDependsOnFirstProcess(j: Job, id: nat, pgid: int, state: JobState, isCurrent: bool, later: seq<Process>)
    ensures Summary(j.(id := id, pgid := pgid, state := state, isCurrent := isCurrent)) == Summary(j)
    ensures j.procs != [] ==> Summary(j.(procs := [j.procs[0]] + later)) == Summary(j)
  {
  }
}
