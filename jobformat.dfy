/** The `jobs` listing: one line per job, `[id]` and the current-job marker,
    the state word padded to ten columns, then the job's summary. */
module JobFormat {
  import opened Base
  import opened Text
  import opened Decimal
  import opened Jobs

  function StateWord(s: JobState): string {
    match s
    case Running => "Running"
    case Stopped => "Stopped"
    case Terminated => "Terminated"
  }

  /** `+` for the current job, a space otherwise. */
  function Marker(j: Job): char {
    if j.isCurrent then '+' else ' '
  }

  /** One line of the listing without its terminating newline. */
  function LineBody(j: Job): string {
    "[" + NatToString(j.id) + "]" + [Marker(j)] + "  "
      + PadRight(StateWord(j.state), 10) + "  " + Summary(j)
  }

  /** The listing of `jobs`, one newline-terminated line per job, in order. */
  function FormatJobs(jobs: seq<Job>): string
    decreases |jobs|
  {
    if jobs == [] then [] else LineBody(jobs[0]) + "\n" + FormatJobs(jobs[1..])
  }

  /** `format_jobs_simple`: a loop that appends each job's line to `out`. */
  method FormatJobsSimple(jobs: seq<Job>) returns (out: string)
    ensures out == FormatJobs(jobs)
  {
    out := [];
    for i := 0 to |jobs|
      invariant out == FormatJobs(jobs[..i])
    {
      FormatJobsPrefix(jobs, i);
      out := out + LineBody(jobs[i]) + "\n";
    }
    assert jobs[..|jobs|] == jobs;
  }

  lemma FormatJobsPrefix(jobs: seq<Job>, i: nat)
    requires i < |jobs|
    ensures FormatJobs(jobs[..i + 1]) == FormatJobs(jobs[..i]) + LineBody(jobs[i]) + "\n"
  {
    FormatJobsSnoc(jobs[..i], jobs[i]);
    assert jobs[..i + 1] == jobs[..i] + [jobs[i]];
  }

  lemma {:induction false} FormatJobsSnoc(jobs: seq<Job>, j: Job)
    ensures FormatJobs(jobs + [j]) == FormatJobs(jobs) + LineBody(j) + "\n"
    decreases |jobs|
  {
    if jobs == [] {
      assert [j][1..] == [];
    } else {
      assert (jobs + [j])[1..] == jobs[1..] + [j];
      FormatJobsSnoc(jobs[1..], j);
    }
  }

  /** No summary spans lines. */
  ghost predicate OneLineSummaries(jobs: seq<Job>) {
    forall i :: 0 <= i < |jobs| ==> '\n' !in Summary(jobs[i])
  }

  /** The jobs' lines, in order. */
  function Bodies(jobs: seq<Job>): (bodies: seq<string>)
    ensures |bodies| == |jobs|
    decreases |jobs|
  {
    if jobs == [] then [] else [LineBody(jobs[0])] + Bodies(jobs[1..])
  }

  /** A job's line holds no newline when its summary holds none. */
  lemma LineBodyOneLine(j: Job)
    requires '\n' !in Summary(j)
    ensures '\n' !in LineBody(j)
  {
    assert '\n' !in PadRight(StateWord(j.state), 10);
    assert '\n' !in NatToString(j.id);
  }

  /** The listing splits at its newlines into exactly one line per job, in
      input order, followed by the empty text after the last newline. */
  lemma {:induction false} FormatJobsLines(jobs: seq<Job>)
    requires OneLineSummaries(jobs)
    ensures Split(FormatJobs(jobs), '\n') == Bodies(jobs) + [[]]
    decreases |jobs|
  {
    if jobs != [] {
      var b := LineBody(jobs[0]);
      var rest := jobs[1..];
      LineBodyOneLine(jobs[0]);
      assert OneLineSummaries(rest) by {
        forall i | 0 <= i < |rest| ensures '\n' !in Summary(rest[i]) {
          assert rest[i] == jobs[i + 1];
        }
      }
      FormatJobsLines(rest);
      assert FormatJobs(jobs) == b + ['\n'] + FormatJobs(rest);
      SplitAppend(b, '\n', FormatJobs(rest));
      SplitNoSep(b, '\n');
    }
  }

  /** The listing has exactly as many newlines as there are jobs; no jobs
      give the empty string. */
  lemma FormatJobsLineCount(jobs: seq<Job>)
    requires OneLineSummaries(jobs)
    ensures Count(FormatJobs(jobs), '\n') == |jobs|
    ensures jobs == [] ==> FormatJobs(jobs) == []
  {
    FormatJobsLines(jobs);
    SplitCount(FormatJobs(jobs), '\n');
  }

  // ---------------------------------------------------------------------
  // Reading a line back.

  datatype JobFields = JobFields(id: nat, isCurrent: bool, state: JobState, summary: string)

  function StateOfWord(w: string): Option<JobState> {
    if w == "Running" then Some(Running)
    else if w == "Stopped" then Some(Stopped)
    else if w == "Terminated" then Some(Terminated)
    else None
  }

  /** Reads the fields of one listing line: `[`, decimal id, `]`, marker, two
      spaces, a ten-column state field, two spaces, the summary. */
  function ParseJobLine(line: string): Option<JobFields> {
    if |line| < 1 || line[0] != '[' || ']' !in line then None
    else
      var k := FirstIndex(line, ']');
      if k < 1 || |line| < k + 16 then None
      else
        var id := ParseU64(line[1..k]);
        var mark := line[k + 1];
        var state := StateOfWord(TrimEndMatches(line[k + 4..k + 14], ' '));
        if id.None? || state.None? || (mark != '+' && mark != ' ')
           || line[k + 2..k + 4] != "  " || line[k + 14..k + 16] != "  "
        then None
        else Some(JobFields(id.value, mark == '+', state.value, line[k + 16..]))
  }

  /** Where each field of a listing line sits. */
  lemma LineLayout(d: string, mark: char, field: string, summary: string)
    requires ']' !in d && |field| == 10
    ensures var line := "[" + d + "]" + [mark] + "  " + field + "  " + summary;
      var k := |d| + 1;
      && line[0] == '[' && ']' in line && FirstIndex(line, ']') == k && |line| >= k + 16
      && line[1..k] == d && line[k + 1] == mark && line[k + 2..k + 4] == "  "
      && line[k + 4..k + 14] == field && line[k + 14..k + 16] == "  " && line[k + 16..] == summary
  {
    var line := "[" + d + "]" + [mark] + "  " + field + "  " + summary;
    var k := |d| + 1;
    assert line[k] == ']';
    forall i | 0 <= i < k ensures line[i] != ']' {
      if i > 0 { assert line[i] == d[i - 1]; }
    }
  }

  lemma ParseAssembled(d: string, mark: char, field: string, summary: string, id: nat, state: JobState)
    requires ']' !in d && |field| == 10
    requires ParseU64(d) == Some(id) && (mark == '+' || mark == ' ')
    requires StateOfWord(TrimEndMatches(field, ' ')) == Some(state)
    ensures ParseJobLine("[" + d + "]" + [mark] + "  " + field + "  " + summary)
         == Some(JobFields(id, mark == '+', state, summary))
  {
    LineLayout(d, mark, field, summary);
  }

  /** Every listing line reads back as the job's id, current marker, state
      and summary. */
  lemma ParseLineBody(j: Job)
    requires j.id < U64_LIMIT
    ensures ParseJobLine(LineBody(j)) == Some(JobFields(j.id, j.isCurrent, j.state, Summary(j)))
  {
    var d := NatToString(j.id);
    var w := StateWord(j.state);
    var field := PadRight(w, 10);
    assert ']' !in d by {
      forall i | 0 <= i < |d| ensures d[i] != ']' { assert IsDigit(d[i]); }
    }
    ParseU64NatToString(j.id);
    TrimPadding(w, 10);
    StateWordInjective(j.state, j.state);
    ParseAssembled(d, Marker(j), field, Summary(j), j.id, j.state);
  }

  /** Distinct states print distinct words. */
  lemma StateWordInjective(a: JobState, b: JobState)
    ensures StateWord(a) == StateWord(b) ==> a == b
    ensures StateOfWord(StateWord(a)) == Some(a)
  {
  }
}
