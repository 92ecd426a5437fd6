/** Exit-status conventions of the shell's commands. */
module Status {

  /** Status a builtin returns to make the shell leave (returned by `exit`). */
  const EXIT_SIGNAL: int := -7777

  /** Success. */
  const OK: int := 0

  /** Generic builtin failure. */
  const ERR: int := 1

  /** Command not found. */
  const NOT_FOUND: int := 127

  /** Status reported for a job killed by a signal. */
  const SIGNALED: int := 128
}
