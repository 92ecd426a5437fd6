/** `~/` expansion of a path, with `HOME` passed in. */
module PathUtil {
  import opened Base

  /** `PathBuf::from(dir).join(rest)` on Unix: an absolute `rest` replaces
      `dir`; otherwise a `/` is inserted unless `dir` is empty or already ends
      with one. */
  function JoinPath(dir: string, rest: string): (r: string)
    ensures |rest| > 0 && rest[0] == '/' ==> r == rest
    ensures (rest == [] || rest[0] != '/') && dir != [] && dir[|dir| - 1] != '/'
      ==> r == dir + "/" + rest
    ensures (rest == [] || rest[0] != '/') && (dir == [] || dir[|dir| - 1] == '/')
      ==> r == dir + rest
  {
    if |rest| > 0 && rest[0] == '/' then rest
    else if dir != [] && dir[|dir| - 1] != '/' then dir + "/" + rest
    else dir + rest
  }

  predicate HasTildePrefix(p: string) {
    |p| >= 2 && p[..2] == "~/"
  }

  /** `expand_tilde`: `~/rest` becomes `HOME` joined with `rest` when `HOME`
      is set; every other path is returned unchanged. */
  function ExpandTilde(p: string, home: Option<string>): (r: string)
    ensures !HasTildePrefix(p) || home.None? ==> r == p
  {
    if HasTildePrefix(p) && home.Some? then JoinPath(home.value, p[2..]) else p
  }

  /** With `HOME` set, `~/rest` becomes `HOME` joined with `rest`: `HOME/rest`
      when `HOME` does not end in `/`, `HOME` followed directly by `rest`
      when it is empty or ends in `/`, and `rest` itself when `rest` is
      absolute (as for `~//etc`). */
  lemma TildeReplacedByHome(home: string, rest: string)
    ensures (rest == [] || rest[0] != '/') && home != [] && home[|home| - 1] != '/' ==>
      ExpandTilde("~/" + rest, Some(home)) == home + "/" + rest
    ensures (rest == [] || rest[0] != '/') && (home == [] || home[|home| - 1] == '/') ==>
      ExpandTilde("~/" + rest, Some(home)) == home + rest
    ensures rest != [] && rest[0] == '/' ==> ExpandTilde("~/" + rest, Some(home)) == rest
  {
    assert ("~/" + rest)[..2] == "~/";
    assert ("~/" + rest)[2..] == rest;
  }

  /** A bare `~` is not expanded. */
  lemma BareTildeUnchanged(home: Option<string>)
    ensures ExpandTilde("~", home) == "~"
  {
  }
}
