/** The builtin commands: which names are builtins, how a builtin name is
    dispatched, and the argument handling each builtin does before it touches
    the file system, the terminal or the process's own state. */
module Builtins {
  import opened Base
  import opened Text
  import opened Status
  import opened Decimal
  import Env
  import FileOps

  datatype Builtin =
    | Exit | Echo | Pwd | Cd | Mkdir | Ls | Cat | Cp | Rm | Mv
    | JobsCmd | Fg | Bg | Kill | Sleep | Read

  /** `is_builtin`: the sixteen builtin names. */
  predicate IsBuiltin(name: string) {
    name == "exit" || name == "echo" || name == "pwd" || name == "cd"
    || name == "mkdir" || name == "ls" || name == "cat" || name == "cp"
    || name == "rm" || name == "mv" || name == "jobs" || name == "fg"
    || name == "bg" || name == "kill" || name == "sleep" || name == "read"
  }

  /** The name each builtin is invoked by. */
  function NameOf(b: Builtin): string {
    match b
    case Exit => "exit"    case Echo => "echo"   case Pwd => "pwd"
    case Cd => "cd"        case Mkdir => "mkdir" case Ls => "ls"
    case Cat => "cat"      case Cp => "cp"       case Rm => "rm"
    case Mv => "mv"        case JobsCmd => "jobs" case Fg => "fg"
    case Bg => "bg"        case Kill => "kill"   case Sleep => "sleep"
    case Read => "read"
  }

  /** The arms of the match in `dispatch_builtin`. */
  function BuiltinOf(name: string): Option<Builtin> {
    if name == "exit" then Some(Exit)
    else if name == "echo" then Some(Echo)
    else if name == "pwd" then Some(Pwd)
    else if name == "cd" then Some(Cd)
    else if name == "mkdir" then Some(Mkdir)
    else if name == "ls" then Some(Ls)
    else if name == "cat" then Some(Cat)
    else if name == "cp" then Some(Cp)
    else if name == "rm" then Some(Rm)
    else if name == "mv" then Some(Mv)
    else if name == "jobs" then Some(JobsCmd)
    else if name == "fg" then Some(Fg)
    else if name == "bg" then Some(Bg)
    else if name == "kill" then Some(Kill)
    else if name == "sleep" then Some(Sleep)
    else if name == "read" then Some(Read)
    else None
  }

  /** The dispatcher handles exactly the names `is_builtin` accepts, and each
      builtin is reached by its own name. */
  lemma DispatchAgreesWithIsBuiltin(name: string, b: Builtin)
    ensures IsBuiltin(name) <==> BuiltinOf(name).Some?
    ensures BuiltinOf(name).Some? ==> NameOf(BuiltinOf(name).value) == name
    ensures BuiltinOf(NameOf(b)) == Some(b)
  {
  }

  /** `dispatch_builtin`: `exit` yields `EXIT_SIGNAL`, an unknown name 127,
      and any other builtin what its handler `run` returns. */
  function DispatchBuiltin(cmd: string, args: seq<string>, run: (Builtin, seq<string>) -> Result<int>): (r: Result<int>)
    ensures cmd == "exit" ==> r == Ok(EXIT_SIGNAL)
    ensures !IsBuiltin(cmd) ==> r == Ok(NOT_FOUND)
    ensures IsBuiltin(cmd) && cmd != "exit" ==> exists b :: NameOf(b) == cmd && r == run(b, args)
  {
    match BuiltinOf(cmd)
    case None => Ok(NOT_FOUND)
    case Some(Exit) => Ok(EXIT_SIGNAL)
    case Some(b) => run(b, args)
  }

  // ---------------------------------------------------------------------
  // Argument checks that precede the builtins' file-system work.

  /** Either the builtin goes on with its arguments, or it stops at once with
      the given status. */
  datatype Checked<T> = Proceed(value: T) | Refuse(status: int)

  /** `echo`: the arguments after `$NAME` expansion, joined by single spaces. */
  function EchoText(args: seq<string>, vars: map<string, string>, env: map<string, string>): string {
    Join(Env.ExpandVars(args, vars, env), ' ')
  }

  /** Arguments that do not start with `$` are echoed as they are, one space
      apart. */
  lemma EchoArguments(args: seq<string>, vars: map<string, string>, env: map<string, string>)
    requires forall i :: 0 <= i < |args| ==> args[i] == [] || args[i][0] != '$'
    ensures EchoText(args, vars, env) == Join(args, ' ')
  {
    forall i | 0 <= i < |args|
      ensures Env.ExpandVars(args, vars, env)[i] == args[i]
    {
      Env.ExpandPlain(args[i], vars, env);
    }
    assert Env.ExpandVars(args, vars, env) == args;
  }

  /** `$NAME` arguments are echoed as the values of their names, one space
      apart: the shell variable, else the environment variable, else nothing. */
  lemma EchoVariables(names: seq<string>, vars: map<string, string>, env: map<string, string>)
    ensures EchoText(seq(|names|, i requires 0 <= i < |names| => ['$'] + names[i]), vars, env)
         == Join(seq(|names|, i requires 0 <= i < |names| => Env.Lookup(names[i], vars, env)), ' ')
  {
    var args := seq(|names|, i requires 0 <= i < |names| => ['$'] + names[i]);
    forall i | 0 <= i < |names|
      ensures Env.ExpandVars(args, vars, env)[i] == Env.Lookup(names[i], vars, env)
    {
      assert args[i][1..] == names[i];
    }
    assert Env.ExpandVars(args, vars, env)
        == seq(|names|, i requires 0 <= i < |names| => Env.Lookup(names[i], vars, env));
  }

  /** Each argument is echoed on its own: echoing two non-empty argument
      lists together is echoing each, with one space between. */
  lemma EchoAppend(a: seq<string>, b: seq<string>, vars: map<string, string>, env: map<string, string>)
    requires a != [] && b != []
    ensures EchoText(a + b, vars, env) == EchoText(a, vars, env) + " " + EchoText(b, vars, env)
  {
    Env.ExpandAppend(a, b, vars, env);
    JoinAppend(Env.ExpandVars(a, vars, env), Env.ExpandVars(b, vars, env), ' ');
  }

  /** `cd`: the first argument, else `HOME`, else `/`. */
  function CdTarget(args: seq<string>, home: Option<string>): (t: string)
    ensures args != [] ==> t == args[0]
    ensures args == [] ==> t == if home.Some? then home.value else "/"
  {
    if args == [] then (if home.Some? then home.value else "/") else args[0]
  }

  /** `mkdir`: at least one operand. */
  function MkdirOperands(args: seq<string>): (r: Checked<seq<string>>)
    ensures r.Refuse? <==> args == []
    ensures r.Refuse? ==> r.status == ERR
    ensures r.Proceed? ==> r.value == args
  {
    if args == [] then Refuse(ERR) else Proceed(args)
  }

  /** `cp` and `mv`: exactly a source and a destination. */
  function TwoOperands(args: seq<string>): (r: Checked<(string, string)>)
    ensures r.Refuse? <==> |args| != 2
    ensures r.Refuse? ==> r.status == ERR
    ensures r.Proceed? ==> r.value == (args[0], args[1])
  {
    if |args| != 2 then Refuse(ERR) else Proceed((args[0], args[1]))
  }

  /** `sleep`: the first argument read as a `u64`, and 1 when it is missing
      or does not parse. */
  function SleepSeconds(args: seq<string>): (secs: nat)
    ensures secs < U64_LIMIT
    ensures args == [] || ParseU64(args[0]).None? ==> secs == 1
    ensures args != [] && ParseU64(args[0]).Some? ==> secs == ParseU64(args[0]).value
  {
    if args != [] && ParseU64(args[0]).Some? then ParseU64(args[0]).value else 1
  }

  /** `sleep n` waits `n` seconds for every `u64` written in decimal. */
  lemma SleepSecondsOfNumber(n: nat, rest: seq<string>)
    requires n < U64_LIMIT
    ensures SleepSeconds([NatToString(n)] + rest) == n
  {
    ParseU64NatToString(n);
  }

  /** An argument with a stray character, such as `sleep 2s`, falls back to
      one second. */
  lemma SleepSecondsOfMalformed(args: seq<string>, i: nat)
    requires args != [] && i < |args[0]| && !IsDigit(args[0][i])
    requires i > 0 || args[0][0] != '+'
    ensures SleepSeconds(args) == 1
  {
    ParseU64RejectsNonDigit(args[0], i);
  }

  /** Only one newline is stripped: a line read back keeps every other one. */
  lemma StripOneNewline(s: string)
    ensures StripSuffix(s + "\n", '\n') == s
    ensures StripSuffix(s + "\n\n", '\n') == s + "\n"
  {
    assert (s + "\n")[..|s|] == s;
    assert (s + "\n\n")[..|s| + 1] == s + "\n";
  }

  /** `read NAME`: without a name, status 1 and no variable changes; with
      one, status 0 and the name bound to the stripped line. */
  function ReadInto(args: seq<string>, line: string, vars: map<string, string>): (r: (int, map<string, string>))
    ensures args == [] ==> r == (ERR, vars)
    ensures args != [] ==> r.0 == OK && r.1 == vars[args[0] := StripSuffix(line, '\n')]
  {
    if args == [] then (ERR, vars) else (OK, vars[args[0] := StripSuffix(line, '\n')])
  }

  // ---------------------------------------------------------------------
  // `ls` flags.

  /** An argument is a flag group when it starts with `-` and has more than
      that one character (a lone `-` is an operand). */
  predicate IsFlagArg(a: string) {
    |a| > 1 && a[0] == '-'
  }

  /** Some flag group among `args` holds the letter `c` after its `-`. */
  predicate HasFlag(args: seq<string>, c: char) {
    exists i :: 0 <= i < |args| && IsFlagArg(args[i]) && c in args[i][1..]
  }

  /** The operands: the arguments that are not flag groups, in order. */
  function NonFlags(args: seq<string>): seq<string>
    decreases |args|
  {
    if args == [] then []
    else
      var a := args[|args| - 1];
      NonFlags(args[..|args| - 1]) + (if IsFlagArg(a) then [] else [a])
  }

  datatype LsOptions = LsOptions(long: bool, all: bool, classify: bool, rest: seq<string>)

  lemma HasFlagSnoc(args: seq<string>, a: string, c: char)
    ensures HasFlag(args + [a], c) == (HasFlag(args, c) || (IsFlagArg(a) && c in a[1..]))
  {
    var s := args + [a];
    if HasFlag(args, c) {
      var i :| 0 <= i < |args| && IsFlagArg(args[i]) && c in args[i][1..];
      assert s[i] == args[i];
    }
    if HasFlag(s, c) {
      var i :| 0 <= i < |s| && IsFlagArg(s[i]) && c in s[i][1..];
      if i < |args| { assert s[i] == args[i]; }
    }
    if IsFlagArg(a) && c in a[1..] {
      assert s[|args|] == a;
    }
  }

  /** `parse_ls_flags`: a loop over the arguments that sets `long`, `all` and
      `classify` from the letters of flag groups and collects the operands. */
  method ParseLsFlags(args: seq<string>) returns (o: LsOptions)
    ensures o.long == HasFlag(args, 'l')
    ensures o.all == HasFlag(args, 'a')
    ensures o.classify == HasFlag(args, 'F')
    ensures o.rest == NonFlags(args)
  {
    var long, all, classify := false, false, false;
    var rest: seq<string> := [];
    for i := 0 to |args|
      invariant long == HasFlag(args[..i], 'l')
      invariant all == HasFlag(args[..i], 'a')
      invariant classify == HasFlag(args[..i], 'F')
      invariant rest == NonFlags(args[..i])
    {
      var a := args[i];
      assert args[..i + 1] == args[..i] + [a];
      HasFlagSnoc(args[..i], a, 'l');
      HasFlagSnoc(args[..i], a, 'a');
      HasFlagSnoc(args[..i], a, 'F');
      if |a| > 1 && a[0] == '-' {
        for j := 1 to |a|
          invariant long == (HasFlag(args[..i], 'l') || 'l' in a[1..j])
          invariant all == (HasFlag(args[..i], 'a') || 'a' in a[1..j])
          invariant classify == (HasFlag(args[..i], 'F') || 'F' in a[1..j])
        {
          assert a[1..j + 1] == a[1..j] + [a[j]];
          var ch := a[j];
          if ch == 'l' {
            long := true;
          } else if ch == 'a' {
            all := true;
          } else if ch == 'F' {
            classify := true;
          }
        }
        assert a[1..|a|] == a[1..];
      } else {
        rest := rest + [a];
      }
    }
    assert args[..|args|] == args;
    o := LsOptions(long, all, classify, rest);
  }

  /** The operands are exactly the arguments that are not flag groups. */
  lemma {:induction false} NonFlagsMembers(args: seq<string>)
    ensures forall a :: a in NonFlags(args) <==> a in args && !IsFlagArg(a)
    decreases |args|
  {
    if args != [] {
      var init := args[..|args| - 1];
      NonFlagsMembers(init);
      assert args == init + [args[|args| - 1]];
    }
  }

  // ---------------------------------------------------------------------
  // The entries `ls` lists from a directory.

  /** The paths `ls` lists: its operands, or `.` when it has none. */
  function LsTargets(paths: seq<string>): (targets: seq<string>)
    ensures targets != []
    ensures paths != [] ==> targets == paths
    ensures paths == [] ==> targets == ["."]
  {
    if paths == [] then ["."] else paths
  }

  /** `ls` lists exactly its operands, in order, and `.` only when every
      argument is a flag group. */
  lemma LsListsOperands(args: seq<string>)
    ensures forall t :: t in LsTargets(NonFlags(args)) ==>
      (t in args && !IsFlagArg(t)) || (t == "." && forall a :: a in args ==> IsFlagArg(a))
  {
    NonFlagsMembers(args);
  }

  /** The entries of a directory that `ls` shows, in order: all of them with
      `-a`, otherwise those that are not hidden. */
  function Visible(names: seq<string>, all: bool): (shown: seq<string>)
    ensures |shown| <= |names|
    decreases |names|
  {
    if names == [] then []
    else
      var n := names[|names| - 1];
      Visible(names[..|names| - 1], all) + (if all || !FileOps.IsHidden(n) then [n] else [])
  }

  /** The loop of `cmd_ls` over a directory's entries: a hidden entry is
      skipped unless `-a` was given, every other one is listed. */
  method ListEntries(names: seq<string>, all: bool) returns (shown: seq<string>)
    ensures shown == Visible(names, all)
  {
    shown := [];
    for i := 0 to |names|
      invariant shown == Visible(names[..i], all)
    {
      var name := names[i];
      assert names[..i + 1] == names[..i] + [name];
      if !all && FileOps.IsHidden(name) {
        continue;
      }
      shown := shown + [name];
    }
    assert names[..|names|] == names;
  }

  /** `ls -a` lists every entry, and without `-a` the listed entries are
      exactly the entries that are not hidden. */
  lemma {:induction false} VisibleMembers(names: seq<string>, all: bool)
    ensures all ==> Visible(names, all) == names
    ensures forall n :: n in Visible(names, all) <==> n in names && (all || !FileOps.IsHidden(n))
    decreases |names|
  {
    if names != [] {
      var init := names[..|names| - 1];
      VisibleMembers(init, all);
      assert names == init + [names[|names| - 1]];
    }
  }

  // ---------------------------------------------------------------------
  // `rm` operands.

  datatype RmRequest = RmRequest(recursive: bool, targets: seq<string>)

  /** `args` without any occurrence of `x`, in order. */
  function Without(args: seq<string>, x: string): seq<string>
    decreases |args|
  {
    if args == [] then []
    else
      var a := args[|args| - 1];
      Without(args[..|args| - 1], x) + (if a == x then [] else [a])
  }

  /** The first part of `cmd_rm`: no operand is an error; otherwise a loop
      sets `recursive` on `-r` and collects every other argument as a
      target. */
  method RmArgs(args: seq<string>) returns (r: Checked<RmRequest>)
    ensures args == [] ==> r == Refuse(ERR)
    ensures args != [] ==> r == Proceed(RmRequest("-r" in args, Without(args, "-r")))
  {
    if args == [] {
      return Refuse(ERR);
    }
    var recursive := false;
    var targets: seq<string> := [];
    for i := 0 to |args|
      invariant recursive == ("-r" in args[..i])
      invariant targets == Without(args[..i], "-r")
    {
      assert args[..i + 1] == args[..i] + [args[i]];
      if args[i] == "-r" {
        recursive := true;
      } else {
        targets := targets + [args[i]];
      }
    }
    assert args[..|args|] == args;
    r := Proceed(RmRequest(recursive, targets));
  }

  /** The targets are every argument other than `-r`, and `-r` is never a
      target. */
  lemma {:induction false} WithoutMembers(args: seq<string>, x: string)
    ensures forall a :: a in Without(args, x) <==> a in args && a != x
    ensures |Without(args, x)| <= |args|
    decreases |args|
  {
    if args != [] {
      var init := args[..|args| - 1];
      WithoutMembers(init, x);
      assert args == init + [args[|args| - 1]];
    }
  }
}
