/** `$NAME` expansion of command arguments: shell variables first, then the
    process environment, both passed in as maps. */
module Env {

  /** The value of a variable named `name`: the shell variable if there is
      one, else the environment variable, else the empty string. */
  function Lookup(name: string, vars: map<string, string>, env: map<string, string>): (v: string)
    ensures name in vars ==> v == vars[name]
    ensures name !in vars && name in env ==> v == env[name]
    ensures name !in vars && name !in env ==> v == []
  {
    if name in vars then vars[name] else if name in env then env[name] else []
  }

  /** One token: `$` followed by a name becomes the name's value (only the
      first `$` is stripped); any other token is kept. */
  function ExpandToken(t: string, vars: map<string, string>, env: map<string, string>): string {
    if |t| > 0 && t[0] == '$' then Lookup(t[1..], vars, env) else t
  }

  /** `expand_vars`: every token expanded, position by position. */
  function ExpandVars(tokens: seq<string>, vars: map<string, string>, env: map<string, string>): (r: seq<string>)
    ensures |r| == |tokens|
    ensures forall i :: 0 <= i < |tokens| ==> r[i] == ExpandToken(tokens[i], vars, env)
  {
    seq(|tokens|, i requires 0 <= i < |tokens| => ExpandToken(tokens[i], vars, env))
  }

  /** A token that does not start with `$` passes through unchanged. */
  lemma ExpandPlain(t: string, vars: map<string, string>, env: map<string, string>)
    requires t == [] || t[0] != '$'
    ensures ExpandToken(t, vars, env) == t
  {
  }

  /** Only the first `$` is stripped: the whole remainder is the name, and a
      bare `$` names the empty variable. */
  lemma OneDollarStripped(name: string, vars: map<string, string>, env: map<string, string>)
    ensures ExpandToken(['$'] + name, vars, env) == Lookup(name, vars, env)
    ensures ExpandToken("$", vars, env) == Lookup([], vars, env)
    ensures ExpandToken("$$" + name, vars, env) == Lookup(['$'] + name, vars, env)
  {
    assert (['$'] + name)[1..] == name;
    assert "$"[1..] == [];
    assert ("$$" + name)[1..] == ['$'] + name;
  }

  /** Shell variables take precedence over the environment. */
  lemma ShellVarsFirst(name: string, vars: map<string, string>, env: map<string, string>)
    requires name in vars
    ensures ExpandToken(['$'] + name, vars, env) == vars[name]
  {
    assert (['$'] + name)[1..] == name;
    assert "$"[1..] == [];
  }

  /** Without a shell variable the environment decides, and an unset name
      expands to the empty string. */
  lemma EnvFallback(name: string, vars: map<string, string>, env: map<string, string>)
    requires name !in vars
    ensures ExpandToken(['$'] + name, vars, env) == if name in env then env[name] else []
  {
    assert (['$'] + name)[1..] == name;
    assert "$"[1..] == [];
  }

  /** Expansion works token by token, so it distributes over concatenation. */
  lemma ExpandAppend(a: seq<string>, b: seq<string>, vars: map<string, string>, env: map<string, string>)
    ensures ExpandVars(a + b, vars, env) == ExpandVars(a, vars, env) + ExpandVars(b, vars, env)
  {
  }

  /** When no value starts with `$`, expanding twice is expanding once. */
  lemma ExpandIdempotent(tokens: seq<string>, vars: map<string, string>, env: map<string, string>)
    requires forall n :: n in vars ==> vars[n] == [] || vars[n][0] != '$'
    requires forall n :: n in env ==> env[n] == [] || env[n][0] != '$'
    ensures ExpandVars(ExpandVars(tokens, vars, env), vars, env) == ExpandVars(tokens, vars, env)
  {
    var once := ExpandVars(tokens, vars, env);
    forall i | 0 <= i < |tokens|
      ensures ExpandToken(once[i], vars, env) == once[i]
    {
      var t := tokens[i];
      if |t| > 0 && t[0] == '$' {
        var name := t[1..];
        assert once[i] == Lookup(name, vars, env);
      }
    }
  }
}
