/** The line parser: splits a line on `;`, detects a trailing `&` on each
    segment and separates the command name from its arguments. */
module Grammar {
  import opened Base
  import opened Text
  import Lexer

  datatype ParsedCommand = ParsedCommand(cmd: string, args: seq<string>, background: bool)

  /** The text of a segment that is tokenized: trimmed and, when it ends with
      `&`, with every trailing `&` and then trailing whitespace removed. */
  function Stripped(part: string): string {
    var s := Trim(part);
    if EndsWith(s, '&') then TrimEnd(TrimEndMatches(s, '&')) else s
  }

  /** The command one `;`-separated segment yields, if any. */
  function ParseSegment(part: string): Option<ParsedCommand> {
    var s := Trim(part);
    if s == [] then None
    else
      var tokens := Lexer.Tokens(Stripped(part));
      if tokens == [] then None
      else Some(ParsedCommand(tokens[0], tokens[1..], EndsWith(s, '&')))
  }

  /** The commands of a sequence of segments, in segment order. */
  function CommandsOf(parts: seq<string>): seq<ParsedCommand>
    decreases |parts|
  {
    if parts == [] then []
    else
      var last := ParseSegment(parts[|parts| - 1]);
      CommandsOf(parts[..|parts| - 1]) + (if last.Some? then [last.value] else [])
  }

  /** The commands of a line. */
  function Commands(line: string): seq<ParsedCommand> {
    CommandsOf(Split(line, ';'))
  }

  /** `parse_line`: a loop over the `;`-separated segments that trims each one,
      detects and strips a trailing `&`, tokenizes and pushes a command. */
  method ParseLine(line: string) returns (out: seq<ParsedCommand>)
    ensures out == Commands(line)
    ensures |out| <= Count(line, ';') + 1
  {
    var parts := Split(line, ';');
    out := [];
    for i := 0 to |parts|
      invariant out == CommandsOf(parts[..i])
    {
      assert parts[..i + 1][..i] == parts[..i];
      var s := Trim(parts[i]);
      if s == [] {
        continue;
      }
      var background := false;
      if EndsWith(s, '&') {
        background := true;
        s := TrimEnd(TrimEndMatches(s, '&'));
      }
      var tokens := Lexer.Tokenize(s);
      if tokens == [] {
        continue;
      }
      out := out + [ParsedCommand(tokens[0], tokens[1..], background)];
    }
    assert parts[..|parts|] == parts;
    CommandsBound(line);
  }

  // ---------------------------------------------------------------------
  // Lemmas.

  /** A segment yields a command exactly when its stripped text has a token;
      the command's name and arguments are those tokens, in order, and it runs
      in the background exactly when the trimmed segment ends with `&`. */
  lemma SegmentMeaning(part: string)
    ensures ParseSegment(part).None? <==> Lexer.Tokens(Stripped(part)) == []
    ensures ParseSegment(part).Some? ==>
      var c := ParseSegment(part).value;
      && [c.cmd] + c.args == Lexer.Tokens(Stripped(part))
      && c.background == EndsWith(Trim(part), '&')
      && c.cmd != [] && '"' !in c.cmd
  {
    var toks := Lexer.Tokens(Stripped(part));
    if Trim(part) == [] {
      Lexer.TokensOfBlank([]);
    }
    Lexer.TokensFacts(Stripped(part));
    if toks != [] {
      assert toks[0] in toks;
    }
  }

  lemma {:induction false} CommandsOfAppend(p: seq<string>, q: seq<string>)
    ensures CommandsOf(p + q) == CommandsOf(p) + CommandsOf(q)
    decreases |q|
  {
    if q == [] {
      assert p + q == p;
    } else {
      var n := |q| - 1;
      assert (p + q)[..|p + q| - 1] == p + q[..n];
      CommandsOfAppend(p, q[..n]);
    }
  }

  lemma {:induction false} CommandsOfBound(parts: seq<string>)
    ensures |CommandsOf(parts)| <= |parts|
    decreases |parts|
  {
    if parts != [] {
      CommandsOfBound(parts[..|parts| - 1]);
    }
  }

  /** A line never yields more commands than it has segments. */
  lemma CommandsBound(line: string)
    ensures |Commands(line)| <= |Split(line, ';')| == Count(line, ';') + 1
  {
    CommandsOfBound(Split(line, ';'));
    SplitCount(line, ';');
  }

  /** Every `;` separates, quoted or not: the commands of `a;b` are those of
      `a` followed by those of `b`. */
  lemma CommandsAppend(a: string, b: string)
    ensures Commands(a + [';'] + b) == Commands(a) + Commands(b)
  {
    SplitAppend(a, ';', b);
    CommandsOfAppend(Split(a, ';'), Split(b, ';'));
  }

  /** Text with no whitespace at either end is its own trim. */
  lemma TrimKeeps(s: string)
    requires s != [] && !IsWhitespace(s[0]) && !IsWhitespace(s[|s| - 1])
    ensures Trim(s) == s
  {
  }

  lemma StripAmpersands(w: string)
    ensures TrimEndMatches(w + " &&", '&') == w + " "
  {
    var s := w + " &&";
    var t := w + " &";
    var u := w + " ";
    assert s[..|s| - 1] == t && EndsWith(s, '&');
    assert t[..|t| - 1] == u && EndsWith(t, '&');
    assert !EndsWith(u, '&');
    assert TrimEndMatches(u, '&') == u;
    assert TrimEndMatches(t, '&') == u;
  }

  lemma TrimEndSpace(w: string)
    requires w != [] && !IsWhitespace(w[|w| - 1])
    ensures TrimEnd(w + " ") == w
  {
    assert (w + " ")[..|w|] == w;
  }

  /** `w &&`: every trailing `&` is stripped, leaving the word `w` alone as a
      command in the background. */
  lemma TrailingAmpersands(w: string)
    requires w != [] && '"' !in w
    requires forall i :: 0 <= i < |w| ==> !IsWhitespace(w[i])
    ensures ParseSegment(w + " &&") == Some(ParsedCommand(w, [], true))
  {
    var s := w + " &&";
    assert s[0] == w[0] && s[|s| - 1] == '&';
    TrimKeeps(s);
    StripAmpersands(w);
    TrimEndSpace(w);
    assert Stripped(s) == w;
    Lexer.TokensOfWord(w);
    assert [w][1..] == [];
  }

  /** A lone `&` is a segment without a command. */
  lemma LoneAmpersand()
    ensures ParseSegment("&") == None
  {
    assert Trim("&") == "&";
    assert TrimEndMatches("&", '&') == [];
    Lexer.TokensOfBlank([]);
  }
}
