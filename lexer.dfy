/** The command-line tokenizer: splits on whitespace, and a `"` toggles a
    quoted region in which whitespace is ordinary text. */
module Lexer {
  import opened Text

  /** The tokenizer's variables after some prefix of the input: the tokens
      emitted so far, the pending token and whether a quote is open. */
  datatype LexState = LexState(tokens: seq<string>, cur: string, inQuotes: bool)

  const Start := LexState([], [], false)

  /** What one character does to the tokenizer's variables. */
  function Step(st: LexState, ch: char): LexState {
    if ch == '"' then st.(inQuotes := !st.inQuotes)
    else if IsWhitespace(ch) && !st.inQuotes then
      (if st.cur != [] then LexState(st.tokens + [st.cur], [], st.inQuotes) else st)
    else st.(cur := st.cur + [ch])
  }

  /** The tokenizer's variables after reading `s` from state `st`. */
  function Run(st: LexState, s: string): LexState
    decreases |s|
  {
    if s == [] then st else Run(Step(st, s[0]), s[1..])
  }

  /** The final flush: a pending non-empty token is emitted. */
  function Flush(st: LexState): seq<string> {
    if st.cur != [] then st.tokens + [st.cur] else st.tokens
  }

  /** The tokens of `input`. */
  function Tokens(input: string): seq<string> {
    Flush(Run(Start, input))
  }

  // ---------------------------------------------------------------------
  // An independent description of which characters end up in tokens.

  function CountQuotes(s: string): nat
    decreases |s|
  {
    if s == [] then 0 else CountQuotes(s[..|s| - 1]) + (if s[|s| - 1] == '"' then 1 else 0)
  }

  /** Character `i` of `s` lies between an odd number of quotes before it. */
  predicate Quoted(s: string, i: nat)
    requires i <= |s|
  {
    CountQuotes(s[..i]) % 2 == 1
  }

  /** Character `i` of `s` belongs to some token: it is not a quote, and it is
      not a whitespace character outside quotes. */
  predicate KeptAt(s: string, i: nat)
    requires i < |s|
  {
    s[i] != '"' && !(IsWhitespace(s[i]) && !Quoted(s, i))
  }

  /** The characters of `s` that belong to tokens, in order. */
  function Kept(s: string): string
    decreases |s|
  {
    if s == [] then []
    else Kept(s[..|s| - 1]) + (if KeptAt(s, |s| - 1) then [s[|s| - 1]] else [])
  }

  /** Tokens are never empty and never contain a quote. */
  ghost predicate WellFormed(tokens: seq<string>) {
    forall t :: t in tokens ==> t != [] && '"' !in t
  }

  // ---------------------------------------------------------------------
  // The tokenizer as the source writes it.

  /** `tokenize`: a loop over the characters that updates the pending token
      and the quote flag, pushing each completed token. */
  method Tokenize(input: string) returns (tokens: seq<string>)
    ensures tokens == Tokens(input)
    ensures WellFormed(tokens)
    ensures Concat(tokens) == Kept(input)
  {
    tokens := [];
    var cur: string := [];
    var inQuotes := false;
    for i := 0 to |input|
      invariant Run(LexState(tokens, cur, inQuotes), input[i..]) == Run(Start, input)
    {
      assert input[i..][1..] == input[i + 1..];
      var ch := input[i];
      if ch == '"' {
        inQuotes := !inQuotes;
      } else if IsWhitespace(ch) && !inQuotes {
        if cur != [] {
          tokens := tokens + [cur];
          cur := [];
        }
      } else {
        cur := cur + [ch];
      }
    }
    if cur != [] {
      tokens := tokens + [cur];
    }
    TokensFacts(input);
  }

  // ---------------------------------------------------------------------
  // Lemmas.

  lemma {:induction false} RunSnoc(st: LexState, s: string, c: char)
    ensures Run(st, s + [c]) == Step(Run(st, s), c)
    decreases |s|
  {
    if s == [] {
      assert [c][1..] == [];
    } else {
      assert (s + [c])[1..] == s[1..] + [c];
      RunSnoc(Step(st, s[0]), s[1..], c);
    }
  }

  lemma {:induction false} RunAppend(st: LexState, a: string, b: string)
    ensures Run(st, a + b) == Run(Run(st, a), b)
    decreases |a|
  {
    if a != [] {
      assert (a + b)[0] == a[0];
      assert (a + b)[1..] == a[1..] + b;
      RunAppend(Step(st, a[0]), a[1..], b);
    } else {
      assert a + b == b;
    }
  }

  /** The invariant of the tokenizer's loop, stated against `Kept`. */
  ghost predicate Consistent(st: LexState, s: string) {
    && WellFormed(st.tokens)
    && '"' !in st.cur
    && st.inQuotes == (CountQuotes(s) % 2 == 1)
    && Concat(st.tokens) + st.cur == Kept(s)
  }

  /** One character keeps the tokenizer's variables consistent with `Kept`. */
  lemma StepConsistent(st: LexState, s: string, c: char)
    requires Consistent(st, s)
    ensures Consistent(Step(st, c), s + [c])
  {
    var s' := s + [c];
    assert s'[..|s|] == s;
    assert CountQuotes(s') == CountQuotes(s) + (if c == '"' then 1 else 0);
    assert Quoted(s', |s|) == st.inQuotes;
    assert Kept(s') == Kept(s) + (if KeptAt(s', |s|) then [c] else []);
    var st' := Step(st, c);
    if c == '"' {
      assert st' == st.(inQuotes := !st.inQuotes);
    } else if IsWhitespace(c) && !st.inQuotes {
      if st.cur != [] {
        var ts := st.tokens + [st.cur];
        assert ts[..|ts| - 1] == st.tokens;
        assert Concat(ts) == Concat(st.tokens) + st.cur;
      }
    } else {
      assert st' == st.(cur := st.cur + [c]);
      assert Concat(st'.tokens) + st'.cur == (Concat(st.tokens) + st.cur) + [c];
    }
  }

  lemma {:induction false} ScanConsistent(s: string)
    ensures Consistent(Run(Start, s), s)
    decreases |s|
  {
    if s != [] {
      var n := |s| - 1;
      var init, c := s[..n], s[n];
      assert s == init + [c];
      ScanConsistent(init);
      RunSnoc(Start, init, c);
      StepConsistent(Run(Start, init), init, c);
    }
  }

  /** Everything the tokenizer promises about its output. */
  lemma TokensFacts(input: string)
    ensures WellFormed(Tokens(input))
    ensures Concat(Tokens(input)) == Kept(input)
  {
    ScanConsistent(input);
    var st := Run(Start, input);
    if st.cur != [] {
      var ts := st.tokens + [st.cur];
      assert ts[..|ts| - 1] == st.tokens;
    }
  }

  /** Reading text with no quote, and with no whitespace unless a quote is
      open, only extends the pending token. */
  lemma {:induction false} RunPlain(st: LexState, w: string)
    requires '"' !in w
    requires forall i :: 0 <= i < |w| ==> st.inQuotes || !IsWhitespace(w[i])
    ensures Run(st, w) == st.(cur := st.cur + w)
    decreases |w|
  {
    if w != [] {
      RunPlain(Step(st, w[0]), w[1..]);
      assert st.cur + [w[0]] + w[1..] == st.cur + w;
    }
  }

  /** A non-empty word without quotes or whitespace is exactly one token. */
  lemma TokensOfWord(w: string)
    requires w != [] && '"' !in w
    requires forall i :: 0 <= i < |w| ==> !IsWhitespace(w[i])
    ensures Tokens(w) == [w]
  {
    RunPlain(Start, w);
    assert Start.(cur := Start.cur + w) == LexState([], w, false);
  }

  /** A quoted non-empty text is one token, whitespace included. */
  lemma TokensOfQuoted(w: string)
    requires w != [] && '"' !in w
    ensures Tokens(['"'] + w + ['"']) == [w]
  {
    var q := LexState([], [], true);
    assert Run(Start, ['"']) == q;
    RunAppend(Start, ['"'], w);
    RunPlain(q, w);
    assert Run(Start, ['"'] + w) == LexState([], w, true);
    RunSnoc(Start, ['"'] + w, '"');
  }

  /** An unbalanced quote: the text after it is still emitted as a final token. */
  lemma TokensOfUnclosedQuote(w: string)
    requires w != [] && '"' !in w
    ensures Tokens(['"'] + w) == [w]
  {
    var q := LexState([], [], true);
    assert Run(Start, ['"']) == q;
    RunAppend(Start, ['"'], w);
    RunPlain(q, w);
    assert Run(Start, ['"'] + w) == LexState([], w, true);
  }

  lemma {:induction false} RunBlank(ts: seq<string>, s: string)
    requires forall i :: 0 <= i < |s| ==> IsWhitespace(s[i])
    ensures Run(LexState(ts, [], false), s) == LexState(ts, [], false)
    decreases |s|
  {
    if s != [] {
      assert s[0] != '"';
      RunBlank(ts, s[1..]);
    }
  }

  /** An empty or all-whitespace line has no tokens. */
  lemma TokensOfBlank(s: string)
    requires forall i :: 0 <= i < |s| ==> IsWhitespace(s[i])
    ensures Tokens(s) == []
  {
    RunBlank([], s);
  }

  /** Tokens emitted before a run are carried through it unchanged. */
  lemma {:induction false} RunShift(st: LexState, pre: seq<string>, s: string)
    ensures Run(st.(tokens := pre + st.tokens), s)
         == Run(st, s).(tokens := pre + Run(st, s).tokens)
    decreases |s|
  {
    if s != [] {
      var st' := st.(tokens := pre + st.tokens);
      assert Step(st', s[0]) == Step(st, s[0]).(tokens := pre + Step(st, s[0]).tokens);
      RunShift(Step(st, s[0]), pre, s[1..]);
    }
  }

  /** Whitespace outside quotes separates: the tokens on either side are
      those of each side on its own. */
  lemma TokensSeparated(a: string, c: char, b: string)
    requires IsWhitespace(c) && CountQuotes(a) % 2 == 0
    ensures Tokens(a + [c] + b) == Tokens(a) + Tokens(b)
  {
    ScanConsistent(a);
    RunAppend(Start, a + [c], b);
    RunSnoc(Start, a, c);
    var mid := LexState(Tokens(a), [], false);
    assert Run(Start, a + [c]) == mid;
    RunShift(Start, Tokens(a), b);
    assert Start.(tokens := Tokens(a) + Start.tokens) == mid;
  }
}
