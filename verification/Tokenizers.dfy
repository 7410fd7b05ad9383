/** The GNU and Windows command line tokenizers: their grammars, and the loops that follow them. */
module Tokenizers {
  import opened Text

  /** An entry of the argument vector: an end-of-line marker (a null pointer) or a C string. */
  datatype Arg = EndOfLine | Word(text: string)

  datatype Style = Gnu | Windows

  predicate IsWhitespace(c: char) { c == ' ' || c == '\t' || c == '\r' || c == '\n' }

  predicate IsQuote(c: char) { c == '"' || c == '\'' }

  /** Saving a token: readers of the `const char *` stop at the first NUL. */
  function Saved(token: string): Arg { Word(CString(token)) }

  /** What is appended when the input is used up. */
  function Finish(token: string, markEols: bool): seq<Arg> {
    (if token != "" then [Saved(token)] else []) + (if markEols then [EndOfLine] else [])
  }

  function LineMark(c: char, markEols: bool): seq<Arg> {
    if markEols && c == '\n' then [EndOfLine] else []
  }

  // ---------------------------------------------------------------- GNU, as functions

  /** The inside of a quoted string: its text, what follows, and whether the closing quote was there. */
  function QuotedPart(s: string, quote: char): (part: (string, string, bool))
    ensures |part.1| <= |s|
    decreases |s|
  {
    if s == "" then ("", "", false)
    else if s[0] == quote then ("", s[1..], true)
    else if s[0] == '\\' && |s| > 1 then
      var (text, rest, closed) := QuotedPart(s[2..], quote);
      ([s[1]] + text, rest, closed)
    else
      var (text, rest, closed) := QuotedPart(s[1..], quote);
      ([s[0]] + text, rest, closed)
  }

  /** The arguments still to be produced from the input `s` with `token` already read. */
  function GnuArgs(s: string, token: string, markEols: bool): seq<Arg>
    decreases |s|
  {
    if s == "" then Finish(token, markEols)
    else if token == "" && IsWhitespace(s[0]) then LineMark(s[0], markEols) + GnuArgs(s[1..], token, markEols)
    else if |s| > 1 && s[0] == '\\' then GnuArgs(s[2..], token + [s[1]], markEols)
    else if IsQuote(s[0]) then
      var (text, rest, closed) := QuotedPart(s[1..], s[0]);
      if closed then GnuArgs(rest, token + text, markEols) else Finish(token + text, markEols)
    else if IsWhitespace(s[0]) then [Saved(token)] + GnuArgs(s[1..], "", markEols)
    else GnuArgs(s[1..], token + [s[0]], markEols)
  }

  // ---------------------------------------------------------------- Windows, as functions

  datatype State = Init | Unquoted | Quoted

  /** The number of backslashes `s` starts with. */
  function LeadingBackslashes(s: string): (n: nat)
    ensures n <= |s|
  {
    if s != "" && s[0] == '\\' then 1 + LeadingBackslashes(s[1..]) else 0
  }

  function Backslashes(n: nat): (s: string)
    ensures |s| == n && forall i | 0 <= i < n :: s[i] == '\\'
  {
    seq(n, _ => '\\')
  }

  lemma {:induction false} CountBackslashes(n: nat, rest: string)
    requires rest != "" ==> rest[0] != '\\'
    ensures LeadingBackslashes(Backslashes(n) + rest) == n
  {
    if n == 0 {
      assert Backslashes(n) + rest == rest;
    } else {
      CountBackslashes(n - 1, rest);
      assert (Backslashes(n) + rest)[1..] == Backslashes(n - 1) + rest;
    }
  }

  lemma {:induction false} StartsWithBackslashes(s: string)
    ensures var n := LeadingBackslashes(s);
            s == Backslashes(n) + s[n..] && (n < |s| ==> s[n] != '\\')
  {
    if s != "" && s[0] == '\\' {
      StartsWithBackslashes(s[1..]);
      var n := LeadingBackslashes(s);
      assert s == ['\\'] + s[1..] && s[1..][n - 1..] == s[n..];
      assert Backslashes(n) == ['\\'] + Backslashes(n - 1);
      assert s[n..] == s[1..][n - 1..];
    }
  }

  /** What a run of backslashes adds to the token, and how much input it uses up. */
  function BackslashRun(s: string): (run: (string, nat))
    requires s != "" && s[0] == '\\'
    ensures 0 < run.1 <= |s|
  {
    var n := LeadingBackslashes(s);
    if n < |s| && s[n] == '"' then
      if n % 2 == 0 then (Backslashes(n / 2), n) else (Backslashes(n / 2) + ['"'], n + 1)
    else
      (Backslashes(n), n)
  }

  function WindowsArgs(s: string, state: State, token: string, markEols: bool): seq<Arg>
    decreases |s|
  {
    if s == "" then Finish(token, markEols)
    else if state == Init && IsWhitespace(s[0]) then
      LineMark(s[0], markEols) + WindowsArgs(s[1..], Init, token, markEols)
    else if state == Unquoted && IsWhitespace(s[0]) then
      [Saved(token)] + LineMark(s[0], markEols) + WindowsArgs(s[1..], Init, "", markEols)
    else if s[0] == '"' then
      WindowsArgs(s[1..], if state == Quoted then Unquoted else Quoted, token, markEols)
    else
      var next := if state == Init then Unquoted else state;
      if s[0] == '\\' then
        var (text, used) := BackslashRun(s);
        WindowsArgs(s[used..], next, token + text, markEols)
      else
        WindowsArgs(s[1..], next, token + [s[0]], markEols)
  }

  function Tokens(style: Style, s: string, markEols: bool): seq<Arg> {
    match style
    case Gnu => GnuArgs(s, "", markEols)
    case Windows => WindowsArgs(s, Init, "", markEols)
  }

  // ---------------------------------------------------------------- the loops of the source

  method TokenizeGNUCommandLine(src: string, argv: seq<Arg>, markEols: bool) returns (newArgv: seq<Arg>)
    ensures newArgv == argv + Tokens(Gnu, src, markEols)
  {
    hide GnuArgs, QuotedPart, Finish;
    newArgv := argv;
    var token := "";
    var i, e := 0, |src|;
    ghost var all := argv + GnuArgs(src, "", markEols);
    assert src[0..] == src;
    ghost var unclosed := false;
    while i != e
      invariant 0 <= i <= e && newArgv + GnuArgs(src[i..], token, markEols) == all && !unclosed
      decreases e - i
    {
      // Between arguments, whitespace only matters for the line marks.
      if token == "" {
        while i != e && IsWhitespace(src[i])
          invariant 0 <= i <= e && newArgv + GnuArgs(src[i..], token, markEols) == all
          decreases e - i
        {
          GnuSkipsSpace(newArgv, src, i, markEols);
          if markEols && src[i] == '\n' {
            newArgv := newArgv + [EndOfLine];
          }
          i := i + 1;
        }
        if i == e {
          break;
        }
      }
      var c := src[i];
      GnuStep(src, i, token, markEols);
      if i + 1 < e && c == '\\' {
        i := i + 1;
        token := token + [src[i]];
      } else if IsQuote(c) {
        i, token := ConsumeQuoted(src, i + 1, token, c);
        if i == e {
          unclosed := true;
          break;
        }
      } else if IsWhitespace(c) {
        assert newArgv + ([Saved(token)] + GnuArgs(src[i + 1..], "", markEols))
            == (newArgv + [Saved(token)]) + GnuArgs(src[i + 1..], "", markEols);
        if token != "" {
          newArgv := newArgv + [Saved(token)];
        }
        token := "";
      } else {
        token := token + [c];
      }
      i := i + 1;
    }
    if !unclosed {
      GnuAtEnd(src, token, markEols);
    }
    AppendsFinish(newArgv, token, markEols, all);
    if token != "" {
      newArgv := newArgv + [Saved(token)];
    }
    if markEols {
      newArgv := newArgv + [EndOfLine];
    }
  }

  /** The inner loop over a quoted string; `i` ends at the closing quote, or at the end of input. */
  method ConsumeQuoted(src: string, start: nat, token: string, quote: char) returns (i: nat, newToken: string)
    requires start <= |src|
    ensures var (text, rest, closed) := QuotedPart(src[start..], quote);
            && start <= i <= |src| && newToken == token + text
            && closed == (i < |src|) && (closed ==> rest == src[i + 1..])
  {
    hide QuotedPart;
    i, newToken := start, token;
    ghost var inside := QuotedPart(src[start..], quote);
    while i != |src| && src[i] != quote
      invariant start <= i <= |src|
      invariant newToken + QuotedPart(src[i..], quote).0 == token + inside.0
      invariant QuotedPart(src[i..], quote).1 == inside.1 && QuotedPart(src[i..], quote).2 == inside.2
      decreases |src| - i
    {
      QuotedStep(src, i, newToken, quote);
      if src[i] == '\\' && i + 1 != |src| {
        i := i + 1;
      }
      newToken := newToken + [src[i]];
      i := i + 1;
    }
    QuotedEnds(src, i, newToken, quote);
  }

  lemma GnuAtEnd(src: string, token: string, markEols: bool)
    ensures GnuArgs(src[|src|..], token, markEols) == Finish(token, markEols)
  {
  }

  lemma GnuSkipsSpace(argv: seq<Arg>, src: string, i: nat, markEols: bool)
    requires i < |src| && IsWhitespace(src[i])
    ensures argv + GnuArgs(src[i..], "", markEols)
         == (if markEols && src[i] == '\n' then argv + [EndOfLine] else argv) + GnuArgs(src[i + 1..], "", markEols)
  {
    assert src[i..][1..] == src[i + 1..];
    var rest := GnuArgs(src[i + 1..], "", markEols);
    assert argv + (LineMark(src[i], markEols) + rest) == (argv + LineMark(src[i], markEols)) + rest;
    assert argv + [] == argv;
  }

  /** One step of the main loop at a character that is not skipped. */
  lemma GnuStep(src: string, i: nat, token: string, markEols: bool)
    requires i < |src| && !(token == "" && IsWhitespace(src[i]))
    ensures GnuArgs(src[i..], token, markEols) ==
            if i + 1 < |src| && src[i] == '\\' then GnuArgs(src[i + 2..], token + [src[i + 1]], markEols)
            else if IsQuote(src[i]) then
              var (text, rest, closed) := QuotedPart(src[i + 1..], src[i]);
              if closed then GnuArgs(rest, token + text, markEols) else Finish(token + text, markEols)
            else if IsWhitespace(src[i]) then [Saved(token)] + GnuArgs(src[i + 1..], "", markEols)
            else GnuArgs(src[i + 1..], token + [src[i]], markEols)
  {
    var s := src[i..];
    assert s[1..] == src[i + 1..];
    if i + 1 < |src| {
      assert s[2..] == src[i + 2..];
    }
  }

  lemma QuotedStep(src: string, i: nat, token: string, quote: char)
    requires i < |src| && src[i] != quote
    ensures var j := if src[i] == '\\' && i + 1 != |src| then i + 1 else i;
            var (now, later) := (QuotedPart(src[i..], quote), QuotedPart(src[j + 1..], quote));
            token + now.0 == (token + [src[j]]) + later.0 && now.1 == later.1 && now.2 == later.2
  {
    var s := src[i..];
    assert s[1..] == src[i + 1..];
    if src[i] == '\\' && i + 1 != |src| {
      assert s[2..] == src[i + 2..];
      var later := QuotedPart(src[i + 2..], quote);
      assert token + ([src[i + 1]] + later.0) == (token + [src[i + 1]]) + later.0;
    } else {
      var later := QuotedPart(src[i + 1..], quote);
      assert token + ([src[i]] + later.0) == (token + [src[i]]) + later.0;
    }
  }

  lemma QuotedEnds(src: string, i: nat, token: string, quote: char)
    requires i <= |src| && (i < |src| ==> src[i] == quote)
    ensures token + QuotedPart(src[i..], quote).0 == token
    ensures QuotedPart(src[i..], quote).2 == (i < |src|)
    ensures i < |src| ==> QuotedPart(src[i..], quote).1 == src[i + 1..]
  {
    if i < |src| {
      assert src[i..][1..] == src[i + 1..];
    }
    assert token + "" == token;
  }

  lemma AppendsFinish(argv: seq<Arg>, token: string, markEols: bool, all: seq<Arg>)
    requires argv + Finish(token, markEols) == all
    ensures all == (if token != "" then argv + [Saved(token)] else argv) + (if markEols then [EndOfLine] else [])
  {
    var word: seq<Arg> := if token != "" then [Saved(token)] else [];
    var mark: seq<Arg> := if markEols then [EndOfLine] else [];
    assert argv + (word + mark) == (argv + word) + mark;
    assert argv + [] == argv;
  }

  /** `parseBackslash`: the new token, and the index of the last character used up. */
  method ParseBackslash(src: string, start: nat, token: string) returns (i: nat, newToken: string)
    requires start < |src| && src[start] == '\\'
    ensures start <= i < |src|
    ensures newToken == token + BackslashRun(src[start..]).0 && i + 1 == start + BackslashRun(src[start..]).1
  {
    i := start;
    var count := 0;
    ghost var n := LeadingBackslashes(src[start..]);
    // The run ends at the first other character, or at the end of the input.
    while true
      invariant start <= i < |src| && src[i] == '\\' && count == i - start
      invariant LeadingBackslashes(src[i..]) + count == n
      decreases |src| - i
    {
      assert src[i..][1..] == src[i + 1..];
      i := i + 1;
      count := count + 1;
      if i == |src| || src[i] != '\\' {
        break;
      }
    }
    assert count == n;
    var followedByDoubleQuote := i != |src| && src[i] == '"';
    assert i < |src| ==> src[start..][n] == src[i];
    if followedByDoubleQuote {
      newToken := token + Backslashes(count / 2);
      if count % 2 == 0 {
        i := i - 1;
        return;
      }
      assert newToken + ['"'] == token + (Backslashes(count / 2) + ['"']);
      newToken := newToken + ['"'];
      return;
    }
    newToken := token + Backslashes(count);
    i := i - 1;
  }

  method TokenizeWindowsCommandLine(src: string, argv: seq<Arg>, markEols: bool) returns (newArgv: seq<Arg>)
    ensures newArgv == argv + Tokens(Windows, src, markEols)
  {
    hide WindowsArgs, BackslashRun, Finish;
    newArgv := argv;
    var token := "";
    var state := Init;
    var i, e := 0, |src|;
    ghost var all := argv + WindowsArgs(src, Init, "", markEols);
    assert src[0..] == src;
    while i != e
      invariant 0 <= i <= e && newArgv + WindowsArgs(src[i..], state, token, markEols) == all
      decreases e - i
    {
      var c := src[i];
      WindowsStep(newArgv, src, i, state, token, markEols);
      if state == Init {
        if IsWhitespace(c) {
          if markEols && c == '\n' {
            newArgv := newArgv + [EndOfLine];
          }
        } else if c == '"' {
          state := Quoted;
        } else if c == '\\' {
          i, token := ParseBackslash(src, i, token);
          state := Unquoted;
        } else {
          token := token + [c];
          state := Unquoted;
        }
      } else if state == Unquoted {
        if IsWhitespace(c) {
          newArgv := newArgv + [Saved(token)];
          token := "";
          state := Init;
          if markEols && c == '\n' {
            newArgv := newArgv + [EndOfLine];
          }
        } else if c == '"' {
          state := Quoted;
        } else if c == '\\' {
          i, token := ParseBackslash(src, i, token);
        } else {
          token := token + [c];
        }
      } else {
        if c == '"' {
          state := Unquoted;
        } else if c == '\\' {
          i, token := ParseBackslash(src, i, token);
        } else {
          token := token + [c];
        }
      }
      i := i + 1;
    }
    assert WindowsArgs(src[i..], state, token, markEols) == Finish(token, markEols) by {
      WindowsAtEnd(src, state, token, markEols);
    }
    AppendsFinish(newArgv, token, markEols, all);
    if token != "" {
      newArgv := newArgv + [Saved(token)];
    }
    if markEols {
      newArgv := newArgv + [EndOfLine];
    }
  }

  lemma WindowsAtEnd(src: string, state: State, token: string, markEols: bool)
    ensures WindowsArgs(src[|src|..], state, token, markEols) == Finish(token, markEols)
  {
  }

  lemma WindowsStep(argv: seq<Arg>, src: string, i: nat, state: State, token: string, markEols: bool)
    requires i < |src|
    ensures argv + WindowsArgs(src[i..], state, token, markEols) ==
            var marked := if markEols && src[i] == '\n' then [EndOfLine] else [];
            if state == Init && IsWhitespace(src[i]) then (argv + marked) + WindowsArgs(src[i + 1..], Init, token, markEols)
            else if state == Unquoted && IsWhitespace(src[i]) then
              ((argv + [Saved(token)]) + marked) + WindowsArgs(src[i + 1..], Init, "", markEols)
            else if src[i] == '"' then
              argv + WindowsArgs(src[i + 1..], if state == Quoted then Unquoted else Quoted, token, markEols)
            else
              var next := if state == Init then Unquoted else state;
              if src[i] == '\\' then
                var (text, used) := BackslashRun(src[i..]);
                argv + WindowsArgs(src[i + used..], next, token + text, markEols)
              else
                argv + WindowsArgs(src[i + 1..], next, token + [src[i]], markEols)
    ensures argv + [] == argv
  {
    var s := src[i..];
    assert s[1..] == src[i + 1..];
    if s[0] == '\\' {
      assert s[BackslashRun(s).1..] == src[i + BackslashRun(s).1..];
    }
    var marked: seq<Arg> := if markEols && src[i] == '\n' then [EndOfLine] else [];
    var rest := WindowsArgs(src[i + 1..], Init, "", markEols);
    assert argv + ([Saved(token)] + marked + rest) == ((argv + [Saved(token)]) + marked) + rest;
    var rest' := WindowsArgs(src[i + 1..], Init, token, markEols);
    assert argv + (marked + rest') == (argv + marked) + rest';
  }
}
