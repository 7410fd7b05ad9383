/** The CSV line parser: one token of lookahead, two characters for an escaped quote. */
module Csv {
  import opened Options
  import opened Text

  datatype Token = Delimiter | Eol | Quote | Escape | Character

  /** A field that is not there differs from one that is there and empty. */
  type Columns = seq<Option<string>>

  datatype Dialect = Dialect(delimiter: char, quote: char, escape: char) {

    // -------------------------------------------------------------- what the parser reads

    /** The token at the start of what is left; the end of input stays there. */
    function TokenOf(r: string): Token {
      if r == "" || r[0] == NUL then Token.Eol
      else if r[0] == delimiter then Token.Delimiter
      else if r[0] == quote then Token.Quote
      else if r[0] == escape then Token.Escape
      else Token.Character
    }

    /** The token that opens an escaped quote. */
    function EscapeToken(): Token { if quote == escape then Token.Quote else Token.Escape }

    predicate EscapedQuote(r: string) {
      r != "" && TokenOf(r) == EscapeToken() && TokenOf(r[1..]) == Token.Quote
    }

    /** Plain characters, and what follows them. */
    function BareRun(r: string): (run: (string, string))
      ensures |run.1| <= |r|
    {
      if TokenOf(r) == Token.Character then
        var (text, rest) := BareRun(r[1..]);
        ([r[0]] + text, rest)
      else
        ("", r)
    }

    /** The inside of a quoted field, and what follows it. */
    function QuotedRun(r: string): (run: (string, string))
      ensures |run.1| <= |r|
      decreases |r|
    {
      if TokenOf(r) == Token.Character || TokenOf(r) == Token.Delimiter then
        var (text, rest) := QuotedRun(r[1..]);
        ([r[0]] + text, rest)
      else if EscapedQuote(r) then
        var (text, rest) := QuotedRun(r[2..]);
        ([r[1]] + text, rest)
      else
        ("", r)
    }

    /** One field and what follows it; `None` when the source throws. */
    function FieldOf(r: string): (field: Option<(Option<string>, string)>)
      ensures field.Some? ==> |field.value.1| <= |r|
    {
      if TokenOf(r) == Token.Quote then
        var (text, rest) := QuotedRun(r[1..]);
        if TokenOf(rest) == Token.Quote then Some((Some(text), rest[1..])) else None
      else
        var (text, rest) := BareRun(r);
        Some((if text != "" then Some(text) else None, rest))
    }

    /** All fields and what follows the last one. */
    function FieldsOf(r: string): Option<(Columns, string)>
      decreases |r|
    {
      match FieldOf(r)
      case None => None
      case Some((field, rest)) =>
        if TokenOf(rest) == Token.Delimiter then
          match FieldsOf(rest[1..])
          case None => None
          case Some((fields, end)) => Some(([field] + fields, end))
        else
          Some(([field], rest))
    }

    function ParseOf(s: string): Option<Columns> {
      match FieldsOf(s)
      case Some((columns, rest)) => if TokenOf(rest) == Token.Eol then Some(columns) else None
      case None => None
    }

    // -------------------------------------------------------------- what a rendering looks like

    /** The three special characters can be told apart where that matters. */
    predicate Valid() {
      && delimiter != quote && delimiter != escape
      && delimiter != NUL && quote != NUL && escape != NUL
    }

    /** The text between the quotes: every quote is preceded by the escape. */
    function Escaped(x: string): string {
      if x == "" then ""
      else (if x[0] == quote then [escape, quote] else [x[0]]) + Escaped(x[1..])
    }

    /** Text that can be put in quotes: a separate escape character cannot itself be written. */
    predicate Quotable(x: string) {
      forall i | 0 <= i < |x| :: x[i] != NUL && (x[i] == quote || x[i] != escape)
    }

    /** Text that can be written without quotes. */
    predicate Bare(x: string) {
      x != "" && forall i | 0 <= i < |x| :: x[i] != NUL && x[i] != delimiter && x[i] != quote && x[i] != escape
    }

    predicate IsFieldText(t: string, field: Option<string>) {
      match field
      case None => t == ""
      case Some(x) => (Quotable(x) && t == [quote] + (Escaped(x) + [quote])) || (Bare(x) && t == x)
    }

    /** `t` is the columns, each written one way or the other, with delimiters between them. */
    ghost predicate IsRendering(t: string, columns: Columns) {
      if columns == [] then false
      else if |columns| == 1 then IsFieldText(t, columns[0])
      else exists k ::
        && 0 <= k < |t| && t[k] == delimiter
        && IsFieldText(t[..k], columns[0]) && IsRendering(t[k + 1..], columns[1..])
    }

    /** The canonical printer: quotes everywhere except for absent columns. */
    function Render(columns: Columns): string
      requires columns != []
    {
      var first := if columns[0].None? then "" else [quote] + (Escaped(columns[0].value) + [quote]);
      if |columns| == 1 then first else first + ([delimiter] + Render(columns[1..]))
    }

    // -------------------------------------------------------------- renderings are parsed back

    predicate Ends(u: string) { TokenOf(u) == Token.Eol || TokenOf(u) == Token.Delimiter }

    lemma {:induction false} BareIsRead(x: string, u: string)
      requires Valid() && (x == "" || Bare(x)) && Ends(u)
      ensures BareRun(x + u) == (x, u)
    {
      if x == "" {
        assert x + u == u;
      } else {
        BareIsRead(x[1..], u);
        assert (x + u)[1..] == x[1..] + u;
        assert x == [x[0]] + x[1..];
      }
    }

    lemma {:induction false} EscapedIsRead(x: string, u: string)
      requires Valid() && Quotable(x) && Ends(u)
      ensures QuotedRun(Escaped(x) + ([quote] + u)) == (x, [quote] + u)
    {
      var after := [quote] + u;
      if x == "" {
        assert Escaped(x) + after == after && after[1..] == u;
      } else {
        EscapedIsRead(x[1..], u);
        assert x == [x[0]] + x[1..];
        var r := Escaped(x) + after;
        if x[0] == quote {
          assert r == [escape, quote] + (Escaped(x[1..]) + after);
          assert r[1..][0] == quote && r[2..] == Escaped(x[1..]) + after;
        } else {
          assert r == [x[0]] + (Escaped(x[1..]) + after);
          assert r[1..] == Escaped(x[1..]) + after;
        }
      }
    }

    lemma FieldTextIsRead(t: string, field: Option<string>, u: string)
      requires Valid() && IsFieldText(t, field) && Ends(u)
      ensures FieldOf(t + u) == Some((field, u))
    {
      if field.Some? && Quotable(field.value) && t == [quote] + (Escaped(field.value) + [quote]) {
        EscapedIsRead(field.value, u);
        assert (t + u)[1..] == Escaped(field.value) + ([quote] + u);
        assert ([quote] + u)[1..] == u;
      } else {
        BareIsRead(t, u);
        assert t != "" ==> (t + u)[0] == t[0];
        assert t == "" ==> t + u == u;
      }
    }

    lemma {:induction false} RenderingIsRead(t: string, columns: Columns, u: string)
      requires Valid() && IsRendering(t, columns) && TokenOf(u) == Token.Eol
      ensures FieldsOf(t + u) == Some((columns, u))
      decreases |columns|
    {
      hide IsFieldText, FieldOf;
      if |columns| == 1 {
        FieldTextIsRead(t, columns[0], u);
        assert [columns[0]] == columns;
      } else {
        var k :| 0 <= k < |t| && t[k] == delimiter && IsFieldText(t[..k], columns[0])
                 && IsRendering(t[k + 1..], columns[1..]);
        RenderingIsRead(t[k + 1..], columns[1..], u);
        MoreFieldsAreRead(t, columns, u, k);
      }
    }

    lemma MoreFieldsAreRead(t: string, columns: Columns, u: string, k: nat)
      requires Valid() && k < |t| && t[k] == delimiter && |columns| > 1 && IsFieldText(t[..k], columns[0])
      requires FieldsOf(t[k + 1..] + u) == Some((columns[1..], u))
      ensures FieldsOf(t + u) == Some((columns, u))
    {
      hide IsFieldText, FieldOf;
      var rest := t[k..] + u;
      assert t + u == t[..k] + rest;
      FieldTextIsRead(t[..k], columns[0], rest);
      assert rest[1..] == t[k + 1..] + u;
      assert [columns[0]] + columns[1..] == columns;
    }

    // -------------------------------------------------------------- what is accepted is a rendering

    lemma {:induction false} BareRunIsBare(r: string)
      ensures var (text, rest) := BareRun(r);
              r == text + rest && (text == "" || Bare(text)) && TokenOf(rest) != Token.Character
    {
      if TokenOf(r) == Token.Character {
        BareRunIsBare(r[1..]);
      }
    }

    lemma EscapedCons(c: char, x: string)
      requires Valid() && Quotable(x) && c != NUL && (c == quote || c != escape)
      ensures Escaped([c] + x) == (if c == quote then [escape, quote] else [c]) + Escaped(x)
      ensures Quotable([c] + x)
    {
      assert ([c] + x)[1..] == x;
    }

    lemma PlainInside(r: string, text: string, rest: string)
      requires Valid() && (TokenOf(r) == Token.Character || TokenOf(r) == Token.Delimiter)
      requires r[1..] == Escaped(text) + rest && Quotable(text)
      ensures r == Escaped([r[0]] + text) + rest && Quotable([r[0]] + text)
    {
      EscapedCons(r[0], text);
      hide Escaped, Quotable;
      assert r == [r[0]] + r[1..];
    }

    lemma QuoteInside(r: string, text: string, rest: string)
      requires Valid() && EscapedQuote(r)
      requires r[2..] == Escaped(text) + rest && Quotable(text)
      ensures r == Escaped([r[1]] + text) + rest && Quotable([r[1]] + text)
    {
      assert r[1] == r[1..][0] == quote && r[0] == escape;
      EscapedCons(r[1], text);
      hide Escaped, Quotable;
      assert r == [r[0], r[1]] + r[2..];
    }

    lemma {:induction false} QuotedRunIsEscaped(r: string)
      requires Valid()
      ensures var (text, rest) := QuotedRun(r);
              r == Escaped(text) + rest && Quotable(text)
      decreases |r|
    {
      hide Escaped, Quotable;
      if TokenOf(r) == Token.Character || TokenOf(r) == Token.Delimiter {
        QuotedRunIsEscaped(r[1..]);
        PlainInside(r, QuotedRun(r[1..]).0, QuotedRun(r[1..]).1);
      } else if EscapedQuote(r) {
        QuotedRunIsEscaped(r[2..]);
        QuoteInside(r, QuotedRun(r[2..]).0, QuotedRun(r[2..]).1);
      } else {
        EscapedEmpty();
        assert r == "" + r;
      }
    }

    lemma EscapedEmpty()
      ensures Escaped("") == "" && Quotable("")
    {
    }

    lemma FieldIsFieldText(r: string)
      requires Valid() && FieldOf(r).Some?
      ensures var (field, rest) := FieldOf(r).value;
              exists t :: r == t + rest && IsFieldText(t, field) && NulFree(t)
    {
      hide Escaped, Quotable, BareRun, QuotedRun;
      var (field, rest) := FieldOf(r).value;
      if TokenOf(r) == Token.Quote {
        QuotedRunIsEscaped(r[1..]);
        var (text, after) := QuotedRun(r[1..]);
        var t := [quote] + (Escaped(text) + [quote]);
        EscapedNulFree(text);
        assert after == [quote] + rest;
        assert r == t + rest;
        assert IsFieldText(t, field);
      } else {
        BareRunIsBare(r);
        var (text, _) := BareRun(r);
        assert r == text + rest && IsFieldText(text, field) && NulFree(text);
      }
    }

    lemma {:induction false} EscapedNulFree(x: string)
      requires Valid() && Quotable(x)
      ensures NulFree(Escaped(x))
    {
      if x != "" {
        EscapedNulFree(x[1..]);
      }
    }

    lemma ConsRendering(t: string, field: Option<string>, t': string, fields: Columns)
      requires IsFieldText(t, field) && IsRendering(t', fields)
      ensures IsRendering(t + ([delimiter] + t'), [field] + fields)
    {
      hide IsFieldText;
      var all, columns := t + ([delimiter] + t'), [field] + fields;
      assert all[|t|] == delimiter && all[..|t|] == t && all[|t| + 1..] == t';
      assert columns[0] == field && columns[1..] == fields && |columns| > 1;
    }

    ghost predicate Accepts(r: string, columns: Columns, rest: string, t: string) {
      r == t + rest && IsRendering(t, columns) && NulFree(t)
    }

    /** The text an accepted input starts with. */
    lemma {:induction false} AcceptedIsRendering(r: string) returns (t: string)
      requires Valid() && FieldsOf(r).Some?
      ensures Accepts(r, FieldsOf(r).value.0, FieldsOf(r).value.1, t)
      decreases |r|
    {
      hide IsFieldText, FieldOf;
      FieldIsFieldText(r);
      var (field, after) := FieldOf(r).value;
      t :| r == t + after && IsFieldText(t, field) && NulFree(t);
      if TokenOf(after) == Token.Delimiter {
        var t' := AcceptedIsRendering(after[1..]);
        var (fields, rest) := FieldsOf(after[1..]).value;
        ConsRendering(t, field, t', fields);
        assert after == [delimiter] + after[1..];
        assert r == (t + ([delimiter] + t')) + rest;
        t := t + ([delimiter] + t');
      }
    }

    // -------------------------------------------------------------- the main results

    /** An input parses to `columns` exactly when its text before the first NUL is a rendering of them. */
    lemma ParsesExactlyTheRenderings(s: string, columns: Columns)
      requires Valid()
      ensures ParseOf(s) == Some(columns) <==> IsRendering(CString(s), columns)
    {
      var t := CString(s);
      if IsRendering(t, columns) {
        assert s == t + s[|t|..];
        RenderingIsRead(t, columns, s[|t|..]);
      }
      if ParseOf(s) == Some(columns) {
        var t' := AcceptedIsRendering(s);
        CStringOf(t', FieldsOf(s).value.1);
      }
    }

    lemma {:induction false} RenderIsRendering(columns: Columns)
      requires columns != []
      requires forall i | 0 <= i < |columns| :: columns[i].Some? ==> Quotable(columns[i].value)
      ensures IsRendering(Render(columns), columns)
    {
      hide Escaped, Quotable;
      var first := if columns[0].None? then "" else [quote] + (Escaped(columns[0].value) + [quote]);
      if |columns| > 1 {
        RenderIsRendering(columns[1..]);
        ConsRendering(first, columns[0], Render(columns[1..]), columns[1..]);
        assert [columns[0]] + columns[1..] == columns;
      }
    }

    /** Parsing undoes printing. */
    lemma ParseUndoesRender(columns: Columns)
      requires Valid() && columns != []
      requires forall i | 0 <= i < |columns| :: columns[i].Some? ==> Quotable(columns[i].value)
      ensures ParseOf(Render(columns)) == Some(columns)
    {
      RenderIsRendering(columns);
      RenderingIsRead(Render(columns), columns, "");
      assert Render(columns) + "" == Render(columns);
    }
  }

  // ---------------------------------------------------------------- the parser object

  class Parser {
    const s: string
    const dialect: Dialect
    var cols: Columns
    var p: int
    var sym: Token

    constructor (s: string, dialect: Dialect)
      ensures Ready() && this.s == s && this.dialect == dialect && cols == [] && Rest() == s
    {
      this.s := s;
      this.dialect := dialect;
      cols, p := [], -1;
      sym := Token.Eol;
      new;
      NextSym();
    }

    /** What is left of the input; nothing once the terminator has been passed. */
    function Rest(): string
      reads this
    {
      if 0 <= p <= |s| then s[p..] else ""
    }

    /** `sym` is the token at `p`. */
    ghost predicate Ready()
      reads this
    {
      0 <= p && sym == dialect.TokenOf(Rest())
    }

    /** Fields are read one after the other up to the terminator; `ok` is false when the source throws. */
    method Parse() returns (ok: bool, columns: Columns)
      requires Ready() && cols == []
      modifies this
      ensures ok == dialect.ParseOf(old(Rest())).Some?
      ensures ok ==> Some(columns) == dialect.ParseOf(old(Rest()))
    {
      columns := [];
      ok := Fields();
      if ok {
        assert cols == dialect.FieldsOf(old(Rest())).value.0;
        ok := Accept(Token.Eol);
        columns := cols;
      }
    }

    method Fields() returns (ok: bool)
      requires Ready()
      modifies this
      ensures ok == dialect.FieldsOf(old(Rest())).Some?
      ensures ok ==> Ready() && cols == old(cols) + dialect.FieldsOf(old(Rest())).value.0
      ensures ok ==> Rest() == dialect.FieldsOf(old(Rest())).value.1
    {
      hide Dialect.FieldOf, Dialect.TokenOf;
      ghost var start := Rest();
      ghost var read: Columns := [];
      PendingAtStart(start);
      ok := Field();
      FieldTaken(start, [], start);
      if !ok {
        return;
      }
      read := [cols[|cols| - 1]];
      while true
        invariant Ready() && cols == old(cols) + read
        invariant FieldsFrom(start, read, Rest())
        decreases |Rest()|
      {
        var more := Accept(Token.Delimiter);
        if !more {
          return;
        }
        ghost var rest := Rest();
        ok := Field();
        FieldTaken(start, read, rest);
        if !ok {
          return;
        }
        read := read + [cols[|cols| - 1]];
      }
    }

    /** The fields of `start` are `read` and then all those of `rest`. */
    ghost predicate FieldsPending(start: string, read: Columns, rest: string) {
      match dialect.FieldsOf(rest)
      case None => dialect.FieldsOf(start) == None
      case Some((fields, end)) => dialect.FieldsOf(start) == Some((read + fields, end))
    }

    /** The fields of `start` are `read`, and then those after the delimiter at `rest`, if there is one. */
    ghost predicate FieldsFrom(start: string, read: Columns, rest: string) {
      if dialect.TokenOf(rest) == Token.Delimiter then FieldsPending(start, read, rest[1..])
      else dialect.FieldsOf(start) == Some((read, rest))
    }

    lemma PendingAtStart(start: string)
      ensures FieldsPending(start, [], start)
    {
      if dialect.FieldsOf(start).Some? {
        assert [] + dialect.FieldsOf(start).value.0 == dialect.FieldsOf(start).value.0;
      }
    }

    lemma FieldTaken(start: string, read: Columns, rest: string)
      requires FieldsPending(start, read, rest)
      ensures match dialect.FieldOf(rest)
              case None => dialect.FieldsOf(start) == None
              case Some((field, after)) => FieldsFrom(start, read + [field], after)
    {
      if dialect.FieldOf(rest).Some? {
        var (field, after) := dialect.FieldOf(rest).value;
        if dialect.TokenOf(after) == Token.Delimiter && dialect.FieldsOf(after[1..]).Some? {
          var fields := dialect.FieldsOf(after[1..]).value.0;
          assert read + ([field] + fields) == (read + [field]) + fields;
        }
      }
    }

    method Field() returns (ok: bool)
      requires Ready()
      modifies this
      ensures ok == dialect.FieldOf(old(Rest())).Some?
      ensures ok ==> Ready() && cols == old(cols) + [dialect.FieldOf(old(Rest())).value.0]
      ensures ok ==> Rest() == dialect.FieldOf(old(Rest())).value.1
    {
      var quoted := Accept(Token.Quote);
      if quoted {
        QuotedField();
        ok := Accept(Token.Quote);
      } else {
        NormalField();
        ok := true;
      }
    }

    method NormalField()
      requires Ready()
      modifies this
      ensures Ready() && Rest() == dialect.BareRun(old(Rest())).1
      ensures var text := dialect.BareRun(old(Rest())).0;
              cols == old(cols) + [if text != "" then Some(text) else None]
    {
      hide Dialect.BareRun, Dialect.TokenOf;
      var buf, hasChars := "", false;
      ghost var start := Rest();
      BareStarts(start);
      while true
        invariant Ready() && cols == old(cols) && hasChars == (buf != "")
        invariant BareSoFar(start, buf, Rest())
        decreases |Rest()|
      {
        ghost var rest := Rest();
        var accepted := Accept(Token.Character);
        if !accepted {
          break;
        }
        BareStep(start, buf, rest);
        buf := buf + [s[p - 1]];
        hasChars := true;
      }
      BareStops(start, buf, Rest());
      if hasChars {
        cols := cols + [Some(buf)];
      } else {
        cols := cols + [None];
      }
    }

    ghost predicate BareSoFar(start: string, buf: string, rest: string) {
      dialect.BareRun(start) == (buf + dialect.BareRun(rest).0, dialect.BareRun(rest).1)
    }

    lemma BareStarts(start: string)
      ensures BareSoFar(start, "", start)
    {
      assert "" + dialect.BareRun(start).0 == dialect.BareRun(start).0;
    }

    lemma BareStep(start: string, buf: string, rest: string)
      requires BareSoFar(start, buf, rest) && dialect.TokenOf(rest) == Token.Character
      ensures BareSoFar(start, buf + [rest[0]], rest[1..])
    {
      var text := dialect.BareRun(rest[1..]).0;
      assert buf + ([rest[0]] + text) == (buf + [rest[0]]) + text;
    }

    lemma BareStops(start: string, buf: string, rest: string)
      requires BareSoFar(start, buf, rest) && dialect.TokenOf(rest) != Token.Character
      ensures dialect.BareRun(start) == (buf, rest)
    {
      assert buf + "" == buf;
    }

    method QuotedField()
      requires Ready()
      modifies this
      ensures Ready() && Rest() == dialect.QuotedRun(old(Rest())).1
      ensures cols == old(cols) + [Some(dialect.QuotedRun(old(Rest())).0)]
    {
      hide Dialect.QuotedRun, Dialect.TokenOf, Dialect.EscapedQuote;
      var buf := "";
      ghost var start := Rest();
      QuotedStarts(start);
      while true
        invariant Ready() && cols == old(cols)
        invariant QuotedSoFar(start, buf, Rest())
        decreases |Rest()|
      {
        ghost var rest := Rest();
        var accepted := Accept(Token.Character);
        if !accepted {
          accepted := Accept(Token.Delimiter);
        }
        if accepted {
          QuotedStep(start, buf, rest);
        } else {
          accepted := AcceptQuotedSymbol();
          if !accepted {
            break;
          }
          EscapedStep(start, buf, rest);
        }
        buf := buf + [s[p - 1]];
      }
      QuotedStops(start, buf, Rest());
      cols := cols + [Some(buf)];
    }

    ghost predicate QuotedSoFar(start: string, buf: string, rest: string) {
      dialect.QuotedRun(start) == (buf + dialect.QuotedRun(rest).0, dialect.QuotedRun(rest).1)
    }

    lemma QuotedStarts(start: string)
      ensures QuotedSoFar(start, "", start)
    {
      assert "" + dialect.QuotedRun(start).0 == dialect.QuotedRun(start).0;
    }

    lemma QuotedStep(start: string, buf: string, rest: string)
      requires QuotedSoFar(start, buf, rest)
      requires dialect.TokenOf(rest) == Token.Character || dialect.TokenOf(rest) == Token.Delimiter
      ensures QuotedSoFar(start, buf + [rest[0]], rest[1..])
    {
      var text := dialect.QuotedRun(rest[1..]).0;
      assert buf + ([rest[0]] + text) == (buf + [rest[0]]) + text;
    }

    lemma EscapedStep(start: string, buf: string, rest: string)
      requires QuotedSoFar(start, buf, rest) && dialect.EscapedQuote(rest)
      requires dialect.TokenOf(rest) != Token.Character && dialect.TokenOf(rest) != Token.Delimiter
      ensures |rest| > 1 && QuotedSoFar(start, buf + [rest[1]], rest[2..])
    {
      var text := dialect.QuotedRun(rest[2..]).0;
      assert buf + ([rest[1]] + text) == (buf + [rest[1]]) + text;
    }

    lemma QuotedStops(start: string, buf: string, rest: string)
      requires QuotedSoFar(start, buf, rest) && !dialect.EscapedQuote(rest)
      requires dialect.TokenOf(rest) != Token.Character && dialect.TokenOf(rest) != Token.Delimiter
      ensures dialect.QuotedRun(start) == (buf, rest)
    {
      assert buf + "" == buf;
    }

    /** Take the current token if it is `t`. */
    method Accept(t: Token) returns (accepted: bool)
      requires Ready()
      modifies this`p, this`sym
      ensures Ready() && accepted == (old(sym) == t)
      ensures !accepted ==> p == old(p)
      ensures accepted ==> p == old(p) + 1
      ensures accepted && t != Token.Eol ==> old(Rest()) != "" && Rest() == old(Rest())[1..] && old(Rest())[0] == s[p - 1]
    {
      accepted := sym == t;
      if accepted {
        NextSym();
      }
    }

    /** Take an escape and the quote after it. */
    method AcceptQuotedSymbol() returns (accepted: bool)
      requires Ready()
      modifies this`p, this`sym
      ensures Ready() && accepted == dialect.EscapedQuote(old(Rest()))
      ensures !accepted ==> p == old(p)
      ensures accepted ==> p == old(p) + 2 && Rest() == old(Rest())[2..] && old(Rest())[1] == s[p - 1]
    {
      var tokEscape := Token.Escape;
      if dialect.quote == dialect.escape {
        tokEscape := Token.Quote;
      }
      if sym != tokEscape {
        return false;
      }
      var next := NextSym1();
      if next != Token.Quote {
        p := p - 1;
        return false;
      }
      NextSym();
      return true;
    }

    method NextSym()
      requires -1 <= p
      modifies this`p, this`sym
      ensures p == old(p) + 1 && Ready()
    {
      sym := NextSym1();
    }

    method NextSym1() returns (t: Token)
      requires -1 <= p
      modifies this`p
      ensures p == old(p) + 1 && t == dialect.TokenOf(Rest())
    {
      p := p + 1;
      if p >= |s| || s[p] == NUL {
        return Token.Eol;
      }
      if s[p] == dialect.delimiter {
        return Token.Delimiter;
      }
      if s[p] == dialect.quote {
        return Token.Quote;
      }
      if s[p] == dialect.escape {
        return Token.Escape;
      }
      return Token.Character;
    }
  }

  /** `parse_line`: `ok` is false when the source throws. */
  method ParseLine(s: string, dialect: Dialect) returns (ok: bool, columns: Columns)
    ensures ok == dialect.ParseOf(s).Some?
    ensures ok ==> dialect.ParseOf(s) == Some(columns)
  {
    var p := new Parser(s, dialect);
    ok, columns := p.Parse();
  }
}
