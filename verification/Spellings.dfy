/** Every way to spell an argument on a command line, and that the tokenizers read what is spelled. */
module Spellings {
  import opened Text
  import opened Tokenizers

  const BLANKS := " \t\r\n"

  predicate IsBlank(s: string) { forall i | 0 <= i < |s| :: s[i] in BLANKS }

  /** One end-of-line marker for each newline, when they are asked for. */
  function Marks(blanks: string, markEols: bool): seq<Arg> {
    if blanks == "" then []
    else (if markEols && blanks[0] == '\n' then [EndOfLine] else []) + Marks(blanks[1..], markEols)
  }

  function AtEnd(markEols: bool): seq<Arg> { if markEols then [EndOfLine] else [] }

  // ---------------------------------------------------------------- GNU: pieces of a word

  /** A character inside quotes, as it is or after a backslash. */
  datatype Inner = Literal(c: char) | Masked(c: char)

  datatype Piece = Plain(c: char) | Escaped(c: char) | Quotation(quote: char, body: seq<Inner>)

  function InnerText(body: seq<Inner>): string {
    if body == [] then "" else (if body[0].Masked? then "\\" + [body[0].c] else [body[0].c]) + InnerText(body[1..])
  }

  function InnerValue(body: seq<Inner>): string {
    if body == [] then "" else [body[0].c] + InnerValue(body[1..])
  }

  predicate GoodInner(body: seq<Inner>, quote: char) {
    forall i | 0 <= i < |body| && body[i].Literal? :: body[i].c != quote && body[i].c != '\\'
  }

  predicate GoodPiece(p: Piece) {
    match p
    case Plain(c) => c !in BLANKS && c !in "\"'\\"
    case Escaped(_) => true
    case Quotation(quote, body) => quote in "\"'" && GoodInner(body, quote)
  }

  predicate GoodPieces(ps: seq<Piece>) { forall i | 0 <= i < |ps| :: GoodPiece(ps[i]) }

  function PieceText(p: Piece): string {
    match p
    case Plain(c) => [c]
    case Escaped(c) => "\\" + [c]
    case Quotation(quote, body) => [quote] + (InnerText(body) + [quote])
  }

  function PieceValue(p: Piece): string {
    match p
    case Plain(c) => [c]
    case Escaped(c) => [c]
    case Quotation(_, body) => InnerValue(body)
  }

  function PiecesText(ps: seq<Piece>): string {
    if ps == [] then "" else PieceText(ps[0]) + PiecesText(ps[1..])
  }

  function PiecesValue(ps: seq<Piece>): string {
    if ps == [] then "" else PieceValue(ps[0]) + PiecesValue(ps[1..])
  }

  /** What may end a text besides pieces: a backslash with nothing after it, or a quotation that is not closed. */
  datatype Tail = Nothing | LoneBackslash | Unclosed(quote: char, body: seq<Inner>, backslash: bool)

  function TailText(t: Tail): string {
    match t
    case Nothing => ""
    case LoneBackslash => "\\"
    case Unclosed(quote, body, backslash) => [quote] + (InnerText(body) + if backslash then "\\" else "")
  }

  function TailValue(t: Tail): string {
    match t
    case Nothing => ""
    case LoneBackslash => "\\"
    case Unclosed(_, body, backslash) => InnerValue(body) + if backslash then "\\" else ""
  }

  predicate GoodTail(t: Tail) { t.Unclosed? ==> t.quote in "\"'" && GoodInner(t.body, t.quote) }

  /** Pieces, and the blanks after them. Words without pieces stand for more blanks. */
  datatype GnuWord = GnuWord(pieces: seq<Piece>, blanks: string)

  predicate GoodWords(words: seq<GnuWord>) {
    forall i | 0 <= i < |words| :: GoodPieces(words[i].pieces) && words[i].blanks != "" && IsBlank(words[i].blanks)
  }

  function GnuText(words: seq<GnuWord>, last: string): string {
    if words == [] then last else PiecesText(words[0].pieces) + (words[0].blanks + GnuText(words[1..], last))
  }

  /** Each nonempty word is an argument, cut at a NUL. A newline right after an argument is not marked. */
  function GnuMeaning(words: seq<GnuWord>, last: string, markEols: bool): seq<Arg> {
    if words == [] then (if last == "" then [] else [Word(CString(last))]) + AtEnd(markEols)
    else
      var value := PiecesValue(words[0].pieces);
      (if value == "" then Marks(words[0].blanks, markEols)
       else [Word(CString(value))] + Marks(if words[0].blanks == "" then "" else words[0].blanks[1..], markEols))
      + GnuMeaning(words[1..], last, markEols)
  }

  // ---------------------------------------------------------------- GNU: reading what is spelled

  lemma {:induction false} InnerIsRead(body: seq<Inner>, quote: char, rest: string)
    requires GoodInner(body, quote) && quote != '\\'
    ensures QuotedPart(InnerText(body) + ([quote] + rest), quote) == (InnerValue(body), rest, true)
  {
    hide QuotedPart;
    var after := [quote] + rest;
    if body == [] {
      assert "" + after == after;
      QuoteCloses(quote, rest);
    } else {
      InnerIsRead(body[1..], quote, rest);
      InnerStep(body, quote, after);
    }
  }

  lemma QuoteCloses(quote: char, rest: string)
    ensures QuotedPart([quote] + rest, quote) == ("", rest, true)
  {
    assert ([quote] + rest)[1..] == rest;
  }

  /** The first character of a quoted text, as it is or after a backslash. */
  lemma InnerStep(body: seq<Inner>, quote: char, end: string)
    requires body != [] && GoodInner(body, quote) && quote != '\\'
    ensures var part := QuotedPart(InnerText(body[1..]) + end, quote);
            QuotedPart(InnerText(body) + end, quote) == ([body[0].c] + part.0, part.1, part.2)
  {
    hide QuotedPart, InnerText;
    InnerTextFirst(body, end);
    if body[0].Masked? {
      MaskedIsRead(body[0].c, InnerText(body[1..]) + end, quote);
    } else {
      LiteralIsRead(body[0].c, InnerText(body[1..]) + end, quote);
    }
  }

  lemma InnerTextFirst(body: seq<Inner>, end: string)
    requires body != []
    ensures InnerText(body) + end
         == (if body[0].Masked? then ['\\', body[0].c] else [body[0].c]) + (InnerText(body[1..]) + end)
  {
    Associative(if body[0].Masked? then "\\" + [body[0].c] else [body[0].c], InnerText(body[1..]), end);
    assert "\\" + [body[0].c] == ['\\', body[0].c];
  }

  lemma MaskedIsRead(c: char, more: string, quote: char)
    requires quote != '\\'
    ensures var part := QuotedPart(more, quote);
            QuotedPart(['\\', c] + more, quote) == ([c] + part.0, part.1, part.2)
  {
    assert (['\\', c] + more)[2..] == more;
  }

  lemma LiteralIsRead(c: char, more: string, quote: char)
    requires c != quote && c != '\\'
    ensures var part := QuotedPart(more, quote);
            QuotedPart([c] + more, quote) == ([c] + part.0, part.1, part.2)
  {
    assert ([c] + more)[1..] == more;
  }

  lemma EndIsRead(quote: char)
    requires quote != '\\'
    ensures QuotedPart("", quote) == ("", "", false) && QuotedPart("\\", quote) == ("\\", "", false)
  {
    assert "\\"[1..] == "" && ['\\'] + "" == "\\";
  }

  lemma {:induction false} InnerIsReadToEnd(body: seq<Inner>, quote: char, backslash: bool)
    requires GoodInner(body, quote) && quote != '\\'
    ensures var end := if backslash then "\\" else "";
            QuotedPart(InnerText(body) + end, quote) == (InnerValue(body) + end, "", false)
  {
    hide QuotedPart;
    var end := if backslash then "\\" else "";
    if body == [] {
      assert "" + end == end;
      EndIsRead(quote);
    } else {
      InnerIsReadToEnd(body[1..], quote, backslash);
      InnerStep(body, quote, end);
      assert [body[0].c] + (InnerValue(body[1..]) + end) == InnerValue(body) + end;
    }
  }

  lemma PieceIsRead(p: Piece, rest: string, token: string, markEols: bool)
    requires GoodPiece(p)
    ensures GnuArgs(PieceText(p) + rest, token, markEols) == GnuArgs(rest, token + PieceValue(p), markEols)
  {
    hide QuotedPart;
    match p
    case Plain(c) => assert ([c] + rest)[1..] == rest;
    case Escaped(c) =>
      assert PieceText(p) + rest == ['\\', c] + rest;
      assert (['\\', c] + rest)[2..] == rest;
    case Quotation(quote, body) =>
      var inside := InnerText(body) + ([quote] + rest);
      assert PieceText(p) + rest == [quote] + inside;
      InnerIsRead(body, quote, rest);
      QuoteIsClosed(quote, inside, InnerValue(body), rest, token, markEols);
  }

  lemma QuoteIsClosed(quote: char, inside: string, text: string, rest: string, token: string, markEols: bool)
    requires quote in "\"'" && QuotedPart(inside, quote) == (text, rest, true)
    ensures GnuArgs([quote] + inside, token, markEols) == GnuArgs(rest, token + text, markEols)
  {
    hide QuotedPart;
    assert ([quote] + inside)[1..] == inside;
  }

  lemma {:induction false} PiecesAreRead(ps: seq<Piece>, rest: string, token: string, markEols: bool)
    requires GoodPieces(ps)
    ensures GnuArgs(PiecesText(ps) + rest, token, markEols) == GnuArgs(rest, token + PiecesValue(ps), markEols)
  {
    hide GnuArgs, PieceText, PieceValue, GoodPiece;
    if ps == [] {
      assert "" + rest == rest && token + "" == token;
    } else {
      Associative(PieceText(ps[0]), PiecesText(ps[1..]), rest);
      PieceIsRead(ps[0], PiecesText(ps[1..]) + rest, token, markEols);
      PiecesAreRead(ps[1..], rest, token + PieceValue(ps[0]), markEols);
      Associative(token, PieceValue(ps[0]), PiecesValue(ps[1..]));
    }
  }

  lemma {:induction false} GnuSkipsBlanks(blanks: string, rest: string, markEols: bool)
    requires IsBlank(blanks)
    ensures GnuArgs(blanks + rest, "", markEols) == Marks(blanks, markEols) + GnuArgs(rest, "", markEols)
  {
    hide GnuArgs;
    if blanks == "" {
      assert "" + rest == rest && [] + GnuArgs(rest, "", markEols) == GnuArgs(rest, "", markEols);
    } else {
      assert blanks[0] in BLANKS && blanks + rest == [blanks[0]] + (blanks[1..] + rest);
      GnuSkipsBlanks(blanks[1..], rest, markEols);
      GnuSkipsBlank(blanks[0], blanks[1..] + rest, markEols);
    }
  }

  lemma GnuSkipsBlank(c: char, rest: string, markEols: bool)
    requires c in BLANKS
    ensures GnuArgs([c] + rest, "", markEols) == (if markEols && c == '\n' then [EndOfLine] else []) + GnuArgs(rest, "", markEols)
  {
    assert ([c] + rest)[1..] == rest;
  }

  lemma GnuEndsWord(value: string, blanks: string, rest: string, markEols: bool)
    requires blanks != "" && IsBlank(blanks)
    ensures GnuArgs(blanks + rest, value, markEols)
         == (if value == "" then Marks(blanks, markEols) else [Word(CString(value))] + Marks(blanks[1..], markEols))
            + GnuArgs(rest, "", markEols)
  {
    if value == "" {
      GnuSkipsBlanks(blanks, rest, markEols);
    } else {
      HeadOfAppend(blanks, rest);
      GnuSkipsBlanks(blanks[1..], rest, markEols);
    }
  }

  lemma TailIsRead(t: Tail, token: string, markEols: bool)
    requires GoodTail(t)
    ensures var last := token + TailValue(t);
            GnuArgs(TailText(t), token, markEols) == (if last == "" then [] else [Word(CString(last))]) + AtEnd(markEols)
  {
    hide QuotedPart;
    match t
    case Nothing => assert token + "" == token;
    case LoneBackslash => assert "\\"[1..] == "" && token + "\\" == token + ['\\'];
    case Unclosed(quote, body, backslash) =>
      var inside := InnerText(body) + if backslash then "\\" else "";
      HeadOfAppend([quote], inside);
      assert ([quote] + inside)[1..] == inside;
      InnerIsReadToEnd(body, quote, backslash);
      QuoteToEnd(quote, inside, TailValue(t), token, markEols);
  }

  lemma QuoteToEnd(quote: char, inside: string, text: string, token: string, markEols: bool)
    requires quote in "\"'" && QuotedPart(inside, quote) == (text, "", false)
    ensures GnuArgs([quote] + inside, token, markEols) == Finish(token + text, markEols)
  {
    assert ([quote] + inside)[1..] == inside;
  }

  /**
    * The arguments of a text of words with blanks between them are the values of the nonempty words, made of plain
    * characters, characters after a backslash, and quotations of both kinds with backslashes in them.
    */
  lemma {:induction false} GnuReadsEverySpelling(words: seq<GnuWord>, pieces: seq<Piece>, tail: Tail, markEols: bool)
    requires GoodWords(words) && GoodPieces(pieces) && GoodTail(tail)
    ensures Tokens(Gnu, GnuText(words, PiecesText(pieces) + TailText(tail)), markEols)
         == GnuMeaning(words, PiecesValue(pieces) + TailValue(tail), markEols)
  {
    hide GnuArgs, GoodPiece, PiecesText, PiecesValue, TailText, TailValue, Marks, IsBlank;
    var last, lastValue := PiecesText(pieces) + TailText(tail), PiecesValue(pieces) + TailValue(tail);
    if words == [] {
      PiecesAreRead(pieces, TailText(tail), "", markEols);
      assert "" + PiecesValue(pieces) == PiecesValue(pieces);
      TailIsRead(tail, PiecesValue(pieces), markEols);
    } else {
      var w, value := words[0], PiecesValue(words[0].pieces);
      var rest := GnuText(words[1..], last);
      PiecesAreRead(w.pieces, w.blanks + rest, "", markEols);
      assert "" + value == value;
      GnuEndsWord(value, w.blanks, rest, markEols);
      GnuReadsEverySpelling(words[1..], pieces, tail, markEols);
    }
  }

  // ---------------------------------------------------------------- GNU: every text is spelled so

  /** A text from inside quotes on: what is in them, and either the closing quote and the rest, or the end. */
  lemma {:induction false} InnerOf(s: string, quote: char) returns (body: seq<Inner>, closed: bool, rest: string, backslash: bool)
    requires quote != '\\'
    ensures GoodInner(body, quote) && |rest| <= |s|
    ensures s == InnerText(body) + if closed then [quote] + rest else if backslash then "\\" else ""
    decreases |s|
  {
    if s == "" {
      return [], false, "", false;
    } else if s[0] == quote {
      assert s == "" + ([quote] + s[1..]);
      return [], true, s[1..], false;
    } else if s == "\\" {
      assert s == "" + s;
      return [], false, "", true;
    } else {
      var inner, more := Literal(s[0]), s[1..];
      if s[0] == '\\' {
        inner, more := Masked(s[1]), s[2..];
      }
      body, closed, rest, backslash := InnerOf(more, quote);
      InnerJoins(inner, body, if closed then [quote] + rest else if backslash then "\\" else "");
      body := [inner] + body;
    }
  }

  lemma InnerJoins(inner: Inner, body: seq<Inner>, end: string)
    ensures InnerText([inner] + body) + end
         == (if inner.Masked? then "\\" + [inner.c] else [inner.c]) + (InnerText(body) + end)
  {
    assert ([inner] + body)[1..] == body;
  }

  function WithPiece(p: Piece, words: seq<GnuWord>, pieces: seq<Piece>): (seq<GnuWord>, seq<Piece>) {
    if words == [] then ([], [p] + pieces) else ([GnuWord([p] + words[0].pieces, words[0].blanks)] + words[1..], pieces)
  }

  lemma PieceComesFirst(p: Piece, words: seq<GnuWord>, pieces: seq<Piece>, tail: string)
    requires GoodPiece(p) && GoodWords(words) && GoodPieces(pieces)
    ensures var (words', pieces') := WithPiece(p, words, pieces);
            && GoodWords(words') && GoodPieces(pieces')
            && GnuText(words', PiecesText(pieces') + tail) == PieceText(p) + GnuText(words, PiecesText(pieces) + tail)
  {
    hide PieceText, GoodPiece, IsBlank;
    if words == [] {
      assert ([p] + pieces)[1..] == pieces;
      Associative(PieceText(p), PiecesText(pieces), tail);
    } else {
      var w := words[0];
      assert ([p] + w.pieces)[1..] == w.pieces;
      Associative(PieceText(p), PiecesText(w.pieces), w.blanks + GnuText(words[1..], PiecesText(pieces) + tail));
    }
  }

  /** Every text is spelled in this way, so what is said of all spellings is said of all texts. */
  lemma {:induction false} EveryTextIsSpelled(s: string) returns (words: seq<GnuWord>, pieces: seq<Piece>, tail: Tail)
    ensures GoodWords(words) && GoodPieces(pieces) && GoodTail(tail)
    ensures s == GnuText(words, PiecesText(pieces) + TailText(tail))
    decreases |s|
  {
    hide GnuText, PiecesText, InnerText;
    if s == "" || s == "\\" {
      words, pieces, tail := [], [], if s == "" then Nothing else LoneBackslash;
      TextOfNothing(TailText(tail));
    } else if s[0] in BLANKS {
      words, pieces, tail := EveryTextIsSpelled(s[1..]);
      BlankComesFirst([s[0]], words, PiecesText(pieces) + TailText(tail));
      words := [GnuWord([], [s[0]])] + words;
      assert s == [s[0]] + s[1..];
    } else {
      var p, more := Plain(s[0]), s[1..];
      assert s == [s[0]] + s[1..];
      if s[0] == '\\' {
        p, more := Escaped(s[1]), s[2..];
        assert s == ("\\" + [s[1]]) + s[2..];
      } else if s[0] in "\"'" {
        var body, closed, rest, backslash := InnerOf(s[1..], s[0]);
        if !closed {
          words, pieces, tail := [], [], Unclosed(s[0], body, backslash);
          TextOfNothing(TailText(tail));
          return;
        }
        p, more := Quotation(s[0], body), rest;
        Associative([s[0]], InnerText(body) + [s[0]], rest);
        Associative(InnerText(body), [s[0]], rest);
      }
      assert GoodPiece(p) && s == PieceText(p) + more;
      words, pieces, tail := EveryTextIsSpelled(more);
      PieceComesFirst(p, words, pieces, TailText(tail));
      var both := WithPiece(p, words, pieces);
      words, pieces := both.0, both.1;
    }
  }

  lemma TextOfNothing(tail: string)
    ensures GnuText([], PiecesText([]) + tail) == tail
  {
    assert "" + tail == tail;
  }

  lemma BlankComesFirst(blank: string, words: seq<GnuWord>, last: string)
    requires blank != "" && IsBlank(blank) && GoodWords(words)
    ensures GoodWords([GnuWord([], blank)] + words)
    ensures GnuText([GnuWord([], blank)] + words, last) == blank + GnuText(words, last)
  {
    assert ([GnuWord([], blank)] + words)[1..] == words;
    assert "" + (blank + GnuText(words, last)) == blank + GnuText(words, last);
  }

  // ---------------------------------------------------------------- Windows: segments of a word

  /**
    * A character, a run of backslashes that no quote follows, `n` doubled backslashes and a quote that starts or ends a
    * quoted part, or those with one backslash more and a literal quote.
    */
  datatype Segment = Char(c: char) | Slashes(n: nat) | Toggle(n: nat) | Quote(n: nat)

  function SegmentText(g: Segment): string {
    match g
    case Char(c) => [c]
    case Slashes(n) => Backslashes(n)
    case Toggle(n) => Backslashes(2 * n) + "\""
    case Quote(n) => Backslashes(2 * n + 1) + "\""
  }

  function SegmentValue(g: Segment): string {
    match g
    case Char(c) => [c]
    case Slashes(n) => Backslashes(n)
    case Toggle(n) => Backslashes(n)
    case Quote(n) => Backslashes(n) + "\""
  }

  function SegmentsText(gs: seq<Segment>): string {
    if gs == [] then "" else SegmentText(gs[0]) + SegmentsText(gs[1..])
  }

  function SegmentsValue(gs: seq<Segment>): string {
    if gs == [] then "" else SegmentValue(gs[0]) + SegmentsValue(gs[1..])
  }

  /** Blanks stand only inside quotes, and a run of backslashes is a whole one. */
  predicate GoodSegments(gs: seq<Segment>, quoted: bool) {
    gs == [] ||
    match gs[0]
    case Char(c) => c !in "\"\\" && (quoted || c !in BLANKS) && GoodSegments(gs[1..], quoted)
    case Slashes(n) => n > 0 && (|gs| > 1 ==> gs[1].Char?) && GoodSegments(gs[1..], quoted)
    case Toggle(_) => GoodSegments(gs[1..], !quoted)
    case Quote(_) => GoodSegments(gs[1..], quoted)
  }

  predicate EndsQuoted(gs: seq<Segment>, quoted: bool) {
    if gs == [] then quoted else EndsQuoted(gs[1..], if gs[0].Toggle? then !quoted else quoted)
  }

  datatype WindowsWord = WindowsWord(segments: seq<Segment>, blanks: string)

  predicate GoodWindowsWord(w: WindowsWord) {
    && w.segments != [] && GoodSegments(w.segments, false) && !EndsQuoted(w.segments, false)
    && w.blanks != "" && IsBlank(w.blanks)
  }

  predicate GoodWindowsWords(words: seq<WindowsWord>) { forall i | 0 <= i < |words| :: GoodWindowsWord(words[i]) }

  function WindowsText(words: seq<WindowsWord>, last: string): string {
    if words == [] then last else SegmentsText(words[0].segments) + (words[0].blanks + WindowsText(words[1..], last))
  }

  /** Each word is an argument, also an empty one; only an empty last word with nothing after it is not. */
  function WindowsMeaning(words: seq<WindowsWord>, last: string, markEols: bool): seq<Arg> {
    if words == [] then (if last == "" then [] else [Word(CString(last))]) + AtEnd(markEols)
    else
      ([Word(CString(SegmentsValue(words[0].segments)))] + Marks(words[0].blanks, markEols))
      + WindowsMeaning(words[1..], last, markEols)
  }

  // ---------------------------------------------------------------- Windows: reading what is spelled

  /** The text does not go on with a quote or a backslash. */
  predicate PlainNext(s: string) { s == "" || s[0] !in "\"\\" }

  function After(state: State): State { if state == State.Init then State.Unquoted else state }

  lemma RunIsRead(n: nat, rest: string, state: State, token: string, markEols: bool)
    requires n > 0 && (rest == "" || rest[0] != '\\')
    ensures var s := Backslashes(n) + rest;
            && WindowsArgs(s, state, token, markEols)
               == WindowsArgs(s[BackslashRun(s).1..], After(state), token + BackslashRun(s).0, markEols)
            && BackslashRun(s) ==
               if rest != "" && rest[0] == '"' then
                 if n % 2 == 0 then (Backslashes(n / 2), n) else (Backslashes(n / 2) + ['"'], n + 1)
               else (Backslashes(n), n)
  {
    var s := Backslashes(n) + rest;
    CountBackslashes(n, rest);
    assert s[0] == '\\' && (rest != "" ==> s[n] == rest[0]);
  }

  lemma SegmentIsRead(g: Segment, rest: string, state: State, token: string, markEols: bool)
    requires match g
             case Char(c) => c !in "\"\\" && (state == State.Quoted || c !in BLANKS)
             case Slashes(n) => n > 0 && PlainNext(rest)
             case Toggle(_) => true
             case Quote(_) => true
    ensures var next := if g.Toggle? then (if state == State.Quoted then State.Unquoted else State.Quoted) else After(state);
            WindowsArgs(SegmentText(g) + rest, state, token, markEols)
            == WindowsArgs(rest, next, token + SegmentValue(g), markEols)
  {
    hide WindowsArgs, Backslashes;
    match g
    case Char(c) => CharIsRead(c, rest, state, token, markEols);
    case Slashes(n) => SlashesAreRead(n, rest, state, token, markEols);
    case Toggle(n) => ToggleIsRead(n, rest, state, token, markEols);
    case Quote(n) => QuoteIsRead(n, rest, state, token, markEols);
  }

  lemma SlashesAreRead(n: nat, rest: string, state: State, token: string, markEols: bool)
    requires n > 0 && PlainNext(rest)
    ensures WindowsArgs(Backslashes(n) + rest, state, token, markEols)
         == WindowsArgs(rest, After(state), token + Backslashes(n), markEols)
  {
    hide WindowsArgs, Backslashes, BackslashRun;
    RunIsRead(n, rest, state, token, markEols);
    assert (Backslashes(n) + rest)[n..] == rest;
  }

  lemma QuoteChangesState(rest: string, state: State, token: string, markEols: bool)
    ensures WindowsArgs("\"" + rest, state, token, markEols)
         == WindowsArgs(rest, if state == State.Quoted then State.Unquoted else State.Quoted, token, markEols)
  {
    assert ("\"" + rest)[1..] == rest;
  }

  lemma ToggleIsRead(n: nat, rest: string, state: State, token: string, markEols: bool)
    ensures WindowsArgs((Backslashes(2 * n) + "\"") + rest, state, token, markEols)
         == WindowsArgs(rest, if state == State.Quoted then State.Unquoted else State.Quoted, token + Backslashes(n), markEols)
  {
    hide WindowsArgs, BackslashRun;
    var quoted := "\"" + rest;
    Associative(Backslashes(2 * n), "\"", rest);
    QuoteChangesState(rest, state, token + Backslashes(n), markEols);
    if n == 0 {
      assert Backslashes(0) + quoted == quoted && token + Backslashes(0) == token;
    } else {
      RunIsRead(2 * n, quoted, state, token, markEols);
      QuoteChangesState(rest, After(state), token + Backslashes(n), markEols);
      assert (Backslashes(2 * n) + quoted)[2 * n..] == quoted;
    }
  }

  lemma QuoteIsRead(n: nat, rest: string, state: State, token: string, markEols: bool)
    ensures WindowsArgs((Backslashes(2 * n + 1) + "\"") + rest, state, token, markEols)
         == WindowsArgs(rest, After(state), token + (Backslashes(n) + "\""), markEols)
  {
    hide WindowsArgs, BackslashRun, Backslashes;
    var quoted := "\"" + rest;
    Associative(Backslashes(2 * n + 1), "\"", rest);
    RunIsRead(2 * n + 1, quoted, state, token, markEols);
    assert (Backslashes(2 * n + 1) + quoted)[2 * n + 2..] == rest;
  }

  lemma CharIsRead(c: char, rest: string, state: State, token: string, markEols: bool)
    requires c !in "\"\\" && (state == State.Quoted || c !in BLANKS)
    ensures WindowsArgs([c] + rest, state, token, markEols) == WindowsArgs(rest, After(state), token + [c], markEols)
  {
    assert ([c] + rest)[1..] == rest;
  }

  lemma StartsPlain(gs: seq<Segment>, rest: string)
    requires PlainNext(rest) && (gs != [] ==> gs[0].Char? && gs[0].c !in "\"\\")
    ensures PlainNext(SegmentsText(gs) + rest)
  {
    if gs == [] {
      assert "" + rest == rest;
    }
  }

  lemma {:induction false} SegmentsAreRead(gs: seq<Segment>, rest: string, state: State, token: string, markEols: bool)
    requires GoodSegments(gs, state == State.Quoted) && PlainNext(rest)
    ensures gs != [] ==>
              WindowsArgs(SegmentsText(gs) + rest, state, token, markEols)
              == WindowsArgs(rest, if EndsQuoted(gs, state == State.Quoted) then State.Quoted else State.Unquoted,
                             token + SegmentsValue(gs), markEols)
  {
    hide WindowsArgs, SegmentText, SegmentValue;
    if gs != [] {
      var g, more := gs[0], gs[1..];
      var next := if g.Toggle? then (if state == State.Quoted then State.Unquoted else State.Quoted) else After(state);
      Associative(SegmentText(g), SegmentsText(more), rest);
      if g.Slashes? {
        StartsPlain(more, rest);
      }
      SegmentIsRead(g, SegmentsText(more) + rest, state, token, markEols);
      SegmentsAreRead(more, rest, next, token + SegmentValue(g), markEols);
      Associative(token, SegmentValue(g), SegmentsValue(more));
      if more == [] {
        assert "" + rest == rest && SegmentValue(g) + "" == SegmentValue(g);
      }
    }
  }

  lemma {:induction false} WindowsSkipsBlanks(blanks: string, rest: string, markEols: bool)
    requires IsBlank(blanks)
    ensures WindowsArgs(blanks + rest, State.Init, "", markEols) == Marks(blanks, markEols) + WindowsArgs(rest, State.Init, "", markEols)
  {
    if blanks == "" {
      assert "" + rest == rest && [] + WindowsArgs(rest, State.Init, "", markEols) == WindowsArgs(rest, State.Init, "", markEols);
    } else {
      WindowsSkipsBlanks(blanks[1..], rest, markEols);
      HeadOfAppend(blanks, rest);
    }
  }

  lemma WindowsEndsWord(value: string, blanks: string, rest: string, markEols: bool)
    requires blanks != "" && IsBlank(blanks)
    ensures WindowsArgs(blanks + rest, State.Unquoted, value, markEols)
         == ([Word(CString(value))] + Marks(blanks, markEols)) + WindowsArgs(rest, State.Init, "", markEols)
  {
    hide WindowsArgs;
    var mark := if markEols && blanks[0] == '\n' then [EndOfLine] else [];
    HeadOfAppend(blanks, rest);
    assert blanks[0] in BLANKS;
    BlankEndsWord(value, blanks[0], blanks[1..] + rest, markEols);
    assert blanks + rest == [blanks[0]] + (blanks[1..] + rest);
    WindowsSkipsBlanks(blanks[1..], rest, markEols);
    Regrouped([Word(CString(value))], mark, Marks(blanks[1..], markEols), WindowsArgs(rest, State.Init, "", markEols));
  }

  lemma BlankEndsWord(value: string, c: char, rest: string, markEols: bool)
    requires c in BLANKS
    ensures WindowsArgs([c] + rest, State.Unquoted, value, markEols)
         == ([Word(CString(value))] + if markEols && c == '\n' then [EndOfLine] else [])
            + WindowsArgs(rest, State.Init, "", markEols)
  {
    assert ([c] + rest)[1..] == rest;
  }

  lemma Regrouped(a: seq<Arg>, b: seq<Arg>, c: seq<Arg>, d: seq<Arg>)
    ensures (a + b) + (c + d) == (a + (b + c)) + d
  {
  }

  /**
    * Leading blanks, words with blanks after them, and last segments that may leave a quoted part open: the arguments
    * are the values of the words, with runs of backslashes halved before quotes and literal elsewhere.
    */
  lemma WindowsReadsEverySpelling(lead: string, words: seq<WindowsWord>, last: seq<Segment>, markEols: bool)
    requires IsBlank(lead) && GoodWindowsWords(words) && GoodSegments(last, false)
    ensures Tokens(Windows, lead + WindowsText(words, SegmentsText(last)), markEols)
         == Marks(lead, markEols) + WindowsMeaning(words, SegmentsValue(last), markEols)
  {
    hide WindowsArgs;
    WindowsSkipsBlanks(lead, WindowsText(words, SegmentsText(last)), markEols);
    WordsAreRead(words, last, markEols);
  }

  lemma {:induction false} WordsAreRead(words: seq<WindowsWord>, last: seq<Segment>, markEols: bool)
    requires GoodWindowsWords(words) && GoodSegments(last, false)
    ensures WindowsArgs(WindowsText(words, SegmentsText(last)), State.Init, "", markEols)
         == WindowsMeaning(words, SegmentsValue(last), markEols)
  {
    hide WindowsArgs, SegmentsText, SegmentsValue, Marks, GoodSegments, EndsQuoted;
    if words == [] {
      LastIsRead(last, markEols);
    } else {
      assert GoodWindowsWord(words[0]);
      var w, rest := words[0], WindowsText(words[1..], SegmentsText(last));
      WordsAreRead(words[1..], last, markEols);
      BlankIsPlain(w.blanks, rest);
      SegmentsAreRead(w.segments, w.blanks + rest, State.Init, "", markEols);
      assert "" + SegmentsValue(w.segments) == SegmentsValue(w.segments);
      WindowsEndsWord(SegmentsValue(w.segments), w.blanks, rest, markEols);
    }
  }

  lemma BlankIsPlain(blanks: string, rest: string)
    requires blanks != "" && IsBlank(blanks)
    ensures PlainNext(blanks + rest)
  {
  }

  lemma LastIsRead(last: seq<Segment>, markEols: bool)
    requires GoodSegments(last, false)
    ensures WindowsArgs(SegmentsText(last), State.Init, "", markEols) == WindowsMeaning([], SegmentsValue(last), markEols)
  {
    hide GoodSegments, EndsQuoted;
    if last != [] {
      SegmentsAreRead(last, "", State.Init, "", markEols);
      assert SegmentsText(last) + "" == SegmentsText(last) && "" + SegmentsValue(last) == SegmentsValue(last);
    }
  }

  // ---------------------------------------------------------------- Windows: every text is spelled so

  /** What a segment needs of the text after it, and of where it stands. */
  predicate GoodFirst(g: Segment, more: string, quoted: bool) {
    match g
    case Char(c) => c !in "\"\\" && (quoted || c !in BLANKS)
    case Slashes(n) => n > 0 && PlainNext(more)
    case Toggle(_) => true
    case Quote(_) => true
  }

  lemma RunBeforeQuote(n: nat, more: string)
    ensures SegmentText(if n % 2 == 0 then Toggle(n / 2) else Quote(n / 2)) + more == Backslashes(n) + ("\"" + more)
  {
    hide Backslashes;
    Associative(Backslashes(n), "\"", more);
  }

  lemma SimpleSegments(c: char, n: nat)
    ensures SegmentText(Char(c)) == [c] && SegmentText(Slashes(n)) == Backslashes(n)
  {
  }

  lemma FirstSegment(s: string, quoted: bool) returns (g: Segment, more: string)
    requires s != "" && (quoted || s[0] !in BLANKS)
    ensures s == SegmentText(g) + more && |more| < |s| && GoodFirst(g, more, quoted)
    ensures PlainNext(s) ==> g.Char?
  {
    hide Backslashes, SegmentText;
    var n := LeadingBackslashes(s);
    StartsWithBackslashes(s);
    if n < |s| && s[n] == '"' {
      g, more := if n % 2 == 0 then Toggle(n / 2) else Quote(n / 2), s[n + 1..];
      assert s[n..] == "\"" + more;
      RunBeforeQuote(n, more);
    } else if n == 0 {
      g, more := Char(s[0]), s[1..];
      assert s == [s[0]] + more;
      SimpleSegments(s[0], n);
    } else {
      g, more := Slashes(n), s[n..];
      SimpleSegments(s[0], n);
    }
  }

  /** The segments of the word at the start of `s`, up to a blank outside quotes or the end. */
  lemma {:induction false} SegmentsOf(s: string, quoted: bool) returns (gs: seq<Segment>, rest: string)
    ensures GoodSegments(gs, quoted) && s == SegmentsText(gs) + rest
    ensures rest == "" || (rest[0] in BLANKS && !EndsQuoted(gs, quoted))
    ensures PlainNext(s) && gs != [] ==> gs[0].Char?
    decreases |s|
  {
    hide SegmentText, SegmentsText, PlainNext;
    if s == "" || (!quoted && s[0] in BLANKS) {
      gs, rest := [], s;
      NoSegments(s);
    } else {
      var g, more := FirstSegment(s, quoted);
      gs, rest := SegmentsOf(more, if g.Toggle? then !quoted else quoted);
      SegmentJoins(g, gs, rest);
      gs := [g] + gs;
    }
  }

  lemma NoSegments(rest: string)
    ensures SegmentsText([]) + rest == rest
  {
    assert "" + rest == rest;
  }

  lemma SegmentJoins(g: Segment, gs: seq<Segment>, rest: string)
    ensures SegmentsText([g] + gs) + rest == SegmentText(g) + (SegmentsText(gs) + rest)
    ensures ([g] + gs)[1..] == gs
  {
    assert ([g] + gs)[1..] == gs;
    Associative(SegmentText(g), SegmentsText(gs), rest);
  }

  function LeadingBlanks(s: string): (n: nat)
    ensures n <= |s| && IsBlank(s[..n]) && (n < |s| ==> s[n] !in BLANKS)
  {
    if s != "" && s[0] in BLANKS then
      var n := 1 + LeadingBlanks(s[1..]);
      assert s[..n] == [s[0]] + s[1..][..n - 1];
      n
    else 0
  }

  /** Every text is spelled in this way. */
  lemma EveryWindowsTextIsSpelled(s: string) returns (lead: string, words: seq<WindowsWord>, last: seq<Segment>)
    ensures IsBlank(lead) && GoodWindowsWords(words) && GoodSegments(last, false)
    ensures s == lead + WindowsText(words, SegmentsText(last))
  {
    hide SegmentsText, GoodSegments, GoodWindowsWords, IsBlank, WindowsText;
    var n := LeadingBlanks(s);
    lead := s[..n];
    words, last := WindowsWordsOf(s[n..]);
    assert s == s[..n] + s[n..];
  }

  lemma {:induction false} WindowsWordsOf(s: string) returns (words: seq<WindowsWord>, last: seq<Segment>)
    requires s == "" || s[0] !in BLANKS
    ensures GoodWindowsWords(words) && GoodSegments(last, false)
    ensures s == WindowsText(words, SegmentsText(last))
    decreases |s|
  {
    hide SegmentsText, GoodSegments, EndsQuoted, IsBlank;
    var gs, rest := SegmentsOf(s, false);
    if rest == "" {
      words, last := [], gs;
      assert SegmentsText(gs) + "" == SegmentsText(gs);
    } else {
      var n := LeadingBlanks(rest);
      NonBlankSegments(gs, rest, s);
      words, last := WindowsWordsOf(rest[n..]);
      var w := WindowsWord(gs, rest[..n]);
      assert rest == rest[..n] + rest[n..];
      assert ([w] + words)[1..] == words;
      words := [w] + words;
    }
  }

  lemma NonBlankSegments(gs: seq<Segment>, rest: string, s: string)
    requires s == SegmentsText(gs) + rest && rest != "" && rest[0] in BLANKS && (s == "" || s[0] !in BLANKS)
    ensures gs != [] && |rest| <= |s|
  {
  }
}
