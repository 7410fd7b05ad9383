/** Joining pieces of text with a delimiter, and text read as a C string. */
module Text {

  function Join(pieces: seq<string>, delimiter: string): string {
    if pieces == [] then ""
    else if |pieces| == 1 then pieces[0]
    else pieces[0] + (delimiter + Join(pieces[1..], delimiter))
  }

  /** Every piece followed by the delimiter. */
  function Terminated(pieces: seq<string>, delimiter: string): string {
    if pieces == [] then "" else pieces[0] + (delimiter + Terminated(pieces[1..], delimiter))
  }

  lemma {:induction false} TerminatedAppend(a: seq<string>, b: seq<string>, delimiter: string)
    ensures Terminated(a + b, delimiter) == Terminated(a, delimiter) + Terminated(b, delimiter)
  {
    if a == [] {
      assert a + b == b;
    } else {
      TerminatedAppend(a[1..], b, delimiter);
      assert (a + b)[1..] == a[1..] + b;
      Regroup(a[0], delimiter, Terminated(a[1..], delimiter), Terminated(b, delimiter));
    }
  }

  lemma Regroup(a: string, b: string, c: string, d: string)
    ensures a + (b + (c + d)) == (a + (b + c)) + d
  {
  }

  lemma TerminatedNext(pieces: seq<string>, i: nat, delimiter: string)
    requires i < |pieces|
    ensures Terminated(pieces[..i + 1], delimiter) == Terminated(pieces[..i], delimiter) + (pieces[i] + delimiter)
  {
    assert pieces[..i + 1] == pieces[..i] + [pieces[i]];
    TerminatedAppend(pieces[..i], [pieces[i]], delimiter);
    assert pieces[i] + (delimiter + "") == pieces[i] + delimiter;
  }

  lemma {:induction false} TerminatedIsJoined(pieces: seq<string>, delimiter: string)
    requires pieces != []
    ensures Terminated(pieces, delimiter) == Join(pieces, delimiter) + delimiter
  {
    if |pieces| == 1 {
      assert pieces[0] + (delimiter + "") == pieces[0] + delimiter;
    } else {
      TerminatedIsJoined(pieces[1..], delimiter);
      Regroup(pieces[0], delimiter, Join(pieces[1..], delimiter), delimiter);
    }
  }

  /** Cutting the last delimiter off leaves the joined pieces. */
  lemma CutTerminated(pieces: seq<string>, delimiter: string)
    requires pieces != []
    ensures var s := Terminated(pieces, delimiter);
            |delimiter| <= |s| && s[..|s| - |delimiter|] == Join(pieces, delimiter)
  {
    TerminatedIsJoined(pieces, delimiter);
  }

  lemma Associative(a: string, b: string, c: string)
    ensures (a + b) + c == a + (b + c)
  {
  }

  /** The first character of `a + b`, when `a` has one, and the rest. */
  lemma HeadOfAppend(a: string, b: string)
    requires a != ""
    ensures (a + b)[0] == a[0] && (a + b)[1..] == a[1..] + b
  {
  }

  const NUL: char := '\0'

  predicate NulFree(s: string) { NUL !in s }

  /** The text before the first NUL, which is all that code working on `const char *` sees. */
  function CString(s: string): (t: string)
    ensures t <= s && NulFree(t)
    ensures |t| < |s| ==> s[|t|] == NUL
  {
    if s == "" || s[0] == NUL then "" else [s[0]] + CString(s[1..])
  }

  lemma {:induction false} CStringOf(t: string, u: string)
    requires NulFree(t) && (u == "" || u[0] == NUL)
    ensures CString(t + u) == t
  {
    if t == "" {
      assert t + u == u;
    } else {
      CStringOf(t[1..], u);
      HeadOfAppend(t, u);
      assert t[0] in t;
      assert t == [t[0]] + t[1..];
    }
  }

  lemma CStringIsWhole(s: string)
    ensures CString(s) == s <==> NulFree(s)
  {
    if NulFree(s) {
      CStringOf(s, "");
      assert s + "" == s;
    }
  }
}
