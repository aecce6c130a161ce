/** White space, as trimming and blank-line tests see it, and decimal digits. */
module Text {

  predicate IsSpace(c: char) {
    || '\t' <= c <= '\r' || c == ' ' || c == '\U{a0}' || c == '\U{1680}' || '\U{2000}' <= c <= '\U{200a}'
    || c == '\U{2028}' || c == '\U{2029}' || c == '\U{202f}' || c == '\U{205f}' || c == '\U{3000}' || c == '\U{feff}'
  }

  /** The white space and line terminators of ECMAScript, by code point. */
  lemma SpacesExactly(c: char)
    ensures IsSpace(c) <==>
      c as int in {0x9, 0xa, 0xb, 0xc, 0xd, 0x20, 0xa0, 0x1680, 0x2000, 0x2001, 0x2002, 0x2003, 0x2004, 0x2005, 0x2006,
                   0x2007, 0x2008, 0x2009, 0x200a, 0x2028, 0x2029, 0x202f, 0x205f, 0x3000, 0xfeff}
  {
  }

  /** Without line feeds and carriage returns: a line that survives splitting text into lines. */
  predicate Clean(line: string) {
    '\n' !in line && '\r' !in line
  }

  predicate Blank(s: string) {
    forall i :: 0 <= i < |s| ==> IsSpace(s[i])
  }

  function Trim(s: string): string {
    if s == "" then ""
    else if IsSpace(s[0]) then Trim(s[1..])
    else if IsSpace(s[|s| - 1]) then Trim(s[..|s| - 1])
    else s
  }

  /** Text that neither starts nor ends with white space is left alone. */
  lemma TrimKeeps(s: string)
    requires s == "" || (!IsSpace(s[0]) && !IsSpace(s[|s| - 1]))
    ensures Trim(s) == s
  {
  }

  /** Text that is not empty and has no white space at its ends. */
  predicate Tight(s: string) {
    s != "" && !IsSpace(s[0]) && !IsSpace(s[|s| - 1])
  }

  lemma BlankAppend(a: string, b: string)
    ensures Blank(a + b) <==> Blank(a) && Blank(b)
  {
    assert forall i :: 0 <= i < |a| ==> (a + b)[i] == a[i];
    assert forall i :: 0 <= i < |b| ==> (a + b)[|a| + i] == b[i];
  }

  /** The trimmed text stands in the text between white space. */
  lemma {:induction false} TrimParts(s: string) returns (a: string, b: string)
    ensures s == a + Trim(s) + b && Blank(a) && Blank(b)
    ensures Trim(s) == "" || Tight(Trim(s))
    ensures Trim(s) == "" <==> Blank(s)
  {
    a, b := "", "";
    if s != "" && IsSpace(s[0]) {
      var t := s[1..];
      assert s == [s[0]] + t;
      a, b := TrimParts(t);
      BlankAppend([s[0]], a);
      BlankAppend([s[0]], t);
      a := [s[0]] + a;
    } else if s != "" && IsSpace(s[|s| - 1]) {
      var t, c := s[..|s| - 1], [s[|s| - 1]];
      assert s == t + c;
      a, b := TrimParts(t);
      BlankAppend(b, c);
      BlankAppend(t, c);
      b := b + c;
    }
  }

  lemma {:induction false} TrimBlank(s: string)
    requires Blank(s)
    ensures Trim(s) == ""
  {
    if s != "" {
      assert IsSpace(s[0]);
      TrimBlank(s[1..]);
    }
  }

  /** Whatever tight text stands between white space is what trimming gives. */
  lemma {:induction false} TrimOnly(a: string, t: string, b: string)
    requires Blank(a) && Blank(b) && Tight(t)
    ensures Trim(a + t + b) == t
    decreases |a| + |b|
  {
    var s := a + t + b;
    if a != "" {
      assert s[0] == a[0] && s[1..] == a[1..] + t + b;
      TrimOnly(a[1..], t, b);
    } else if b != "" {
      assert s[0] == t[0] && s[|s| - 1] == b[|b| - 1] && s[..|s| - 1] == a + t + b[..|b| - 1];
      TrimOnly(a, t, b[..|b| - 1]);
    } else {
      assert s == t;
      TrimKeeps(t);
    }
  }

  predicate Digit(c: char) {
    '0' <= c <= '9'
  }

  function NumberOf(s: string): nat
    requires forall i :: 0 <= i < |s| ==> Digit(s[i])
  {
    if s == "" then 0
    else
      assert Digit(s[|s| - 1]);
      NumberOf(s[..|s| - 1]) * 10 + (s[|s| - 1] as int - '0' as int)
  }
}
