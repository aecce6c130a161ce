/** Lines in a file: writing them with a line feed each, and reading them back. */
module ArchiveText {
  import opened Common
  import opened Text

  function FileText(lines: seq<string>): string {
    if lines == [] then "" else FileText(lines[..|lines| - 1]) + lines[|lines| - 1] + "\n"
  }

  /** How many characters stand in front of the first one that ends a line. */
  function LineLength(text: string, ends: char -> bool): (n: nat)
    ensures n <= |text| && forall i :: 0 <= i < n ==> !ends(text[i])
    ensures n < |text| ==> ends(text[n])
  {
    if text == "" || ends(text[0]) then 0 else 1 + LineLength(text[1..], ends)
  }

  /** The text behind the first line and what ends it. */
  function Behind(text: string, ends: char -> bool): (rest: string)
    ensures rest == "" || |rest| < |text|
  {
    var n := LineLength(text, ends);
    if n == |text| then ""
    else if text[n] == '\r' && n + 1 < |text| && text[n + 1] == '\n' then text[n + 2..] else text[n + 1..]
  }

  /** The lines of a text; a carriage return and the line feed behind it end one line, and nothing follows the last end. */
  function ReadLines(text: string, ends: char -> bool): seq<string>
    decreases |text|
  {
    if text == "" then [] else [text[..LineLength(text, ends)]] + ReadLines(Behind(text, ends), ends)
  }

  /** No character of the line ends a line. */
  predicate Unbroken(line: string, ends: char -> bool) {
    forall i :: 0 <= i < |line| ==> !ends(line[i])
  }

  lemma {:induction false} LineStops(line: string, rest: string, ends: char -> bool)
    requires Unbroken(line, ends) && (rest == "" || ends(rest[0]))
    ensures LineLength(line + rest, ends) == |line|
  {
    if line == "" {
      assert line + rest == rest;
    } else {
      assert (line + rest)[1..] == line[1..] + rest;
      LineStops(line[1..], rest, ends);
    }
  }

  /** A line ends at the first character that ends one, together with a line feed behind a carriage return, or with the text. */
  lemma LineEndMeaning(line: string, end: string, rest: string, ends: char -> bool)
    requires Unbroken(line, ends)
    requires (end == "\r\n" && ends('\r')) || (|end| == 1 && ends(end[0]) && (end == "\r" && rest != "" ==> rest[0] != '\n'))
    ensures ReadLines(line + (end + rest), ends) == [line] + ReadLines(rest, ends)
    ensures ReadLines(line, ends) == if line == "" then [] else [line]
  {
    LineStops(line, end + rest, ends);
    LineStops(line, "", ends);
    assert line + "" == line;
    AfterLine(line, end, rest);
  }

  lemma AfterLine(line: string, end: string, rest: string)
    requires end != ""
    ensures var text := line + (end + rest);
            && |text| > |line| && text[..|line|] == line && text[|line|] == end[0] && text[|line| + |end|..] == rest
            && (|end| > 1 ==> text[|line| + 1] == end[1])
            && (|end| == 1 && rest != "" ==> text[|line| + 1] == rest[0])
  {
  }

  lemma ReadsLine(line: string, rest: string, ends: char -> bool)
    requires Unbroken(line, ends) && ends('\n')
    ensures ReadLines(line + "\n" + rest, ends) == [line] + ReadLines(rest, ends)
  {
    assert line + "\n" + rest == line + ("\n" + rest);
    LineEndMeaning(line, "\n", rest, ends);
  }

  lemma {:induction false} FileTextCons(line: string, rest: seq<string>)
    ensures FileText([line] + rest) == line + "\n" + FileText(rest)
  {
    var lines := [line] + rest;
    if rest == [] {
      assert lines[..0] == [] && FileText(lines) == "" + line + "\n";
    } else {
      var init, last := rest[..|rest| - 1], rest[|rest| - 1];
      assert lines[..|lines| - 1] == [line] + init;
      FileTextCons(line, init);
      assert line + "\n" + FileText(init) + last + "\n" == line + "\n" + (FileText(init) + last + "\n");
    }
  }

  lemma {:induction false} UnbrokenReadBack(lines: seq<string>, ends: char -> bool)
    requires ends('\n') && forall i :: 0 <= i < |lines| ==> Unbroken(lines[i], ends)
    ensures ReadLines(FileText(lines), ends) == lines
  {
    if lines != [] {
      assert lines == [lines[0]] + lines[1..];
      FileTextCons(lines[0], lines[1..]);
      UnbrokenReadBack(lines[1..], ends);
      ReadsLine(lines[0], FileText(lines[1..]), ends);
    }
  }

  lemma {:induction false} ReadIsUnbroken(text: string, ends: char -> bool)
    ensures forall i :: 0 <= i < |ReadLines(text, ends)| ==> Unbroken(ReadLines(text, ends)[i], ends)
    decreases |text|
  {
    if text != "" {
      ReadIsUnbroken(Behind(text, ends), ends);
    }
  }

  /** Written lines are read back if and only if none of them holds a character at which the reader ends a line. */
  lemma LinesReadBackExactly(lines: seq<string>, ends: char -> bool)
    requires ends('\n')
    ensures ReadLines(FileText(lines), ends) == lines <==> forall i :: 0 <= i < |lines| ==> Unbroken(lines[i], ends)
  {
    ReadIsUnbroken(FileText(lines), ends);
    if forall i :: 0 <= i < |lines| ==> Unbroken(lines[i], ends) { UnbrokenReadBack(lines, ends); }
  }

  /** Lines without line feeds are determined by their text. */
  lemma TextDeterminesLines(a: seq<string>, b: seq<string>)
    requires FileText(a) == FileText(b)
    requires forall i :: 0 <= i < |a| ==> Clean(a[i])
    requires forall i :: 0 <= i < |b| ==> Clean(b[i])
    ensures a == b
  {
    var feed := (c: char) => c == '\n';
    UnbrokenReadBack(a, feed);
    UnbrokenReadBack(b, feed);
  }

  lemma {:induction false} FileTextAppend(a: seq<string>, b: seq<string>)
    ensures FileText(a + b) == FileText(a) + FileText(b)
  {
    if b == [] {
      assert a + b == a;
    } else {
      var init, last := b[..|b| - 1], b[|b| - 1];
      assert (a + b)[..|a + b| - 1] == a + init;
      FileTextAppend(a, init);
      assert FileText(a) + FileText(init) + last + "\n" == FileText(a) + (FileText(init) + last + "\n");
    }
  }

  lemma LineThenRest(line: string, tail: seq<string>, rest: string, ends: char -> bool)
    requires Unbroken(line, ends) && ends('\n')
    ensures ReadLines(FileText([line] + tail) + rest, ends) == [line] + ReadLines(FileText(tail) + rest, ends)
  {
    FileTextCons(line, tail);
    assert line + "\n" + FileText(tail) + rest == line + "\n" + (FileText(tail) + rest);
    ReadsLine(line, FileText(tail) + rest, ends);
  }

  /** Unbroken lines are read as they are, whatever follows. */
  lemma {:induction false} FrontReadBack(front: seq<string>, rest: string, ends: char -> bool)
    requires ends('\n') && forall i :: 0 <= i < |front| ==> Unbroken(front[i], ends)
    ensures ReadLines(FileText(front) + rest, ends) == front + ReadLines(rest, ends)
  {
    if front == [] {
      assert FileText(front) + rest == rest;
    } else {
      var tail := front[1..];
      assert front == [front[0]] + tail;
      LineThenRest(front[0], tail, rest, ends);
      FrontReadBack(tail, rest, ends);
      Regroup([front[0]], tail, ReadLines(rest, ends));
    }
  }

  lemma {:induction false} BreakFound(line: string, rest: string, ends: char -> bool)
    requires !Unbroken(line, ends)
    ensures LineLength(line + rest, ends) == LineLength(line, ends) < |line|
  {
    if !ends(line[0]) {
      var i :| 0 <= i < |line| && ends(line[i]);
      assert (line + rest)[1..] == line[1..] + rest && ends(line[1..][i - 1]);
      BreakFound(line[1..], rest, ends);
    }
  }

  /** Of a broken line only the characters in front of the first end are read next. */
  lemma BrokenRead(front: seq<string>, line: string, rest: string, ends: char -> bool)
    requires ends('\n') && (forall i :: 0 <= i < |front| ==> Unbroken(front[i], ends)) && !Unbroken(line, ends)
    ensures LineLength(line, ends) < |line|
    ensures var read := ReadLines(FileText(front) + line + rest, ends);
            |read| > |front| && read[..|front|] == front && read[|front|] == line[..LineLength(line, ends)]
  {
    assert FileText(front) + line + rest == FileText(front) + (line + rest);
    FrontReadBack(front, line + rest, ends);
    BreakFound(line, rest, ends);
  }
}
