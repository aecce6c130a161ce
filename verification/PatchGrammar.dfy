/** The lines of a patch in characters: which lines name a path, which are hunk headers, and which lines make hunks. */
module PatchGrammar {
  import opened Common
  import opened Text
  import opened PatchHunks
  import opened PatchText
  import opened PatchEngine
  import opened PatchParser

  // ---- paths ----

  predicate AllSeparators(s: string) {
    forall i :: 0 <= i < |s| ==> Separator(s[i])
  }

  /** A path on one line; behind white space alone it is the last character that is no separator. */
  predicate PathIn(a: string, path: string, b: string) {
    && Blank(a) && Blank(b) && OneLine(path)
    && (Tight(path) || (|path| == 1 && IsSpace(path[0]) && AllSeparators(b)))
  }

  ghost predicate Names(line: string, mark: string, path: string) {
    exists a: string, b: string :: line == mark + a + path + b && PathIn(a, path, b)
  }

  lemma {:induction false} LastVisibleParts(s: string) returns (a: string, b: string)
    requires Blank(s)
    ensures LastVisible(s).None? ==> AllSeparators(s)
    ensures LastVisible(s).Some? ==> s == a + LastVisible(s).value + b && PathIn(a, LastVisible(s).value, b)
  {
    a, b := "", "";
    if s != "" {
      var t, c := s[..|s| - 1], [s[|s| - 1]];
      assert s == t + c;
      if Separator(s[|s| - 1]) {
        a, b := LastVisibleParts(t);
        if LastVisible(t).None? {
          forall i | 0 <= i < |s| ensures Separator(s[i]) { if i < |t| { assert Separator(t[i]); } }
        }
        BlankAppend(b, c);
        b := b + c;
      } else {
        a := t;
        BlankAppend(t, c);
      }
    }
  }

  lemma {:induction false} LastVisibleOnly(a: string, path: string, b: string)
    requires PathIn(a, path, b) && !Tight(path)
    ensures LastVisible(a + path + b) == Some(path)
    decreases |b|
  {
    var s := a + path + b;
    if b == "" {
      assert s[|s| - 1] == path[0] && [path[0]] == path;
    } else {
      assert s[|s| - 1] == b[|b| - 1] && s[..|s| - 1] == a + path + b[..|b| - 1];
      LastVisibleOnly(a, path, b[..|b| - 1]);
    }
  }

  lemma CaptureParts(rest: string) returns (a: string, b: string)
    requires Capture(rest).Some?
    ensures rest == a + Capture(rest).value + b && PathIn(a, Capture(rest).value, b)
  {
    a, b := TrimParts(rest);
    if Trim(rest) == "" { a, b := LastVisibleParts(rest); }
  }

  lemma CaptureOnly(a: string, path: string, b: string)
    requires PathIn(a, path, b)
    ensures Capture(a + path + b) == Some(path)
  {
    if Tight(path) {
      TrimOnly(a, path, b);
    } else {
      BlankAppend(a, path);
      BlankAppend(a + path, b);
      TrimBlank(a + path + b);
      LastVisibleOnly(a, path, b);
    }
  }

  /** A directive names a path exactly if it is the mark, white space, the path and white space. */
  lemma PathExactly(line: string, mark: string, path: string)
    ensures PathAfter(line, mark) == Some(path) <==> Names(line, mark, path)
  {
    if PathAfter(line, mark) == Some(path) {
      var a, b := CaptureParts(line[|mark|..]);
      assert line == mark + a + path + b;
    }
    if a: string, b: string :| line == mark + a + path + b && PathIn(a, path, b) {
      assert line[|mark|..] == a + path + b;
      CaptureOnly(a, path, b);
    }
  }

  // ---- hunk headers ----

  predicate Number(s: string) {
    s != "" && forall i :: 0 <= i < |s| ==> Digit(s[i])
  }

  /** The sign, the start and maybe a count, which is not used. */
  predicate Range(text: string, sign: char, first: string, second: string) {
    && Number(first) && (second == "" || (second[0] == ',' && Number(second[1..])))
    && text == [' ', sign] + (first + second)
  }

  /** A range as it stands in a header, or nothing. */
  ghost predicate RangeText(text: string, sign: char, start: Option<nat>) {
    if start.None? then text == ""
    else exists first: string, second: string :: Range(text, sign, first, second) && NumberOf(first) == start.value
  }

  /** What ends a header: the second mark, and maybe a space and more text on the line. */
  predicate HeaderEnd(s: string) {
    " @@" <= s && (|s| == 3 || (s[3] == ' ' && OneLine(s[4..])))
  }

  ghost predicate HeaderText(line: string, h: Header) {
    || (h == Header(None, None) && Trim(line) == "@@")
    || exists a: string, b: string, end: string :: HeaderInParts(line, h, a, b, end)
  }

  ghost predicate HeaderInParts(line: string, h: Header, a: string, b: string, end: string) {
    && RangeText(a, '-', h.oldStart) && RangeText(b, '+', h.newStart) && HeaderEnd(end)
    && line == "@@" + (a + (b + end))
  }

  lemma CountParts(rest: string)
    ensures var n := CountLength(rest); n > 0 ==> rest[0] == ',' && Number(rest[1..n])
  {
    var n := CountLength(rest);
    if n > 0 { assert rest[1..n] == rest[1..][..n - 1]; }
  }

  lemma StartParts(s: string, sign: char)
    requires TakesRange(s, sign)
    ensures var n := DigitsAt(s[2..]); 0 < n <= |s| - 2 && Number(s[2..2 + n])
  {
    var n := DigitsAt(s[2..]);
    assert s[2..][0] == s[2];
    assert s[2..2 + n] == s[2..][..n];
  }

  lemma Cut(s: string, i: nat, j: nat)
    requires 2 <= i <= i + j <= |s|
    ensures s == s[..2] + (s[2..i] + s[i..][..j]) + s[i + j..]
  {
  }

  lemma TakenRange(s: string, sign: char) returns (text: string)
    ensures s == text + TakeRange(s, sign).1 && RangeText(text, sign, TakeRange(s, sign).0)
  {
    if TakesRange(s, sign) {
      StartParts(s, sign);
      var i := 2 + DigitsAt(s[2..]);
      CountParts(s[i..]);
      var j := CountLength(s[i..]);
      var first, second := s[2..i], s[i..][..j];
      Cut(s, i, j);
      text := s[..2] + (first + second);
      assert s[..2] == [' ', sign];
      assert j > 0 ==> second[1..] == s[i..][1..j];
      assert Range(text, sign, first, second);
    } else {
      text := "";
    }
  }

  /** Text behind a range that cannot be taken for a part of it. */
  predicate Follows(rest: string, sign: char, start: Option<nat>) {
    |rest| > 1 && rest[0] == ' ' && (start.None? ==> rest[1] != sign)
  }

  lemma CountTaken(second: string, rest: string)
    requires second == "" || (second[0] == ',' && Number(second[1..]))
    requires rest != "" && rest[0] == ' '
    ensures CountLength(second + rest) == |second|
  {
    if second != "" {
      assert (second + rest)[1..] == second[1..] + rest;
      DigitsStop(second[1..], rest);
    }
  }

  lemma PartsTaken(text: string, rest: string, sign: char, first: string, second: string)
    requires Range(text, sign, first, second) && rest != "" && rest[0] == ' '
    ensures TakeRange(text + rest, sign) == (Some(NumberOf(first)), rest)
  {
    var s, tail := text + rest, second + rest;
    RangeSplit(text, rest, sign, first, second);
    DigitsStop(first, tail);
    CountTaken(second, rest);
    assert tail[|second|..] == rest;
  }

  lemma RangeSplit(text: string, rest: string, sign: char, first: string, second: string)
    requires Range(text, sign, first, second)
    ensures var s := text + rest;
            && TakesRange(s, sign) && s[2..] == first + (second + rest)
            && s[2..2 + |first|] == first && s[2 + |first|..] == second + rest && s[2 + |first| + |second|..] == rest
  {
    assert text == [' ', sign] + first + second;
  }

  lemma RangeTaken(text: string, rest: string, sign: char, start: Option<nat>)
    requires RangeText(text, sign, start) && Follows(rest, sign, start)
    ensures TakeRange(text + rest, sign) == (start, rest)
  {
    if start.None? {
      assert text + rest == rest;
    } else {
      var first: string, second: string :| Range(text, sign, first, second) && NumberOf(first) == start.value;
      PartsTaken(text, rest, sign, first, second);
    }
  }

  lemma RangeStarts(text: string, rest: string, sign: char, start: Option<nat>)
    requires RangeText(text, sign, start) && |rest| > 1 && rest[0] == ' ' && rest[1] == '@'
    ensures |text + rest| > 1 && (text + rest)[0] == ' ' && ((text + rest)[1] == sign || (text + rest)[1] == '@')
  {
    if start.None? { assert text + rest == rest; }
  }

  lemma HeaderParts(line: string, h: Header)
    requires "@@" <= line && Trim(line) != "@@" && ParseHeader(line) == Some(h)
    ensures HeaderText(line, h)
  {
    var s := line[2..];
    var first := TakeRange(s, '-');
    var second := TakeRange(first.1, '+');
    var a := TakenRange(s, '-');
    var b := TakenRange(first.1, '+');
    HeaderJoined(line, h, a, b, first.1, second.1);
  }

  lemma HeaderJoined(line: string, h: Header, a: string, b: string, rest: string, end: string)
    requires "@@" <= line && line[2..] == a + rest && rest == b + end && HeaderEnd(end)
    requires RangeText(a, '-', h.oldStart) && RangeText(b, '+', h.newStart)
    ensures HeaderText(line, h)
  {
    assert HeaderInParts(line, h, a, b, end);
  }

  lemma HeaderTaken(a: string, b: string, end: string, h: Header)
    requires RangeText(a, '-', h.oldStart) && RangeText(b, '+', h.newStart) && HeaderEnd(end)
    ensures TakeRange(a + (b + end), '-') == (h.oldStart, b + end) && TakeRange(b + end, '+') == (h.newStart, end)
  {
    assert end[0] == ' ' && end[1] == '@';
    RangeStarts(b, end, '+', h.newStart);
    RangeTaken(b, end, '+', h.newStart);
    RangeTaken(a, b + end, '-', h.oldStart);
  }

  lemma HeaderRead(line: string, h: Header, a: string, b: string, end: string)
    requires HeaderInParts(line, h, a, b, end)
    ensures ParseHeader(line) == Some(h)
  {
    assert line[2..] == a + (b + end);
    HeaderTaken(a, b, end, h);
    MarkBehind(line, a, b, end);
    HeaderParsed(line, h, b + end, end);
  }

  lemma MarkBehind(line: string, a: string, b: string, end: string)
    requires "@@" <= line && line[2..] == a + (b + end) && " @@" <= end
    ensures Trim(line) != "@@"
  {
    var i := |a| + |b| + 1;
    assert (a + (b + end))[i] == end[1];
    assert line[2..][i] == line[2 + i];
    ThirdMark(line, 2 + i);
  }

  lemma HeaderParsed(line: string, h: Header, rest: string, end: string)
    requires "@@" <= line && Trim(line) != "@@" && HeaderEnd(end)
    requires TakeRange(line[2..], '-') == (h.oldStart, rest) && TakeRange(rest, '+') == (h.newStart, end)
    ensures ParseHeader(line) == Some(h)
  {
  }

  /** A line with more than the mark is not the mark when trimmed. */
  lemma ThirdMark(line: string, i: nat)
    requires "@@" <= line && 2 <= i < |line| && line[i] == '@'
    ensures Trim(line) != "@@"
  {
    var a, b := TrimParts(line);
    if a == "" { assert line == Trim(line) + b; }
  }

  /** Which lines are hunk headers, and what they say. */
  lemma HeaderExactly(line: string, h: Header)
    requires "@@" <= line
    ensures ParseHeader(line) == Some(h) <==> HeaderText(line, h)
  {
    if ParseHeader(line) == Some(h) && Trim(line) != "@@" { HeaderParts(line, h); }
    if a: string, b: string, end: string :| HeaderInParts(line, h, a, b, end) { HeaderRead(line, h, a, b, end); }
  }

  // ---- hunks ----

  predicate IsHeaderLine(line: string) {
    "@@" <= line && ParseHeader(line).Some?
  }

  predicate Readable(line: string) {
    IsHunkLine(line) || IsHeaderLine(line)
  }

  predicate AllReadable(lines: Lines) {
    forall i :: 0 <= i < |lines| ==> Readable(lines[i])
  }

  predicate AllHunkLines(body: Lines) {
    forall i :: 0 <= i < |body| ==> IsHunkLine(body[i])
  }

  function Parsed(body: Lines): seq<HunkLine>
    requires AllHunkLines(body)
  {
    seq(|body|, i requires 0 <= i < |body| => ParseLine(body[i]))
  }

  /** A readable first line does the same whatever follows: it finishes hunks and leaves a header and the lines so far. */
  lemma FirstRead(x: Lines, y: Lines, header: Header, current: seq<HunkLine>)
    returns (done: seq<Hunk>, own: Header, now: seq<HunkLine>)
    requires x != [] && y != [] && x[0] == y[0] && Readable(x[0])
    ensures HunksFrom(x, header, current) == Prepend(done, HunksFrom(x[1..], own, now))
    ensures HunksFrom(y, header, current) == Prepend(done, HunksFrom(y[1..], own, now))
    ensures now != [] <==> IsHunkLine(x[0])
  {
    if "@@" <= x[0] {
      assert !IsHunkLine(x[0]);
      done, own, now := Finished(header, current), ParseHeader(x[0]).value, [];
    } else {
      done, own, now := [], header, current + [ParseLine(x[0])];
      PrependNothing(HunksFrom(x[1..], own, now));
      PrependNothing(HunksFrom(y[1..], own, now));
    }
  }

  lemma {:induction false} ReadsExactly(lines: Lines, header: Header, current: seq<HunkLine>)
    requires AllReadable(lines)
    ensures HunksFrom(lines, header, current).Ok? <==> if lines == [] then current != [] else IsHunkLine(lines[|lines| - 1])
    ensures HunksFrom(lines, header, current).Err? ==> HunksFrom(lines, header, current).error == EmptyHunk
    decreases |lines|
  {
    if lines != [] {
      assert Readable(lines[0]);
      var done, own, now := FirstRead(lines, lines, header, current);
      ReadsExactly(lines[1..], own, now);
    }
  }

  lemma {:induction false} UnreadableFails(a: Lines, tail: Lines, header: Header, current: seq<HunkLine>)
    requires AllReadable(a) && tail != [] && !Readable(tail[0])
    ensures HunksFrom(a + tail, header, current) == Err(if "@@" <= tail[0] then BadHunkHeader else BadHunkLine)
    decreases |a|
  {
    if a == [] {
      assert a + tail == tail;
    } else {
      assert (a + tail)[0] == a[0] && (a + tail)[1..] == a[1..] + tail && Readable(a[0]);
      var done, own, now := FirstRead(a + tail, a + tail, header, current);
      UnreadableFails(a[1..], tail, own, now);
    }
  }

  /** An update has hunks exactly if each of its lines is a hunk line or a header that can be read, and the last is a hunk line. */
  lemma HunksExactly(lines: Lines)
    ensures ParseHunks(lines).Ok? <==> lines != [] && AllReadable(lines) && IsHunkLine(lines[|lines| - 1])
    ensures ParseHunks(lines) == Err(NoHunks) <==> lines == []
    ensures ParseHunks(lines) == Err(EmptyHunk) <==> lines != [] && AllReadable(lines) && !IsHunkLine(lines[|lines| - 1])
  {
    if AllReadable(lines) {
      ReadsExactly(lines, Header(None, None), []);
    } else {
      var i := FirstUnreadable(lines);
      assert lines == lines[..i] + lines[i..];
      UnreadableFails(lines[..i], lines[i..], Header(None, None), []);
    }
  }

  lemma {:induction false} FirstUnreadable(lines: Lines) returns (i: nat)
    requires !AllReadable(lines)
    ensures i < |lines| && AllReadable(lines[..i]) && !Readable(lines[i])
  {
    i := 0;
    if Readable(lines[0]) {
      var rest := lines[1..];
      assert !AllReadable(rest) by {
        var k :| 0 <= k < |lines| && !Readable(lines[k]);
        assert rest[k - 1] == lines[k];
      }
      var j := FirstUnreadable(rest);
      i := j + 1;
      assert lines[..i] == [lines[0]] + rest[..j];
    }
  }

  /** Which of the unreadable lines is reported: the first. */
  lemma FirstFailure(lines: Lines, i: nat)
    requires i < |lines| && AllReadable(lines[..i]) && !Readable(lines[i])
    ensures ParseHunks(lines) == Err(if "@@" <= lines[i] then BadHunkHeader else BadHunkLine)
  {
    assert lines == lines[..i] + lines[i..];
    UnreadableFails(lines[..i], lines[i..], Header(None, None), []);
  }

  lemma {:induction false} BodyRead(body: Lines, header: Header, current: seq<HunkLine>)
    requires AllHunkLines(body) && (body != [] || current != [])
    ensures HunksFrom(body, header, current) == Ok([HunkOf(header, current + Parsed(body))])
    decreases |body|
  {
    if body == [] {
      assert current + Parsed(body) == current;
    } else {
      assert IsHunkLine(body[0]);
      BodyRead(body[1..], header, current + [ParseLine(body[0])]);
      assert current + [ParseLine(body[0])] + Parsed(body[1..]) == current + Parsed(body);
    }
  }

  /** `xs` behind a result. */
  function Append<T, E>(r: Result<seq<T>, E>, xs: seq<T>): Result<seq<T>, E> {
    if r.Err? then r else Ok(r.value + xs)
  }

  lemma PrependAppend<T, E>(a: seq<T>, r: Result<seq<T>, E>, xs: seq<T>)
    ensures Append(Prepend(a, r), xs) == Prepend(a, Append(r, xs))
  {
    if r.Ok? { assert a + r.value + xs == a + (r.value + xs); }
  }

  lemma {:induction false} AppendRead(a: Lines, tail: Lines, last: seq<Hunk>, header: Header, current: seq<HunkLine>)
    requires tail != [] && IsHeaderLine(tail[0]) && HunksFrom(tail[1..], ParseHeader(tail[0]).value, []) == Ok(last)
    requires AllReadable(a) && if a == [] then current != [] else IsHunkLine(a[|a| - 1])
    ensures HunksFrom(a + tail, header, current) == Append(HunksFrom(a, header, current), last)
    decreases |a|
  {
    if a == [] {
      assert a + tail == tail;
    } else {
      assert (a + tail)[0] == a[0] && (a + tail)[1..] == a[1..] + tail && Readable(a[0]);
      var done, own, now := FirstRead(a, a + tail, header, current);
      AppendRead(a[1..], tail, last, own, now);
      PrependAppend(done, HunksFrom(a[1..], own, now), last);
    }
  }

  lemma {:induction false} HeaderIgnored(a: Lines, dropped: string, tail: Lines, header: Header, current: seq<HunkLine>)
    requires AllReadable(a) && IsHeaderLine(dropped) && tail != [] && IsHeaderLine(tail[0])
    ensures HunksFrom(a + [dropped] + tail, header, current) == HunksFrom(a + tail, header, current)
    decreases |a|
  {
    var lines := a + [dropped] + tail;
    if a == [] {
      assert lines[1..] == tail && a + tail == tail;
      PrependNothing(HunksFrom(tail[1..], ParseHeader(tail[0]).value, []));
    } else {
      assert lines[0] == a[0] && lines[1..] == a[1..] + [dropped] + tail;
      assert (a + tail)[0] == a[0] && (a + tail)[1..] == a[1..] + tail && Readable(a[0]);
      var done, own, now := FirstRead(lines, a + tail, header, current);
      HeaderIgnored(a[1..], dropped, tail, own, now);
    }
  }

  /** Hunk lines without a header in front are one hunk without starts. */
  lemma FirstHunk(body: Lines)
    requires AllHunkLines(body) && body != []
    ensures ParseHunks(body) == Ok([Hunk(None, None, Parsed(body))])
  {
    BodyRead(body, Header(None, None), []);
    assert [] + Parsed(body) == Parsed(body);
  }

  /** A header and hunk lines behind other hunks are one more hunk, with the starts of the header. */
  lemma NextHunk(a: Lines, mark: string, h: Header, body: Lines)
    requires ParseHunks(a).Ok? && HeaderText(mark, h) && "@@" <= mark && AllHunkLines(body) && body != []
    ensures ParseHunks(a + [mark] + body) == Ok(ParseHunks(a).value + [Hunk(h.oldStart, h.newStart, Parsed(body))])
  {
    HunksExactly(a);
    HeaderExactly(mark, h);
    BodyRead(body, h, []);
    assert [] + Parsed(body) == Parsed(body);
    assert ([mark] + body)[1..] == body && a + [mark] + body == a + ([mark] + body);
    AppendRead(a, [mark] + body, [HunkOf(h, Parsed(body))], Header(None, None), []);
  }

  /** Of several headers in a row only the last one counts. */
  lemma LastHeaderCounts(a: Lines, dropped: string, tail: Lines)
    requires AllReadable(a) && IsHeaderLine(dropped) && tail != [] && IsHeaderLine(tail[0])
    ensures ParseHunks(a + [dropped] + tail) == ParseHunks(a + tail)
  {
    HeaderIgnored(a, dropped, tail, Header(None, None), []);
  }

  // ---- operations ----

  /** Blank lines between operations say nothing. */
  lemma {:induction false} BlankLinesSkipped(blanks: Lines, rest: Lines)
    requires AllBlank(blanks)
    ensures ParseOps(blanks + rest) == ParseOps(rest)
  {
    if blanks == [] {
      assert blanks + rest == rest;
    } else {
      var lines := blanks + rest;
      var a, b := TrimParts(blanks[0]);
      assert lines[0] == blanks[0] && lines[1..] == blanks[1..] + rest;
      BlankLinesSkipped(blanks[1..], rest);
      PrependNothing(ParseOps(lines[1..]));
    }
  }
}
