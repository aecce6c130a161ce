/** Reading the patch text into operations, and writing operations as patch text. */
module PatchParser {
  import opened Common
  import opened Text
  import opened PatchHunks
  import opened PatchText
  import opened PatchEngine

  datatype ParseError =
    | NoEnvelope | OutsideEnvelope | NoOperation | Unsupported
    | NotAnAddition | NoHunks | EmptyHunk | BadHunkLine | BadHunkHeader

  const BEGIN_MARK: string := "*** Begin Patch"
  const END_MARK: string := "*** End Patch"
  const ADD_MARK: string := "*** Add File:"
  const DELETE_MARK: string := "*** Delete File:"
  const UPDATE_MARK: string := "*** Update File:"
  const MOVE_MARK: string := "*** Move to:"

  /** `xs` in front of a result. */
  function Prepend<T, E>(xs: seq<T>, r: Result<seq<T>, E>): Result<seq<T>, E> {
    if r.Err? then r else Ok(xs + r.value)
  }

  lemma PrependNothing<T, E>(r: Result<seq<T>, E>)
    ensures Prepend([], r) == r
  {
    if r.Ok? { assert [] + r.value == r.value; }
  }

  lemma PrependPrepend<T, E>(a: seq<T>, b: seq<T>, r: Result<seq<T>, E>)
    ensures Prepend(a, Prepend(b, r)) == Prepend(a + b, r)
  {
    if r.Ok? { assert a + (b + r.value) == a + b + r.value; }
  }

  // ---- directives ----

  predicate Directive(line: string) {
    "*** " <= line
  }

  /** A character that no dot in the source's patterns matches. */
  predicate Separator(c: char) {
    c == '\n' || c == '\r' || c == '\U{2028}' || c == '\U{2029}'
  }

  predicate OneLine(s: string) {
    forall i :: 0 <= i < |s| ==> !Separator(s[i])
  }

  function LastVisible(s: string): Option<string> {
    if s == "" then None else if !Separator(s[|s| - 1]) then Some([s[|s| - 1]]) else LastVisible(s[..|s| - 1])
  }

  /** The path behind a directive: trimmed, or for white space alone its last character. */
  function Capture(rest: string): Option<string> {
    var t := Trim(rest);
    if t == "" then LastVisible(rest) else if OneLine(t) then Some(t) else None
  }

  function PathAfter(line: string, mark: string): Option<string> {
    if mark <= line then Capture(line[|mark|..]) else None
  }

  // ---- hunks ----

  function DigitsAt(s: string): (n: nat)
    ensures n <= |s| && forall i :: 0 <= i < n ==> Digit(s[i])
    ensures n < |s| ==> !Digit(s[n])
  {
    if s == "" || !Digit(s[0]) then 0 else 1 + DigitsAt(s[1..])
  }

  /** How long the count behind a start is, with its comma. */
  function CountLength(rest: string): (n: nat)
    ensures n <= |rest|
  {
    var m := if rest != "" && rest[0] == ',' then DigitsAt(rest[1..]) else 0;
    if m > 0 then m + 1 else 0
  }

  predicate TakesRange(s: string, sign: char) {
    |s| > 2 && s[0] == ' ' && s[1] == sign && Digit(s[2])
  }

  /** An optional line range: a space, the sign, the start and possibly a count, which is not used. */
  function TakeRange(s: string, sign: char): (Option<nat>, string) {
    if TakesRange(s, sign) then
      var n := DigitsAt(s[2..]);
      var rest := s[2 + n..];
      (Some(NumberOf(s[2..2 + n])), rest[CountLength(rest)..])
    else (None, s)
  }

  datatype Header = Header(oldStart: Option<nat>, newStart: Option<nat>)

  function ParseHeader(line: string): Option<Header>
    requires "@@" <= line
  {
    if Trim(line) == "@@" then Some(Header(None, None))
    else
      var first := TakeRange(line[2..], '-');
      var second := TakeRange(first.1, '+');
      var rest := second.1;
      if " @@" <= rest && (|rest| == 3 || (rest[3] == ' ' && OneLine(rest[4..])))
      then Some(Header(first.0, second.0)) else None
  }

  predicate IsHunkLine(line: string) {
    line != "" && (line[0] == ' ' || line[0] == '+' || line[0] == '-')
  }

  function ParseLine(line: string): HunkLine
    requires IsHunkLine(line)
  {
    if line[0] == ' ' then Context(line[1..]) else if line[0] == '+' then HunkLine.Added(line[1..]) else HunkLine.Deleted(line[1..])
  }

  function HunkOf(h: Header, ls: seq<HunkLine>): Hunk {
    Hunk(h.oldStart, h.newStart, ls)
  }

  /** The hunks of the remaining lines, when `header` and `current` have been read of the hunk at hand. */
  function HunksFrom(lines: Lines, header: Header, current: seq<HunkLine>): Result<seq<Hunk>, ParseError> {
    if lines == [] then
      if current == [] then Err(EmptyHunk) else Ok([HunkOf(header, current)])
    else if "@@" <= lines[0] then
      var h := ParseHeader(lines[0]);
      if h.None? then Err(BadHunkHeader)
      else Prepend(Finished(header, current), HunksFrom(lines[1..], h.value, []))
    else if !IsHunkLine(lines[0]) then Err(BadHunkLine)
    else HunksFrom(lines[1..], header, current + [ParseLine(lines[0])])
  }

  function ParseHunks(lines: Lines): Result<seq<Hunk>, ParseError> {
    if lines == [] then Err(NoHunks) else HunksFrom(lines, Header(None, None), [])
  }

  function Finished(header: Header, current: seq<HunkLine>): seq<Hunk> {
    if current == [] then [] else [HunkOf(header, current)]
  }

  lemma HunksStep(lines: Lines, i: nat, hunks: seq<Hunk>, header: Header, current: seq<HunkLine>)
    requires i < |lines|
    ensures var line, r := lines[i], Prepend(hunks, HunksFrom(lines[i..], header, current));
            if "@@" <= line then
              var h := ParseHeader(line);
              r == if h.None? then Err(BadHunkHeader) else Prepend(hunks + Finished(header, current), HunksFrom(lines[i + 1..], h.value, []))
            else if IsHunkLine(line) then r == Prepend(hunks, HunksFrom(lines[i + 1..], header, current + [ParseLine(line)]))
            else r == Err(BadHunkLine)
  {
    var line := lines[i];
    assert lines[i..][0] == line && lines[i..][1..] == lines[i + 1..];
    if "@@" <= line && ParseHeader(line).Some? {
      PrependPrepend(hunks, Finished(header, current), HunksFrom(lines[i + 1..], ParseHeader(line).value, []));
    }
  }

  method ParseHunkLines(lines: Lines) returns (r: Result<seq<Hunk>, ParseError>)
    ensures r == ParseHunks(lines)
  {
    if lines == [] { return Err(NoHunks); }
    var hunks, header, current := [], Header(None, None), [];
    ghost var total := HunksFrom(lines, header, current);
    assert lines[0..] == lines;
    PrependNothing(total);
    for i := 0 to |lines|
      invariant total == Prepend(hunks, HunksFrom(lines[i..], header, current))
    {
      var line := lines[i];
      HunksStep(lines, i, hunks, header, current);
      if "@@" <= line {
        var h := ParseHeader(line);
        if h.None? { return Err(BadHunkHeader); }
        if current != [] { hunks := hunks + [HunkOf(header, current)]; } else { assert hunks + [] == hunks; }
        header, current := h.value, [];
      } else {
        if !IsHunkLine(line) { return Err(BadHunkLine); }
        current := current + [ParseLine(line)];
      }
    }
    if current == [] { return Err(EmptyHunk); }
    r := Ok(hunks + [HunkOf(header, current)]);
  }

  // ---- operations ----

  /** How many lines there are before the next directive. */
  function BodyLength(lines: Lines): (n: nat)
    ensures n <= |lines|
  {
    if lines == [] || Directive(lines[0]) then 0 else 1 + BodyLength(lines[1..])
  }

  predicate AllAdditions(body: Lines) {
    forall i :: 0 <= i < |body| ==> "+" <= body[i]
  }

  function Unprefixed(body: Lines): Lines
    requires AllAdditions(body)
  {
    seq(|body|, i requires 0 <= i < |body| => body[i][1..])
  }

  function AddedContent(body: Lines): string
    requires AllAdditions(body)
  {
    if body == [] then "" else Join(Unprefixed(body)) + "\n"
  }

  datatype Taken = Taken(op: Operation, used: nat)

  function TakeAdd(lines: Lines, path: string): (r: Result<Taken, ParseError>)
    requires lines != []
    ensures r.Ok? ==> 1 <= r.value.used <= |lines|
  {
    var n := BodyLength(lines[1..]);
    var body := lines[1..n + 1];
    if AllAdditions(body) then Ok(Taken(AddFile(path, AddedContent(body)), n + 1)) else Err(NotAnAddition)
  }

  function TakeUpdate(lines: Lines, path: string): (r: Result<Taken, ParseError>)
    requires lines != []
    ensures r.Ok? ==> 1 <= r.value.used <= |lines|
  {
    var move := if |lines| > 1 then PathAfter(lines[1], MOVE_MARK) else None;
    var from := if move.Some? then 2 else 1;
    var n := BodyLength(lines[from..]);
    var hunks := ParseHunks(lines[from..from + n]);
    if hunks.Err? then Err(hunks.error) else Ok(Taken(UpdateFile(path, move, hunks.value), from + n))
  }

  /** The operation at the first line, and how many lines it takes. */
  function TakeOperation(lines: Lines): (r: Result<Taken, ParseError>)
    requires lines != []
    ensures r.Ok? ==> 1 <= r.value.used <= |lines|
  {
    var add, remove, update := PathAfter(lines[0], ADD_MARK), PathAfter(lines[0], DELETE_MARK), PathAfter(lines[0], UPDATE_MARK);
    if add.Some? then TakeAdd(lines, add.value)
    else if remove.Some? then Ok(Taken(DeleteFile(remove.value), 1))
    else if update.Some? then TakeUpdate(lines, update.value)
    else Err(Unsupported)
  }

  /** Nothing for a blank line, else the operation at the first line; and how many lines that takes. */
  function NextOps(lines: Lines): (r: Result<(seq<Operation>, nat), ParseError>)
    requires lines != []
    ensures r.Ok? ==> 1 <= r.value.1 <= |lines|
  {
    if Blank(lines[0]) then Ok(([], 1))
    else
      var taken := TakeOperation(lines);
      if taken.Err? then Err(taken.error) else Ok(([taken.value.op], taken.value.used))
  }

  function ParseOps(lines: Lines): Result<seq<Operation>, ParseError>
    decreases |lines|
  {
    if lines == [] then Ok([])
    else
      var next := NextOps(lines);
      if next.Err? then Err(next.error) else Prepend(next.value.0, ParseOps(lines[next.value.1..]))
  }

  /** The first line from `from` on that is `mark` when trimmed. */
  function FindLine(lines: Lines, from: nat, mark: string): (r: Option<nat>)
    requires from <= |lines|
    ensures r.Some? ==> from <= r.value < |lines| && Trim(lines[r.value]) == mark
    ensures r.Some? ==> forall i :: from <= i < r.value ==> Trim(lines[i]) != mark
    ensures r.None? ==> forall i :: from <= i < |lines| ==> Trim(lines[i]) != mark
    decreases |lines| - from
  {
    if from == |lines| then None else if Trim(lines[from]) == mark then Some(from) else FindLine(lines, from + 1, mark)
  }

  predicate AllBlank(lines: Lines) {
    forall i :: 0 <= i < |lines| ==> Trim(lines[i]) == ""
  }

  function ParseLines(lines: Lines): Result<seq<Operation>, ParseError> {
    var begin := FindLine(lines, 0, BEGIN_MARK);
    var end := if begin.Some? then FindLine(lines, begin.value + 1, END_MARK) else None;
    if end.None? then Err(NoEnvelope)
    else if !AllBlank(lines[..begin.value]) || !AllBlank(lines[end.value + 1..]) then Err(OutsideEnvelope)
    else
      var ops := ParseOps(lines[begin.value + 1..end.value]);
      if ops == Ok([]) then Err(NoOperation) else ops
  }

  function ParsePatch(value: string): Result<seq<Operation>, ParseError> {
    ParseLines(Split(Normalize(value)))
  }

  /** The body lines from `start` on, up to the next directive or the end. */
  method TakeBody(lines: Lines, start: nat) returns (next: nat)
    requires start <= |lines|
    ensures next == start + BodyLength(lines[start..])
  {
    next := start;
    while next < |lines| && !Directive(lines[next])
      invariant start <= next <= |lines|
      invariant start + BodyLength(lines[start..]) == next + BodyLength(lines[next..])
    {
      assert lines[next..][0] == lines[next] && lines[next..][1..] == lines[next + 1..];
      next := next + 1;
    }
  }

  lemma Slices(lines: Lines, index: nat, k: nat, n: nat)
    requires index + k + n <= |lines|
    ensures lines[index..][k..] == lines[index + k..] && lines[index..][k..k + n] == lines[index + k..index + k + n]
  {
  }

  method ReadAdd(lines: Lines, index: nat, path: string) returns (r: Result<Taken, ParseError>)
    requires index < |lines|
    ensures r == TakeAdd(lines[index..], path)
  {
    var next := TakeBody(lines, index + 1);
    Slices(lines, index, 1, next - index - 1);
    var body := lines[index + 1..next];
    r := if AllAdditions(body) then Ok(Taken(AddFile(path, AddedContent(body)), next - index)) else Err(NotAnAddition);
  }

  method ReadUpdate(lines: Lines, index: nat, path: string) returns (r: Result<Taken, ParseError>)
    requires index < |lines|
    ensures r == TakeUpdate(lines[index..], path)
  {
    var move := if index + 1 < |lines| then PathAfter(lines[index + 1], MOVE_MARK) else None;
    var start := if move.Some? then index + 2 else index + 1;
    var next := TakeBody(lines, start);
    Slices(lines, index, start - index, next - start);
    var hunks := ParseHunkLines(lines[start..next]);
    r := if hunks.Err? then Err(hunks.error) else Ok(Taken(UpdateFile(path, move, hunks.value), next - index));
  }

  /** One directive with its body. */
  method ReadOperation(lines: Lines, index: nat) returns (r: Result<Taken, ParseError>)
    requires index < |lines|
    ensures r == TakeOperation(lines[index..])
  {
    var add := PathAfter(lines[index], ADD_MARK);
    if add.Some? {
      r := ReadAdd(lines, index, add.value);
      return;
    }
    var remove := PathAfter(lines[index], DELETE_MARK);
    if remove.Some? { return Ok(Taken(DeleteFile(remove.value), 1)); }
    var update := PathAfter(lines[index], UPDATE_MARK);
    if update.None? { return Err(Unsupported); }
    r := ReadUpdate(lines, index, update.value);
  }

  lemma OpsNext(lines: Lines, index: nat, r: Result<(seq<Operation>, nat), ParseError>)
    requires index < |lines| && r == NextOps(lines[index..])
    ensures r.Err? ==> ParseOps(lines[index..]) == Err(r.error)
    ensures r.Ok? ==> 1 <= r.value.1 <= |lines| - index
    ensures r.Ok? ==> ParseOps(lines[index..]) == Prepend(r.value.0, ParseOps(lines[index + r.value.1..]))
  {
    if r.Ok? { assert lines[index..][r.value.1..] == lines[index + r.value.1..]; }
  }

  /** Nothing for a blank line, else the operation at this line; and how many lines that takes. */
  method ReadNext(lines: Lines, index: nat) returns (r: Result<(seq<Operation>, nat), ParseError>)
    requires index < |lines|
    ensures r == NextOps(lines[index..])
  {
    if Blank(lines[index]) { return Ok(([], 1)); }
    var taken := ReadOperation(lines, index);
    r := if taken.Err? then Err(taken.error) else Ok(([taken.value.op], taken.value.used));
  }

  /** What is left to parse is what stands at this line, and the rest. */
  method Advance(lines: Lines, index: nat) returns (r: Result<(seq<Operation>, nat), ParseError>)
    requires index < |lines|
    ensures r.Err? ==> ParseOps(lines[index..]) == Err(r.error)
    ensures r.Ok? ==> 1 <= r.value.1 <= |lines| - index
    ensures r.Ok? ==> ParseOps(lines[index..]) == Prepend(r.value.0, ParseOps(lines[index + r.value.1..]))
  {
    r := ReadNext(lines, index);
    OpsNext(lines, index, r);
  }

  /** The source's index loop over the lines between the marks. */
  method ReadOperations(lines: Lines) returns (r: Result<seq<Operation>, ParseError>)
    ensures r == ParseOps(lines)
  {
    var ops, index := [], 0;
    ghost var total := ParseOps(lines);
    assert lines[0..] == lines;
    PrependNothing(total);
    while index < |lines|
      invariant 0 <= index <= |lines|
      invariant total == Prepend(ops, ParseOps(lines[index..]))
    {
      var next := Advance(lines, index);
      if next.Err? { return Err(next.error); }
      PrependPrepend(ops, next.value.0, ParseOps(lines[index + next.value.1..]));
      ops, index := ops + next.value.0, index + next.value.1;
    }
    assert lines[index..] == [];
    PrependEnd(ops);
    r := Ok(ops);
  }

  lemma PrependEnd(ops: seq<Operation>)
    ensures Prepend(ops, ParseOps([])) == Ok(ops)
  {
    assert ops + [] == ops;
  }

  method ParsePatchText(value: string) returns (r: Result<seq<Operation>, ParseError>)
    ensures r == ParsePatch(value)
  {
    r := ParseLineArray(Split(Normalize(value)));
  }

  /** The envelope, and the operations between its marks. */
  method ParseLineArray(lines: Lines) returns (r: Result<seq<Operation>, ParseError>)
    ensures r == ParseLines(lines)
  {
    var begin := FindLine(lines, 0, BEGIN_MARK);
    if begin.None? { return Err(NoEnvelope); }
    var end := FindLine(lines, begin.value + 1, END_MARK);
    if end.None? { return Err(NoEnvelope); }
    if !AllBlank(lines[..begin.value]) || !AllBlank(lines[end.value + 1..]) { return Err(OutsideEnvelope); }
    r := ReadOperations(lines[begin.value + 1..end.value]);
    if r == Ok([]) { return Err(NoOperation); }
  }

  // ---- writing operations as patch text ----

  function DigitOf(d: nat): char
    requires d < 10
  {
    ('0' as int + d) as char
  }

  function Decimal(n: nat): (s: string)
    ensures s != "" && forall i :: 0 <= i < |s| ==> Digit(s[i])
  {
    if n < 10 then [DigitOf(n)] else Decimal(n / 10) + [DigitOf(n % 10)]
  }

  function RenderRange(start: Option<nat>, sign: char): string {
    if start.None? then "" else " " + [sign] + Decimal(start.value)
  }

  function RenderHeader(h: Header): string {
    if h == Header(None, None) then "@@" else "@@" + RenderRange(h.oldStart, '-') + RenderRange(h.newStart, '+') + " @@"
  }

  function RenderLine(l: HunkLine): string {
    match l
    case Context(text) => " " + text
    case Added(text) => "+" + text
    case Deleted(text) => "-" + text
  }

  function RenderLines(ls: seq<HunkLine>): Lines {
    seq(|ls|, i requires 0 <= i < |ls| => RenderLine(ls[i]))
  }

  function RenderHunks(hunks: seq<Hunk>): Lines {
    if hunks == [] then []
    else [RenderHeader(Header(hunks[0].oldStart, hunks[0].newStart))] + RenderLines(hunks[0].lines) + RenderHunks(hunks[1..])
  }

  function ContentLines(content: string): Lines {
    if content == "" then [] else Split(content[..|content| - 1])
  }

  function Prefixed(body: Lines): Lines {
    seq(|body|, i requires 0 <= i < |body| => "+" + body[i])
  }

  function RenderOp(op: Operation): Lines {
    match op
    case AddFile(path, content) => [ADD_MARK + " " + path] + Prefixed(ContentLines(content))
    case DeleteFile(path) => [DELETE_MARK + " " + path]
    case UpdateFile(path, moveTo, hunks) =>
      [UPDATE_MARK + " " + path] + (if moveTo.Some? then [MOVE_MARK + " " + moveTo.value] else []) + RenderHunks(hunks)
  }

  function RenderOps(ops: seq<Operation>): Lines {
    if ops == [] then [] else RenderOp(ops[0]) + RenderOps(ops[1..])
  }

  function Render(ops: seq<Operation>): string {
    Join([BEGIN_MARK] + RenderOps(ops) + [END_MARK])
  }

  // ---- what can be written ----

  predicate CleanPath(path: string) {
    path != "" && !IsSpace(path[0]) && !IsSpace(path[|path| - 1]) && OneLine(path)
  }

  ghost predicate Writable(op: Operation) {
    && CleanPath(op.path)
    && (op.AddFile? ==> op.content == "" || (EndsLine(op.content) && '\r' !in op.content))
    && (op.UpdateFile? ==>
          && (op.moveTo.Some? ==> CleanPath(op.moveTo.value))
          && op.hunks != [] && CleanHunks(op.hunks) && forall i :: 0 <= i < |op.hunks| ==> op.hunks[i].lines != [])
  }

  ghost predicate AllWritable(ops: seq<Operation>) {
    forall i :: 0 <= i < |ops| ==> Writable(ops[i])
  }

  // ---- headers are read back ----

  lemma {:induction false} DecimalReads(n: nat)
    ensures NumberOf(Decimal(n)) == n
  {
    if n >= 10 {
      DecimalReads(n / 10);
      var s := Decimal(n);
      assert s[..|s| - 1] == Decimal(n / 10) && s[|s| - 1] == DigitOf(n % 10);
    } else {
      assert Decimal(n)[..0] == "";
    }
  }

  lemma {:induction false} DigitsStop(s: string, rest: string)
    requires (forall i :: 0 <= i < |s| ==> Digit(s[i])) && (rest == "" || !Digit(rest[0]))
    ensures DigitsAt(s + rest) == |s|
  {
    if s != "" {
      assert (s + rest)[1..] == s[1..] + rest;
      DigitsStop(s[1..], rest);
    } else {
      assert s + rest == rest;
    }
  }

  lemma RangeReads(start: Option<nat>, sign: char, rest: string)
    requires rest != "" && rest[0] == ' ' && (start.None? ==> |rest| > 1 && rest[1] != sign)
    ensures TakeRange(RenderRange(start, sign) + rest, sign) == (start, rest)
  {
    if start.None? {
      assert "" + rest == rest;
    } else {
      var d := Decimal(start.value);
      var s := RenderRange(start, sign) + rest;
      assert s == " " + [sign] + d + rest;
      assert s[2..] == d + rest;
      DigitsStop(d, rest);
      assert s[2] == d[0];
      assert s[2..2 + |d|] == d && s[2 + |d|..] == rest;
      DecimalReads(start.value);
    }
  }

  lemma RangesRead(h: Header)
    ensures var line := RenderRange(h.oldStart, '-') + (RenderRange(h.newStart, '+') + " @@");
            && TakeRange(line, '-') == (h.oldStart, RenderRange(h.newStart, '+') + " @@")
            && TakeRange(RenderRange(h.newStart, '+') + " @@", '+') == (h.newStart, " @@")
  {
    RangeReads(h.oldStart, '-', RenderRange(h.newStart, '+') + " @@");
    RangeReads(h.newStart, '+', " @@");
  }

  lemma HeaderReads(h: Header)
    ensures "@@" <= RenderHeader(h) && ParseHeader(RenderHeader(h)) == Some(h)
  {
    var line := RenderHeader(h);
    if h == Header(None, None) {
      TrimKeeps(line);
    } else {
      var ranges := RenderRange(h.oldStart, '-') + (RenderRange(h.newStart, '+') + " @@");
      assert line == "@@" + ranges && line[2..] == ranges;
      assert |line| > 2 && line[0] == '@' && line[|line| - 1] == '@';
      TrimKeeps(line);
      RangesRead(h);
    }
  }

  // ---- hunks are read back ----

  lemma {:induction false} HunkLinesRead(ls: seq<HunkLine>, rest: Lines, header: Header, current: seq<HunkLine>)
    ensures HunksFrom(RenderLines(ls) + rest, header, current) == HunksFrom(rest, header, current + ls)
  {
    if ls == [] {
      assert RenderLines(ls) + rest == rest && current + ls == current;
    } else {
      var lines := RenderLines(ls) + rest;
      var line := RenderLine(ls[0]);
      assert line[1..] == ls[0].text;
      assert lines[0] == line && lines[1..] == RenderLines(ls[1..]) + rest;
      assert ParseLine(line) == ls[0];
      HunkLinesRead(ls[1..], rest, header, current + [ls[0]]);
      assert current + [ls[0]] + ls[1..] == current + ls;
    }
  }

  lemma HeaderLineRead(own: Header, tail: Lines, header: Header, current: seq<HunkLine>)
    ensures HunksFrom([RenderHeader(own)] + tail, header, current) == Prepend(Finished(header, current), HunksFrom(tail, own, []))
  {
    HeaderReads(own);
    assert ([RenderHeader(own)] + tail)[1..] == tail;
  }

  lemma {:induction false} HunksRead(hunks: seq<Hunk>, header: Header, current: seq<HunkLine>)
    requires forall i :: 0 <= i < |hunks| ==> hunks[i].lines != []
    requires hunks != [] || current != []
    ensures HunksFrom(RenderHunks(hunks), header, current) == Ok(Finished(header, current) + hunks)
    decreases |hunks|
  {
    if hunks == [] {
      assert Finished(header, current) + [] == Finished(header, current);
    } else {
      var h, rest := hunks[0], hunks[1..];
      var own := Header(h.oldStart, h.newStart);
      var tail := RenderLines(h.lines) + RenderHunks(rest);
      assert RenderHunks(hunks) == [RenderHeader(own)] + tail;
      HeaderLineRead(own, tail, header, current);
      HunkLinesRead(h.lines, RenderHunks(rest), own, []);
      assert [] + h.lines == h.lines;
      HunksRead(rest, own, h.lines);
      assert Finished(own, h.lines) == [h] && [h] + rest == hunks;
    }
  }

  // ---- operations are read back ----

  /** What may stand behind an operation: nothing, or the next directive. */
  predicate EndsBody(rest: Lines) {
    rest == [] || Directive(rest[0])
  }

  /** No line of a body is a directive, so a body ends where the next operation starts. */
  lemma {:induction false} BodyEnds(body: Lines, rest: Lines)
    requires NoDirectives(body) && EndsBody(rest)
    ensures BodyLength(body + rest) == |body|
  {
    if body == [] {
      assert body + rest == rest;
    } else {
      assert (body + rest)[1..] == body[1..] + rest;
      BodyEnds(body[1..], rest);
    }
  }

  lemma PathReads(mark: string, path: string)
    requires CleanPath(path)
    ensures PathAfter(mark + " " + path, mark) == Some(path)
  {
    var rest := " " + path;
    assert (mark + " " + path)[|mark|..] == rest;
    assert rest[1..] == path;
    TrimKeeps(path);
    assert Trim(rest) == Trim(rest[1..]);
  }

  ghost predicate NoDirectives(lines: Lines) {
    forall i :: 0 <= i < |lines| ==> !Directive(lines[i])
  }

  lemma LinesAreNoDirectives(ls: seq<HunkLine>)
    ensures NoDirectives(RenderLines(ls))
  {
    forall i | 0 <= i < |ls| ensures !Directive(RenderLines(ls)[i]) {
      assert RenderLines(ls)[i][0] != '*';
    }
  }

  lemma HeaderIsNoDirective(h: Header)
    ensures !Directive(RenderHeader(h))
  {
    HeaderReads(h);
    assert RenderHeader(h)[0] == '@';
  }

  lemma NoDirectivesAppend(a: Lines, b: Lines)
    requires NoDirectives(a) && NoDirectives(b)
    ensures NoDirectives(a + b)
  {
  }

  lemma {:induction false} HunksAreNoDirectives(hunks: seq<Hunk>)
    ensures NoDirectives(RenderHunks(hunks))
  {
    if hunks != [] {
      var header := Header(hunks[0].oldStart, hunks[0].newStart);
      HunksAreNoDirectives(hunks[1..]);
      LinesAreNoDirectives(hunks[0].lines);
      HeaderIsNoDirective(header);
      NoDirectivesAppend([RenderHeader(header)], RenderLines(hunks[0].lines));
      NoDirectivesAppend([RenderHeader(header)] + RenderLines(hunks[0].lines), RenderHunks(hunks[1..]));
    }
  }

  lemma ContentReads(content: string)
    requires content == "" || (EndsLine(content) && '\r' !in content)
    ensures AllAdditions(Prefixed(ContentLines(content))) && AddedContent(Prefixed(ContentLines(content))) == content
  {
    var body := ContentLines(content);
    assert Unprefixed(Prefixed(body)) == body;
    if content != "" {
      JoinSplit(content[..|content| - 1]);
      assert [content[|content| - 1]] == "\n";
    }
  }

  /** An added file counts one line for each of its addition lines. */
  lemma AddedLinesCounted(body: Lines)
    requires AllAdditions(body) && AllClean(body)
    ensures CountLines(AddedContent(body)) == |body|
  {
    var lines := Unprefixed(body);
    forall i | 0 <= i < |lines| ensures Clean(lines[i]) {
      assert Clean(body[i]);
    }
    if body != [] {
      CountSaved(lines, Loaded([], true, true));
      assert AddedContent(body) == Save(lines, Loaded([], true, true));
    }
  }

  /** A path of one mark is not one of another. */
  lemma MarksDiffer(line: string)
    ensures ADD_MARK <= line ==> !(DELETE_MARK <= line) && !(UPDATE_MARK <= line) && !(MOVE_MARK <= line)
    ensures DELETE_MARK <= line ==> !(UPDATE_MARK <= line) && !(MOVE_MARK <= line)
    ensures UPDATE_MARK <= line ==> !(MOVE_MARK <= line)
  {
    assert ADD_MARK[4] == 'A' && DELETE_MARK[4] == 'D' && UPDATE_MARK[4] == 'U' && MOVE_MARK[4] == 'M';
  }

  lemma AddTaken(first: string, path: string, body: Lines, rest: Lines)
    requires PathAfter(first, ADD_MARK) == Some(path) && AllAdditions(body) && BodyLength(body + rest) == |body|
    ensures TakeOperation([first] + body + rest) == Ok(Taken(AddFile(path, AddedContent(body)), |body| + 1))
  {
    var lines := [first] + body + rest;
    assert lines[0] == first && lines[1..] == body + rest && lines[1..|body| + 1] == body;
    assert TakeOperation(lines) == TakeAdd(lines, path);
  }

  lemma AddReads(path: string, content: string, rest: Lines)
    requires Writable(AddFile(path, content)) && EndsBody(rest)
    ensures var op := AddFile(path, content); TakeOperation(RenderOp(op) + rest) == Ok(Taken(op, |RenderOp(op)|))
  {
    var body := Prefixed(ContentLines(content));
    PathReads(ADD_MARK, path);
    forall i | 0 <= i < |body| ensures !Directive(body[i]) {
      assert body[i][0] == '+';
    }
    BodyEnds(body, rest);
    ContentReads(content);
    AddTaken(ADD_MARK + " " + path, path, body, rest);
  }

  lemma DeleteReads(path: string, rest: Lines)
    requires Writable(DeleteFile(path)) && EndsBody(rest)
    ensures var op := DeleteFile(path); TakeOperation(RenderOp(op) + rest) == Ok(Taken(op, |RenderOp(op)|))
  {
    var line := DELETE_MARK + " " + path;
    assert (RenderOp(DeleteFile(path)) + rest)[0] == line;
    PathReads(DELETE_MARK, path);
    MarksDiffer(line);
  }

  lemma UpdateTaken(first: string, path: string, body: Lines, rest: Lines)
    requires PathAfter(first, UPDATE_MARK) == Some(path) && UPDATE_MARK <= first
    requires body != [] && PathAfter(body[0], MOVE_MARK).None? && BodyLength(body + rest) == |body|
    ensures TakeOperation([first] + body + rest)
            == var hunks := ParseHunks(body); if hunks.Err? then Err(hunks.error) else Ok(Taken(UpdateFile(path, None, hunks.value), |body| + 1))
  {
    var lines := [first] + body + rest;
    assert lines[0] == first && lines[1] == body[0] && lines[1..] == body + rest && lines[1..1 + |body|] == body;
    MarksDiffer(first);
    assert TakeOperation(lines) == TakeUpdate(lines, path);
  }

  lemma MoveTaken(first: string, path: string, second: string, to: string, body: Lines, rest: Lines)
    requires PathAfter(first, UPDATE_MARK) == Some(path) && UPDATE_MARK <= first
    requires PathAfter(second, MOVE_MARK) == Some(to) && BodyLength(body + rest) == |body|
    ensures TakeOperation([first] + [second] + body + rest)
            == var hunks := ParseHunks(body); if hunks.Err? then Err(hunks.error) else Ok(Taken(UpdateFile(path, Some(to), hunks.value), |body| + 2))
  {
    var lines := [first] + [second] + body + rest;
    assert lines[0] == first && lines[1] == second && lines[2..] == body + rest && lines[2..2 + |body|] == body;
    MarksDiffer(first);
    assert TakeOperation(lines) == TakeUpdate(lines, path);
  }

  lemma UpdateBody(hunks: seq<Hunk>, rest: Lines)
    requires hunks != [] && (forall i :: 0 <= i < |hunks| ==> hunks[i].lines != []) && EndsBody(rest)
    ensures var body := RenderHunks(hunks);
            body != [] && ParseHunks(body) == Ok(hunks) && BodyLength(body + rest) == |body| && PathAfter(body[0], MOVE_MARK).None?
  {
    var body := RenderHunks(hunks);
    HunksRead(hunks, Header(None, None), []);
    assert [] + hunks == hunks;
    HunksAreNoDirectives(hunks);
    assert "*** " <= MOVE_MARK && !Directive(body[0]);
    BodyEnds(body, rest);
  }

  /** The operation at the start of these lines is read and takes the lines up to `rest`. */
  ghost predicate ReadAs(op: Operation, lines: Lines, rest: Lines) {
    lines != [] && TakeOperation(lines + rest) == Ok(Taken(op, |lines|))
  }

  lemma UpdateReads(path: string, moveTo: Option<string>, hunks: seq<Hunk>, rest: Lines)
    requires Writable(UpdateFile(path, moveTo, hunks)) && EndsBody(rest)
    ensures ReadAs(UpdateFile(path, moveTo, hunks), RenderOp(UpdateFile(path, moveTo, hunks)), rest)
  {
    PathReads(UPDATE_MARK, path);
    UpdateBody(hunks, rest);
    UpdateRead(path, moveTo, hunks, RenderHunks(hunks), rest);
  }

  lemma UpdateRead(path: string, moveTo: Option<string>, hunks: seq<Hunk>, body: Lines, rest: Lines)
    requires PathAfter(UPDATE_MARK + " " + path, UPDATE_MARK) == Some(path) && (moveTo.Some? ==> CleanPath(moveTo.value))
    requires body != [] && PathAfter(body[0], MOVE_MARK).None? && ParseHunks(body) == Ok(hunks) && BodyLength(body + rest) == |body|
    ensures ReadAs(UpdateFile(path, moveTo, hunks),
                   [UPDATE_MARK + " " + path] + (if moveTo.Some? then [MOVE_MARK + " " + moveTo.value] else []) + body, rest)
  {
    if moveTo.Some? {
      PathReads(MOVE_MARK, moveTo.value);
      MovedReads(path, moveTo.value, hunks, body, rest);
    } else {
      UnmovedReads(path, hunks, body, rest);
    }
  }

  lemma MovedReads(path: string, to: string, hunks: seq<Hunk>, body: Lines, rest: Lines)
    requires PathAfter(UPDATE_MARK + " " + path, UPDATE_MARK) == Some(path) && PathAfter(MOVE_MARK + " " + to, MOVE_MARK) == Some(to)
    requires ParseHunks(body) == Ok(hunks) && BodyLength(body + rest) == |body|
    ensures TakeOperation([UPDATE_MARK + " " + path] + [MOVE_MARK + " " + to] + body + rest)
            == Ok(Taken(UpdateFile(path, Some(to), hunks), |body| + 2))
  {
    MoveTaken(UPDATE_MARK + " " + path, path, MOVE_MARK + " " + to, to, body, rest);
  }

  lemma UnmovedReads(path: string, hunks: seq<Hunk>, body: Lines, rest: Lines)
    requires PathAfter(UPDATE_MARK + " " + path, UPDATE_MARK) == Some(path)
    requires body != [] && PathAfter(body[0], MOVE_MARK).None? && ParseHunks(body) == Ok(hunks) && BodyLength(body + rest) == |body|
    ensures TakeOperation([UPDATE_MARK + " " + path] + [] + body + rest) == Ok(Taken(UpdateFile(path, None, hunks), |body| + 1))
  {
    var first := UPDATE_MARK + " " + path;
    UpdateTaken(first, path, body, rest);
    assert [first] + [] == [first];
  }

  lemma {:induction false} OpsRead(ops: seq<Operation>)
    requires AllWritable(ops)
    ensures EndsBody(RenderOps(ops))
    ensures ParseOps(RenderOps(ops)) == Ok(ops)
    decreases |ops|
  {
    if ops != [] {
      var op, rest := ops[0], RenderOps(ops[1..]);
      assert Writable(op);
      OpsRead(ops[1..]);
      var lines := RenderOps(ops);
      OpReads(op, rest);
      assert lines[|RenderOp(op)|..] == rest;
      assert ParseOps(lines) == Prepend([op], ParseOps(rest));
      assert [op] + ops[1..] == ops;
    }
  }

  lemma OpReads(op: Operation, rest: Lines)
    requires Writable(op) && EndsBody(rest)
    ensures TakeOperation(RenderOp(op) + rest) == Ok(Taken(op, |RenderOp(op)|))
    ensures Directive(RenderOp(op)[0]) && !Blank(RenderOp(op)[0]) && (RenderOp(op) + rest)[0] == RenderOp(op)[0]
  {
    if op.AddFile? {
      AddReads(op.path, op.content, rest);
    } else if op.DeleteFile? {
      DeleteReads(op.path, rest);
    } else {
      UpdateReads(op.path, op.moveTo, op.hunks, rest);
    }
    var line := RenderOp(op)[0];
    assert "*** " <= ADD_MARK && "*** " <= DELETE_MARK && "*** " <= UPDATE_MARK;
    assert Directive(line);
    assert line[0] == '*' && !IsSpace(line[0]);
  }

  // ---- the envelope ----

  ghost predicate MarksEnd(lines: Lines) {
    exists i :: 0 <= i < |lines| && Trim(lines[i]) == END_MARK
  }

  /** A context line that reads like the end of the patch. */
  predicate LineHides(l: HunkLine) {
    l.Context? && Trim(l.text) == END_MARK
  }

  ghost predicate HunkHides(h: Hunk) {
    exists k :: 0 <= k < |h.lines| && LineHides(h.lines[k])
  }

  ghost predicate OpHides(op: Operation) {
    op.UpdateFile? && exists j :: 0 <= j < |op.hunks| && HunkHides(op.hunks[j])
  }

  ghost predicate Hides(ops: seq<Operation>) {
    exists i :: 0 <= i < |ops| && OpHides(ops[i])
  }

  lemma MarksAppend(a: Lines, b: Lines)
    ensures MarksEnd(a + b) <==> MarksEnd(a) || MarksEnd(b)
  {
    assert forall i :: 0 <= i < |a| ==> (a + b)[i] == a[i];
    assert forall i :: 0 <= i < |b| ==> (a + b)[|a| + i] == b[i];
  }

  lemma MarksOne(line: string)
    ensures MarksEnd([line]) <==> Trim(line) == END_MARK
  {
    assert [line][0] == line;
  }

  lemma {:induction false} TrimHead(s: string)
    requires s != "" && !IsSpace(s[0])
    ensures Trim(s) != "" && Trim(s)[0] == s[0]
    decreases |s|
  {
    if IsSpace(s[|s| - 1]) { TrimHead(s[..|s| - 1]); }
  }

  lemma LineMarks(l: HunkLine)
    ensures Trim(RenderLine(l)) == END_MARK <==> LineHides(l)
  {
    var line := RenderLine(l);
    assert line[1..] == l.text;
    if !l.Context? { TrimHead(line); }
  }

  lemma PathMarks(mark: string, path: string)
    requires CleanPath(path) && (mark == ADD_MARK || mark == DELETE_MARK || mark == UPDATE_MARK || mark == MOVE_MARK)
    ensures Trim(mark + " " + path) != END_MARK
  {
    var line := mark + " " + path;
    assert ADD_MARK[4] == 'A' && DELETE_MARK[4] == 'D' && UPDATE_MARK[4] == 'U' && MOVE_MARK[4] == 'M' && END_MARK[4] == 'E';
    assert line[0] == '*' && line[4] == mark[4] && line[|line| - 1] == path[|path| - 1];
    TrimKeeps(line);
  }

  lemma HunkMarks(h: Hunk)
    ensures MarksEnd(RenderLines(h.lines)) <==> HunkHides(h)
    ensures !MarksEnd([RenderHeader(Header(h.oldStart, h.newStart))])
  {
    forall k | 0 <= k < |h.lines| ensures Trim(RenderLines(h.lines)[k]) == END_MARK <==> LineHides(h.lines[k]) {
      LineMarks(h.lines[k]);
    }
    var line := RenderHeader(Header(h.oldStart, h.newStart));
    HeaderReads(Header(h.oldStart, h.newStart));
    TrimHead(line);
    MarksOne(line);
  }

  lemma {:induction false} HunksMark(hunks: seq<Hunk>)
    ensures MarksEnd(RenderHunks(hunks)) <==> exists j :: 0 <= j < |hunks| && HunkHides(hunks[j])
  {
    if hunks != [] {
      var header, ls, rest := RenderHeader(Header(hunks[0].oldStart, hunks[0].newStart)), RenderLines(hunks[0].lines), RenderHunks(hunks[1..]);
      HunkMarks(hunks[0]);
      HunksMark(hunks[1..]);
      MarksAppend([header], ls);
      MarksAppend([header] + ls, rest);
      assert forall j :: 0 <= j < |hunks| - 1 ==> hunks[1..][j] == hunks[j + 1];
      assert forall j :: 0 < j < |hunks| ==> hunks[j] == hunks[1..][j - 1];
    }
  }

  lemma AddMarks(path: string, content: string)
    requires Writable(AddFile(path, content))
    ensures !MarksEnd(RenderOp(AddFile(path, content)))
  {
    var body := Prefixed(ContentLines(content));
    PathMarks(ADD_MARK, path);
    MarksOne(ADD_MARK + " " + path);
    forall i | 0 <= i < |body| ensures Trim(body[i]) != END_MARK {
      assert body[i][0] == '+';
      TrimHead(body[i]);
    }
    MarksAppend([ADD_MARK + " " + path], body);
  }

  lemma OpMarks(op: Operation)
    requires Writable(op)
    ensures MarksEnd(RenderOp(op)) <==> OpHides(op)
  {
    if op.AddFile? {
      AddMarks(op.path, op.content);
    } else if op.DeleteFile? {
      PathMarks(DELETE_MARK, op.path);
      MarksOne(DELETE_MARK + " " + op.path);
    } else {
      PathMarks(UPDATE_MARK, op.path);
      MarksOne(UPDATE_MARK + " " + op.path);
      var first, move := [UPDATE_MARK + " " + op.path], if op.moveTo.Some? then [MOVE_MARK + " " + op.moveTo.value] else [];
      if op.moveTo.Some? {
        PathMarks(MOVE_MARK, op.moveTo.value);
        MarksOne(MOVE_MARK + " " + op.moveTo.value);
      }
      MarksAppend(first, move);
      MarksAppend(first + move, RenderHunks(op.hunks));
      HunksMark(op.hunks);
    }
  }

  lemma {:induction false} OpsMark(ops: seq<Operation>)
    requires AllWritable(ops)
    ensures MarksEnd(RenderOps(ops)) <==> Hides(ops)
  {
    if ops != [] {
      assert Writable(ops[0]);
      OpMarks(ops[0]);
      OpsMark(ops[1..]);
      MarksAppend(RenderOp(ops[0]), RenderOps(ops[1..]));
      assert forall i :: 0 <= i < |ops| - 1 ==> ops[1..][i] == ops[i + 1];
      assert forall i :: 0 < i < |ops| ==> ops[i] == ops[1..][i - 1];
    }
  }

  // ---- the text holds the lines ----

  lemma CleanDigits(s: string)
    requires forall i :: 0 <= i < |s| ==> Digit(s[i])
    ensures Clean(s)
  {
  }

  lemma HeaderClean(h: Header)
    ensures Clean(RenderHeader(h))
  {
    if h.oldStart.Some? { CleanDigits(Decimal(h.oldStart.value)); }
    if h.newStart.Some? { CleanDigits(Decimal(h.newStart.value)); }
    assert Clean(RenderRange(h.oldStart, '-')) && Clean(RenderRange(h.newStart, '+'));
  }

  lemma {:induction false} HunksClean(hunks: seq<Hunk>)
    requires CleanHunks(hunks)
    ensures AllClean(RenderHunks(hunks))
  {
    if hunks != [] {
      HunksClean(hunks[1..]);
      HeaderClean(Header(hunks[0].oldStart, hunks[0].newStart));
      var ls := hunks[0].lines;
      forall i | 0 <= i < |ls| ensures Clean(RenderLines(ls)[i]) {
        assert Clean(ls[i].text);
      }
    }
  }

  lemma PathClean(mark: string, path: string)
    requires CleanPath(path) && Clean(mark)
    ensures Clean(mark + " " + path)
  {
  }

  lemma EnvelopeMarksClean()
    ensures Clean(BEGIN_MARK) && Clean(END_MARK)
  {
  }

  lemma MarksClean()
    ensures Clean(ADD_MARK) && Clean(DELETE_MARK) && Clean(UPDATE_MARK) && Clean(MOVE_MARK) && Clean(BEGIN_MARK) && Clean(END_MARK)
  {
    EnvelopeMarksClean();
  }

  lemma PrefixedClean(body: Lines)
    requires AllClean(body)
    ensures AllClean(Prefixed(body))
  {
    forall i | 0 <= i < |body| ensures Clean(Prefixed(body)[i]) {
      assert Clean(body[i]);
    }
  }

  lemma Concatenated(a: Lines, b: Lines)
    requires AllClean(a) && AllClean(b)
    ensures AllClean(a + b)
  {
  }

  lemma OpClean(op: Operation)
    requires Writable(op)
    ensures AllClean(RenderOp(op))
  {
    MarksClean();
    if op.AddFile? {
      PathClean(ADD_MARK, op.path);
      PrefixedClean(ContentLines(op.content));
      Concatenated([ADD_MARK + " " + op.path], Prefixed(ContentLines(op.content)));
    } else if op.DeleteFile? {
      PathClean(DELETE_MARK, op.path);
    } else {
      var first, move := [UPDATE_MARK + " " + op.path], if op.moveTo.Some? then [MOVE_MARK + " " + op.moveTo.value] else [];
      PathClean(UPDATE_MARK, op.path);
      if op.moveTo.Some? { PathClean(MOVE_MARK, op.moveTo.value); }
      HunksClean(op.hunks);
      Concatenated(first, move);
      Concatenated(first + move, RenderHunks(op.hunks));
    }
  }

  lemma {:induction false} OpsClean(ops: seq<Operation>)
    requires AllWritable(ops)
    ensures AllClean(RenderOps(ops))
  {
    if ops != [] {
      assert Writable(ops[0]);
      OpClean(ops[0]);
      OpsClean(ops[1..]);
    }
  }

  lemma TextHoldsLines(lines: Lines)
    requires lines != [] && AllClean(lines)
    ensures ParsePatch(Join(lines)) == ParseLines(lines)
  {
    JoinEnds(lines);
    SplitJoin(lines);
  }

  /** Where the marks of an envelope are found. */
  lemma EnvelopeFound(lines: Lines, middle: Lines, begin: string, end: string)
    requires lines == [begin] + middle + [end] && Trim(begin) == begin && Trim(end) == end
    ensures FindLine(lines, 0, begin) == Some(0) && FindLine(lines, 1, end).Some?
    ensures (exists i :: 0 <= i < |middle| && Trim(middle[i]) == end) ==> FindLine(lines, 1, end).value <= |middle|
    ensures !(exists i :: 0 <= i < |middle| && Trim(middle[i]) == end) ==> FindLine(lines, 1, end) == Some(|middle| + 1)
  {
    assert lines[0] == begin && lines[|middle| + 1] == end;
    forall i | 0 <= i < |middle| ensures lines[i + 1] == middle[i] {
    }
    if i :| 0 <= i < |middle| && Trim(middle[i]) == end { assert Trim(lines[i + 1]) == end; }
    var k := FindLine(lines, 1, end).value;
    if k <= |middle| { assert Trim(middle[k - 1]) == end; }
  }

  lemma EndLeftOver(lines: Lines, k: nat, end: string)
    requires k < |lines| - 1 && lines[|lines| - 1] == end && Trim(end) != ""
    ensures !AllBlank(lines[k + 1..])
  {
    var after := lines[k + 1..];
    assert after[|after| - 1] == end;
  }

  lemma EnvelopeReads(middle: Lines)
    ensures var lines := [BEGIN_MARK] + middle + [END_MARK];
            if MarksEnd(middle) then ParseLines(lines) == Err(OutsideEnvelope)
            else ParseLines(lines) == if ParseOps(middle) == Ok([]) then Err(NoOperation) else ParseOps(middle)
  {
    TrimKeeps(BEGIN_MARK);
    TrimKeeps(END_MARK);
    EnvelopeParsed([BEGIN_MARK] + middle + [END_MARK], middle);
  }

  lemma EnvelopeParsed(lines: Lines, middle: Lines)
    requires lines == [BEGIN_MARK] + middle + [END_MARK] && Trim(BEGIN_MARK) == BEGIN_MARK && Trim(END_MARK) == END_MARK
    ensures if MarksEnd(middle) then ParseLines(lines) == Err(OutsideEnvelope)
            else ParseLines(lines) == if ParseOps(middle) == Ok([]) then Err(NoOperation) else ParseOps(middle)
  {
    EnvelopeFound(lines, middle, BEGIN_MARK, END_MARK);
    if MarksEnd(middle) {
      EndLeftOver(lines, FindLine(lines, 1, END_MARK).value, END_MARK);
    } else {
      assert lines[1..|middle| + 1] == middle && lines[|middle| + 2..] == [];
    }
  }

  /**
   Operations written as a patch are read back exactly, unless a context line of an update reads like the end of the
   patch when trimmed: then the patch ends there, and the rest is refused as lying outside it.
   */
  lemma RenderedPatchReads(ops: seq<Operation>)
    requires ops != [] && AllWritable(ops)
    ensures ParsePatch(Render(ops)) == if Hides(ops) then Err(OutsideEnvelope) else Ok(ops)
  {
    var middle := RenderOps(ops);
    MarksClean();
    OpsClean(ops);
    Concatenated([BEGIN_MARK], middle);
    Concatenated([BEGIN_MARK] + middle, [END_MARK]);
    TextHoldsLines([BEGIN_MARK] + middle + [END_MARK]);
    OpsMark(ops);
    OpsRead(ops);
    EnvelopeReads(middle);
  }
}
