/** Written archives as files: what a line reader makes of their text. */
module ArchiveOnDisk {
  import opened Common
  import opened ArchiveValue
  import opened ArchiveValidator
  import opened ArchiveFile
  import opened ArchiveText
  import opened ArchiveWriter
  import opened ArchiveRoundTrip
  import opened Text
  import opened Sorting

  /** The text is JSON of a record. */
  ghost predicate RecordText(text: string, f: Formats) {
    exists v: Value :: Plain(v) && Representable(v) && v.Obj? && text == f.json(v)
  }

  lemma RecordIsDelimited(text: string, f: Formats)
    requires Lawful(f) && RecordText(text, f)
    ensures Delimited(text, f) && Clean(text) && !Blank(text)
  {
    var v :| Plain(v) && Representable(v) && v.Obj? && text == f.json(v);
    assert f.readJson(f.json(v)) == Some(v);
  }

  lemma WritableIsRecordText(v: Value, f: Formats)
    requires Writable(v) && v.Obj?
    ensures RecordText(LineText(v, f), f)
  {
    EncodeWorks(v, f);
    EncodingKeepsShape(v, f);
    assert LineText(v, f) == f.json(Encode(v, f).value);
  }

  /** The lines in front of the manifest. */
  function FrontLines(header: Header, rows: seq<Row>, f: Formats): seq<string> {
    [LineText(HeaderValue(header), f)] + RowLines(rows, f)
  }

  lemma FrontIsRecords(header: Header, rows: seq<Row>, f: Formats)
    requires RowsTaken(rows)
    ensures forall i :: 0 <= i < |FrontLines(header, rows, f)| ==> RecordText(FrontLines(header, rows, f)[i], f)
  {
    HeaderWritable(header);
    WritableIsRecordText(HeaderValue(header), f);
    forall i | 0 <= i < |rows| ensures RecordText(RowLines(rows, f)[i], f) {
      assert Taken(rows[i]);
      TakenIsReceived(rows[i], f);
      SentIsWrapped(rows[i], f);
      assert Sent(rows[i], f).Obj? && RowLines(rows, f)[i] == f.json(Sent(rows[i], f));
    }
  }

  lemma ArchiveIsRecords(header: Header, rows: seq<Row>, f: Formats, le: (string, string) -> bool)
    requires RowsTaken(rows) && TotalPreorder(le) && |rows| <= HIGHEST_SAFE_INTEGER
    ensures forall i :: 0 <= i < |ArchiveLines(header, rows, f, le)| ==> RecordText(ArchiveLines(header, rows, f, le)[i], f)
  {
    var m := ManifestOf(rows, f, le);
    FrontIsRecords(header, rows, f);
    CountsAreManageable(rows, le);
    ManifestWritable(m);
    WritableIsRecordText(ManifestValue(m), f);
    assert ArchiveLines(header, rows, f, le) == FrontLines(header, rows, f) + [LineText(ManifestValue(m), f)];
  }

  /** The first line that the reader breaks, or the number of lines. */
  ghost function FirstBroken(lines: seq<string>, ends: char -> bool): (k: nat)
    ensures k <= |lines| && (forall i :: 0 <= i < k ==> Unbroken(lines[i], ends)) && (k < |lines| ==> !Unbroken(lines[k], ends))
  {
    if lines == [] || !Unbroken(lines[0], ends) then 0 else 1 + FirstBroken(lines[1..], ends)
  }

  /** Lines at the start of a file that are not blank are read first. */
  lemma StartIsWritten(read: seq<string>, start: seq<string>)
    requires start <= read && forall i :: 0 <= i < |start| ==> !Blank(start[i])
    ensures start <= Written(read)
  {
    NothingSkipped(start);
    assert read[..|start|] == start;
    WrittenPrefix(read, |start|);
  }

  lemma NoJsonNoArchive(lines: seq<string>, k: nat, f: Formats, le: (string, string) -> bool)
    requires k < |lines| && f.readJson(lines[k]).None?
    ensures NotAnArchive(ReadingsOf(lines, f), f, le)
  {
    BrokenLine(ReadingsOf(lines, f), f, le, k);
  }

  lemma PieceIsRefused(read: seq<string>, front: seq<string>, piece: string, f: Formats, le: (string, string) -> bool)
    requires front + [piece] <= read
    requires f.readJson(piece).None? && piece != "" && piece[0] == '{' && forall i :: 0 <= i < |front| ==> !Blank(front[i])
    ensures NotAnArchive(ReadingsOf(Written(read), f), f, le)
  {
    var start := front + [piece];
    forall i | 0 <= i < |start| ensures !Blank(start[i]) {
      if i == |front| { assert !IsSpace(piece[0]); }
    }
    StartIsWritten(read, start);
    assert Written(read)[|front|] == piece;
    NoJsonNoArchive(Written(read), |front|, f, le);
  }

  lemma Regrouped(a: string, line: string, b: string, rest: string)
    ensures a + (line + "\n" + b) + rest == a + line + ("\n" + b + rest)
  {
  }

  lemma FirstPieceRead(front: seq<string>, line: string, after: seq<string>, rest: string, ends: char -> bool)
    requires ends('\n') && (forall i :: 0 <= i < |front| ==> Unbroken(front[i], ends)) && !Unbroken(line, ends)
    ensures LineLength(line, ends) < |line|
    ensures front + [line[..LineLength(line, ends)]] <= ReadLines(FileText(front + ([line] + after)) + rest, ends)
  {
    FileTextAppend(front, [line] + after);
    FileTextCons(line, after);
    Regrouped(FileText(front), line, FileText(after), rest);
    BrokenRead(front, line, "\n" + FileText(after) + rest, ends);
  }

  /** What is read of a broken line is no JSON text, so the file is refused. */
  lemma BrokenIsRefused(lines: seq<string>, rest: string, f: Formats, le: (string, string) -> bool, ends: char -> bool)
    requires Lawful(f) && ends('\n') && !ends('{') && forall i :: 0 <= i < |lines| ==> RecordText(lines[i], f)
    requires exists i :: 0 <= i < |lines| && !Unbroken(lines[i], ends)
    ensures NotAnArchive(ReadingsOf(Written(ReadLines(FileText(lines) + rest, ends)), f), f, le)
  {
    var k := FirstBroken(lines, ends);
    var front, line, after := lines[..k], lines[k], lines[k + 1..];
    assert lines == front + ([line] + after);
    FirstPieceRead(front, line, after, rest, ends);
    RecordIsDelimited(line, f);
    forall i | 0 <= i < k ensures !Blank(front[i]) { RecordIsDelimited(lines[i], f); }
    PieceIsRefused(ReadLines(FileText(lines) + rest, ends), front, line[..LineLength(line, ends)], f, le);
  }

  /** More lines than an archive can have. */
  lemma TooLong(lines: seq<string>, rest: string, f: Formats, le: (string, string) -> bool, ends: char -> bool)
    requires Lawful(f) && ends('\n') && forall i :: 0 <= i < |lines| ==> RecordText(lines[i], f) && Unbroken(lines[i], ends)
    requires |lines| > HIGHEST_SAFE_INTEGER
    ensures NotAnArchive(ReadingsOf(Written(ReadLines(FileText(lines) + rest, ends)), f), f, le)
  {
    var read := ReadLines(FileText(lines) + rest, ends);
    FrontReadBack(lines, rest, ends);
    forall i | 0 <= i < |lines| ensures !Blank(lines[i]) { RecordIsDelimited(lines[i], f); }
    NothingSkipped(lines);
    assert read[..|lines|] == lines;
    WrittenPrefix(read, |lines|);
  }

  ghost predicate AllUnbroken(lines: seq<string>, ends: char -> bool) {
    forall i :: 0 <= i < |lines| ==> Unbroken(lines[i], ends)
  }

  /**
   A written file verifies exactly if no line of it holds a character at which the reader ends lines, and its lines
   are readable as archive.
   */
  lemma WrittenFileExactly(header: Header, rows: seq<Row>, f: Formats, le: (string, string) -> bool, ends: char -> bool)
    requires Lawful(f) && TotalPreorder(le) && RowsTaken(rows) && ends('\n') && !ends('{')
    ensures var lines := ArchiveLines(header, rows, f, le);
            !NotAnArchive(ReadingsOf(Written(ReadLines(FileText(lines), ends)), f), f, le)
            <==> AllUnbroken(lines, ends) && Readable(header, rows, f)
  {
    var lines := ArchiveLines(header, rows, f, le);
    if |rows| <= HIGHEST_SAFE_INTEGER {
      ArchiveIsRecords(header, rows, f, le);
      if AllUnbroken(lines, ends) {
        UnbrokenReadBack(lines, ends);
        WrittenArchiveExactly(header, rows, f, le);
      } else {
        BrokenIsRefused(lines, "", f, le, ends);
        assert FileText(lines) + "" == FileText(lines);
      }
    } else {
      var front, last := FrontLines(header, rows, f), [LineText(ManifestValue(ManifestOf(rows, f, le)), f)];
      FrontIsRecords(header, rows, f);
      FileTextAppend(front, last);
      assert lines == front + last;
      if AllUnbroken(front, ends) {
        TooLong(front, FileText(last), f, le, ends);
      } else {
        BrokenIsRefused(front, FileText(last), f, le, ends);
      }
    }
  }

  /** Readers that end lines at line feeds and carriage returns alone break no line. */
  lemma LineFeedsBreakNothing(header: Header, rows: seq<Row>, f: Formats, le: (string, string) -> bool, ends: char -> bool)
    requires Lawful(f) && TotalPreorder(le) && RowsTaken(rows) && |rows| <= HIGHEST_SAFE_INTEGER
    requires forall c: char :: ends(c) ==> c == '\n' || c == '\r'
    ensures AllUnbroken(ArchiveLines(header, rows, f, le), ends)
  {
    var lines := ArchiveLines(header, rows, f, le);
    ArchiveIsRecords(header, rows, f, le);
    forall i | 0 <= i < |lines| ensures Unbroken(lines[i], ends) { RecordIsDelimited(lines[i], f); }
  }
}
