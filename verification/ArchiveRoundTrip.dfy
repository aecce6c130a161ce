/** When an archive that was written can be read and verified again. */
module ArchiveRoundTrip {
  import opened Common
  import opened ArchiveValue
  import opened ArchiveValidator
  import opened ArchiveFile
  import opened ArchiveText
  import opened ArchiveWriter
  import opened Counting
  import opened Text
  import opened Sorting

  function RowLines(rows: seq<Row>, f: Formats): seq<string> {
    seq(|rows|, i requires 0 <= i < |rows| => LineText(RowValue(rows[i]), f))
  }

  /** The lines of a written archive. */
  function ArchiveLines(header: Header, rows: seq<Row>, f: Formats, le: (string, string) -> bool): seq<string> {
    [LineText(HeaderValue(header), f)] + RowLines(rows, f) + [LineText(ManifestValue(ManifestOf(rows, f, le)), f)]
  }

  /** A row that the accumulator takes, of a value that exists at run time. */
  ghost predicate Taken(row: Row) {
    IsIdentifier(row.table) && DatesValid(Obj(row.fields)) && Representable(Obj(row.fields))
  }

  ghost predicate RowsTaken(rows: seq<Row>) {
    forall i :: 0 <= i < |rows| ==> Taken(rows[i])
  }

  // ---- what one row becomes ----

  /** The JSON value of a row's line. */
  function Sent(row: Row, f: Formats): Value {
    var e := Encode(RowValue(row), f);
    if e.Ok? then e.value else Null
  }

  /** The value that line is decoded to. */
  function Received(row: Row, f: Formats): Result<Value, ValueError> {
    Decode(Sent(row, f), f)
  }

  function ReceivedValue(row: Row, f: Formats): Value {
    if Received(row, f).Ok? then Received(row, f).value else Null
  }

  /** The row it is read as. */
  function ReceivedRow(row: Row, f: Formats): Row {
    var v := ReceivedValue(row, f);
    if v.Obj? && RowIn(v.entries).Some? then RowIn(v.entries).value else row
  }

  function Wrapped(table: string, row: Value): Value {
    Obj([Entry("kind", Str("row")), Entry("table", Str(table)), Entry("row", row)])
  }

  lemma SentIsWrapped(row: Row, f: Formats)
    requires DatesValid(Obj(row.fields))
    ensures Encode(Obj(row.fields), f).Ok? && Encode(Obj(row.fields), f).value.Obj?
    ensures Encode(RowValue(row), f) == Ok(Wrapped(row.table, Encode(Obj(row.fields), f).value))
    ensures Sent(row, f) == Wrapped(row.table, Encode(Obj(row.fields), f).value)
  {
    EncodeWorks(Obj(row.fields), f);
    var v := RowValue(row);
    var es := v.entries;
    var rs := seq(|es|, i requires 0 <= i < |es| => Encode(es[i].value, f));
    var e := Encode(Obj(row.fields), f).value;
    CollectOk(rs, [Str("row"), Str(row.table), e]);
    assert Keyed(es, [Str("row"), Str(row.table), e]) == Wrapped(row.table, e).entries;
  }

  lemma DecodesWrapped(table: string, p: Value, f: Formats)
    ensures Decode(Wrapped(table, p), f) == var d := Decode(p, f); if d.Ok? then Ok(Wrapped(table, d.value)) else Err(d.error)
  {
    var v, d := Wrapped(table, p), Decode(p, f);
    var es := v.entries;
    var ds := seq(|es|, i requires 0 <= i < |es| => Decode(es[i].value, f));
    assert !Tagged(v, "$binary") && !Tagged(v, "$date");
    assert ds == [Ok(Str("row")), Ok(Str(table)), d];
    if d.Ok? {
      CollectOk(ds, [Str("row"), Str(table), d.value]);
      WrappedKeys(table, p, d.value);
    } else {
      ThirdFails(ds, d.error);
    }
  }

  lemma WrappedKeys(table: string, p: Value, q: Value)
    ensures Keyed(Wrapped(table, p).entries, [Str("row"), Str(table), q]) == Wrapped(table, q).entries
  {
  }

  lemma ThirdFails(ds: seq<Result<Value, ValueError>>, e: ValueError)
    requires |ds| == 3 && ds[0].Ok? && ds[1].Ok? && ds[2] == Err(e)
    ensures Collect(ds) == Err(e)
  {
    assert ds[1..][0] == ds[1] && ds[1..][1..] == [ds[2]];
    assert Collect([ds[2]]) == Err(e);
    assert Collect(ds[1..]) == Err(e);
  }

  lemma WrappedIsRow(table: string, d: Value)
    requires d.Obj? || d.Date? || d.Bytes?
    ensures RowIn(Wrapped(table, d).entries) == Some(Row(table, if d.Obj? then d.entries else []))
    ensures LineIn(Wrapped(table, d)) == Ok(RowLine(Row(table, if d.Obj? then d.entries else [])))
  {
    var e := Wrapped(table, d).entries;
    assert e[1..][1..] == e[2..];
    assert Get(e[1..], "table") == Some(Str(table));
    assert Get(e[2..], "row") == Some(d);
    assert Get(e, "row") == Get(e[1..], "row");
  }

  /** The line of a taken row is decoded to a row of the same table, or not at all. */
  lemma TakenIsReceived(row: Row, f: Formats)
    requires Taken(row)
    ensures Plain(Sent(row, f)) && Representable(Sent(row, f)) && EncodeLine(RowValue(row), f) == Ok(f.json(Sent(row, f)))
    ensures Received(row, f).Ok? ==> LineIn(Received(row, f).value) == Ok(RowLine(ReceivedRow(row, f)))
    ensures ReceivedRow(row, f).table == row.table
  {
    SentIsWrapped(row, f);
    var p := Encode(Obj(row.fields), f).value;
    EncodeWorks(RowValue(row), f);
    EncodingKeepsShape(Obj(row.fields), f);
    WrappedIsRepresentable(row.table, p);
    DecodesWrapped(row.table, p, f);
    if Received(row, f).Ok? { WrappedIsRow(row.table, Decode(p, f).value); }
  }

  lemma WrappedIsRepresentable(table: string, p: Value)
    requires Representable(p)
    ensures Representable(Wrapped(table, p))
  {
    var e := Wrapped(table, p).entries;
    assert e[0].key[0] == 'k' && e[1].key[0] == 't' && e[2].key[0] == 'r';
    LettersAreNoIndex(e[1].key);
    LettersAreNoIndex(e[2].key);
  }

  // ---- reading all lines ----

  /** How the line of a row reads. */
  function RowReading(row: Row, f: Formats): Result<Decoded, FileError> {
    var v := Received(row, f);
    if v.Err? then Err(InvalidValue(v.error)) else Ok(Decoded(v.value, RowLine(ReceivedRow(row, f))))
  }

  function RowReadings(rows: seq<Row>, f: Formats): Readings {
    seq(|rows|, i requires 0 <= i < |rows| => RowReading(rows[i], f))
  }

  function ArchiveReadings(header: Header, rows: seq<Row>, f: Formats, le: (string, string) -> bool): Readings {
    var m := ManifestOf(rows, f, le);
    [Ok(Decoded(HeaderValue(header), HeaderLine(header)))] + RowReadings(rows, f) + [Ok(Decoded(ManifestValue(m), ManifestLine(m)))]
  }

  ghost predicate ReadsTo(text: string, f: Formats, r: Result<Decoded, FileError>) {
    !Blank(text) && DecodeLine(text, f) == r
  }

  lemma RowLineReads(row: Row, f: Formats)
    requires Lawful(f) && Taken(row)
    ensures ReadsTo(LineText(RowValue(row), f), f, RowReading(row, f))
  {
    TakenIsReceived(row, f);
    var p := Sent(row, f);
    assert f.readJson(f.json(p)) == Some(p) && !Blank(f.json(p));
  }

  lemma HeaderLineReads(header: Header, f: Formats)
    requires Lawful(f)
    ensures ReadsTo(LineText(HeaderValue(header), f), f, Ok(Decoded(HeaderValue(header), HeaderLine(header))))
  {
    HeaderWritable(header);
    HeaderReads(header);
    WrittenLineReads(HeaderValue(header), f);
  }

  /** The counts of rows that an accumulator took. */
  lemma CountsAreManageable(rows: seq<Row>, le: (string, string) -> bool)
    requires TotalPreorder(le) && RowsTaken(rows) && |rows| <= HIGHEST_SAFE_INTEGER
    ensures ManageableCounts(CountsOf(rows, le))
  {
    var names := SortBy(FirstSeen(rows), le);
    FirstSeenMeaning(rows);
    SortSorts(FirstSeen(rows), le);
    DistinctPermuted(FirstSeen(rows), names);
    forall i | 0 <= i < |names| ensures Count(rows, names[i]) <= |rows| && !IndexKey(names[i]) {
      CountBounded(rows, names[i]);
      assert names[i] in FirstSeen(rows);
      var row :| row in rows && row.table == names[i];
      var k :| 0 <= k < |rows| && rows[k] == row;
      assert Taken(rows[k]);
      LettersAreNoIndex(names[i]);
    }
  }

  lemma {:induction false} CountBounded(rows: seq<Row>, table: string)
    ensures Count(rows, table) <= |rows|
  {
    if rows != [] {
      CountBounded(rows[..|rows| - 1], table);
      CountNext(rows[..|rows| - 1], rows[|rows| - 1]);
      assert rows == rows[..|rows| - 1] + [rows[|rows| - 1]];
    }
  }

  lemma ManifestLineReads(rows: seq<Row>, f: Formats, le: (string, string) -> bool)
    requires Lawful(f) && TotalPreorder(le) && RowsTaken(rows) && |rows| <= HIGHEST_SAFE_INTEGER
    ensures var m := ManifestOf(rows, f, le); ReadsTo(LineText(ManifestValue(m), f), f, Ok(Decoded(ManifestValue(m), ManifestLine(m))))
  {
    var m := ManifestOf(rows, f, le);
    CountsAreManageable(rows, le);
    ManifestWritable(m);
    WrittenLineReads(ManifestValue(m), f);
    ManifestReads(m);
  }

  lemma {:induction false} NothingSkipped(lines: seq<string>)
    requires forall i :: 0 <= i < |lines| ==> !Blank(lines[i])
    ensures Written(lines) == lines
  {
    if lines != [] { NothingSkipped(lines[..|lines| - 1]); }
  }

  /** Lines that read to something are not skipped, and read to that. */
  lemma LinesRead(lines: seq<string>, f: Formats, read: Readings)
    requires |lines| == |read| && forall i :: 0 <= i < |lines| ==> ReadsTo(lines[i], f, read[i])
    ensures Written(lines) == lines && ReadingsOf(lines, f) == read
  {
    forall i | 0 <= i < |lines| ensures !Blank(lines[i]) && DecodeLine(lines[i], f) == read[i] {
      assert ReadsTo(lines[i], f, read[i]);
    }
    NothingSkipped(lines);
  }

  lemma RowLinesRead(rows: seq<Row>, f: Formats)
    requires Lawful(f) && RowsTaken(rows)
    ensures forall i :: 0 <= i < |rows| ==> ReadsTo(RowLines(rows, f)[i], f, RowReadings(rows, f)[i])
  {
    forall i | 0 <= i < |rows| ensures ReadsTo(RowLines(rows, f)[i], f, RowReadings(rows, f)[i]) {
      assert Taken(rows[i]);
      RowLineReads(rows[i], f);
    }
  }

  lemma ReadsPairwise(a: seq<string>, b: seq<string>, f: Formats, x: Readings, y: Readings)
    requires |a| == |x| && |b| == |y|
    requires forall i :: 0 <= i < |a| ==> ReadsTo(a[i], f, x[i])
    requires forall i :: 0 <= i < |b| ==> ReadsTo(b[i], f, y[i])
    ensures forall i :: 0 <= i < |a + b| ==> ReadsTo((a + b)[i], f, (x + y)[i])
  {
  }

  lemma WrittenLinesRead(header: Header, rows: seq<Row>, f: Formats, le: (string, string) -> bool)
    requires Lawful(f) && TotalPreorder(le) && RowsTaken(rows) && |rows| <= HIGHEST_SAFE_INTEGER
    ensures var lines := ArchiveLines(header, rows, f, le);
            Written(lines) == lines && ReadingsOf(lines, f) == ArchiveReadings(header, rows, f, le)
  {
    var m := ManifestOf(rows, f, le);
    var first, last := [LineText(HeaderValue(header), f)], [LineText(ManifestValue(m), f)];
    var x, z: Readings := [Ok(Decoded(HeaderValue(header), HeaderLine(header)))], [Ok(Decoded(ManifestValue(m), ManifestLine(m)))];
    HeaderLineReads(header, f);
    RowLinesRead(rows, f);
    ManifestLineReads(rows, f, le);
    ReadsPairwise(first, RowLines(rows, f), f, x, RowReadings(rows, f));
    ReadsPairwise(first + RowLines(rows, f), last, f, x + RowReadings(rows, f), z);
    LinesRead(ArchiveLines(header, rows, f, le), f, ArchiveReadings(header, rows, f, le));
  }

  /** No line of the header or a row is skipped on reading. */
  lemma RowsAreWritten(header: Header, rows: seq<Row>, f: Formats, le: (string, string) -> bool)
    requires Lawful(f) && RowsTaken(rows)
    ensures |Written(ArchiveLines(header, rows, f, le))| > |rows|
  {
    var lines, front := ArchiveLines(header, rows, f, le), [LineText(HeaderValue(header), f)] + RowLines(rows, f);
    var x: Readings := [Ok(Decoded(HeaderValue(header), HeaderLine(header)))];
    HeaderLineReads(header, f);
    RowLinesRead(rows, f);
    ReadsPairwise([LineText(HeaderValue(header), f)], RowLines(rows, f), f, x, RowReadings(rows, f));
    LinesRead(front, f, x + RowReadings(rows, f));
    assert lines[..|front|] == front;
    WrittenPrefix(lines, |front|);
  }

  // ---- what the rows hash, before and after ----

  ghost predicate AllReceived(rows: seq<Row>, f: Formats) {
    forall i :: 0 <= i < |rows| ==> Received(rows[i], f).Ok?
  }

  function ReceivedRows(rows: seq<Row>, f: Formats): seq<Row> {
    seq(|rows|, i requires 0 <= i < |rows| => ReceivedRow(rows[i], f))
  }

  function ReceivedValues(rows: seq<Row>, f: Formats): seq<Value> {
    seq(|rows|, i requires 0 <= i < |rows| => ReceivedValue(rows[i], f))
  }

  function LineTexts(values: seq<Value>, f: Formats): seq<string> {
    seq(|values|, i requires 0 <= i < |values| => LineText(values[i], f))
  }

  /** Every record in the row that looks like an encoded date or binary value is one that encoding writes. */
  ghost predicate AllCanonical(rows: seq<Row>, f: Formats) {
    forall i :: 0 <= i < |rows| ==> Canonical(Obj(rows[i].fields), f)
  }

  lemma {:induction false} HashedIsFile(values: seq<Value>, f: Formats)
    requires forall i :: 0 <= i < |values| ==> EncodeLine(values[i], f).Ok?
    ensures Hashed(values, f) == FileText(LineTexts(values, f))
  {
    if values != [] {
      var init, last := values[..|values| - 1], values[|values| - 1];
      HashedIsFile(init, f);
      var lines := LineTexts(values, f);
      assert lines[..|lines| - 1] == LineTexts(init, f) && lines[|lines| - 1] == LineText(last, f);
      assert FileText(lines) == FileText(LineTexts(init, f)) + LineText(last, f) + "\n";
      assert Hashed(values, f) == Hashed(init, f) + (LineText(last, f) + "\n");
    }
  }

  lemma {:induction false} DecodingKeepsShape(p: Value, f: Formats)
    requires Representable(p) && Decode(p, f).Ok?
    ensures Representable(Decode(p, f).value)
  {
    var v := Decode(p, f).value;
    if Tagged(p, "$binary") || Tagged(p, "$date") {
    } else if p.Arr? {
      var ds := seq(|p.items|, i requires 0 <= i < |p.items| => Decode(p.items[i], f));
      forall i | 0 <= i < |p.items| ensures Representable(v.items[i]) {
        assert Collect(ds) == Ok(v.items) && ds[i] == Ok(v.items[i]);
        DecodingKeepsShape(p.items[i], f);
      }
    } else if p.Obj? {
      var ds := seq(|p.entries|, i requires 0 <= i < |p.entries| => Decode(p.entries[i].value, f));
      forall i | 0 <= i < |p.entries| ensures Representable(v.entries[i].value) {
        assert Collect(ds).Ok? && ds[i] == Ok(v.entries[i].value);
        DecodingKeepsShape(p.entries[i].value, f);
      }
    }
  }

  /** What canonical tags hold can be decoded. */
  lemma {:induction false} CanonicalDecodes(p: Value, f: Formats)
    requires Canonical(p, f)
    ensures Decode(p, f).Ok?
  {
    if Tagged(p, "$binary") || Tagged(p, "$date") {
    } else if p.Arr? {
      var ds := seq(|p.items|, i requires 0 <= i < |p.items| => Decode(p.items[i], f));
      forall i | 0 <= i < |p.items| ensures ds[i].Ok? { CanonicalDecodes(p.items[i], f); }
      var r := Collect(ds);
    } else if p.Obj? {
      var ds := seq(|p.entries|, i requires 0 <= i < |p.entries| => Decode(p.entries[i].value, f));
      forall i | 0 <= i < |p.entries| ensures ds[i].Ok? { CanonicalDecodes(p.entries[i].value, f); }
      var r := Collect(ds);
    }
  }

  /** Encoding adds only canonical tags and keeps the others. */
  lemma {:induction false} EncodedCanonicalExactly(v: Value, f: Formats)
    requires ValuesReadBack(f) && DatesValid(v)
    ensures Encode(v, f).Ok? && (Canonical(Encode(v, f).value, f) <==> Canonical(v, f))
  {
    EncodeWorks(v, f);
    var e := Encode(v, f).value;
    if v.Arr? {
      forall i | 0 <= i < |v.items| ensures Canonical(e.items[i], f) <==> Canonical(v.items[i], f) {
        assert Encode(v.items[i], f) == Ok(e.items[i]);
        EncodedCanonicalExactly(v.items[i], f);
      }
    } else if v.Obj? {
      forall i | 0 <= i < |v.entries|
        ensures Canonical(e.entries[i].value, f) <==> Canonical(v.entries[i].value, f)
        ensures e.entries[i].key == v.entries[i].key
        ensures e.entries[i].value == v.entries[i].value || (!v.entries[i].value.Str? && !e.entries[i].value.Str?)
      {
        assert Encode(v.entries[i].value, f) == Ok(e.entries[i].value);
        EncodeWorks(v.entries[i].value, f);
        EncodedCanonicalExactly(v.entries[i].value, f);
      }
    }
  }

  lemma WrappedCanonical(table: string, p: Value, f: Formats)
    ensures Canonical(Wrapped(table, p), f) <==> Canonical(p, f)
  {
    var w := Wrapped(table, p);
    assert w.entries[2].value == p;
  }

  lemma SentCanonicalExactly(row: Row, f: Formats)
    requires ValuesReadBack(f) && DatesValid(Obj(row.fields))
    ensures Canonical(Sent(row, f), f) <==> Canonical(Obj(row.fields), f)
  {
    SentIsWrapped(row, f);
    EncodedCanonicalExactly(Obj(row.fields), f);
    WrappedCanonical(row.table, Encode(Obj(row.fields), f).value, f);
  }

  lemma JsonApart(p: Value, q: Value, f: Formats)
    requires JsonReadsBack(f) && JsonIsOneLine(f)
    requires Plain(p) && Representable(p) && Plain(q) && Representable(q)
    ensures (f.json(p) == f.json(q) <==> p == q) && Clean(f.json(p)) && Clean(f.json(q))
  {
    assert f.readJson(f.json(p)) == Some(p) && f.readJson(f.json(q)) == Some(q);
  }

  /** The line of a row is written again as it was exactly if its tags are canonical. */
  lemma ResentExactly(row: Row, f: Formats)
    requires Lawful(f) && Taken(row) && Received(row, f).Ok?
    ensures EncodeLine(RowValue(row), f).Ok? && EncodeLine(ReceivedValue(row, f), f).Ok?
    ensures Clean(LineText(RowValue(row), f)) && Clean(LineText(ReceivedValue(row, f), f))
    ensures LineText(ReceivedValue(row, f), f) == LineText(RowValue(row), f) <==> Canonical(Obj(row.fields), f)
  {
    TakenIsReceived(row, f);
    SentCanonicalExactly(row, f);
    var p, v := Sent(row, f), ReceivedValue(row, f);
    DecodedSurvives(p, f);
    DecodingKeepsShape(p, f);
    EncodeWorks(v, f);
    EncodingKeepsShape(v, f);
    JsonApart(Encode(v, f).value, p, f);
  }

  /** The rows hash the same text after reading exactly if all tags in them are canonical. */
  lemma SameTextExactly(rows: seq<Row>, f: Formats)
    requires Lawful(f) && RowsTaken(rows) && AllReceived(rows, f)
    ensures Hashed(ReceivedValues(rows, f), f) == Hashed(RowValues(rows), f) <==> AllCanonical(rows, f)
  {
    var before, after := LineTexts(RowValues(rows), f), LineTexts(ReceivedValues(rows, f), f);
    forall i | 0 <= i < |rows|
      ensures EncodeLine(RowValues(rows)[i], f).Ok? && EncodeLine(ReceivedValues(rows, f)[i], f).Ok?
      ensures Clean(before[i]) && Clean(after[i])
      ensures after[i] == before[i] <==> Canonical(Obj(rows[i].fields), f)
    {
      assert Taken(rows[i]) && Received(rows[i], f).Ok?;
      ResentExactly(rows[i], f);
    }
    HashedIsFile(RowValues(rows), f);
    HashedIsFile(ReceivedValues(rows, f), f);
    if FileText(after) == FileText(before) { TextDeterminesLines(after, before); }
    if AllCanonical(rows, f) { assert after == before; }
  }

  // ---- the verdict on a written archive ----

  /** The rows that make up a complete archive under the header. */
  ghost predicate CompleteRows(header: Header, rows: seq<Row>) {
    && HeaderFits(header.roots, DEFAULT_MAX_RECORDS) && RowsFit(header.roots, DEFAULT_MAX_RECORDS, rows)
    && NoDanglingRuns(rows) && RootsCovered(header.roots, rows)
  }

  /** Tables alone decide the counts. */
  lemma {:induction false} TablesDecideCounts(a: seq<Row>, b: seq<Row>)
    requires |a| == |b| && forall i :: 0 <= i < |a| ==> a[i].table == b[i].table
    ensures FirstSeen(a) == FirstSeen(b) && forall table :: Count(a, table) == Count(b, table)
  {
    if a != [] {
      var n := |a| - 1;
      TablesDecideCounts(a[..n], b[..n]);
      CountNext(a[..n], a[n]);
      CountNext(b[..n], b[n]);
      assert a == a[..n] + [a[n]] && b == b[..n] + [b[n]];
    }
  }

  lemma ReceivedCounts(rows: seq<Row>, f: Formats, le: (string, string) -> bool)
    requires RowsTaken(rows)
    ensures CountsOf(ReceivedRows(rows, f), le) == CountsOf(rows, le) && Count(ReceivedRows(rows, f), RUNS) == Count(rows, RUNS)
  {
    forall i | 0 <= i < |rows| ensures ReceivedRows(rows, f)[i].table == rows[i].table {
      assert Taken(rows[i]);
      TakenIsReceived(rows[i], f);
    }
    TablesDecideCounts(ReceivedRows(rows, f), rows);
  }

  lemma ReadingsOfRows(header: Header, rows: seq<Row>, f: Formats, le: (string, string) -> bool)
    requires AllReceived(rows, f)
    ensures var read := ArchiveReadings(header, rows, f, le);
            && |read| == |rows| + 2 && ReadsAs(read, 0, HeaderLine(header))
            && ReadsAsRows(read, ReceivedValues(rows, f), ReceivedRows(rows, f))
            && ReadsAs(read, |rows| + 1, ManifestLine(ManifestOf(rows, f, le)))
  {
    var read := ArchiveReadings(header, rows, f, le);
    forall i | 0 <= i < |rows| ensures ReadsAsRow(read, i + 1, ReceivedValues(rows, f)[i], ReceivedRows(rows, f)[i]) {
      assert read[i + 1] == RowReadings(rows, f)[i] == RowReading(rows[i], f);
    }
  }

  /** Readings hold at most one archive. */
  lemma ArchiveUnique(read: Readings, f: Formats, le: (string, string) -> bool, header: Header, values: seq<Value>, rows: seq<Row>, m: Manifest,
                      header': Header, values': seq<Value>, rows': seq<Row>, m': Manifest)
    requires |read| == |rows| + 2 && ReadsAs(read, 0, HeaderLine(header)) && ReadsAsRows(read, values, rows)
    requires ReadsAs(read, |rows| + 1, ManifestLine(m)) && IsArchive(read, f, le, header', values', rows', m')
    ensures header' == header && values' == values && rows' == rows && m' == m
  {
    ReadingsAgree(read, values', rows', values, rows);
    assert rows'[..|rows|] == rows' && values'[..|rows|] == values';
  }

  /** Readings that start with the header, go on with the rows and end in the manifest are judged by these alone. */
  lemma Judged(read: Readings, f: Formats, le: (string, string) -> bool, header: Header, values: seq<Value>, rows: seq<Row>, m: Manifest)
    requires |read| == |rows| + 2 && ReadsAs(read, 0, HeaderLine(header)) && ReadsAsRows(read, values, rows)
    requires ReadsAs(read, |rows| + 1, ManifestLine(m))
    ensures !NotAnArchive(read, f, le) <==> IsArchive(read, f, le, header, values, rows, m)
    ensures forall v :: Reports(read, f, le, v) ==>
              v == Verified(Summary(|rows|, m.tableCounts, Count(rows, RUNS), set root | root in header.roots), m, header.sourceSchema)
  {
    forall h, vs, rs, m' | IsArchive(read, f, le, h, vs, rs, m') ensures h == header && vs == values && rs == rows && m' == m {
      ArchiveUnique(read, f, le, header, values, rows, m, h, vs, rs, m');
    }
  }

  /** What the verifier makes of an archive that was written. */
  ghost predicate Readable(header: Header, rows: seq<Row>, f: Formats) {
    && AllReceived(rows, f) && CompleteRows(header, ReceivedRows(rows, f))
    && f.sha256(Hashed(ReceivedValues(rows, f), f)) == f.sha256(Hashed(RowValues(rows), f))
  }

  ghost predicate ReportedAs(v: Verified, header: Header, rows: seq<Row>, f: Formats, le: (string, string) -> bool) {
    v == Verified(Summary(|rows|, CountsOf(rows, le), Count(rows, RUNS), set root | root in header.roots),
                  ManifestOf(rows, f, le), header.sourceSchema)
  }

  lemma ReceivedVerdict(header: Header, rows: seq<Row>, f: Formats, le: (string, string) -> bool)
    requires RowsTaken(rows) && AllReceived(rows, f)
    ensures var read := ArchiveReadings(header, rows, f, le);
            && (!NotAnArchive(read, f, le) <==> Readable(header, rows, f))
            && forall v :: Reports(read, f, le, v) ==> ReportedAs(v, header, rows, f, le)
  {
    ReadingsOfRows(header, rows, f, le);
    ReceivedCounts(rows, f, le);
    Judged(ArchiveReadings(header, rows, f, le), f, le, header, ReceivedValues(rows, f), ReceivedRows(rows, f), ManifestOf(rows, f, le));
  }

  lemma RowStands(header: Header, rows: seq<Row>, f: Formats, le: (string, string) -> bool, i: nat)
    requires i < |rows|
    ensures |ArchiveReadings(header, rows, f, le)| == |rows| + 2
    ensures ArchiveReadings(header, rows, f, le)[i + 1] == RowReading(rows[i], f)
  {
    assert RowReadings(rows, f)[i] == RowReading(rows[i], f);
  }

  lemma UndecodableIsRefused(header: Header, rows: seq<Row>, f: Formats, le: (string, string) -> bool)
    requires !AllReceived(rows, f)
    ensures NotAnArchive(ArchiveReadings(header, rows, f, le), f, le)
  {
    var i :| 0 <= i < |rows| && Received(rows[i], f).Err?;
    RowStands(header, rows, f, le, i);
    BrokenLine(ArchiveReadings(header, rows, f, le), f, le, i + 1);
  }

  /**
   A header, the rows an accumulator took and its manifest verify exactly if every row can be decoded, the decoded rows
   are complete under the header, and they hash to what the rows hashed; the report has the accumulator's counts and hash.
   */
  lemma WrittenArchiveExactly(header: Header, rows: seq<Row>, f: Formats, le: (string, string) -> bool)
    requires Lawful(f) && TotalPreorder(le) && RowsTaken(rows)
    ensures var read := ReadingsOf(Written(ArchiveLines(header, rows, f, le)), f);
            && (!NotAnArchive(read, f, le) <==> Readable(header, rows, f))
            && forall v :: Reports(read, f, le, v) ==> ReportedAs(v, header, rows, f, le)
  {
    var read := ReadingsOf(Written(ArchiveLines(header, rows, f, le)), f);
    if |rows| > HIGHEST_SAFE_INTEGER {
      RowsAreWritten(header, rows, f, le);
      assert NotAnArchive(read, f, le);
    } else {
      WrittenLinesRead(header, rows, f, le);
      if AllReceived(rows, f) {
        ReceivedVerdict(header, rows, f, le);
      } else {
        UndecodableIsRefused(header, rows, f, le);
      }
    }
  }

  ghost predicate TellsApart(f: Formats, a: string, b: string) {
    f.sha256(a) == f.sha256(b) ==> a == b
  }

  lemma CanonicalAreReceived(rows: seq<Row>, f: Formats)
    requires Lawful(f) && RowsTaken(rows) && AllCanonical(rows, f)
    ensures AllReceived(rows, f)
  {
    forall i | 0 <= i < |rows| ensures Received(rows[i], f).Ok? {
      assert Taken(rows[i]) && Canonical(Obj(rows[i].fields), f);
      SentCanonicalExactly(rows[i], f);
      CanonicalDecodes(Sent(rows[i], f), f);
    }
  }

  /** Where the digest tells the two texts apart: exactly if all tags are canonical and the decoded rows are complete. */
  lemma CanonicalArchivesVerify(header: Header, rows: seq<Row>, f: Formats, le: (string, string) -> bool)
    requires Lawful(f) && TotalPreorder(le) && RowsTaken(rows)
    requires TellsApart(f, Hashed(ReceivedValues(rows, f), f), Hashed(RowValues(rows), f))
    ensures !NotAnArchive(ReadingsOf(Written(ArchiveLines(header, rows, f, le)), f), f, le)
            <==> AllCanonical(rows, f) && CompleteRows(header, ReceivedRows(rows, f))
  {
    WrittenArchiveExactly(header, rows, f, le);
    if AllCanonical(rows, f) { CanonicalAreReceived(rows, f); }
    if AllReceived(rows, f) { SameTextExactly(rows, f); }
  }

  // ---- rows that survive ----

  ghost predicate RowsWritable(rows: seq<Row>) {
    forall i :: 0 <= i < |rows| ==> IsIdentifier(rows[i].table) && Writable(Obj(rows[i].fields))
  }

  lemma {:induction false} UndisguisedIsCanonical(v: Value, f: Formats)
    requires Undisguised(v)
    ensures Canonical(v, f)
  {
    if v.Arr? {
      forall i | 0 <= i < |v.items| ensures Canonical(v.items[i], f) { UndisguisedIsCanonical(v.items[i], f); }
    } else if v.Obj? {
      forall i | 0 <= i < |v.entries| ensures Canonical(v.entries[i].value, f) { UndisguisedIsCanonical(v.entries[i].value, f); }
    }
  }

  lemma WritableIsReceived(row: Row, f: Formats)
    requires Lawful(f) && Writable(Obj(row.fields))
    ensures Received(row, f) == Ok(RowValue(row)) && ReceivedRow(row, f) == row
  {
    RowReads(row);
    SurvivesExactly(RowValue(row), f);
  }

  /** Rows without records that look like encoded dates or binary values verify, unchanged, exactly if they are complete. */
  lemma WrittenArchiveVerifies(header: Header, rows: seq<Row>, f: Formats, le: (string, string) -> bool)
    requires Lawful(f) && TotalPreorder(le) && RowsWritable(rows)
    ensures ReceivedRows(rows, f) == rows
    ensures !NotAnArchive(ReadingsOf(Written(ArchiveLines(header, rows, f, le)), f), f, le) <==> CompleteRows(header, rows)
  {
    forall i | 0 <= i < |rows| ensures Taken(rows[i]) && Received(rows[i], f).Ok? && ReceivedRow(rows[i], f) == rows[i] && Canonical(Obj(rows[i].fields), f) {
      WritableIsReceived(rows[i], f);
      UndisguisedIsCanonical(Obj(rows[i].fields), f);
    }
    SameTextExactly(rows, f);
    WrittenArchiveExactly(header, rows, f, le);
  }

  // ---- a complete archive that is refused ----

  /** A run whose output is a record that looks like encoded binary data. */
  function LooseRun(id: string, text: string): Row {
    Row(RUNS, [Entry("id", Str(id)), Entry("output", Obj([Entry("$binary", Str(text))]))])
  }

  lemma LooseRunIsTaken(id: string, text: string)
    ensures Taken(LooseRun(id, text))
  {
    var v := Obj(LooseRun(id, text).fields);
    assert v.entries[0] == Entry("id", Str(id)) && v.entries[1].value == Obj([Entry("$binary", Str(text))]);
    assert DatesValid(v.entries[1].value) && Representable(v.entries[1].value);
    assert "id"[0] == 'i' && "output"[0] == 'o';
    LettersAreNoIndex("id");
    LettersAreNoIndex("output");
  }

  lemma LooseRunIsComplete(header: Header, id: string, text: string)
    requires Bounded(id) && header.roots == [id]
    ensures CompleteRows(header, [LooseRun(id, text)])
  {
    var row := LooseRun(id, text);
    var fields := row.fields;
    assert Get(fields, "id") == Some(Str(id));
    assert |"id"| != |"attributes"| && |"output"| != |"attributes"| && fields[1..][1..] == [];
    assert Get(fields, "attributes") == Get(fields[1..], "attributes") == None;
    RunsAreKeyedById(row);
    assert RootOf(row) == RunOf(row) == id;
    assert row in [row];
  }

  lemma LooseRunIsLoose(id: string, text: string, f: Formats)
    requires f.readBase64(text).None? || f.base64(f.readBase64(text).value) != text
    ensures !Canonical(Obj(LooseRun(id, text).fields), f)
  {
    assert !Canonical(LooseRun(id, text).fields[1].value, f);
  }

  /**
   Text that is not base64, or not as base64 is written (as with leftover bits set or padding left out), makes the
   archive of a complete run unreadable.
   */
  lemma LooseRunIsRefused(header: Header, id: string, text: string, f: Formats, le: (string, string) -> bool)
    requires Lawful(f) && TotalPreorder(le) && Bounded(id) && header.roots == [id]
    requires f.readBase64(text).None? || f.base64(f.readBase64(text).value) != text
    requires TellsApart(f, Hashed(ReceivedValues([LooseRun(id, text)], f), f), Hashed(RowValues([LooseRun(id, text)]), f))
    ensures RowsTaken([LooseRun(id, text)]) && CompleteRows(header, [LooseRun(id, text)])
    ensures NotAnArchive(ReadingsOf(Written(ArchiveLines(header, [LooseRun(id, text)], f, le)), f), f, le)
  {
    var row := LooseRun(id, text);
    LooseRunIsTaken(id, text);
    LooseRunIsComplete(header, id, text);
    LooseRunIsLoose(id, text, f);
    assert !Canonical(Obj([row][0].fields), f);
    CanonicalArchivesVerify(header, [row], f, le);
  }

  // ---- a tree of two runs ----

  function RootRun(id: string): Row {
    Row(RUNS, [Entry("id", Str(id))])
  }

  /** A run that names the root of its tree. */
  function ChildRun(id: string, root: string): Row {
    Row(RUNS, [Entry("id", Str(id)), Entry("attributes", Obj([Entry("$rootRunId", Str(root))]))])
  }

  lemma RunTexts(id: string, root: string)
    requires Bounded(id)
    ensures ColumnText(RootRun(id), "id") == Some(id) && NamedRoot(RootRun(id)).None?
    ensures ColumnText(ChildRun(id, root), "id") == Some(id)
    ensures !Blank(root) ==> NamedRoot(ChildRun(id, root)) == Some(root)
  {
    var fields, child := RootRun(id).fields, ChildRun(id, root).fields;
    assert |"id"| != |"attributes"| && fields[1..] == [] && child[1..][1..] == [];
    assert Get(fields, "id") == Some(Str(id)) && Get(fields, "attributes") == Get(fields[1..], "attributes") == None;
    assert Get(child, "id") == Some(Str(id)) && Get(child, "attributes") == Get(child[1..], "attributes") == Some(child[1].value);
    assert Get([Entry("$rootRunId", Str(root))], "$rootRunId") == Some(Str(root));
  }

  lemma RunsAreWritable(id: string, root: string)
    ensures Writable(Obj(RootRun(id).fields)) && Writable(Obj(ChildRun(id, root).fields))
  {
    assert |"id"| == 2 && |"attributes"| == 10 && |"$rootRunId"| == 10 && |"$binary"| == 7 && |"$date"| == 5;
    assert "id"[0] == 'i' && "attributes"[0] == 'a';
    LettersAreNoIndex("id");
    LettersAreNoIndex("attributes");
    var leaf, attributes := Str(id), Obj([Entry("$rootRunId", Str(root))]);
    assert attributes.entries[0].value == Str(root) && Writable(leaf) && Writable(attributes);
    var v, w := Obj(RootRun(id).fields), Obj(ChildRun(id, root).fields);
    assert v.entries[0].value == leaf && w.entries[0].value == leaf && w.entries[1].value == attributes;
  }

  lemma TreeIsComplete(header: Header, root: string, child: string)
    requires header.roots == [root] && Bounded(root) && !Blank(root) && Bounded(child) && child != root
    ensures CompleteRows(header, [RootRun(root), ChildRun(child, root)])
  {
    var a, b := RootRun(root), ChildRun(child, root);
    var rows := [a, b];
    RunTexts(root, root);
    RunTexts(child, root);
    assert InTree(a, root) && InTree(b, root) && root in header.roots && a in rows;
    assert rows[..0] == [] && rows[..1] == [a];
    FitExactly(header.roots, DEFAULT_MAX_RECORDS, rows);
    assert forall n :: 0 <= n < |rows| ==> Takes(header.roots, DEFAULT_MAX_RECORDS, rows[..n], rows[n]);
    MissingMeaning(header.roots, DEFAULT_MAX_RECORDS, rows);
  }

  lemma RunsIsIdentifier()
    ensures IsIdentifier(RUNS)
  {
  }

  lemma TreeIsWritable(root: string, child: string)
    ensures RowsWritable([RootRun(root), ChildRun(child, root)])
  {
    RunsIsIdentifier();
    RunsAreWritable(root, root);
    RunsAreWritable(child, root);
  }

  /** The archive of a root with a child run that names it verifies. */
  lemma TreeVerifies(header: Header, root: string, child: string, f: Formats, le: (string, string) -> bool)
    requires Lawful(f) && TotalPreorder(le)
    requires header.roots == [root] && Bounded(root) && !Blank(root) && Bounded(child) && child != root
    ensures !NotAnArchive(ReadingsOf(Written(ArchiveLines(header, [RootRun(root), ChildRun(child, root)], f, le)), f), f, le)
  {
    TreeIsWritable(root, child);
    TreeIsComplete(header, root, child);
    WrittenArchiveVerifies(header, [RootRun(root), ChildRun(child, root)], f, le);
  }
}
