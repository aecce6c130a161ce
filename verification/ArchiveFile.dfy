/** Archive files: a header line, the rows, and a manifest that counts and hashes them. */
module ArchiveFile {
  import opened Common
  import opened ArchiveValue
  import opened ArchiveValidator
  import opened Sorting
  import opened Text

  datatype Header = Header(createdAt: string, sourceSchema: string, roots: seq<string>)

  datatype Line = HeaderLine(header: Header) | RowLine(row: Row) | ManifestLine(manifest: Manifest)

  datatype FileError =
    | InvalidJson | InvalidValue(reason: ValueError) | MissingKind | UnknownKind
    | InvalidHeader | InvalidRow | InvalidManifest
    | NoHeader | LateHeader | NoManifest | SecondManifest | RowAfterManifest
    | Refused(fault: Fault) | WrongChecksum

  // ---- lines and values ----

  function CountIn(v: Value): Option<nat> {
    if v.Num? && v.number >= 0.0 && v.number.Floor as real == v.number && v.number.Floor <= HIGHEST_SAFE_INTEGER
    then Some(v.number.Floor) else None
  }

  function TextIn(v: Option<Value>): Option<string> {
    if v.Some? && v.value.Str? then Some(v.value.text) else None
  }

  function Texts(items: seq<Value>): Option<seq<string>> {
    if items == [] then Some([])
    else
      var rest := Texts(items[1..]);
      if items[0].Str? && rest.Some? then Some([items[0].text] + rest.value) else None
  }

  function CountsIn(entries: seq<Entry>): Option<TableCounts> {
    if entries == [] then Some([])
    else
      var count, rest := CountIn(entries[0].value), CountsIn(entries[1..]);
      if count.Some? && rest.Some? then Some([(entries[0].key, count.value)] + rest.value) else None
  }

  predicate Hex64(s: string) {
    |s| == 64 && forall i :: 0 <= i < 64 ==> 'a' <= s[i] <= 'f' || '0' <= s[i] <= '9'
  }

  function HeaderIn(fields: Fields): Option<Header> {
    var createdAt, schema, roots := TextIn(Get(fields, "createdAt")), TextIn(Get(fields, "sourceSchema")), Get(fields, "rootRunIds");
    if TextIn(Get(fields, "format")) == Some(FORMAT_VERSION) && createdAt.Some? && schema.Some?
       && roots.Some? && roots.value.Arr? && Texts(roots.value.items).Some?
    then Some(Header(createdAt.value, schema.value, Texts(roots.value.items).value))
    else None
  }

  /** A date or a binary value counts as a record here, but as one without columns. */
  function RowIn(fields: Fields): Option<Row> {
    var table, row := TextIn(Get(fields, "table")), Get(fields, "row");
    if table.Some? && row.Some? then
      if row.value.Obj? then Some(Row(table.value, row.value.entries))
      else if row.value.Date? || row.value.Bytes? then Some(Row(table.value, []))
      else None
    else None
  }

  function ManifestIn(fields: Fields): Option<Manifest> {
    var count, counts, sha := Get(fields, "recordCount"), Get(fields, "tableCounts"), TextIn(Get(fields, "sha256"));
    if TextIn(Get(fields, "format")) == Some(FORMAT_VERSION) && count.Some? && CountIn(count.value).Some?
       && counts.Some? && counts.value.Obj? && CountsIn(counts.value.entries).Some? && sha.Some? && Hex64(sha.value)
    then Some(Manifest(FORMAT_VERSION, CountIn(count.value).value, CountsIn(counts.value.entries).value, sha.value))
    else None
  }

  function LineIn(v: Value): Result<Line, FileError> {
    if !v.Obj? then Err(MissingKind)
    else
      var kind := TextIn(Get(v.entries, "kind"));
      if kind.None? then Err(MissingKind)
      else if kind.value == "header" then
        var h := HeaderIn(v.entries);
        if h.Some? then Ok(HeaderLine(h.value)) else Err(InvalidHeader)
      else if kind.value == "row" then
        var r := RowIn(v.entries);
        if r.Some? then Ok(RowLine(r.value)) else Err(InvalidRow)
      else if kind.value == "manifest" then
        var m := ManifestIn(v.entries);
        if m.Some? then Ok(ManifestLine(m.value)) else Err(InvalidManifest)
      else Err(UnknownKind)
  }

  /** The decoded value of a line, which keeps fields nobody asked for, and the line it is. */
  datatype Decoded = Decoded(value: Value, line: Line)

  function DecodeLine(text: string, f: Formats): Result<Decoded, FileError> {
    var parsed := f.readJson(text);
    if parsed.None? then Err(InvalidJson)
    else
      var v := Decode(parsed.value, f);
      if v.Err? then Err(InvalidValue(v.error))
      else
        var line := LineIn(v.value);
        if line.Err? then Err(line.error) else Ok(Decoded(v.value, line.value))
  }

  /** The text of a line, without the newline that ends it. */
  function EncodeLine(v: Value, f: Formats): Result<string, ValueError> {
    var e := Encode(v, f);
    if e.Err? then Err(e.error) else Ok(f.json(e.value))
  }

  /** What the rows hash: their text, re-encoded from the decoded values, each with its newline. */
  function Hashed(values: seq<Value>, f: Formats): string {
    if values == [] then ""
    else
      var line := EncodeLine(values[|values| - 1], f);
      Hashed(values[..|values| - 1], f) + (if line.Ok? then line.value + "\n" else "")
  }

  // ---- what a line must hold ----

  lemma {:induction false} TextsMeaning(items: seq<Value>, texts: seq<string>)
    ensures Texts(items) == Some(texts) <==> |items| == |texts| && forall i :: 0 <= i < |items| ==> items[i] == Str(texts[i])
  {
    if items != [] && texts != [] {
      TextsMeaning(items[1..], texts[1..]);
      assert items == [items[0]] + items[1..] && texts == [texts[0]] + texts[1..];
    }
  }

  /** A count is a whole number that is not negative and that numbers can hold exactly. */
  lemma CountMeaning(v: Value, n: nat)
    ensures CountIn(v) == Some(n) <==> v == Num(n as real) && n <= 9_007_199_254_740_991
  {
    if v == Num(n as real) { assert v.number.Floor == n; }
  }

  lemma {:induction false} CountsInMeaning(entries: seq<Entry>, counts: TableCounts)
    ensures CountsIn(entries) == Some(counts) <==>
            |entries| == |counts| && forall i :: 0 <= i < |entries| ==>
              entries[i] == Entry(counts[i].0, Num(counts[i].1 as real)) && counts[i].1 <= 9_007_199_254_740_991
  {
    if entries != [] && counts != [] {
      CountMeaning(entries[0].value, counts[0].1);
      CountsInMeaning(entries[1..], counts[1..]);
      assert entries == [entries[0]] + entries[1..] && counts == [counts[0]] + counts[1..];
    }
  }

  /** A header line names its kind, the format, the time and schema it was made from, and the requested roots. */
  lemma HeaderMeaning(fields: Fields, h: Header)
    ensures LineIn(Obj(fields)) == Ok(HeaderLine(h)) <==>
            && Get(fields, "kind") == Some(Str("header")) && Get(fields, "format") == Some(Str("open-agent.workflow-archive.v2"))
            && Get(fields, "createdAt") == Some(Str(h.createdAt)) && Get(fields, "sourceSchema") == Some(Str(h.sourceSchema))
            && Get(fields, "rootRunIds").Some? && Get(fields, "rootRunIds").value.Arr?
            && var roots := Get(fields, "rootRunIds").value.items;
            |roots| == |h.roots| && forall i :: 0 <= i < |roots| ==> roots[i] == Str(h.roots[i])
  {
    var roots := Get(fields, "rootRunIds");
    if roots.Some? && roots.value.Arr? { TextsMeaning(roots.value.items, h.roots); }
  }

  /** A row line names its kind and table and holds the columns, or a value that has none. */
  lemma RowMeaning(fields: Fields, row: Row)
    ensures LineIn(Obj(fields)) == Ok(RowLine(row)) <==>
            && Get(fields, "kind") == Some(Str("row")) && Get(fields, "table") == Some(Str(row.table)) && Get(fields, "row").Some?
            && var columns := Get(fields, "row").value;
            columns == Obj(row.fields) || ((columns.Date? || columns.Bytes?) && row.fields == [])
  {
  }

  /** A manifest line names its kind and the format, counts the records of each table, and holds a digest in lower-case hexadecimal. */
  lemma ManifestMeaning(fields: Fields, m: Manifest)
    ensures LineIn(Obj(fields)) == Ok(ManifestLine(m)) <==>
            && Get(fields, "kind") == Some(Str("manifest")) && Get(fields, "format") == Some(Str("open-agent.workflow-archive.v2"))
            && m.format == "open-agent.workflow-archive.v2"
            && Get(fields, "recordCount") == Some(Num(m.recordCount as real)) && m.recordCount <= 9_007_199_254_740_991
            && Get(fields, "tableCounts").Some? && Get(fields, "tableCounts").value.Obj?
            && (var counts := Get(fields, "tableCounts").value.entries;
                |counts| == |m.tableCounts| && forall i :: 0 <= i < |counts| ==>
                  counts[i] == Entry(m.tableCounts[i].0, Num(m.tableCounts[i].1 as real)) && m.tableCounts[i].1 <= 9_007_199_254_740_991)
            && Get(fields, "sha256") == Some(Str(m.sha256))
            && |m.sha256| == 64 && forall i :: 0 <= i < 64 ==> '0' <= m.sha256[i] <= '9' || 'a' <= m.sha256[i] <= 'f'
  {
    var count, counts := Get(fields, "recordCount"), Get(fields, "tableCounts");
    if count.Some? { CountMeaning(count.value, m.recordCount); }
    if counts.Some? && counts.value.Obj? { CountsInMeaning(counts.value.entries, m.tableCounts); }
  }

  // ---- what a valid file is ----

  /** The lines that are not blank; the others are skipped. */
  function Written(lines: seq<string>): seq<string> {
    if lines == [] then []
    else Written(lines[..|lines| - 1]) + (if Blank(lines[|lines| - 1]) then [] else [lines[|lines| - 1]])
  }

  type Readings = seq<Result<Decoded, FileError>>

  function ReadingsOf(text: seq<string>, f: Formats): Readings {
    seq(|text|, i requires 0 <= i < |text| => DecodeLine(text[i], f))
  }

  ghost predicate ReadsAs(lines: Readings, k: int, line: Line) {
    0 <= k < |lines| && lines[k].Ok? && lines[k].value.line == line
  }

  ghost predicate ReadsAsRow(lines: Readings, k: int, value: Value, row: Row) {
    0 <= k < |lines| && lines[k] == Ok(Decoded(value, RowLine(row)))
  }

  ghost predicate ReadsAsRows(lines: Readings, values: seq<Value>, rows: seq<Row>) {
    |values| == |rows| && forall i :: 0 <= i < |rows| ==> ReadsAsRow(lines, i + 1, values[i], rows[i])
  }

  /** The lines read as a header, the rows and a manifest, in this order, and together make a whole, unaltered archive. */
  ghost predicate IsArchive(lines: Readings, f: Formats, le: (string, string) -> bool,
                            header: Header, values: seq<Value>, rows: seq<Row>, manifest: Manifest) {
    && |lines| == |rows| + 2
    && ReadsAs(lines, 0, HeaderLine(header))
    && ReadsAsRows(lines, values, rows)
    && ReadsAs(lines, |rows| + 1, ManifestLine(manifest))
    && WholeArchive(header.roots, DEFAULT_MAX_RECORDS, rows, manifest, le)
    && manifest.sha256 == f.sha256(Hashed(values, f))
  }

  datatype Verified = Verified(summary: Summary, manifest: Manifest, sourceSchema: string)

  /** What the verifier reports about an archive. */
  ghost predicate Reports(lines: Readings, f: Formats, le: (string, string) -> bool, v: Verified) {
    exists header, values, rows ::
      && IsArchive(lines, f, le, header, values, rows, v.manifest)
      && v == Verified(Summary(|rows|, v.manifest.tableCounts, Count(rows, RUNS), set root | root in header.roots), v.manifest, header.sourceSchema)
  }

  ghost predicate NotAnArchive(lines: Readings, f: Formats, le: (string, string) -> bool) {
    forall header, values, rows, manifest :: !IsArchive(lines, f, le, header, values, rows, manifest)
  }

  lemma {:induction false} WrittenPrefix(lines: seq<string>, i: nat)
    requires i <= |lines|
    ensures Written(lines[..i]) <= Written(lines)
    decreases |lines| - i
  {
    if i < |lines| {
      assert lines[..i + 1][..i] == lines[..i];
      WrittenPrefix(lines, i + 1);
    } else {
      assert lines[..i] == lines;
    }
  }

  /** Every line of an archive reads, the first as the header, the last as the manifest, the others as rows. */
  lemma LinesOfArchive(lines: Readings, f: Formats, le: (string, string) -> bool,
                       header: Header, values: seq<Value>, rows: seq<Row>, manifest: Manifest, k: nat)
    requires IsArchive(lines, f, le, header, values, rows, manifest) && k < |lines|
    ensures lines[k].Ok?
    ensures (lines[k].value.line.HeaderLine? <==> k == 0) && (lines[k].value.line.ManifestLine? <==> k == |lines| - 1)
  {
    if 0 < k < |lines| - 1 {
      assert ReadsAsRow(lines, k - 1 + 1, values[k - 1], rows[k - 1]);
    }
  }

  /** Line `k` cannot stand where it does. */
  ghost predicate Misplaced(lines: Readings, k: nat)
    requires k < |lines|
  {
    lines[k].Err? || (lines[k].value.line.HeaderLine? != (k == 0)) || (lines[k].value.line.ManifestLine? != (k == |lines| - 1))
  }

  lemma BrokenLine(lines: Readings, f: Formats, le: (string, string) -> bool, k: nat)
    requires k < |lines| && Misplaced(lines, k)
    ensures NotAnArchive(lines, f, le)
  {
    forall header, values, rows, manifest ensures !IsArchive(lines, f, le, header, values, rows, manifest) {
      if IsArchive(lines, f, le, header, values, rows, manifest) {
        LinesOfArchive(lines, f, le, header, values, rows, manifest, k);
      }
    }
  }

  /** Two readings of the same lines agree, as far as both go. */
  lemma ReadingsAgree(lines: Readings, values: seq<Value>, rows: seq<Row>, values': seq<Value>, rows': seq<Row>)
    requires ReadsAsRows(lines, values, rows) && ReadsAsRows(lines, values', rows') && |rows'| <= |rows|
    ensures rows' == rows[..|rows'|] && values' == values[..|rows'|]
  {
    forall i | 0 <= i < |rows'| ensures values'[i] == values[i] && rows'[i] == rows[i] {
      assert ReadsAsRow(lines, i + 1, values[i], rows[i]);
      assert ReadsAsRow(lines, i + 1, values'[i], rows'[i]);
    }
  }

  lemma NoMoreRows(lines: Readings, f: Formats, le: (string, string) -> bool,
                   header: Header, values: seq<Value>, rows: seq<Row>, manifest: Manifest, values': seq<Value>, rows': seq<Row>)
    requires IsArchive(lines, f, le, header, values, rows, manifest) && ReadsAsRows(lines, values', rows')
    ensures |rows'| <= |rows|
  {
    var k := |rows|;
    assert k < |rows'| ==> ReadsAsRow(lines, k + 1, values'[k], rows'[k]);
  }

  lemma RefusedHeader(lines: Readings, f: Formats, le: (string, string) -> bool, header: Header)
    requires ReadsAs(lines, 0, HeaderLine(header)) && !HeaderFits(header.roots, DEFAULT_MAX_RECORDS)
    ensures NotAnArchive(lines, f, le)
  {
  }

  lemma RefusedRow(lines: Readings, f: Formats, le: (string, string) -> bool, header: Header, values: seq<Value>, rows: seq<Row>)
    requires ReadsAs(lines, 0, HeaderLine(header)) && ReadsAsRows(lines, values, rows)
    requires !RowsFit(header.roots, DEFAULT_MAX_RECORDS, rows)
    ensures NotAnArchive(lines, f, le)
  {
    forall h, vs, rs, m ensures !IsArchive(lines, f, le, h, vs, rs, m) {
      if IsArchive(lines, f, le, h, vs, rs, m) {
        NoMoreRows(lines, f, le, h, vs, rs, m, values, rows);
        FitsPrefix(h.roots, DEFAULT_MAX_RECORDS, rs, |rows|);
        ReadingsAgree(lines, vs, rs, values, rows);
      }
    }
  }

  lemma RefusedManifest(lines: Readings, f: Formats, le: (string, string) -> bool,
                        header: Header, values: seq<Value>, rows: seq<Row>, manifest: Manifest)
    requires |lines| == |rows| + 2 && ReadsAs(lines, 0, HeaderLine(header)) && ReadsAsRows(lines, values, rows)
    requires ReadsAs(lines, |rows| + 1, ManifestLine(manifest))
    requires !WholeArchive(header.roots, DEFAULT_MAX_RECORDS, rows, manifest, le) || manifest.sha256 != f.sha256(Hashed(values, f))
    ensures NotAnArchive(lines, f, le)
  {
    forall h, vs, rs, m ensures !IsArchive(lines, f, le, h, vs, rs, m) {
      if |rs| == |rows| && ReadsAsRows(lines, vs, rs) {
        ReadingsAgree(lines, vs, rs, values, rows);
        assert rs == rows && vs == values;
      }
    }
  }

  // ---- the line-by-line verifier ----

  /** JSON text is read as a plain value. */
  ghost predicate JsonIsPlain(f: Formats) {
    forall s: string :: f.readJson(s).Some? ==> Plain(f.readJson(s).value)
  }

  /** What the loop knows after the first `k` lines. */
  ghost predicate Progress(lines: Readings, k: nat, header: Option<Header>, values: seq<Value>, rows: seq<Row>, manifest: Option<Manifest>) {
    && k <= |lines| && ReadsAsRows(lines, values, rows)
    && (header.None? ==> k == 0 && rows == [] && manifest.None?)
    && (header.Some? ==>
          && k == 1 + |rows| + (if manifest.Some? then 1 else 0)
          && ReadsAs(lines, 0, HeaderLine(header.value))
          && (manifest.Some? ==> ReadsAs(lines, k - 1, ManifestLine(manifest.value))))
  }

  /** Decoded lines hold no invalid date, so they always encode. */
  lemma DecodedEncodes(text: string, f: Formats)
    requires JsonIsPlain(f) && DecodeLine(text, f).Ok?
    ensures EncodeLine(DecodeLine(text, f).value.value, f).Ok?
  {
    var p := f.readJson(text).value;
    DecodedSurvives(p, f);
    EncodeWorks(Decode(p, f).value, f);
  }

  lemma NotFinished(lines: Readings, f: Formats, le: (string, string) -> bool, header: Option<Header>, values: seq<Value>, rows: seq<Row>)
    requires Progress(lines, |lines|, header, values, rows, None)
    ensures NotAnArchive(lines, f, le)
  {
    if header.Some? {
      if rows == [] {
        BrokenLine(lines, f, le, 0);
      } else {
        assert ReadsAsRow(lines, |rows| - 1 + 1, values[|rows| - 1], rows[|rows| - 1]);
        BrokenLine(lines, f, le, |rows|);
      }
    }
  }

  /** The validator of the header has taken the rows. */
  ghost predicate Follows(validator: Validator?, header: Option<Header>, rows: seq<Row>)
    reads validator
  {
    header.Some? ==>
      && validator != null && validator.Valid() && validator.rows == rows
      && validator.roots == header.value.roots && validator.maxRecords == DEFAULT_MAX_RECORDS
  }

  /** Validates one row and hashes its text. */
  method TakeRow(validator: Validator, row: Row, value: Value, hashed: string, f: Formats,
                 ghost read: Readings, ghost le: (string, string) -> bool, ghost header: Header, ghost values: seq<Value>)
    returns (r: Result<string, FileError>)
    requires Follows(validator, Some(header), validator.rows)
    requires ReadsAs(read, 0, HeaderLine(header)) && ReadsAsRows(read, values + [value], validator.rows + [row])
    requires hashed == Hashed(values, f) && EncodeLine(value, f).Ok?
    modifies validator
    ensures r.Err? ==> NotAnArchive(read, f, le)
    ensures r.Ok? ==> Follows(validator, Some(header), old(validator.rows) + [row]) && r.value == Hashed(values + [value], f)
  {
    ghost var rows := validator.rows;
    AddFaultMeaning(header.roots, DEFAULT_MAX_RECORDS, rows, row);
    var added := validator.Add(row);
    if added.Err? {
      RefusedRow(read, f, le, header, values + [value], rows + [row]);
      return Err(Refused(added.error));
    }
    var encoded := EncodeLine(value, f);
    assert (values + [value])[..|values|] == values;
    r := Ok(hashed + (encoded.value + "\n"));
  }

  /** Finishes the validation and compares the hashes. */
  method FinishFile(validator: Validator, header: Header, manifest: Manifest, hashed: string, f: Formats, le: (string, string) -> bool,
                    ghost read: Readings, ghost values: seq<Value>)
    returns (r: Result<Verified, FileError>)
    requires Follows(validator, Some(header), validator.rows)
    requires Progress(read, |read|, Some(header), values, validator.rows, Some(manifest)) && hashed == Hashed(values, f)
    ensures r.Ok? ==> Reports(read, f, le, r.value)
    ensures r.Err? ==> NotAnArchive(read, f, le)
  {
    var summary := validator.Finish(manifest, le);
    if summary.Err? || f.sha256(hashed) != manifest.sha256 {
      RefusedManifest(read, f, le, header, values, validator.rows, manifest);
      return Err(if summary.Err? then Refused(summary.error) else WrongChecksum);
    }
    Accepted(read, f, le, header, values, validator.rows, manifest);
    r := Ok(Verified(summary.value, manifest, header.sourceSchema));
  }

  lemma Accepted(read: Readings, f: Formats, le: (string, string) -> bool, header: Header, values: seq<Value>, rows: seq<Row>, manifest: Manifest)
    requires Progress(read, |read|, Some(header), values, rows, Some(manifest)) && manifest.sha256 == f.sha256(Hashed(values, f))
    requires WholeArchive(header.roots, DEFAULT_MAX_RECORDS, rows, manifest, le)
    ensures Reports(read, f, le, Verified(Summary(|rows|, manifest.tableCounts, Count(rows, RUNS), set root | root in header.roots), manifest, header.sourceSchema))
  {
    assert IsArchive(read, f, le, header, values, rows, manifest);
  }

  lemma RowsNext(read: Readings, values: seq<Value>, rows: seq<Row>, value: Value, row: Row)
    requires ReadsAsRows(read, values, rows) && ReadsAsRow(read, |rows| + 1, value, row)
    ensures ReadsAsRows(read, values + [value], rows + [row])
  {
  }

  /** The next line that is not blank is the next one to read. */
  lemma NextLine(lines: seq<string>, i: nat, f: Formats)
    requires i < |lines|
    ensures Blank(lines[i]) ==> Written(lines[..i + 1]) == Written(lines[..i])
    ensures !Blank(lines[i]) ==>
              var k, read := |Written(lines[..i])|, ReadingsOf(Written(lines), f);
              |Written(lines[..i + 1])| == k + 1 && k < |read| && read[k] == DecodeLine(lines[i], f)
  {
    assert lines[..i + 1][..i] == lines[..i];
    WrittenPrefix(lines, i + 1);
  }

  /** Accepts exactly the files whose written lines are a whole archive with the right checksum. */
  method VerifyWorkflowArchiveFile(lines: seq<string>, f: Formats, le: (string, string) -> bool) returns (r: Result<Verified, FileError>)
    requires JsonIsPlain(f)
    ensures r.Ok? ==> Reports(ReadingsOf(Written(lines), f), f, le, r.value)
    ensures r.Err? <==> NotAnArchive(ReadingsOf(Written(lines), f), f, le)
  {
    ghost var read, k, values, rows := ReadingsOf(Written(lines), f), 0, [], [];
    var header, manifest, hashed := None, None, "";
    var validator: Validator? := null;
    for i := 0 to |lines|
      invariant k == |Written(lines[..i])|
      invariant Progress(read, k, header, values, rows, manifest)
      invariant header.Some? ==> fresh(validator)
      invariant Follows(validator, header, rows)
      invariant hashed == Hashed(values, f)
    {
      NextLine(lines, i, f);
      if Blank(lines[i]) { continue; }
      var decoded := DecodeLine(lines[i], f);
      if decoded.Err? {
        BrokenLine(read, f, le, k);
        return Err(decoded.error);
      }
      var line := decoded.value.line;
      if header.None? {
        if !line.HeaderLine? {
          BrokenLine(read, f, le, 0);
          return Err(NoHeader);
        }
        header := Some(line.header);
        if !UsableRoots(line.header.roots) {
          RefusedHeader(read, f, le, line.header);
          return Err(Refused(BadRoots));
        }
        validator := new Validator(line.header.roots, DEFAULT_MAX_RECORDS);
      } else if line.ManifestLine? {
        if manifest.Some? {
          BrokenLine(read, f, le, k - 1);
          return Err(SecondManifest);
        }
        manifest := Some(line.manifest);
      } else {
        if line.HeaderLine? {
          BrokenLine(read, f, le, k);
          return Err(LateHeader);
        }
        if manifest.Some? {
          BrokenLine(read, f, le, k - 1);
          return Err(RowAfterManifest);
        }
        DecodedEncodes(lines[i], f);
        RowsNext(read, values, rows, decoded.value.value, line.row);
        var taken := TakeRow(validator, line.row, decoded.value.value, hashed, f, read, le, header.value, values);
        if taken.Err? { return Err(taken.error); }
        hashed, values, rows := taken.value, values + [decoded.value.value], rows + [line.row];
      }
      k := k + 1;
    }
    assert lines[..|lines|] == lines;
    if header.None? || manifest.None? {
      NotFinished(read, f, le, header, values, rows);
      return Err(if header.None? then NoHeader else NoManifest);
    }
    r := FinishFile(validator, header.value, manifest.value, hashed, f, le, read, values);
  }

  predicate UsableRoots(roots: seq<string>)
    ensures UsableRoots(roots) <==> HeaderFits(roots, DEFAULT_MAX_RECORDS)
  {
    roots != [] && forall i, j :: 0 <= i < j < |roots| ==> roots[i] != roots[j]
  }
}
