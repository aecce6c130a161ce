/** Writing archives: the accumulator of row lines, and the proof that what it writes verifies. */
module ArchiveWriter {
  import opened Common
  import opened ArchiveValue
  import opened ArchiveValidator
  import opened ArchiveFile
  import opened ArchiveText
  import opened Counting
  import opened Text
  import opened Sorting

  datatype WriteError = BadTable | Unencodable(reason: ValueError) | BadDate | BadSchema | NoRoots

  // ---- identifiers and headers ----

  /** Letters without regard to case, which for Unicode matching takes in two more characters; or an underscore. */
  predicate IdentifierStart(c: char) {
    'a' <= c <= 'z' || 'A' <= c <= 'Z' || c == '_' || c == '\U{17f}' || c == '\U{212a}'
  }

  predicate IsIdentifier(s: string) {
    s != "" && IdentifierStart(s[0]) && forall i :: 1 <= i < |s| ==> IdentifierStart(s[i]) || '0' <= s[i] <= '9'
  }

  /** The characters of an identifier by code point; only the first may not be a digit. */
  lemma IdentifierMeaning(s: string)
    ensures IsIdentifier(s) <==>
      && s != "" && !Digit(s[0])
      && forall i :: 0 <= i < |s| ==>
           var c := s[i] as int;
           0x30 <= c < 0x3a || 0x41 <= c < 0x5b || c == 0x5f || 0x61 <= c < 0x7b || c == 0x17f || c == 0x212a
  {
  }

  /** Trimmed, not empty, each once, in order of first appearance. */
  function CleanRoots(ids: seq<string>): (r: seq<string>)
    ensures NoDuplicates(r) && forall id :: id in r ==> id != ""
  {
    if ids == [] then []
    else
      var before, id := CleanRoots(ids[..|ids| - 1]), Trim(ids[|ids| - 1]);
      if id == "" || id in before then before else before + [id]
  }

  function CreateHeader(createdAt: string, sourceSchema: string, ids: seq<string>, f: Formats, le: (string, string) -> bool): Result<Header, WriteError> {
    if f.readIso(createdAt).None? then Err(BadDate)
    else if !IsIdentifier(sourceSchema) then Err(BadSchema)
    else
      var roots := SortBy(CleanRoots(ids), le);
      if roots == [] then Err(NoRoots) else Ok(Header(createdAt, sourceSchema, roots))
  }

  /** A created header can be validated against, and requests exactly the given ids that are not blank. */
  lemma CreatedHeaderFits(createdAt: string, sourceSchema: string, ids: seq<string>, f: Formats, le: (string, string) -> bool)
    requires TotalPreorder(le) && CreateHeader(createdAt, sourceSchema, ids, f, le).Ok?
    ensures var roots := CreateHeader(createdAt, sourceSchema, ids, f, le).value.roots;
            && HeaderFits(roots, DEFAULT_MAX_RECORDS)
            && forall root :: root in roots <==> root != "" && exists id :: id in ids && Trim(id) == root
  {
    var clean := CleanRoots(ids);
    var roots := SortBy(clean, le);
    SortSorts(clean, le);
    CleanRootsMeaning(ids);
    DistinctPermuted(clean, roots);
  }

  predicate AllBlank(ids: seq<string>) {
    forall i :: 0 <= i < |ids| ==> Blank(ids[i])
  }

  lemma {:induction false} CleanRootsEmpty(ids: seq<string>)
    ensures CleanRoots(ids) == [] <==> AllBlank(ids)
  {
    if ids != [] {
      var init, last := ids[..|ids| - 1], ids[|ids| - 1];
      CleanRootsEmpty(init);
      var a, b := TrimParts(last);
      assert AllBlank(ids) <==> AllBlank(init) && Blank(last);
      assert Trim(last) in CleanRoots(init) ==> CleanRoots(init) != [];
    }
  }

  /** When a header is created, with the roots in order, and which error is reported otherwise. */
  lemma CreatedHeaderExactly(createdAt: string, sourceSchema: string, ids: seq<string>, f: Formats, le: (string, string) -> bool)
    requires TotalPreorder(le)
    ensures var r := CreateHeader(createdAt, sourceSchema, ids, f, le);
            if f.readIso(createdAt).None? then r == Err(BadDate)
            else if !IsIdentifier(sourceSchema) then r == Err(BadSchema)
            else if AllBlank(ids) then r == Err(NoRoots)
            else r.Ok? && r.value.createdAt == createdAt && r.value.sourceSchema == sourceSchema && Sorted(r.value.roots, le)
  {
    SortSorts(CleanRoots(ids), le);
    CleanRootsEmpty(ids);
  }

  lemma {:induction false} CleanRootsMeaning(ids: seq<string>)
    ensures forall root :: root in CleanRoots(ids) <==> root != "" && exists id :: id in ids && Trim(id) == root
  {
    if ids != [] {
      var init, last := ids[..|ids| - 1], ids[|ids| - 1];
      CleanRootsMeaning(init);
      assert ids == init + [last];
      forall root | root in CleanRoots(ids) ensures root != "" && exists id :: id in ids && Trim(id) == root {
        if root in CleanRoots(init) {
          var id :| id in init && Trim(id) == root;
          assert id in ids;
        } else {
          assert last in ids && Trim(last) == root;
        }
      }
      forall id | id in ids && Trim(id) != "" ensures Trim(id) in CleanRoots(ids) {
        if id in init { assert Trim(id) in CleanRoots(init); }
      }
    }
  }

  // ---- lines as values ----

  function StrAll(texts: seq<string>): seq<Value> {
    seq(|texts|, i requires 0 <= i < |texts| => Str(texts[i]))
  }

  function CountsValue(counts: TableCounts): seq<Entry> {
    seq(|counts|, i requires 0 <= i < |counts| => Entry(counts[i].0, Num(counts[i].1 as real)))
  }

  function HeaderValue(h: Header): Value {
    Obj([Entry("kind", Str("header")), Entry("format", Str(FORMAT_VERSION)), Entry("createdAt", Str(h.createdAt)),
         Entry("sourceSchema", Str(h.sourceSchema)), Entry("rootRunIds", Arr(StrAll(h.roots)))])
  }

  function RowValue(row: Row): Value {
    Obj([Entry("kind", Str("row")), Entry("table", Str(row.table)), Entry("row", Obj(row.fields))])
  }

  function ManifestValue(m: Manifest): Value {
    Obj([Entry("kind", Str("manifest")), Entry("format", Str(m.format)), Entry("recordCount", Num(m.recordCount as real)),
         Entry("tableCounts", Obj(CountsValue(m.tableCounts))), Entry("sha256", Str(m.sha256))])
  }

  function RowValues(rows: seq<Row>): seq<Value> {
    seq(|rows|, i requires 0 <= i < |rows| => RowValue(rows[i]))
  }

  /** The manifest that counts and hashes the rows. */
  function ManifestOf(rows: seq<Row>, f: Formats, le: (string, string) -> bool): Manifest {
    Manifest(FORMAT_VERSION, |rows|, CountsOf(rows, le), f.sha256(Hashed(RowValues(rows), f)))
  }

  // ---- the accumulator ----

  class Accumulator {
    var recordCount: nat
    var tableOrder: seq<string>
    var tableCounts: map<string, nat>
    var hashed: string
    ghost var rows: seq<Row>

    ghost predicate Valid(f: Formats)
      reads this
    {
      recordCount == |rows| && CountsAgree(rows, tableOrder, tableCounts) && hashed == Hashed(RowValues(rows), f)
    }

    constructor (f: Formats)
      ensures Valid(f) && rows == []
    {
      recordCount, tableOrder, tableCounts, hashed, rows := 0, [], map[], "", [];
    }

    method Add(row: Row, f: Formats) returns (r: Result<string, WriteError>)
      requires Valid(f)
      modifies this
      ensures Valid(f)
      ensures r.Ok? <==> IsIdentifier(row.table) && DatesValid(Obj(row.fields))
      ensures r.Ok? ==> rows == old(rows) + [row] && EncodeLine(RowValue(row), f) == Ok(r.value)
      ensures r.Err? ==> rows == old(rows)
    {
      if !IsIdentifier(row.table) { return Err(BadTable); }
      var line := EncodeLine(RowValue(row), f);
      EncodeWorks(RowValue(row), f);
      RowDates(row);
      if line.Err? { return Err(Unencodable(line.error)); }
      HashedNext(rows, row, f);
      hashed := hashed + (line.value + "\n");
      recordCount := recordCount + 1;
      NoteTable(row);
      rows := rows + [row];
      r := Ok(line.value);
    }

    method NoteTable(row: Row)
      requires CountsAgree(rows, tableOrder, tableCounts)
      modifies this`tableOrder, this`tableCounts
      ensures CountsAgree(rows + [row], tableOrder, tableCounts)
    {
      CountsNext(rows, row, tableOrder, tableCounts);
      var count := if row.table in tableCounts then tableCounts[row.table] else 0;
      if row.table !in tableOrder { tableOrder := tableOrder + [row.table]; }
      tableCounts := tableCounts[row.table := count + 1];
    }

    method Finish(f: Formats, le: (string, string) -> bool) returns (m: Manifest)
      requires Valid(f)
      ensures m == ManifestOf(rows, f, le)
    {
      var names := SortBy(tableOrder, le);
      var counts := [];
      for i := 0 to |names|
        invariant counts == CountsOf(rows, le)[..i]
      {
        var count := if names[i] in tableCounts then tableCounts[names[i]] else 0;
        counts := counts + [(names[i], count)];
      }
      m := Manifest(FORMAT_VERSION, recordCount, counts, f.sha256(hashed));
    }
  }

  lemma RowDates(row: Row)
    ensures DatesValid(RowValue(row)) <==> DatesValid(Obj(row.fields))
  {
    var v := RowValue(row);
    assert v.entries[2].value == Obj(row.fields);
  }

  lemma HashedNext(rows: seq<Row>, row: Row, f: Formats)
    ensures Hashed(RowValues(rows + [row]), f)
            == Hashed(RowValues(rows), f) + (var line := EncodeLine(RowValue(row), f); if line.Ok? then line.value + "\n" else "")
  {
    var values := RowValues(rows + [row]);
    assert values[..|values| - 1] == RowValues(rows);
  }

  // ---- what is written is read back ----

  function Pow2(n: nat): (r: nat)
    ensures r > 0
  {
    if n == 0 then 1 else 2 * Pow2(n - 1)
  }

  /** `m` times two to the power `e`. */
  function Scaled(m: int, e: int): real {
    if e >= 0 then (m * Pow2(e)) as real else m as real / Pow2(-e) as real
  }

  ghost predicate FitsDouble(m: int, e: int) {
    0 - HIGHEST_SAFE_INTEGER <= m <= HIGHEST_SAFE_INTEGER && -1074 <= e <= 971
  }

  /** A finite double: at most 53 significant bits. */
  ghost predicate IsDouble(x: real) {
    exists m: int, e: int :: FitsDouble(m, e) && x == Scaled(m, e)
  }

  /** A key that records list before all others, in numeric order. */
  predicate IndexKey(key: string) {
    && key != "" && (forall i :: 0 <= i < |key| ==> Digit(key[i]))
    && (key[0] == '0' ==> |key| == 1) && NumberOf(key) < 4_294_967_295
  }

  /** The order in which a record lists two of its keys; in particular they differ. */
  predicate ListedBefore(a: string, b: string) {
    a != b && (IndexKey(b) ==> IndexKey(a) && NumberOf(a) < NumberOf(b))
  }

  /** A value that exists at run time: numbers are doubles, and records list their keys in the order they always do. */
  ghost predicate Representable(v: Value) {
    && (v.Num? ==> IsDouble(v.number))
    && (v.Arr? ==> forall i :: 0 <= i < |v.items| ==> Representable(v.items[i]))
    && (v.Obj? ==> forall i, j :: 0 <= i < j < |v.entries| ==> ListedBefore(v.entries[i].key, v.entries[j].key))
    && (v.Obj? ==> forall i :: 0 <= i < |v.entries| ==> Representable(v.entries[i].value))
  }

  ghost predicate JsonReadsBack(f: Formats) {
    forall v: Value :: Plain(v) && Representable(v) ==> f.readJson(f.json(v)) == Some(v) && !Blank(f.json(v))
  }

  /** JSON text escapes line feeds and carriage returns. */
  ghost predicate JsonIsOneLine(f: Formats) {
    forall v: Value :: Plain(v) && Representable(v) ==> Clean(f.json(v))
  }

  /** The text of a record starts with a brace, and nothing shorter that starts it is JSON text. */
  ghost predicate RecordsAreDelimited(f: Formats) {
    forall v: Value :: Plain(v) && Representable(v) && v.Obj? ==> Delimited(f.json(v), f)
  }

  ghost predicate Delimited(text: string, f: Formats) {
    text != "" && text[0] == '{' && forall n :: 0 <= n < |text| ==> f.readJson(text[..n]).None?
  }

  ghost predicate HashIsHex(f: Formats) {
    forall s: string :: Hex64(f.sha256(s))
  }

  ghost predicate Lawful(f: Formats) {
    ValuesReadBack(f) && JsonIsPlain(f) && JsonReadsBack(f) && JsonIsOneLine(f) && RecordsAreDelimited(f) && HashIsHex(f)
  }

  lemma {:induction false} EncodingKeepsShape(v: Value, f: Formats)
    requires Representable(v) && Encode(v, f).Ok?
    ensures Representable(Encode(v, f).value)
  {
    var e := Encode(v, f).value;
    if v.Arr? {
      var rs := seq(|v.items|, i requires 0 <= i < |v.items| => Encode(v.items[i], f));
      forall i | 0 <= i < |v.items| ensures Representable(e.items[i]) {
        assert Collect(rs) == Ok(e.items) && rs[i] == Ok(e.items[i]);
        EncodingKeepsShape(v.items[i], f);
      }
    } else if v.Obj? {
      var rs := seq(|v.entries|, i requires 0 <= i < |v.entries| => Encode(v.entries[i].value, f));
      forall i | 0 <= i < |v.entries| ensures Representable(e.entries[i].value) {
        assert Collect(rs).Ok? && rs[i] == Ok(e.entries[i].value);
        EncodingKeepsShape(v.entries[i].value, f);
      }
    }
  }

  /** A value that exists at run time and survives encoding. */
  ghost predicate Writable(v: Value) {
    DatesValid(v) && Undisguised(v) && Representable(v)
  }

  function LineText(v: Value, f: Formats): string {
    var line := EncodeLine(v, f);
    if line.Ok? then line.value else ""
  }

  lemma WrittenLineReads(v: Value, f: Formats)
    requires Lawful(f) && Writable(v)
    ensures !Blank(LineText(v, f))
    ensures DecodeLine(LineText(v, f), f) == var line := LineIn(v); if line.Ok? then Ok(Decoded(v, line.value)) else Err(line.error)
  {
    SurvivesExactly(v, f);
    EncodeWorks(v, f);
    EncodingKeepsShape(v, f);
  }

  lemma {:induction false} TextsRead(texts: seq<string>)
    ensures Texts(StrAll(texts)) == Some(texts)
  {
    if texts != [] {
      TextsRead(texts[1..]);
      assert StrAll(texts)[1..] == StrAll(texts[1..]) && [texts[0]] + texts[1..] == texts;
    }
  }

  lemma {:induction false} CountsRead(counts: TableCounts)
    requires forall i :: 0 <= i < |counts| ==> counts[i].1 <= HIGHEST_SAFE_INTEGER
    ensures CountsIn(CountsValue(counts)) == Some(counts)
  {
    if counts != [] {
      CountsRead(counts[1..]);
      assert CountsValue(counts)[1..] == CountsValue(counts[1..]) && [counts[0]] + counts[1..] == counts;
      assert counts[0] == (counts[0].0, counts[0].1);
      assert CountIn(Num(counts[0].1 as real)) == Some(counts[0].1);
    }
  }

  /** A small integer is a double. */
  lemma IntegerIsDouble(n: nat)
    requires n <= HIGHEST_SAFE_INTEGER
    ensures IsDouble(n as real)
  {
    assert FitsDouble(n, 0) && Scaled(n, 0) == n as real;
  }

  /** A record of several writable values under listed keys is writable. */
  lemma RecordWritable(fields: Fields)
    requires |fields| != 1 && forall i, j :: 0 <= i < j < |fields| ==> ListedBefore(fields[i].key, fields[j].key)
    requires forall i :: 0 <= i < |fields| ==> Writable(fields[i].value)
    ensures Writable(Obj(fields))
  {
    var v := Obj(fields);
    assert forall i :: 0 <= i < |fields| ==> Writable(fields[i].value) ==> DatesValid(v.entries[i].value) && Undisguised(v.entries[i].value) && Representable(v.entries[i].value);
  }

  lemma LeavesWritable(text: string, texts: seq<string>, count: nat)
    requires count <= HIGHEST_SAFE_INTEGER
    ensures Writable(Str(text)) && Writable(Arr(StrAll(texts))) && Writable(Num(count as real))
  {
    IntegerIsDouble(count);
    var v := Arr(StrAll(texts));
    assert forall i :: 0 <= i < |texts| ==> v.items[i] == Str(texts[i]);
  }

  lemma CountsWritable(counts: TableCounts)
    requires ManageableCounts(counts)
    ensures Writable(Obj(CountsValue(counts)))
  {
    var v := Obj(CountsValue(counts));
    forall i | 0 <= i < |counts| ensures v.entries[i] == Entry(counts[i].0, Num(counts[i].1 as real)) && Representable(v.entries[i].value) {
      IntegerIsDouble(counts[i].1);
    }
  }

  /** Each table counted once, by a name that no record lists out of order, and no more than numbers can count. */
  ghost predicate ManageableCounts(counts: TableCounts) {
    && (forall i :: 0 <= i < |counts| ==> counts[i].1 <= HIGHEST_SAFE_INTEGER && !IndexKey(counts[i].0))
    && (forall i, j :: 0 <= i < j < |counts| ==> counts[i].0 != counts[j].0)
  }

  lemma LettersAreNoIndex(key: string)
    requires key != "" && !Digit(key[0])
    ensures !IndexKey(key)
  {
  }

  lemma HeaderWritable(h: Header)
    ensures Writable(HeaderValue(h))
  {
    var e := HeaderValue(h).entries;
    forall i | 0 <= i < 5 ensures Writable(e[i].value) {
      if i < 4 { LeavesWritable(e[i].value.text, [], 0); } else { LeavesWritable("", h.roots, 0); }
    }
    assert |e[0].key| == 4 && |e[1].key| == 6 && |e[2].key| == 9 && |e[3].key| == 12 && |e[4].key| == 10;
    assert e[1].key[0] == 'f' && e[2].key[0] == 'c' && e[3].key[0] == 's' && e[4].key[0] == 'r';
    forall i | 1 <= i < 5 ensures !IndexKey(e[i].key) { LettersAreNoIndex(e[i].key); }
    RecordWritable(e);
  }

  lemma ManifestWritable(m: Manifest)
    requires m.recordCount <= HIGHEST_SAFE_INTEGER && ManageableCounts(m.tableCounts)
    ensures Writable(ManifestValue(m))
  {
    var e := ManifestValue(m).entries;
    CountsWritable(m.tableCounts);
    LeavesWritable("manifest", [], m.recordCount);
    LeavesWritable(m.format, [], 0);
    LeavesWritable(m.sha256, [], 0);
    assert e[0].key[0] == 'k' && e[1].key[0] == 'f' && e[2].key[0] == 'r' && e[3].key[0] == 't' && e[4].key[0] == 's';
    forall i | 1 <= i < 5 ensures !IndexKey(e[i].key) { LettersAreNoIndex(e[i].key); }
    RecordWritable(e);
  }

  lemma HeaderReads(h: Header)
    ensures LineIn(HeaderValue(h)) == Ok(HeaderLine(h))
  {
    var e := HeaderValue(h).entries;
    TextsRead(h.roots);
    assert Get(e[1..], "format") == Some(Str(FORMAT_VERSION));
    assert Get(e[2..], "createdAt") == Some(Str(h.createdAt));
    assert e[1..][1..] == e[2..] && e[2..][1..] == e[3..] && e[3..][1..] == e[4..];
    assert Get(e[3..], "sourceSchema") == Some(Str(h.sourceSchema));
    assert Get(e[4..], "rootRunIds") == Some(Arr(StrAll(h.roots)));
    assert Get(e, "rootRunIds") == Get(e[1..], "rootRunIds") == Get(e[2..], "rootRunIds") == Get(e[3..], "rootRunIds");
    assert Get(e, "sourceSchema") == Get(e[1..], "sourceSchema") == Get(e[2..], "sourceSchema");
    assert Get(e, "createdAt") == Get(e[1..], "createdAt");
  }

  lemma RowReads(row: Row)
    requires Writable(Obj(row.fields))
    ensures LineIn(RowValue(row)) == Ok(RowLine(row)) && Writable(RowValue(row))
  {
    LeavesWritable("row", [], 0);
    LeavesWritable(row.table, [], 0);
    var e := RowValue(row).entries;
    assert e[0].key[0] == 'k' && e[1].key[0] == 't' && e[2].key[0] == 'r';
    LettersAreNoIndex(e[1].key);
    LettersAreNoIndex(e[2].key);
    RecordWritable(e);
    assert e[1..][1..] == e[2..];
    assert Get(e[1..], "table") == Some(Str(row.table));
    assert Get(e[2..], "row") == Some(Obj(row.fields));
    assert Get(e, "row") == Get(e[1..], "row");
  }

  lemma ManifestReads(m: Manifest)
    requires m.format == FORMAT_VERSION && m.recordCount <= HIGHEST_SAFE_INTEGER && Hex64(m.sha256)
    requires forall i :: 0 <= i < |m.tableCounts| ==> m.tableCounts[i].1 <= HIGHEST_SAFE_INTEGER
    ensures LineIn(ManifestValue(m)) == Ok(ManifestLine(m))
  {
    var e := ManifestValue(m).entries;
    CountsRead(m.tableCounts);
    assert e[1..][1..] == e[2..] && e[2..][1..] == e[3..] && e[3..][1..] == e[4..];
    assert Get(e[1..], "format") == Some(Str(m.format));
    assert Get(e[2..], "recordCount") == Some(Num(m.recordCount as real));
    assert Get(e[3..], "tableCounts") == Some(Obj(CountsValue(m.tableCounts)));
    assert Get(e[4..], "sha256") == Some(Str(m.sha256));
    assert Get(e, "sha256") == Get(e[1..], "sha256") == Get(e[2..], "sha256") == Get(e[3..], "sha256");
    assert Get(e, "tableCounts") == Get(e[1..], "tableCounts") == Get(e[2..], "tableCounts");
    assert Get(e, "recordCount") == Get(e[1..], "recordCount");
    assert CountIn(Num(m.recordCount as real)) == Some(m.recordCount);
  }
}
