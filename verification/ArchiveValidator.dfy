/** The incremental archive validator, and what it means for a list of rows to be a whole archive. */
module ArchiveValidator {
  import opened Common
  import opened ArchiveValue
  import opened Sorting
  import opened Counting
  import opened Text

  const FORMAT_VERSION: string := "open-agent.workflow-archive.v2"

  const DEFAULT_MAX_RECORDS: nat := 5_000_000
  const HIGHEST_MAX_RECORDS: nat := 50_000_000

  type Fields = seq<Entry>

  datatype Row = Row(table: string, fields: Fields)

  type TableCounts = seq<(string, nat)>

  datatype Manifest = Manifest(format: string, recordCount: nat, tableCounts: TableCounts, sha256: string)

  datatype Summary = Summary(recordCount: nat, tableCounts: TableCounts, runCount: nat, roots: set<string>)

  datatype Fault =
    | BadMaxRecords | BadRoots
    | TooManyRecords | UnsupportedTable | MissingText | DuplicateRow | OutsideRoots
    | WrongFormat | WrongRecordCount | WrongTableCounts | MissingRun | MissingRoot

  // ---- what a row must hold ----

  const RUNS: string := "workflow_runs"

  /** The archived tables, each with the columns of its primary key. */
  const TABLES: seq<(string, seq<string>)> :=
    [(RUNS, ["id"]), ("workflow_steps", ["step_id"]), ("workflow_events", ["run_id", "id"]), ("workflow_hooks", ["hook_id"]),
     ("workflow_waits", ["wait_id"]), ("workflow_stream_chunks", ["stream_id", "id"]), ("workflow_event_slots", ["run_id"])]

  function ColumnsIn(tables: seq<(string, seq<string>)>, table: string): Option<seq<string>> {
    if tables == [] then None else if tables[0].0 == table then Some(tables[0].1) else ColumnsIn(tables[1..], table)
  }

  function KeyColumns(table: string): Option<seq<string>> {
    ColumnsIn(TABLES, table)
  }

  predicate AllowedTable(table: string) {
    KeyColumns(table).Some?
  }

  function Get(fields: Fields, key: string): Option<Value> {
    if fields == [] then None else if fields[0].key == key then Some(fields[0].value) else Get(fields[1..], key)
  }

  /** A string of 1 to 2000 characters. */
  function RequiredText(fields: Fields, key: string): Option<string> {
    var v := Get(fields, key);
    if v.Some? && v.value.Str? && 1 <= |v.value.text| <= 2000 then Some(v.value.text) else None
  }

  /** The texts of the columns, joined by NUL characters. */
  function JoinedText(fields: Fields, columns: seq<string>): Option<string> {
    if columns == [] then Some("")
    else
      var first := RequiredText(fields, columns[0]);
      if |columns| == 1 then first
      else
        var rest := JoinedText(fields, columns[1..]);
        if first.Some? && rest.Some? then Some(first.value + "\0" + rest.value) else None
  }

  function PrimaryKey(row: Row): Option<string>
    requires AllowedTable(row.table)
  {
    JoinedText(row.fields, KeyColumns(row.table).value)
  }

  lemma RunsAreKeyedById(row: Row)
    requires row.table == RUNS
    ensures AllowedTable(RUNS) && PrimaryKey(row) == RequiredText(row.fields, "id")
  {
  }

  /** The root named in the run's attributes, or the run itself. */
  function RootRunId(fields: Fields, id: string): string {
    var attributes := Get(fields, "attributes");
    if attributes.Some? && attributes.value.Obj? then
      var root := Get(attributes.value.entries, "$rootRunId");
      if root.Some? && root.value.Str? && !Blank(root.value.text) then root.value.text else id
    else id
  }

  /** The run a row belongs to: its own id for a run, the run it names for any other row. */
  function RunOf(row: Row): string {
    var id := RequiredText(row.fields, if row.table == RUNS then "id" else "run_id");
    if id.Some? then id.value else ""
  }

  function KeyOf(row: Row): string {
    if AllowedTable(row.table) && PrimaryKey(row).Some? then PrimaryKey(row).value else ""
  }

  function RootOf(row: Row): string {
    RootRunId(row.fields, RunOf(row))
  }

  // ---- what a whole archive must be ----

  ghost predicate RowFits(roots: seq<string>, row: Row) {
    && AllowedTable(row.table) && PrimaryKey(row).Some?
    && (row.table == RUNS ==> RootOf(row) in roots)
    && (row.table != RUNS ==> RequiredText(row.fields, "run_id").Some?)
  }

  ghost predicate SameRow(a: Row, b: Row) {
    a.table == b.table && KeyOf(a) == KeyOf(b)
  }

  ghost predicate DistinctRows(rows: seq<Row>) {
    forall i, j :: 0 <= i < j < |rows| ==> !SameRow(rows[i], rows[j])
  }

  /** The rows taken one by one are fine; nothing is said yet about rows that are missing. */
  ghost predicate RowsFit(roots: seq<string>, max: nat, rows: seq<Row>) {
    |rows| <= max && DistinctRows(rows) && forall i :: 0 <= i < |rows| ==> RowFits(roots, rows[i])
  }

  ghost predicate HasRun(rows: seq<Row>, id: string) {
    exists run :: run in rows && run.table == RUNS && RunOf(run) == id
  }

  ghost predicate HasRoot(rows: seq<Row>, root: string) {
    exists run :: run in rows && run.table == RUNS && RootOf(run) == root
  }

  ghost predicate NoDanglingRuns(rows: seq<Row>) {
    forall row :: row in rows && row.table != RUNS ==> HasRun(rows, RunOf(row))
  }

  ghost predicate RootsCovered(roots: seq<string>, rows: seq<Row>) {
    forall root :: root in roots ==> HasRoot(rows, root)
  }

  function Count(rows: seq<Row>, table: string): nat {
    CountIf(rows, (r: Row) => r.table == table)
  }

  /** The tables of the rows, in order of first appearance. */
  function FirstSeen(rows: seq<Row>): seq<string> {
    if rows == [] then []
    else
      var before, table := FirstSeen(rows[..|rows| - 1]), rows[|rows| - 1].table;
      if table in before then before else before + [table]
  }

  /** How many rows each table has, in the order of the tables' names. */
  function CountsOf(rows: seq<Row>, le: (string, string) -> bool): TableCounts {
    var names := SortBy(FirstSeen(rows), le);
    seq(|names|, i requires 0 <= i < |names| => (names[i], Count(rows, names[i])))
  }

  ghost predicate HeaderFits(roots: seq<string>, max: int) {
    1 <= max <= HIGHEST_MAX_RECORDS && roots != [] && NoDuplicates(roots)
  }

  /** A header, rows and manifest that make up a complete archive. */
  ghost predicate WholeArchive(roots: seq<string>, max: nat, rows: seq<Row>, manifest: Manifest, le: (string, string) -> bool) {
    && HeaderFits(roots, max)
    && RowsFit(roots, max, rows)
    && NoDanglingRuns(rows)
    && RootsCovered(roots, rows)
    && manifest.format == FORMAT_VERSION
    && manifest.recordCount == |rows|
    && manifest.tableCounts == CountsOf(rows, le)
  }

  // ---- the order of the rows does not matter ----

  lemma {:induction false} FirstSeenMeaning(rows: seq<Row>)
    ensures NoDuplicates(FirstSeen(rows))
    ensures forall table :: table in FirstSeen(rows) <==> exists row :: row in rows && row.table == table
  {
    if rows != [] {
      var init, last := rows[..|rows| - 1], rows[|rows| - 1];
      FirstSeenMeaning(init);
      assert rows == init + [last];
      forall table ensures table in FirstSeen(rows) <==> exists row :: row in rows && row.table == table {
        if table in FirstSeen(init) {
          var row :| row in init && row.table == table;
          assert row in rows;
        }
      }
    }
  }

  lemma CountsPermuted(a: seq<Row>, b: seq<Row>, le: (string, string) -> bool)
    requires multiset(a) == multiset(b) && TotalPreorder(le) && Antisymmetric(le)
    ensures CountsOf(a, le) == CountsOf(b, le)
  {
    FirstSeenMeaning(a);
    FirstSeenMeaning(b);
    forall row ensures row in a <==> row in b { PermutationsShareElements(a, b, row); }
    forall table ensures table in FirstSeen(a) <==> table in FirstSeen(b) {
    }
    SameElementsPermute(FirstSeen(a), FirstSeen(b));
    SortIgnoresOrder(FirstSeen(a), FirstSeen(b), le);
    forall table ensures Count(a, table) == Count(b, table) {
      CountPermuted(a, b, (r: Row) => r.table == table);
    }
    var names := SortBy(FirstSeen(a), le);
    assert forall i :: 0 <= i < |names| ==> CountsOf(a, le)[i] == CountsOf(b, le)[i];
  }

  lemma RowsDistinctPermuted(a: seq<Row>, b: seq<Row>)
    requires multiset(a) == multiset(b) && DistinctRows(a)
    ensures DistinctRows(b)
  {
    forall i, j | 0 <= i < j < |b| ensures !SameRow(b[i], b[j]) {
      var key, table := KeyOf(b[i]), b[i].table;
      var same := (r: Row) => r.table == table && KeyOf(r) == key;
      if SameRow(b[i], b[j]) {
        CountMeaning(b, same);
        assert same(b[i]) && same(b[j]);
        CountPermuted(a, b, same);
        CountMeaning(a, same);
      }
    }
  }

  lemma FitPermuted(roots: seq<string>, max: nat, a: seq<Row>, b: seq<Row>)
    requires multiset(a) == multiset(b) && RowsFit(roots, max, a)
    ensures RowsFit(roots, max, b)
  {
    assert |a| == |multiset(a)| == |multiset(b)| == |b|;
    RowsDistinctPermuted(a, b);
    forall i | 0 <= i < |b| ensures RowFits(roots, b[i]) {
      PermutationsShareElements(a, b, b[i]);
      var j :| 0 <= j < |a| && a[j] == b[i];
      assert RowFits(roots, a[j]);
    }
  }

  lemma CompletePermuted(roots: seq<string>, a: seq<Row>, b: seq<Row>)
    requires multiset(a) == multiset(b) && NoDanglingRuns(a) && RootsCovered(roots, a)
    ensures NoDanglingRuns(b) && RootsCovered(roots, b)
  {
    forall row ensures row in a <==> row in b { PermutationsShareElements(a, b, row); }
    forall row | row in b && row.table != RUNS ensures HasRun(b, RunOf(row)) {
      assert HasRun(a, RunOf(row));
    }
    forall root | root in roots ensures HasRoot(b, root) {
      assert HasRoot(a, root);
    }
  }

  /** Any permutation of the rows gets the same verdict. */
  lemma OrderDoesNotMatter(roots: seq<string>, max: nat, a: seq<Row>, b: seq<Row>, manifest: Manifest, le: (string, string) -> bool)
    requires multiset(a) == multiset(b) && TotalPreorder(le) && Antisymmetric(le)
    ensures WholeArchive(roots, max, a, manifest, le) <==> WholeArchive(roots, max, b, manifest, le)
  {
    assert |a| == |multiset(a)| == |multiset(b)| == |b|;
    CountsPermuted(a, b, le);
    if WholeArchive(roots, max, a, manifest, le) {
      FitPermuted(roots, max, a, b);
      CompletePermuted(roots, a, b);
    }
    if WholeArchive(roots, max, b, manifest, le) {
      FitPermuted(roots, max, b, a);
      CompletePermuted(roots, b, a);
    }
  }

  // ---- primary keys ----

  predicate Bounded(s: string) {
    1 <= |s| <= 2000
  }

  /** A text followed by NUL starts another. */
  predicate StartsOther(a: string, c: string) {
    a + "\0" <= c || c + "\0" <= a
  }

  lemma SplitJoined(a: string, b: string, c: string, d: string)
    requires a + "\0" + b == c + "\0" + d && |a| <= |c|
    ensures if |a| == |c| then a == c && b == d else a + "\0" <= c
  {
    var k, l := a + "\0" + b, c + "\0" + d;
    assert k[..|a| + 1] == a + "\0" && l[..|c|] == c;
    if |a| == |c| {
      assert k[|a| + 1..] == b && l[|c| + 1..] == d && k[..|a|] == a;
    } else {
      assert a + "\0" == l[..|c|][..|a| + 1];
    }
  }

  /** Two first columns can make different pairs collide exactly if one of them, followed by NUL, starts the other. */
  lemma JoinedKeysCollideExactly(a: string, c: string)
    requires Bounded(a) && Bounded(c)
    ensures (exists b, d :: Bounded(b) && Bounded(d) && a + "\0" + b == c + "\0" + d && (a != c || b != d)) <==> StartsOther(a, c)
  {
    if b, d :| Bounded(b) && Bounded(d) && a + "\0" + b == c + "\0" + d && (a != c || b != d) {
      if |a| <= |c| { SplitJoined(a, b, c, d); } else { SplitJoined(c, d, a, b); }
    }
    if a + "\0" <= c {
      var b, d := Collision(a, c);
    } else if c + "\0" <= a {
      var d, b := Collision(c, a);
    }
  }

  lemma Collision(a: string, c: string) returns (b: string, d: string)
    requires Bounded(a) && Bounded(c) && a + "\0" <= c
    ensures Bounded(b) && Bounded(d) && a + "\0" + b == c + "\0" + d && a != c
  {
    var x := c[|a| + 1..];
    assert c == a + "\0" + x;
    b, d := x + "\0" + "d", "d";
    assert a + "\0" + (x + "\0" + "d") == a + "\0" + x + "\0" + "d";
  }

  /** A table keyed by two columns. */
  predicate JoinedTable(table: string) {
    KeyColumns(table).Some? && |KeyColumns(table).value| == 2 && KeyColumns(table).value[0] != KeyColumns(table).value[1]
  }

  lemma EventsAndChunksAreJoined()
    ensures KeyColumns("workflow_events") == Some(["run_id", "id"]) && JoinedTable("workflow_events")
    ensures KeyColumns("workflow_stream_chunks") == Some(["stream_id", "id"]) && JoinedTable("workflow_stream_chunks")
  {
    var t := TABLES;
    assert t[1..][1..] == t[2..] && t[2..][1..] == t[3..] && t[3..][1..] == t[4..] && t[4..][1..] == t[5..];
    assert ColumnsIn(t, "workflow_events") == ColumnsIn(t[1..], "workflow_events") == ColumnsIn(t[2..], "workflow_events");
    assert |"run_id"| != |"id"|;
    var c := "workflow_stream_chunks";
    assert |t[0].0| != |c| && |t[1].0| != |c| && |t[2].0| != |c| && |t[3].0| != |c| && |t[4].0| != |c|;
    assert ColumnsIn(t, c) == ColumnsIn(t[1..], c) == ColumnsIn(t[2..], c) == ColumnsIn(t[3..], c);
    assert ColumnsIn(t[3..], c) == ColumnsIn(t[4..], c) == ColumnsIn(t[5..], c);
  }

  /** The two parts of a row's key. */
  function Parts(row: Row): (Option<string>, Option<string>)
    requires JoinedTable(row.table)
  {
    var columns := KeyColumns(row.table).value;
    (RequiredText(row.fields, columns[0]), RequiredText(row.fields, columns[1]))
  }

  lemma KeyJoinsParts(x: Row)
    requires JoinedTable(x.table)
    ensures PrimaryKey(x).Some? <==> Parts(x).0.Some? && Parts(x).1.Some?
    ensures PrimaryKey(x).Some? ==>
              Bounded(Parts(x).0.value) && Bounded(Parts(x).1.value) && KeyOf(x) == Parts(x).0.value + "\0" + Parts(x).1.value
  {
    var columns := KeyColumns(x.table).value;
    assert columns[1..] == [columns[1]];
    var rest := JoinedText(x.fields, [columns[1]]);
    assert rest == Parts(x).1;
    assert PrimaryKey(x) == JoinedText(x.fields, columns);
  }

  /** Rows of one joined table, with these first parts, that share a key although their parts differ. */
  ghost predicate Collide(x: Row, y: Row, a: string, c: string) {
    && JoinedTable(x.table) && y.table == x.table && PrimaryKey(x).Some? && PrimaryKey(y).Some?
    && Parts(x).0 == Some(a) && Parts(y).0 == Some(c) && SameRow(x, y) && Parts(x) != Parts(y)
  }

  /** In either joined table rows of given first parts can collide exactly if one part, followed by NUL, starts the other. */
  lemma RowsCollideExactly(table: string, a: string, c: string)
    requires JoinedTable(table) && Bounded(a) && Bounded(c)
    ensures (exists x: Row, y: Row :: x.table == table && Collide(x, y, a, c)) <==> StartsOther(a, c)
  {
    JoinedKeysCollideExactly(a, c);
    if x: Row, y: Row :| x.table == table && Collide(x, y, a, c) {
      KeyJoinsParts(x);
      KeyJoinsParts(y);
      var b, d := Parts(x).1.value, Parts(y).1.value;
      assert a + "\0" + b == c + "\0" + d && (a != c || b != d);
    }
    if StartsOther(a, c) {
      var b, d :| Bounded(b) && Bounded(d) && a + "\0" + b == c + "\0" + d && (a != c || b != d);
      var x := KeyedRow(table, a, b);
      var y := KeyedRow(table, c, d);
      assert Collide(x, y, a, c);
    }
  }

  lemma KeyedRow(table: string, a: string, b: string) returns (row: Row)
    requires JoinedTable(table) && Bounded(a) && Bounded(b)
    ensures row.table == table && Parts(row) == (Some(a), Some(b)) && PrimaryKey(row).Some? && KeyOf(row) == a + "\0" + b
  {
    var columns := KeyColumns(table).value;
    var fields := [Entry(columns[0], Str(a)), Entry(columns[1], Str(b))];
    row := Row(table, fields);
    assert fields[1..] == [Entry(columns[1], Str(b))];
    assert Get(fields, columns[1]) == Get(fields[1..], columns[1]) == Some(Str(b));
    KeyJoinsParts(row);
  }

  /** So rows of a joined table whose first parts do not start each other, as without NUL, are told apart by their parts. */
  lemma JoinedKeysIdentify(x: Row, y: Row)
    requires JoinedTable(x.table) && y.table == x.table && PrimaryKey(x).Some? && PrimaryKey(y).Some?
    ensures Parts(x).0.Some? && Parts(y).0.Some?
    ensures !StartsOther(Parts(x).0.value, Parts(y).0.value) ==> (SameRow(x, y) <==> Parts(x) == Parts(y))
    ensures '\0' !in Parts(x).0.value && '\0' !in Parts(y).0.value ==> !StartsOther(Parts(x).0.value, Parts(y).0.value)
  {
    KeyJoinsParts(x);
    KeyJoinsParts(y);
    var a, c := Parts(x).0.value, Parts(y).0.value;
    RowsCollideExactly(x.table, a, c);
    assert (a + "\0")[|a|] == '\0' && (c + "\0")[|c|] == '\0';
    if !StartsOther(a, c) { assert !Collide(x, y, a, c); }
  }

  /** A concrete collision of two events. */
  lemma EventsCollide()
    ensures exists x: Row, y: Row :: x.table == "workflow_events" && Collide(x, y, "a\0b", "a") && Parts(x).1 == Some("c") && Parts(y).1 == Some("b\0c")
  {
    EventsAndChunksAreJoined();
    var x := KeyedRow("workflow_events", "a\0b", "c");
    var y := KeyedRow("workflow_events", "a", "b\0c");
    assert "a\0b" + "\0" + "c" == "a" + "\0" + "b\0c";
    assert |"a\0b"| != |"a"|;
    assert Collide(x, y, "a\0b", "a");
  }

  // ---- the rules, column by column ----

  /** The text of a column, if it has 1 to 2000 characters. */
  function ColumnText(row: Row, column: string): Option<string> {
    match Get(row.fields, column)
    case Some(Str(text)) => if text == "" || |text| > 2000 then None else Some(text)
    case _ => None
  }

  function Both(first: Option<string>, second: Option<string>): Option<string> {
    if first.Some? && second.Some? then Some(first.value + "\0" + second.value) else None
  }

  /** The key of a row in each archived table; no other table has keys. */
  function TableKey(row: Row): Option<string> {
    if row.table == "workflow_runs" then ColumnText(row, "id")
    else if row.table == "workflow_steps" then ColumnText(row, "step_id")
    else if row.table == "workflow_events" then Both(ColumnText(row, "run_id"), ColumnText(row, "id"))
    else if row.table == "workflow_hooks" then ColumnText(row, "hook_id")
    else if row.table == "workflow_waits" then ColumnText(row, "wait_id")
    else if row.table == "workflow_stream_chunks" then Both(ColumnText(row, "stream_id"), ColumnText(row, "id"))
    else if row.table == "workflow_event_slots" then ColumnText(row, "run_id")
    else None
  }

  /** The root a run names in its attributes, if these are a record and the name is not blank. */
  function NamedRoot(run: Row): Option<string> {
    match Get(run.fields, "attributes")
    case Some(Obj(entries)) =>
      (match Get(entries, "$rootRunId")
       case Some(Str(text)) => if Blank(text) then None else Some(text)
       case _ => None)
    case _ => None
  }

  /** The run belongs to the tree of this root: the one it names, or else itself. */
  predicate InTree(run: Row, root: string) {
    if NamedRoot(run).Some? then NamedRoot(run).value == root else ColumnText(run, "id") == Some(root)
  }

  lemma ColumnsOfTables()
    ensures KeyColumns("workflow_runs") == Some(["id"]) && KeyColumns("workflow_steps") == Some(["step_id"])
    ensures KeyColumns("workflow_hooks") == Some(["hook_id"]) && KeyColumns("workflow_waits") == Some(["wait_id"])
    ensures KeyColumns("workflow_event_slots") == Some(["run_id"])
    ensures KeyColumns("workflow_events") == Some(["run_id", "id"]) && KeyColumns("workflow_stream_chunks") == Some(["stream_id", "id"])
  {
    EventsAndChunksAreJoined();
    var t := TABLES;
    assert t[1..][1..] == t[2..] && t[2..][1..] == t[3..] && t[3..][1..] == t[4..] && t[4..][1..] == t[5..] && t[5..][1..] == t[6..];
    var s, h, w, e := "workflow_steps", "workflow_hooks", "workflow_waits", "workflow_event_slots";
    assert s[9] == 's' && h[9] == 'h' && w[9] == 'w' && |s| == |h| == |w| == 14 && |e| == 20;
    assert |t[0].0| == 13 && |t[2].0| == 15 && |t[5].0| == 22;
    assert ColumnsIn(t, s) == ColumnsIn(t[1..], s);
    assert ColumnsIn(t, h) == ColumnsIn(t[1..], h) == ColumnsIn(t[2..], h) == ColumnsIn(t[3..], h);
    assert ColumnsIn(t, w) == ColumnsIn(t[1..], w) == ColumnsIn(t[2..], w) == ColumnsIn(t[3..], w) == ColumnsIn(t[4..], w);
    assert ColumnsIn(t, e) == ColumnsIn(t[1..], e) == ColumnsIn(t[2..], e) == ColumnsIn(t[3..], e);
    assert ColumnsIn(t[3..], e) == ColumnsIn(t[4..], e) == ColumnsIn(t[5..], e) == ColumnsIn(t[6..], e);
  }

  lemma {:induction false} ColumnsAreListed(tables: seq<(string, seq<string>)>, table: string)
    requires ColumnsIn(tables, table).Some?
    ensures exists i :: 0 <= i < |tables| && tables[i].0 == table
  {
    if tables[0].0 != table {
      ColumnsAreListed(tables[1..], table);
      var i :| 0 <= i < |tables[1..]| && tables[1..][i].0 == table;
      assert tables[i + 1].0 == table;
    }
  }

  lemma NoOtherTable(table: string)
    requires AllowedTable(table)
    ensures table in ["workflow_runs", "workflow_steps", "workflow_events", "workflow_hooks", "workflow_waits", "workflow_stream_chunks", "workflow_event_slots"]
  {
    ColumnsAreListed(TABLES, table);
    var i :| 0 <= i < |TABLES| && TABLES[i].0 == table;
  }

  lemma TextMeaning(row: Row, column: string)
    ensures RequiredText(row.fields, column) == ColumnText(row, column)
  {
  }

  lemma KeyMeaning(row: Row)
    ensures AllowedTable(row.table) && PrimaryKey(row).Some? <==> TableKey(row).Some?
    ensures TableKey(row).Some? ==> KeyOf(row) == TableKey(row).value
  {
    ColumnsOfTables();
    if AllowedTable(row.table) {
      NoOtherTable(row.table);
      var columns := KeyColumns(row.table).value;
      if |columns| == 2 { assert columns[1..] == [columns[1]]; }
      KeyByColumns(row, columns);
    }
  }

  lemma KeyByColumns(row: Row, columns: seq<string>)
    requires 1 <= |columns| <= 2
    ensures JoinedText(row.fields, columns) ==
            if |columns| == 1 then ColumnText(row, columns[0]) else Both(ColumnText(row, columns[0]), ColumnText(row, columns[1]))
  {
    if |columns| == 2 { assert JoinedText(row.fields, columns[1..]) == RequiredText(row.fields, columns[1]); }
  }

  lemma RootMeaning(run: Row, root: string)
    requires run.table == RUNS && ColumnText(run, "id").Some?
    ensures RunOf(run) == ColumnText(run, "id").value && (RootOf(run) == root <==> InTree(run, root))
  {
  }

  /** The next row is taken exactly if there is room, its key is there and new, and it belongs to a requested tree or names a run. */
  ghost predicate Takes(roots: seq<string>, max: nat, rows: seq<Row>, row: Row) {
    && |rows| < max && TableKey(row).Some?
    && (forall earlier <- rows :: earlier.table != row.table || TableKey(earlier) != TableKey(row))
    && (if row.table == "workflow_runs" then exists root :: root in roots && InTree(row, root) else ColumnText(row, "run_id").Some?)
  }

  /** A run with an id that no earlier row has, with room for it. */
  ghost predicate NewRun(max: nat, rows: seq<Row>, row: Row) {
    && row.table == "workflow_runs" && |rows| < max && ColumnText(row, "id").Some?
    && forall earlier <- rows :: earlier.table == "workflow_runs" ==> ColumnText(earlier, "id") != ColumnText(row, "id")
  }

  lemma RunTaken(roots: seq<string>, max: nat, rows: seq<Row>, row: Row)
    requires NewRun(max, rows, row)
    ensures Takes(roots, max, rows, row) <==>
            if NamedRoot(row).Some? then NamedRoot(row).value in roots else ColumnText(row, "id").value in roots
  {
    var root := if NamedRoot(row).Some? then NamedRoot(row).value else ColumnText(row, "id").value;
    assert InTree(row, root) && forall other :: InTree(row, other) ==> other == root;
  }

  lemma TakesMeaning(roots: seq<string>, max: nat, rows: seq<Row>, row: Row)
    requires RowsFit(roots, max, rows)
    ensures AddFault(roots, max, rows, row).None? <==> Takes(roots, max, rows, row)
  {
    KeyMeaning(row);
    forall earlier <- rows ensures SameRow(earlier, row) && TableKey(row).Some? <==> earlier.table == row.table && TableKey(row).Some? && TableKey(earlier) == TableKey(row) {
      var i :| 0 <= i < |rows| && rows[i] == earlier;
      assert RowFits(roots, rows[i]);
      KeyMeaning(earlier);
    }
    if row.table == RUNS && TableKey(row).Some? { RootMeaning(row, RootOf(row)); }
  }

  /** No row names a run that is missing, and every requested root has a run in its tree. */
  ghost predicate NothingMissing(roots: seq<string>, rows: seq<Row>) {
    && (forall row <- rows :: row.table != "workflow_runs" ==>
          exists run <- rows :: run.table == "workflow_runs" && ColumnText(run, "id") == ColumnText(row, "run_id"))
    && (forall root <- roots :: exists run <- rows :: run.table == "workflow_runs" && InTree(run, root))
  }

  lemma FittingRow(roots: seq<string>, max: nat, rows: seq<Row>, row: Row)
    requires RowsFit(roots, max, rows) && row in rows
    ensures row.table == RUNS ==> ColumnText(row, "id") == Some(RunOf(row)) && forall root :: RootOf(row) == root <==> InTree(row, root)
    ensures row.table != RUNS ==> ColumnText(row, "run_id") == Some(RunOf(row))
  {
    var i :| 0 <= i < |rows| && rows[i] == row;
    assert RowFits(roots, rows[i]);
    KeyMeaning(row);
  }

  lemma RunMeaning(roots: seq<string>, max: nat, rows: seq<Row>, row: Row)
    requires RowsFit(roots, max, rows) && row in rows && row.table != RUNS
    ensures HasRun(rows, RunOf(row)) <==> exists run <- rows :: run.table == "workflow_runs" && ColumnText(run, "id") == ColumnText(row, "run_id")
  {
    FittingRow(roots, max, rows, row);
    forall run <- rows | run.table == RUNS ensures ColumnText(run, "id") == Some(RunOf(run)) { FittingRow(roots, max, rows, run); }
  }

  lemma TreeMeaning(roots: seq<string>, max: nat, rows: seq<Row>, root: string)
    requires RowsFit(roots, max, rows)
    ensures HasRoot(rows, root) <==> exists run <- rows :: run.table == "workflow_runs" && InTree(run, root)
  {
    forall run <- rows | run.table == RUNS ensures RootOf(run) == root <==> InTree(run, root) { FittingRow(roots, max, rows, run); }
  }

  lemma MissingMeaning(roots: seq<string>, max: nat, rows: seq<Row>)
    requires RowsFit(roots, max, rows)
    ensures NoDanglingRuns(rows) && RootsCovered(roots, rows) <==> NothingMissing(roots, rows)
  {
    forall row <- rows | row.table != RUNS
      ensures HasRun(rows, RunOf(row)) <==> exists run <- rows :: run.table == "workflow_runs" && ColumnText(run, "id") == ColumnText(row, "run_id")
    {
      RunMeaning(roots, max, rows, row);
    }
    forall root <- roots ensures HasRoot(rows, root) <==> exists run <- rows :: run.table == "workflow_runs" && InTree(run, root) {
      TreeMeaning(roots, max, rows, root);
    }
  }

  /** Each table of the list occurs, with this many rows. */
  lemma CountsAreRows(rows: seq<Row>, le: (string, string) -> bool, i: nat)
    requires i < |CountsOf(rows, le)|
    ensures var (table, count) := CountsOf(rows, le)[i];
            count == |set k | 0 <= k < |rows| && rows[k].table == table| && exists row :: row in rows && row.table == table
  {
    var names := SortBy(FirstSeen(rows), le);
    FirstSeenMeaning(rows);
    SortPermutes(FirstSeen(rows), le);
    assert names[i] in FirstSeen(rows);
    CountedRows(rows, names[i]);
  }

  /** Each table that occurs is in the list. */
  lemma RowsAreCounted(rows: seq<Row>, le: (string, string) -> bool, row: Row) returns (i: nat)
    requires row in rows
    ensures i < |CountsOf(rows, le)| && CountsOf(rows, le)[i].0 == row.table
  {
    var names := SortBy(FirstSeen(rows), le);
    FirstSeenMeaning(rows);
    SortPermutes(FirstSeen(rows), le);
    assert row.table in names;
    i :| 0 <= i < |names| && names[i] == row.table;
  }

  /** The list names each table once, in the order of the names. */
  lemma CountsAreSorted(rows: seq<Row>, le: (string, string) -> bool, i: nat, j: nat)
    requires i < j < |CountsOf(rows, le)|
    ensures CountsOf(rows, le)[i].0 != CountsOf(rows, le)[j].0
    ensures TotalPreorder(le) ==> le(CountsOf(rows, le)[i].0, CountsOf(rows, le)[j].0)
  {
    FirstSeenMeaning(rows);
    SortPermutes(FirstSeen(rows), le);
    DistinctPermuted(FirstSeen(rows), SortBy(FirstSeen(rows), le));
    if TotalPreorder(le) { SortSorts(FirstSeen(rows), le); }
  }

  /** Every table that occurs is listed once with the number of its rows, in the order of the names. */
  lemma CountsMeaning(rows: seq<Row>, le: (string, string) -> bool)
    ensures var counts := CountsOf(rows, le);
            && (forall i :: 0 <= i < |counts| ==>
                  && counts[i].1 == |set k | 0 <= k < |rows| && rows[k].table == counts[i].0|
                  && exists row :: row in rows && row.table == counts[i].0)
            && (forall row :: row in rows ==> exists i :: 0 <= i < |counts| && counts[i].0 == row.table)
            && (forall i, j :: 0 <= i < j < |counts| ==> counts[i].0 != counts[j].0 && (TotalPreorder(le) ==> le(counts[i].0, counts[j].0)))
  {
    var counts := CountsOf(rows, le);
    forall i | 0 <= i < |counts|
      ensures counts[i].1 == |set k | 0 <= k < |rows| && rows[k].table == counts[i].0| && exists row :: row in rows && row.table == counts[i].0
    {
      CountsAreRows(rows, le, i);
    }
    forall row | row in rows ensures exists i :: 0 <= i < |counts| && counts[i].0 == row.table {
      var i := RowsAreCounted(rows, le, row);
    }
    forall i, j | 0 <= i < j < |counts| ensures counts[i].0 != counts[j].0 && (TotalPreorder(le) ==> le(counts[i].0, counts[j].0)) {
      CountsAreSorted(rows, le, i, j);
    }
  }

  lemma {:induction false} CountedRows(rows: seq<Row>, table: string)
    ensures Count(rows, table) == |set k | 0 <= k < |rows| && rows[k].table == table|
  {
    if rows != [] {
      var n := |rows| - 1;
      var init := rows[..n];
      CountedRows(init, table);
      assert rows == init + [rows[n]];
      CountNext(init, rows[n]);
      var before, after := set k | 0 <= k < |init| && init[k].table == table, set k | 0 <= k < |rows| && rows[k].table == table;
      assert after == if rows[n].table == table then before + {n} else before;
    }
  }

  /** Rows fit if and only if each of them is taken after those before it. */
  lemma {:induction false} FitExactly(roots: seq<string>, max: nat, rows: seq<Row>)
    ensures RowsFit(roots, max, rows) <==> forall n :: 0 <= n < |rows| ==> Takes(roots, max, rows[..n], rows[n])
  {
    if rows != [] {
      var init, row := rows[..|rows| - 1], rows[|rows| - 1];
      assert rows == init + [row];
      FitExactly(roots, max, init);
      assert forall n :: 0 <= n < |init| ==> init[..n] == rows[..n] && init[n] == rows[n];
      if RowsFit(roots, max, rows) { FitsPrefix(roots, max, rows, |init|); }
      if RowsFit(roots, max, init) {
        AddFaultMeaning(roots, max, init, row);
        TakesMeaning(roots, max, init, row);
      }
    }
  }

  /** A whole archive in terms of its columns: different requested roots, rows taken one by one, nothing missing, and its counts. */
  lemma WholeExactly(roots: seq<string>, max: nat, rows: seq<Row>, manifest: Manifest, le: (string, string) -> bool)
    ensures WholeArchive(roots, max, rows, manifest, le) <==>
            && 1 <= max <= 50_000_000 && roots != [] && (forall i, j :: 0 <= i < j < |roots| ==> roots[i] != roots[j])
            && (forall n :: 0 <= n < |rows| ==> Takes(roots, max, rows[..n], rows[n])) && NothingMissing(roots, rows)
            && manifest.format == "open-agent.workflow-archive.v2" && manifest.recordCount == |rows| && manifest.tableCounts == CountsOf(rows, le)
  {
    FitExactly(roots, max, rows);
    if RowsFit(roots, max, rows) { MissingMeaning(roots, max, rows); }
  }

  // ---- the incremental validator ----

  ghost predicate Repeats(rows: seq<Row>, row: Row) {
    exists earlier :: earlier in rows && SameRow(earlier, row)
  }

  /** Why the next row is refused, if it is. */
  ghost function AddFault(roots: seq<string>, max: nat, rows: seq<Row>, row: Row): Option<Fault> {
    if |rows| + 1 > max then Some(TooManyRecords)
    else if !AllowedTable(row.table) then Some(UnsupportedTable)
    else if PrimaryKey(row).None? then Some(MissingText)
    else if Repeats(rows, row) then Some(DuplicateRow)
    else if row.table == RUNS then if RootOf(row) in roots then None else Some(OutsideRoots)
    else if RequiredText(row.fields, "run_id").None? then Some(MissingText)
    else None
  }

  /** The next row is refused exactly when the rows with it would no longer fit. */
  lemma AddFaultMeaning(roots: seq<string>, max: nat, rows: seq<Row>, row: Row)
    requires RowsFit(roots, max, rows)
    ensures AddFault(roots, max, rows, row).None? <==> RowsFit(roots, max, rows + [row])
  {
    var all := rows + [row];
    if RowsFit(roots, max, all) {
      assert RowFits(roots, all[|rows|]);
      forall earlier | earlier in rows ensures !SameRow(earlier, row) {
        var i :| 0 <= i < |rows| && rows[i] == earlier;
        assert !SameRow(all[i], all[|rows|]);
      }
    }
    if AddFault(roots, max, rows, row).None? {
      forall i, j | 0 <= i < j < |all| ensures !SameRow(all[i], all[j]) {
        assert all[i] in rows;
      }
      forall i | 0 <= i < |all| ensures RowFits(roots, all[i]) {
        if i < |rows| { assert RowFits(roots, rows[i]); }
      }
    }
  }

  ghost function KeysSeen(rows: seq<Row>, table: string): set<string> {
    set row | row in rows && row.table == table :: KeyOf(row)
  }

  ghost function RunsSeen(rows: seq<Row>): set<string> {
    set row | row in rows && row.table == RUNS :: RunOf(row)
  }

  ghost function RunsNamed(rows: seq<Row>): set<string> {
    set row | row in rows && row.table != RUNS :: RunOf(row)
  }

  lemma KeysSeenNext(rows: seq<Row>, row: Row)
    ensures forall table :: KeysSeen(rows + [row], table) == KeysSeen(rows, table) + (if row.table == table then {KeyOf(row)} else {})
  {
    assert forall r :: r in rows + [row] <==> r in rows || r == row;
  }

  lemma RunsSeenNext(rows: seq<Row>, row: Row)
    ensures RunsSeen(rows + [row]) == RunsSeen(rows) + (if row.table == RUNS then {RunOf(row)} else {})
    ensures RunsNamed(rows + [row]) == RunsNamed(rows) + (if row.table != RUNS then {RunOf(row)} else {})
  {
    assert forall r :: r in rows + [row] <==> r in rows || r == row;
  }

  lemma CountNext(rows: seq<Row>, row: Row)
    ensures FirstSeen(rows + [row]) == if row.table in FirstSeen(rows) then FirstSeen(rows) else FirstSeen(rows) + [row.table]
    ensures forall table :: Count(rows + [row], table) == Count(rows, table) + (if row.table == table then 1 else 0)
  {
    assert (rows + [row])[..|rows|] == rows;
  }

  // What each of the validator's collections holds after `rows`.

  ghost predicate CountsAgree(rows: seq<Row>, order: seq<string>, counts: map<string, nat>) {
    && order == FirstSeen(rows)
    && (forall table :: table in counts ==> counts[table] == Count(rows, table))
    && (forall table :: table !in counts ==> Count(rows, table) == 0)
    && (forall table :: table in order ==> table in counts)
  }

  ghost predicate SeenAgrees(rows: seq<Row>, seen: map<string, set<string>>) {
    && (forall table :: table in seen ==> seen[table] == KeysSeen(rows, table))
    && (forall table :: table !in seen ==> KeysSeen(rows, table) == {})
  }

  ghost predicate RootsAgree(rows: seq<Row>, runRoots: map<string, string>) {
    && runRoots.Keys == RunsSeen(rows)
    && (forall row :: row in rows && row.table == RUNS ==> RunOf(row) in runRoots && runRoots[RunOf(row)] == RootOf(row))
  }

  ghost predicate RunsAgree(rows: seq<Row>, dependents: set<string>, runIds: set<string>, runRoots: map<string, string>) {
    dependents == RunsNamed(rows) && runIds == RunsSeen(rows) && RootsAgree(rows, runRoots)
  }

  function SeenIn(seen: map<string, set<string>>, table: string): set<string> {
    if table in seen then seen[table] else {}
  }

  lemma CountsNext(rows: seq<Row>, row: Row, order: seq<string>, counts: map<string, nat>)
    requires CountsAgree(rows, order, counts)
    ensures CountsAgree(rows + [row], if row.table in order then order else order + [row.table],
                        counts[row.table := (if row.table in counts then counts[row.table] else 0) + 1])
  {
    CountNext(rows, row);
  }

  lemma KeysNext(rows: seq<Row>, row: Row, seen: map<string, set<string>>)
    requires SeenAgrees(rows, seen)
    ensures SeenAgrees(rows + [row], seen[row.table := SeenIn(seen, row.table) + {KeyOf(row)}])
    ensures KeyOf(row) in SeenIn(seen, row.table) <==> Repeats(rows, row)
  {
    KeysSeenNext(rows, row);
    var keys := KeysSeen(rows, row.table);
    assert SeenIn(seen, row.table) == keys;
    if KeyOf(row) in keys {
      var earlier :| earlier in rows && earlier.table == row.table && KeyOf(earlier) == KeyOf(row);
      assert SameRow(earlier, row);
    }
  }

  lemma RootsNext(roots: seq<string>, max: nat, rows: seq<Row>, row: Row, runRoots: map<string, string>)
    requires RootsAgree(rows, runRoots) && RowsFit(roots, max, rows + [row])
    ensures RootsAgree(rows + [row], if row.table == RUNS then runRoots[RunOf(row) := RootOf(row)] else runRoots)
  {
    RunsSeenNext(rows, row);
    NoEarlierRun(roots, max, rows, row);
    var next := if row.table == RUNS then runRoots[RunOf(row) := RootOf(row)] else runRoots;
    forall r | r in rows + [row] && r.table == RUNS ensures RunOf(r) in next && next[RunOf(r)] == RootOf(r) {
      if r in rows {
        assert RunOf(r) in runRoots && runRoots[RunOf(r)] == RootOf(r);
      }
    }
  }

  /** Fitting runs have distinct ids. */
  lemma NoEarlierRun(roots: seq<string>, max: nat, rows: seq<Row>, row: Row)
    requires RowsFit(roots, max, rows + [row])
    ensures forall earlier :: earlier in rows && earlier.table == RUNS && row.table == RUNS ==> RunOf(earlier) != RunOf(row)
  {
    var all := rows + [row];
    forall earlier | earlier in rows && earlier.table == RUNS && row.table == RUNS ensures RunOf(earlier) != RunOf(row) {
      var i :| 0 <= i < |rows| && rows[i] == earlier;
      assert !SameRow(all[i], all[|rows|]) && RowFits(roots, all[i]) && RowFits(roots, all[|rows|]);
      RunsAreKeyedById(earlier);
      RunsAreKeyedById(row);
    }
  }

  // ---- finishing ----

  ghost function FinishFault(roots: seq<string>, rows: seq<Row>, manifest: Manifest, le: (string, string) -> bool): Option<Fault> {
    if manifest.format != FORMAT_VERSION then Some(WrongFormat)
    else if manifest.recordCount != |rows| then Some(WrongRecordCount)
    else if manifest.tableCounts != CountsOf(rows, le) then Some(WrongTableCounts)
    else if !NoDanglingRuns(rows) then Some(MissingRun)
    else if !RootsCovered(roots, rows) then Some(MissingRoot)
    else None
  }

  lemma DanglingMeaning(rows: seq<Row>, dangling: set<string>)
    requires dangling == RunsNamed(rows) - RunsSeen(rows)
    ensures dangling == {} <==> NoDanglingRuns(rows)
  {
    forall id ensures id in RunsSeen(rows) <==> HasRun(rows, id) {
    }
    if dangling == {} {
      forall row | row in rows && row.table != RUNS ensures HasRun(rows, RunOf(row)) {
        assert RunOf(row) in RunsNamed(rows) && RunOf(row) !in dangling;
        assert RunOf(row) in RunsSeen(rows);
      }
    }
  }

  lemma CoveredMeaning(rows: seq<Row>, runRoots: map<string, string>)
    requires RootsAgree(rows, runRoots)
    ensures forall root :: root in runRoots.Values <==> HasRoot(rows, root)
  {
    forall root ensures root in runRoots.Values <==> HasRoot(rows, root) {
      if HasRoot(rows, root) {
        var run :| run in rows && run.table == RUNS && RootOf(run) == root;
        assert runRoots[RunOf(run)] == root;
      }
      if root in runRoots.Values {
        var id :| id in runRoots && runRoots[id] == root;
        assert id in RunsSeen(rows);
      }
    }
  }

  lemma OnlyRequestedRoots(roots: seq<string>, max: nat, rows: seq<Row>)
    requires RowsFit(roots, max, rows)
    ensures forall root :: HasRoot(rows, root) ==> root in roots
  {
    forall root | HasRoot(rows, root) ensures root in roots {
      var run :| run in rows && run.table == RUNS && RootOf(run) == root;
      var i :| 0 <= i < |rows| && rows[i] == run;
      assert RowFits(roots, rows[i]);
    }
  }

  /** Rows that fit keep fitting without the later ones. */
  lemma FitsPrefix(roots: seq<string>, max: nat, rows: seq<Row>, n: nat)
    requires RowsFit(roots, max, rows) && n <= |rows|
    ensures RowsFit(roots, max, rows[..n])
  {
    forall i | 0 <= i < n ensures RowFits(roots, rows[..n][i]) {
      assert RowFits(roots, rows[i]);
    }
    forall i, j | 0 <= i < j < n ensures !SameRow(rows[..n][i], rows[..n][j]) {
      assert !SameRow(rows[i], rows[j]);
    }
  }

  lemma RunCountedNext(roots: seq<string>, max: nat, rows: seq<Row>, row: Row)
    requires RowsFit(roots, max, rows + [row]) && |RunsSeen(rows)| == Count(rows, RUNS)
    ensures |RunsSeen(rows + [row])| == Count(rows + [row], RUNS)
  {
    RunsSeenNext(rows, row);
    CountNext(rows, row);
    NoEarlierRun(roots, max, rows, row);
    assert row.table == RUNS ==> RunOf(row) !in RunsSeen(rows);
  }

  /** Runs are distinct, so there are as many as there are rows for them. */
  lemma {:induction false} RunsCounted(roots: seq<string>, max: nat, rows: seq<Row>)
    requires RowsFit(roots, max, rows)
    ensures |RunsSeen(rows)| == Count(rows, RUNS)
  {
    if rows != [] {
      var init, row := rows[..|rows| - 1], rows[|rows| - 1];
      FitsPrefix(roots, max, rows, |init|);
      RunsCounted(roots, max, init);
      assert init + [row] == rows;
      RunCountedNext(roots, max, init, row);
    }
  }

  /** What an accepted archive is summarized as. */
  lemma FinishSummary(roots: seq<string>, max: nat, rows: seq<Row>, covered: set<string>)
    requires RowsFit(roots, max, rows) && RootsCovered(roots, rows) && forall root :: root in covered <==> HasRoot(rows, root)
    ensures covered == (set root | root in roots) && |RunsSeen(rows)| == Count(rows, RUNS)
  {
    OnlyRequestedRoots(roots, max, rows);
    RunsCounted(roots, max, rows);
  }

  class Validator {
    const roots: seq<string>
    const maxRecords: nat
    var recordCount: nat
    var tableOrder: seq<string>
    var tableCounts: map<string, nat>
    var seen: map<string, set<string>>
    var dependents: set<string>
    var runIds: set<string>
    var runRoots: map<string, string>
    ghost var rows: seq<Row>

    ghost predicate Valid()
      reads this
    {
      && HeaderFits(roots, maxRecords) && RowsFit(roots, maxRecords, rows)
      && recordCount == |rows|
      && CountsAgree(rows, tableOrder, tableCounts)
      && SeenAgrees(rows, seen)
      && RunsAgree(rows, dependents, runIds, runRoots)
    }

    constructor (roots: seq<string>, maxRecords: nat)
      requires HeaderFits(roots, maxRecords)
      ensures Valid() && rows == [] && this.roots == roots && this.maxRecords == maxRecords
    {
      this.roots, this.maxRecords := roots, maxRecords;
      recordCount, tableOrder, tableCounts, seen := 0, [], map[], map[];
      dependents, runIds, runRoots, rows := {}, {}, map[], [];
    }

    method NoteKey(row: Row, key: string)
      requires CountsAgree(rows, tableOrder, tableCounts) && SeenAgrees(rows, seen) && key == KeyOf(row)
      modifies this`seen, this`tableOrder, this`tableCounts
      ensures CountsAgree(rows + [row], tableOrder, tableCounts) && SeenAgrees(rows + [row], seen)
    {
      KeysNext(rows, row, seen);
      CountsNext(rows, row, tableOrder, tableCounts);
      seen := seen[row.table := SeenIn(seen, row.table) + {key}];
      var count := if row.table in tableCounts then tableCounts[row.table] else 0;
      if row.table !in tableOrder { tableOrder := tableOrder + [row.table]; }
      tableCounts := tableCounts[row.table := count + 1];
    }

    /** The row's key, unless it is absent or was seen before. */
    method FreshKey(row: Row) returns (r: Result<string, Fault>)
      requires SeenAgrees(rows, seen) && |rows| < maxRecords
      ensures r.Err? ==> AddFault(roots, maxRecords, rows, row) == Some(r.error)
      ensures r.Ok? ==> AllowedTable(row.table) && PrimaryKey(row) == Some(r.value) && !Repeats(rows, row)
    {
      if !AllowedTable(row.table) { return Err(UnsupportedTable); }
      var key := PrimaryKey(row);
      if key.None? { return Err(MissingText); }
      KeysNext(rows, row, seen);
      if key.value in SeenIn(seen, row.table) { return Err(DuplicateRow); }
      r := Ok(key.value);
    }

    /** Notes the run that the row is or belongs to. */
    method NoteRun(row: Row, key: string) returns (r: Result<(), Fault>)
      requires RowsFit(roots, maxRecords, rows) && RunsAgree(rows, dependents, runIds, runRoots)
      requires |rows| < maxRecords && AllowedTable(row.table) && PrimaryKey(row) == Some(key) && !Repeats(rows, row)
      modifies this`runIds, this`runRoots, this`dependents
      ensures AddFault(roots, maxRecords, rows, row) == if r.Err? then Some(r.error) else None
      ensures r.Ok? ==> RowsFit(roots, maxRecords, rows + [row]) && RunsAgree(rows + [row], dependents, runIds, runRoots)
    {
      AddFaultMeaning(roots, maxRecords, rows, row);
      RunsSeenNext(rows, row);
      if row.table == RUNS {
        RunsAreKeyedById(row);
        runIds := runIds + {key};
        var root := RootRunId(row.fields, key);
        if root !in roots { return Err(OutsideRoots); }
        RootsNext(roots, maxRecords, rows, row, runRoots);
        runRoots := runRoots[key := root];
      } else {
        var runId := RequiredText(row.fields, "run_id");
        if runId.None? { return Err(MissingText); }
        RootsNext(roots, maxRecords, rows, row, runRoots);
        dependents := dependents + {runId.value};
      }
      r := Ok(());
    }

    method AddStep(row: Row) returns (r: Result<(), Fault>)
      requires Valid()
      modifies this
      ensures AddFault(roots, maxRecords, old(rows), row) == if r.Err? then Some(r.error) else None
      ensures r.Ok? ==> Valid() && rows == old(rows) + [row]
    {
      recordCount := recordCount + 1;
      if recordCount > maxRecords { return Err(TooManyRecords); }
      var key := FreshKey(row);
      if key.Err? { return Err(key.error); }
      NoteKey(row, key.value);
      r := NoteRun(row, key.value);
      if r.Ok? { rows := rows + [row]; }
    }

    /** Takes the next row into account, or refuses it; after a refusal the validator is of no further use. */
    method Add(row: Row) returns (r: Result<(), Fault>)
      requires Valid()
      modifies this
      ensures AddFault(roots, maxRecords, old(rows), row) == if r.Err? then Some(r.error) else None
      ensures r.Ok? ==> Valid() && rows == old(rows) + [row]
      ensures r.Ok? <==> Takes(roots, maxRecords, old(rows), row)
      // A new run is taken exactly if the root it names, or without such a name its own id, was requested.
      ensures NewRun(maxRecords, old(rows), row) ==>
                var attributes := Get(row.fields, "attributes");
                var name := if attributes.Some? && attributes.value.Obj? then Get(attributes.value.entries, "$rootRunId") else None;
                (r.Ok? <==> if name.Some? && name.value.Str? && !Blank(name.value.text) then name.value.text in roots
                            else ColumnText(row, "id").value in roots)
    {
      TakesMeaning(roots, maxRecords, rows, row);
      if NewRun(maxRecords, rows, row) { RunTaken(roots, maxRecords, rows, row); }
      r := AddStep(row);
    }

    /** Accepts exactly the manifests that complete the rows to a whole archive. */
    method Finish(manifest: Manifest, le: (string, string) -> bool) returns (r: Result<Summary, Fault>)
      requires Valid()
      ensures r.Ok? <==> WholeArchive(roots, maxRecords, rows, manifest, le)
      ensures r.Err? ==> FinishFault(roots, rows, manifest, le) == Some(r.error)
      ensures r.Ok? ==> r.value == Summary(|rows|, manifest.tableCounts, Count(rows, RUNS), set root | root in roots)
      ensures r.Ok? <==>
                && manifest.format == "open-agent.workflow-archive.v2" && manifest.recordCount == |rows|
                && manifest.tableCounts == CountsOf(rows, le) && NothingMissing(roots, rows)
    {
      MissingMeaning(roots, maxRecords, rows);
      if manifest.format != FORMAT_VERSION { return Err(WrongFormat); }
      if manifest.recordCount != recordCount { return Err(WrongRecordCount); }
      var actual := ActualCounts(le);
      if actual != manifest.tableCounts { return Err(WrongTableCounts); }
      var dangling := dependents - runIds;
      DanglingMeaning(rows, dangling);
      if dangling != {} { return Err(MissingRun); }
      var covered := runRoots.Values;
      var complete := AllCovered(covered);
      if !complete { return Err(MissingRoot); }
      FinishSummary(roots, maxRecords, rows, covered);
      r := Ok(Summary(recordCount, actual, |runIds|, covered));
    }

    method AllCovered(covered: set<string>) returns (complete: bool)
      requires RootsAgree(rows, runRoots) && covered == runRoots.Values
      ensures complete <==> RootsCovered(roots, rows)
      ensures forall root :: root in covered <==> HasRoot(rows, root)
    {
      CoveredMeaning(rows, runRoots);
      for i := 0 to |roots|
        invariant forall j :: 0 <= j < i ==> roots[j] in covered
      {
        if roots[i] !in covered { return false; }
      }
      complete := true;
    }

    method ActualCounts(le: (string, string) -> bool) returns (actual: TableCounts)
      requires CountsAgree(rows, tableOrder, tableCounts)
      ensures actual == CountsOf(rows, le)
    {
      var names := SortBy(tableOrder, le);
      actual := [];
      for i := 0 to |names|
        invariant actual == CountsOf(rows, le)[..i]
      {
        var count := if names[i] in tableCounts then tableCounts[names[i]] else 0;
        actual := actual + [(names[i], count)];
      }
    }
  }
}
