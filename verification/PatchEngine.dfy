/** The multi-file patch: every operation is staged against an overlay, and only a fully staged patch is written. */
module PatchEngine {
  import opened Common
  import opened PatchHunks
  import opened PatchText

  type Files = map<string, string>

  datatype Operation =
    | AddFile(path: string, content: string)
    | DeleteFile(path: string)
    | UpdateFile(path: string, moveTo: Option<string>, hunks: seq<Hunk>)

  datatype ChangeKind = Added | Deleted | Updated | Moved

  datatype FileChange = FileChange(kind: ChangeKind, path: string, addedLines: nat, deletedLines: nat)

  datatype PatchError =
    | UnsafePath(path: string)
    | AlreadyExists(path: string)
    | DoesNotExist(path: string)
    | Conflict(path: string, reason: HunkError)
    | DestinationExists(path: string, destination: string)
    | Interrupted

  // ---- workspace paths ----

  const WORKSPACE: string := "/workspace/"

  predicate BadSegment(part: string) {
    part == "" || part == "." || part == ".."
  }

  predicate SafePath(path: string) {
    && WORKSPACE < path
    && '\\' !in path && '\0' !in path
    && forall i :: 0 <= i < |SplitOn(path[|WORKSPACE|..], '/')| ==> !BadSegment(SplitOn(path[|WORKSPACE|..], '/')[i])
  }

  function WorkspacePath(value: string): Result<string, PatchError> {
    var path := if value != "" && value[0] == '/' then value else WORKSPACE + value;
    if SafePath(path) then Ok(path) else Err(UnsafePath(value))
  }

  /** An accepted path is in the workspace, is its own normal form, and is reached by its relative spelling only. */
  lemma PathsAreNormal(value: string)
    ensures var r := WorkspacePath(value);
            r.Ok? ==>
              && SafePath(r.value) && WorkspacePath(r.value) == r
              && forall other: string :: WorkspacePath(other) == r <==> other == r.value || other == r.value[|WORKSPACE|..]
  {
    var r := WorkspacePath(value);
    if r.Ok? {
      var path := r.value;
      var relative := path[|WORKSPACE|..];
      assert path == WORKSPACE + relative;
      SlashFirst(relative);
      forall other: string ensures WorkspacePath(other) == r <==> other == path || other == relative {
        if other != "" && other[0] == '/' {
          assert WorkspacePath(other) == r <==> other == path;
        } else {
          assert (WORKSPACE + other)[|WORKSPACE|..] == other;
        }
      }
    }
  }

  lemma SlashFirst(relative: string)
    requires forall i :: 0 <= i < |SplitOn(relative, '/')| ==> !BadSegment(SplitOn(relative, '/')[i])
    ensures relative != "" && relative[0] != '/'
  {
    assert !BadSegment(SplitOn(relative, '/')[0]);
  }

  /** What of a path stands below the workspace; an absolute path must name it. */
  function Below(value: string): Option<string> {
    if value == "" || value[0] != '/' then Some(value)
    else if WORKSPACE <= value then Some(value[|WORKSPACE|..]) else None
  }

  predicate BadAt(s: string, i: nat, j: nat) {
    Segment(s, '/', i, j) && (j == i || (j == i + 1 && s[i] == '.') || (j == i + 2 && s[i] == '.' && s[i + 1] == '.'))
  }

  lemma PartsExactly(s: string)
    ensures (exists k :: 0 <= k < |SplitOn(s, '/')| && BadSegment(SplitOn(s, '/')[k])) <==> exists i: nat, j: nat :: BadAt(s, i, j)
  {
    if k :| 0 <= k < |SplitOn(s, '/')| && BadSegment(SplitOn(s, '/')[k]) {
      var i, j := PartIsSegment(s, '/', k);
      assert BadAt(s, i, j);
    }
    if i: nat, j: nat :| BadAt(s, i, j) {
      SplitMeaning(s, '/', s[i..j]);
      var k :| 0 <= k < |SplitOn(s, '/')| && SplitOn(s, '/')[k] == s[i..j];
    }
  }

  /**
   A path is accepted exactly if it is relative or starts at the workspace, holds no backslash and no NUL, and has no segment
   that is empty or goes up or nowhere; it then names the file of that name below the workspace.
   */
  lemma PathsExactly(value: string)
    ensures var below := Below(value);
            WorkspacePath(value) ==
              if below.Some? && '\\' !in below.value && '\0' !in below.value && !(exists i: nat, j: nat :: BadAt(below.value, i, j))
              then Ok(WORKSPACE + below.value) else Err(UnsafePath(value))
  {
    if Below(value).Some? {
      var below := Below(value).value;
      assert (WORKSPACE + below)[|WORKSPACE|..] == below;
      if value != "" && value[0] == '/' { assert value == WORKSPACE + below; }
      SafeExactly(below);
    }
  }

  lemma SafeExactly(below: string)
    ensures SafePath(WORKSPACE + below) <==> '\\' !in below && '\0' !in below && !(exists i: nat, j: nat :: BadAt(below, i, j))
  {
    var path := WORKSPACE + below;
    assert path[|WORKSPACE|..] == below;
    assert '\\' !in WORKSPACE && '\0' !in WORKSPACE;
    PartsExactly(below);
    if below == "" { assert BadAt(below, 0, 0); }
  }

  // ---- files ----

  function Read(files: Files, path: string): Option<string> {
    if path in files then Some(files[path]) else None
  }

  function Put(files: Files, path: string, value: Option<string>): Files {
    if value.Some? then files[path := value.value] else files - {path}
  }

  lemma SameFiles(a: Files, b: Files)
    requires forall p: string :: Read(a, p) == Read(b, p)
    ensures a == b
  {
    forall p: string ensures p in a <==> p in b {
      assert Read(a, p) == Read(b, p);
    }
    forall p | p in a ensures a[p] == b[p] {
      assert Read(a, p) == Read(b, p);
    }
  }

  // ---- the specification: one operation after the other on the files themselves ----

  datatype Done = Done(files: Files, changes: seq<FileChange>)

  function Destination(path: string, op: Operation): Result<string, PatchError>
    requires op.UpdateFile?
  {
    if op.moveTo.Some? && op.moveTo.value != "" then WorkspacePath(op.moveTo.value) else Ok(path)
  }

  function TextOf(value: Option<string>): string {
    if value.Some? then value.value else ""
  }

  /** One operation on the files of `done`; a deletion is counted by what `counted` holds at its path. */
  function ApplyOne(counted: Files, done: Done, op: Operation): Result<Done, PatchError> {
    var at := WorkspacePath(op.path);
    if at.Err? then Err(at.error)
    else
      var path, value := at.value, Read(done.files, at.value);
      match op
      case AddFile(_, content) =>
        if value.Some? then Err(AlreadyExists(path))
        else Ok(Done(Put(done.files, path, Some(content)), done.changes + [FileChange(ChangeKind.Added, path, CountLines(content), 0)]))
      case DeleteFile(_) =>
        if value.None? then Err(DoesNotExist(path))
        else
          Ok(Done(Put(done.files, path, None),
                  done.changes + [FileChange(ChangeKind.Deleted, path, 0, CountLines(TextOf(Read(counted, path))))]))
      case UpdateFile(_, _, hunks) =>
        if value.None? then Err(DoesNotExist(path))
        else
          var updated := UpdateText(value.value, hunks);
          if updated.Err? then Err(Conflict(path, updated.error))
          else
            var destination := Destination(path, op);
            if destination.Err? then Err(destination.error)
            else
              var u, to := updated.value, destination.value;
              var change := FileChange(if to == path then ChangeKind.Updated else Moved, to, u.done.added, u.done.deleted);
              if to == path then Ok(Done(Put(done.files, path, Some(u.content)), done.changes + [change]))
              else if Read(done.files, to).Some? then Err(DestinationExists(path, to))
              else Ok(Done(Put(Put(done.files, to, Some(u.content)), path, None), done.changes + [change]))
  }

  // ---- what an operation does to the files, path by path ----

  /** The files differ at these paths only. */
  ghost predicate SameElsewhere(before: Files, after: Files, paths: set<string>) {
    forall p: string :: p !in paths ==> (p in after <==> p in before) && (p in before ==> after[p] == before[p])
  }

  /** Adding needs a free path, which then holds the content; its lines are counted as added. */
  lemma AddMeaning(counted: Files, done: Done, name: string, content: string)
    ensures var r, at := ApplyOne(counted, done, AddFile(name, content)), WorkspacePath(name);
            && (r.Ok? <==> at.Ok? && at.value !in done.files)
            && (at.Ok? && r.Err? ==> r.error == AlreadyExists(at.value))
            && (r.Ok? ==>
                  && at.value in r.value.files && r.value.files[at.value] == content && SameElsewhere(done.files, r.value.files, {at.value})
                  && r.value.changes == done.changes + [FileChange(ChangeKind.Added, at.value, CountLines(content), 0)])
  {
  }

  /** Deleting needs a file, which is gone then; the lines that `counted` holds there are counted as deleted. */
  lemma DeleteMeaning(counted: Files, done: Done, name: string)
    ensures var r, at := ApplyOne(counted, done, DeleteFile(name)), WorkspacePath(name);
            && (r.Ok? <==> at.Ok? && at.value in done.files)
            && (at.Ok? && r.Err? ==> r.error == DoesNotExist(at.value))
            && (r.Ok? ==>
                  && at.value !in r.value.files && SameElsewhere(done.files, r.value.files, {at.value})
                  && r.value.changes == done.changes + [FileChange(ChangeKind.Deleted, at.value, 0,
                       if at.value in counted then CountLines(counted[at.value]) else 0)])
  {
    assert CountLines("") == 0;
  }

  /** Updating in place needs a file that the hunks fit, and leaves the updated text there. */
  lemma UpdateMeaning(counted: Files, done: Done, name: string, hunks: seq<Hunk>)
    ensures var r, at := ApplyOne(counted, done, UpdateFile(name, None, hunks)), WorkspacePath(name);
            && (r.Ok? <==> at.Ok? && at.value in done.files && UpdateText(done.files[at.value], hunks).Ok?)
            && (at.Ok? && at.value !in done.files ==> r == Err(DoesNotExist(at.value)))
            && (r.Ok? ==>
                  var u := UpdateText(done.files[at.value], hunks).value;
                  && at.value in r.value.files && r.value.files[at.value] == u.content && SameElsewhere(done.files, r.value.files, {at.value})
                  && r.value.changes == done.changes + [FileChange(ChangeKind.Updated, at.value, u.done.added, u.done.deleted)])
  {
  }

  /** Moving also needs a free destination, which then holds the updated text, and leaves nothing behind. */
  lemma MoveMeaning(counted: Files, done: Done, name: string, to: string, hunks: seq<Hunk>)
    requires WorkspacePath(name).Ok? && WorkspacePath(to) != WorkspacePath(name) && to != ""
    ensures var r, at, dest := ApplyOne(counted, done, UpdateFile(name, Some(to), hunks)), WorkspacePath(name).value, WorkspacePath(to);
            && (r.Ok? <==> at in done.files && UpdateText(done.files[at], hunks).Ok? && dest.Ok? && dest.value !in done.files)
            && (dest.Ok? && dest.value in done.files && at in done.files && UpdateText(done.files[at], hunks).Ok? ==>
                  r == Err(DestinationExists(at, dest.value)))
            && (r.Ok? ==>
                  var u := UpdateText(done.files[at], hunks).value;
                  && at !in r.value.files && dest.value in r.value.files && r.value.files[dest.value] == u.content
                  && SameElsewhere(done.files, r.value.files, {at, dest.value})
                  && r.value.changes == done.changes + [FileChange(Moved, dest.value, u.done.added, u.done.deleted)])
  {
  }

  /** A move to the file's own path, or to none, is an update in place. */
  lemma MoveNowhere(counted: Files, done: Done, name: string, to: string, hunks: seq<Hunk>)
    requires to == "" || WorkspacePath(to) == WorkspacePath(name)
    ensures ApplyOne(counted, done, UpdateFile(name, Some(to), hunks)) == ApplyOne(counted, done, UpdateFile(name, None, hunks))
  {
  }

  /** Sequential application: every operation sees, and counts, the files as the operations before it left them. */
  function Direct(initial: Files, ops: seq<Operation>): Result<Done, PatchError> {
    if ops == [] then Ok(Done(initial, []))
    else
      var first := Direct(initial, ops[..|ops| - 1]);
      if first.Err? then first else ApplyOne(first.value.files, first.value, ops[|ops| - 1])
  }

  /** What the patch tool reports: as sequential application, but a deletion counts the file as the whole patch found it. */
  function ApplyAll(initial: Files, ops: seq<Operation>): Result<Done, PatchError> {
    if ops == [] then Ok(Done(initial, []))
    else
      var first := ApplyAll(initial, ops[..|ops| - 1]);
      if first.Err? then first else ApplyOne(initial, first.value, ops[|ops| - 1])
  }

  lemma {:induction false} FailsEarly(initial: Files, ops: seq<Operation>, n: nat)
    requires n <= |ops| && ApplyAll(initial, ops[..n]).Err?
    ensures ApplyAll(initial, ops) == ApplyAll(initial, ops[..n])
    decreases |ops| - n
  {
    if n == |ops| {
      assert ops[..n] == ops;
    } else {
      assert ops[..n + 1][..n] == ops[..n];
      FailsEarly(initial, ops, n + 1);
    }
  }

  // ---- the tool and sequential application ----

  /** The same conflict, or the same files and as many changes. */
  predicate SameOutcome(a: Result<Done, PatchError>, b: Result<Done, PatchError>) {
    && (a.Ok? <==> b.Ok?)
    && (a.Err? ==> a == b)
    && (a.Ok? ==> a.value.files == b.value.files && |a.value.changes| == |b.value.changes|)
  }

  lemma OneAgrees(initial: Files, a: Done, b: Done, op: Operation)
    requires a.files == b.files && |a.changes| == |b.changes|
    ensures SameOutcome(ApplyOne(initial, a, op), ApplyOne(b.files, b, op))
  {
    match op
    case AddFile(_, _) =>
    case DeleteFile(_) =>
    case UpdateFile(_, _, _) =>
  }

  /** The tool's files and conflicts are always those of sequential application. */
  lemma {:induction false} FilesAgree(initial: Files, ops: seq<Operation>)
    ensures SameOutcome(ApplyAll(initial, ops), Direct(initial, ops))
  {
    if ops != [] {
      var init, op := ops[..|ops| - 1], ops[|ops| - 1];
      FilesAgree(initial, init);
      if ApplyAll(initial, init).Ok? { OneAgrees(initial, ApplyAll(initial, init).value, Direct(initial, init).value, op); }
    }
  }

  /** A deletion finds as many lines at its path as the whole patch found there. */
  predicate CountsAsFound(initial: Files, files: Files, op: Operation) {
    op.DeleteFile? && WorkspacePath(op.path).Ok? ==>
      var path := WorkspacePath(op.path).value; CountLines(TextOf(Read(files, path))) == CountLines(TextOf(Read(initial, path)))
  }

  ghost predicate DeletionsCountAsFound(initial: Files, ops: seq<Operation>) {
    forall i :: 0 <= i < |ops| && Direct(initial, ops[..i]).Ok? ==> CountsAsFound(initial, Direct(initial, ops[..i]).value.files, ops[i])
  }

  lemma LastAgrees(initial: Files, a: Done, b: Done, op: Operation)
    requires a.files == b.files && |a.changes| == |b.changes| && ApplyOne(initial, a, op).Ok?
    ensures ApplyOne(b.files, b, op).Ok?
    ensures ApplyOne(initial, a, op).value.changes == ApplyOne(b.files, b, op).value.changes
            <==> a.changes == b.changes && CountsAsFound(initial, b.files, op)
  {
    var x, y := ApplyOne(initial, a, op).value.changes, ApplyOne(b.files, b, op).value.changes;
    var n := |a.changes|;
    assert x[..n] == a.changes && y[..n] == b.changes && x == x[..n] + [x[n]] && y == y[..n] + [y[n]];
    assert x[n] == y[n] <==> CountsAsFound(initial, b.files, op);
  }

  lemma BothNext(initial: Files, init: seq<Operation>, op: Operation)
    requires Direct(initial, init + [op]).Ok?
    ensures Direct(initial, init).Ok? && ApplyAll(initial, init).Ok?
    ensures var a, b := ApplyAll(initial, init).value, Direct(initial, init).value;
            && a.files == b.files && |a.changes| == |b.changes|
            && ApplyAll(initial, init + [op]) == ApplyOne(initial, a, op)
            && Direct(initial, init + [op]) == ApplyOne(b.files, b, op)
  {
    assert (init + [op])[..|init|] == init;
    FilesAgree(initial, init);
  }

  predicate Agrees(a: Result<Done, PatchError>, b: Result<Done, PatchError>) {
    a.Ok? && b.Ok? && a == b
  }

  /** The reports agree if and only if every deletion counts as found. */
  ghost predicate AgreesExactly(initial: Files, ops: seq<Operation>) {
    Agrees(ApplyAll(initial, ops), Direct(initial, ops)) <==> DeletionsCountAsFound(initial, ops)
  }

  lemma AgreesNext(initial: Files, ops: seq<Operation>, init: seq<Operation>, op: Operation)
    requires ops == init + [op] && Direct(initial, ops).Ok? && AgreesExactly(initial, init)
    ensures AgreesExactly(initial, ops)
  {
    BothNext(initial, init, op);
    var a, b := ApplyAll(initial, init).value, Direct(initial, init).value;
    assert ApplyAll(initial, init) == Ok(a) && Direct(initial, init) == Ok(b);
    OutcomesAgree(initial, a, b, op);
    DeletionsNext(initial, init, op);
  }

  lemma NothingAgrees(initial: Files)
    ensures AgreesExactly(initial, [])
  {
  }

  lemma DirectFront(initial: Files, ops: seq<Operation>)
    requires ops != [] && Direct(initial, ops).Ok?
    ensures Direct(initial, ops[..|ops| - 1]).Ok?
  {
  }

  lemma {:induction false} AgreesFrom(initial: Files, ops: seq<Operation>)
    requires Direct(initial, ops).Ok?
    ensures AgreesExactly(initial, ops)
  {
    if ops == [] {
      NothingAgrees(initial);
    } else {
      var init, op := ops[..|ops| - 1], ops[|ops| - 1];
      FrontAndLast(ops);
      DirectFront(initial, ops);
      AgreesFrom(initial, init);
      AgreesNext(initial, ops, init, op);
    }
  }

  /**
   The reported changes are those of sequential application if and only if every deletion finds as many lines at its
   path as the whole patch found there.
   */
  lemma ChangesAgreeExactly(initial: Files, ops: seq<Operation>)
    requires Direct(initial, ops).Ok?
    ensures ApplyAll(initial, ops).Ok?
    ensures ApplyAll(initial, ops) == Direct(initial, ops) <==> DeletionsCountAsFound(initial, ops)
  {
    FilesAgree(initial, ops);
    AgreesFrom(initial, ops);
  }

  lemma OutcomesAgree(initial: Files, a: Done, b: Done, op: Operation)
    requires a.files == b.files && |a.changes| == |b.changes| && ApplyOne(b.files, b, op).Ok?
    ensures ApplyOne(initial, a, op) == ApplyOne(b.files, b, op) <==> a == b && CountsAsFound(initial, b.files, op)
  {
    OneAgrees(initial, a, b, op);
    LastAgrees(initial, a, b, op);
    var x, y := ApplyOne(initial, a, op), ApplyOne(b.files, b, op);
    assert x == y <==> x.value.changes == y.value.changes;
  }

  lemma DeletionsNext(initial: Files, init: seq<Operation>, op: Operation)
    requires Direct(initial, init).Ok?
    ensures DeletionsCountAsFound(initial, init + [op])
            <==> DeletionsCountAsFound(initial, init) && CountsAsFound(initial, Direct(initial, init).value.files, op)
  {
    var ops := init + [op];
    assert forall i :: 0 <= i < |init| ==> ops[..i] == init[..i] && ops[i] == init[i];
    assert ops[..|init|] == init && ops[|init|] == op;
  }

  /** A file updated to more lines and then deleted: the tool reports the lines the file had before the update. */
  lemma UpdatedThenDeleted()
    ensures var initial := map["/workspace/a" := ""];
            var ops := [UpdateFile("a", None, [Hunk(None, None, [HunkLine.Added("y")])]), DeleteFile("a")];
            && ApplyAll(initial, ops).Ok? && Direct(initial, ops).Ok?
            && |ApplyAll(initial, ops).value.changes| == 2 && |Direct(initial, ops).value.changes| == 2
            && ApplyAll(initial, ops).value.changes[1] == FileChange(ChangeKind.Deleted, "/workspace/a", 0, 0)
            && Direct(initial, ops).value.changes[1] == FileChange(ChangeKind.Deleted, "/workspace/a", 0, 1)
  {
    var initial: Files := map["/workspace/a" := ""];
    var update, delete := UpdateFile("a", None, [Hunk(None, None, [HunkLine.Added("y")])]), DeleteFile("a");
    PathOfA();
    OneLineAdded();
    var after := Done(Put(initial, "/workspace/a", Some("y\n")), [] + [FileChange(ChangeKind.Updated, "/workspace/a", 1, 0)]);
    assert ApplyOne(initial, Done(initial, []), update) == Ok(after);
    TwoOperations(initial, update, delete, after);
    Deletes(initial, after, "a", "/workspace/a");
    Deletes(after.files, after, "a", "/workspace/a");
    YCountsOne();
  }

  lemma TwoOperations(initial: Files, first: Operation, second: Operation, after: Done)
    requires ApplyOne(initial, Done(initial, []), first) == Ok(after)
    ensures ApplyAll(initial, [first, second]) == ApplyOne(initial, after, second)
    ensures Direct(initial, [first, second]) == ApplyOne(after.files, after, second)
  {
    assert [first, second][..1] == [first] && [first][..0] == [];
    assert ApplyAll(initial, [first]) == Ok(after) && Direct(initial, [first]) == Ok(after);
  }

  lemma Deletes(counted: Files, done: Done, name: string, path: string)
    requires WorkspacePath(name) == Ok(path) && path in done.files
    ensures ApplyOne(counted, done, DeleteFile(name))
            == Ok(Done(done.files - {path}, done.changes + [FileChange(ChangeKind.Deleted, path, 0, CountLines(TextOf(Read(counted, path))))]))
  {
  }

  lemma YCountsOne()
    ensures CountLines("y\n") == 1
  {
    assert "y\n"[..1] == "y" && Normalize("y\n") == "y\n";
    SplitLine("y", "");
  }

  lemma PathOfA()
    ensures WorkspacePath("a") == Ok("/workspace/a")
  {
    assert WORKSPACE + "a" == "/workspace/a";
    assert ("/workspace/a")[|WORKSPACE|..] == "a";
    assert SplitOn("a", '/') == ["a"] by {
      assert SplitOn("", '/') == [""];
      assert ("a")[1..] == "" && [""][1..] == [] && ['a'] + "" == "a";
      assert SplitOn("a", '/') == [['a'] + ""] + [];
    }
  }

  lemma OneLineAdded()
    ensures var hunk := Hunk(None, None, [HunkLine.Added("y")]);
            UpdateText("", [hunk]) == Ok(PatchText.Updated.Updated("y\n", Applied(["y"], 1, 0, [0])))
  {
    var hunk := Hunk(None, None, [HunkLine.Added("y")]);
    assert hunk.lines[1..] == [];
    assert OldLines(hunk.lines) == [] && NewLines(hunk.lines) == ["y"];
    assert [hunk][..0] == [];
    assert Locate([], [], None) == Ok(0);
    assert Splice([], 0, 0, ["y"]) == ["y"];
    assert ApplyHunk([], hunk) == Ok(Applied(["y"], 1, 0, [0]));
    assert ApplyHunks([], [hunk]) == Ok(Applied(["y"], 1, 0, [] + [0]));
    assert [] + [0] == [0];
    assert Load("") == Loaded([], false, true);
    assert UpdateText("", [hunk]).Ok? && UpdateText("", [hunk]).value.done == Applied(["y"], 1, 0, [0]);
    assert Save(["y"], Load("")) == "y" + "\n" == "y\n";
    assert UpdateText("", [hunk]).value.content == "y\n";
  }

  /** The paths an operation names. */
  ghost predicate Names(op: Operation, path: string) {
    WorkspacePath(op.path) == Ok(path) || (op.UpdateFile? && op.moveTo.Some? && WorkspacePath(op.moveTo.value) == Ok(path))
  }

  lemma OneOperationTouches(initial: Files, done: Done, op: Operation, path: string)
    requires ApplyOne(initial, done, op).Ok? && Read(ApplyOne(initial, done, op).value.files, path) != Read(done.files, path)
    ensures SafePath(path) && Names(op, path)
  {
    match op
    case AddFile(_, _) =>
    case DeleteFile(_) =>
    case UpdateFile(_, _, _) =>
  }

  /** A patch only ever touches files that it names, all of them inside the workspace. */
  lemma {:induction false} OnlyNamedFilesChange(initial: Files, ops: seq<Operation>, path: string)
    requires ApplyAll(initial, ops).Ok? && Read(ApplyAll(initial, ops).value.files, path) != Read(initial, path)
    ensures SafePath(path) && exists op :: op in ops && Names(op, path)
  {
    if ops != [] {
      var init, op := ops[..|ops| - 1], ops[|ops| - 1];
      var first := ApplyAll(initial, init).value;
      if Read(first.files, path) != Read(initial, path) {
        OnlyNamedFilesChange(initial, init, path);
        var earlier :| earlier in init && Names(earlier, path);
        assert earlier in ops;
      } else {
        OneOperationTouches(initial, first, op, path);
      }
    }
  }

  // ---- staging ----

  /** What the patch found at a path, and what it will leave there. */
  datatype TextState = TextState(original: Option<string>, value: Option<string>)

  /** The staged states, in the order in which their paths were first read. */
  datatype Overlay = Overlay(order: seq<string>, states: map<string, TextState>)

  ghost predicate Staged(files: Files, o: Overlay) {
    && NoDuplicates(o.order)
    && (forall p :: p in o.order <==> p in o.states)
    && (forall p | p in o.states :: o.states[p].original == Read(files, p))
  }

  /** What a path holds once the overlay is written. */
  function Look(files: Files, o: Overlay, path: string): Option<string> {
    if path in o.states then o.states[path].value else Read(files, path)
  }

  /** The overlay over `files` shows exactly `seen`. */
  ghost predicate Shows(files: Files, o: Overlay, seen: Files) {
    forall p: string :: Look(files, o, p) == Read(seen, p)
  }

  function StateFor(files: Files, o: Overlay, path: string): Overlay {
    if path in o.states then o
    else Overlay(o.order + [path], o.states[path := TextState(Read(files, path), Read(files, path))])
  }

  function Stage(o: Overlay, path: string, value: Option<string>): Overlay
    requires path in o.states
  {
    o.(states := o.states[path := o.states[path].(value := value)])
  }

  lemma ReadingIsInvisible(files: Files, o: Overlay, path: string, seen: Files)
    requires Staged(files, o) && Shows(files, o, seen)
    ensures var r := StateFor(files, o, path); Staged(files, r) && Shows(files, r, seen) && path in r.states
  {
    var r := StateFor(files, o, path);
    forall p: string ensures Look(files, r, p) == Read(seen, p) {
      assert Look(files, o, p) == Read(seen, p);
    }
  }

  lemma StagingIsPutting(files: Files, o: Overlay, path: string, value: Option<string>, seen: Files)
    requires Staged(files, o) && Shows(files, o, seen) && path in o.states
    ensures var r := Stage(o, path, value); Staged(files, r) && Shows(files, r, Put(seen, path, value))
  {
    var r := Stage(o, path, value);
    forall p: string ensures Look(files, r, p) == Read(Put(seen, path, value), p) {
      assert Look(files, o, p) == Read(seen, p);
    }
  }

  /** The operations have been staged without conflict, with these changes. */
  ghost predicate StagedAll(files: Files, o: Overlay, ops: seq<Operation>, changes: seq<FileChange>) {
    && Staged(files, o)
    && ApplyAll(files, ops).Ok? && ApplyAll(files, ops).value.changes == changes
    && Shows(files, o, ApplyAll(files, ops).value.files)
  }

  // ---- committing ----

  predicate Differs(s: TextState) {
    s.value != s.original
  }

  /** The paths of `order` whose final value differs from the one found. */
  function Changed(order: seq<string>, states: map<string, TextState>): seq<string>
    requires forall p :: p in order ==> p in states
  {
    if order == [] then []
    else
      var last := order[|order| - 1];
      Changed(order[..|order| - 1], states) + (if Differs(states[last]) then [last] else [])
  }

  lemma ChangedNext(order: seq<string>, states: map<string, TextState>, i: nat)
    requires i < |order| && forall p :: p in order ==> p in states
    ensures Changed(order[..i + 1], states) == Changed(order[..i], states) + (if Differs(states[order[i]]) then [order[i]] else [])
  {
    assert order[..i + 1][..i] == order[..i];
  }

  lemma {:induction false} ChangedMeaning(order: seq<string>, states: map<string, TextState>)
    requires NoDuplicates(order) && forall p :: p in order ==> p in states
    ensures NoDuplicates(Changed(order, states))
    ensures forall p :: p in Changed(order, states) <==> p in order && Differs(states[p])
  {
    if order != [] { ChangedMeaning(order[..|order| - 1], states); }
  }

  /** `now` is `files` with the final value in place at every path of `done`, and nowhere else. */
  ghost predicate WrittenAt(files: Files, o: Overlay, done: seq<string>, now: Files) {
    forall p: string :: Read(now, p) == if p in done then Look(files, o, p) else Read(files, p)
  }

  /** Each path has its old content or its final one: what an interrupted commit may leave. */
  ghost predicate Between(before: Files, after: Files, now: Files) {
    forall p: string :: Read(now, p) == Read(before, p) || Read(now, p) == Read(after, p)
  }

  lemma PartlyWritten(files: Files, o: Overlay, done: seq<string>, now: Files, after: Files)
    requires WrittenAt(files, o, done, now) && Shows(files, o, after)
    ensures Between(files, after, now)
  {
    forall p: string ensures Read(now, p) == Read(files, p) || Read(now, p) == Read(after, p) {
      assert Look(files, o, p) == Read(after, p);
    }
  }

  lemma FullyWritten(files: Files, o: Overlay, now: Files, after: Files)
    requires Staged(files, o) && WrittenAt(files, o, o.order, now) && Shows(files, o, after)
    ensures now == after
  {
    forall p: string ensures Read(now, p) == Read(after, p) {
      assert Look(files, o, p) == Read(after, p);
    }
    SameFiles(now, after);
  }

  lemma WriteOne(files: Files, o: Overlay, i: nat, now: Files)
    requires Staged(files, o) && i < |o.order| && WrittenAt(files, o, o.order[..i], now)
    ensures WrittenAt(files, o, o.order[..i + 1], Put(now, o.order[i], o.states[o.order[i]].value))
    ensures !Differs(o.states[o.order[i]]) ==> WrittenAt(files, o, o.order[..i + 1], now)
  {
    var path := o.order[i];
    var next := Put(now, path, o.states[path].value);
    assert o.order[..i + 1] == o.order[..i] + [path];
    forall p: string ensures Read(next, p) == if p in o.order[..i + 1] then Look(files, o, p) else Read(files, p) {
      assert Read(now, p) == if p in o.order[..i] then Look(files, o, p) else Read(files, p);
    }
    if !Differs(o.states[path]) {
      forall p: string ensures Read(now, p) == if p in o.order[..i + 1] then Look(files, o, p) else Read(files, p) {
        assert Read(now, p) == if p in o.order[..i] then Look(files, o, p) else Read(files, p);
      }
    }
  }

  /** The first `i` staged states have been committed by writing the paths of `log`. */
  ghost predicate Committed(files: Files, o: Overlay, i: int, now: Files, log: seq<string>) {
    && Staged(files, o) && 0 <= i <= |o.order|
    && WrittenAt(files, o, o.order[..i], now)
    && log == Changed(o.order[..i], o.states)
  }

  lemma NothingCommitted(files: Files, o: Overlay)
    requires Staged(files, o)
    ensures Committed(files, o, 0, files, [])
  {
  }

  lemma CommittedNext(files: Files, o: Overlay, i: nat, now: Files, log: seq<string>)
    requires Committed(files, o, i, now, log) && i < |o.order|
    ensures o.order[i] in o.states
    ensures var path := o.order[i];
            && (Differs(o.states[path]) ==> Committed(files, o, i + 1, Put(now, path, o.states[path].value), log + [path]))
            && (!Differs(o.states[path]) ==> Committed(files, o, i + 1, now, log))
  {
    WriteOne(files, o, i, now);
    ChangedNext(o.order, o.states, i);
  }

  lemma PartlyCommitted(files: Files, o: Overlay, i: nat, now: Files, log: seq<string>, after: Files)
    requires Committed(files, o, i, now, log) && Shows(files, o, after)
    ensures Between(files, after, now)
    ensures i == |o.order| ==> WrittenAt(files, o, o.order, now) && log == Changed(o.order, o.states)
  {
    PartlyWritten(files, o, o.order[..i], now, after);
    assert o.order[..|o.order|] == o.order;
  }

  /** The writes of a finished patch are the paths whose content it changed, each once. */
  ghost predicate WritesExactly(before: Files, after: Files, written: seq<string>) {
    NoDuplicates(written) && forall p: string :: p in written <==> Read(before, p) != Read(after, p)
  }

  lemma ChangedIsTheDifference(files: Files, o: Overlay, after: Files)
    requires Staged(files, o) && Shows(files, o, after)
    ensures WritesExactly(files, after, Changed(o.order, o.states))
  {
    ChangedMeaning(o.order, o.states);
    forall p: string ensures p in Changed(o.order, o.states) <==> Read(files, p) != Read(after, p) {
      assert Look(files, o, p) == Read(after, p);
    }
  }

  /** The sandbox's files, and a log of the paths written or removed by the current patch. */
  class Sandbox {
    var files: Files
    ghost var written: seq<string>

    constructor (initial: Files)
      ensures files == initial && written == []
    {
      files := initial;
      written := [];
    }

    /** Replaces or removes one file atomically. */
    method Write(path: string, value: Option<string>)
      modifies this
      ensures files == Put(old(files), path, value) && written == old(written) + [path]
    {
      files := if value.Some? then files[path := value.value] else files - {path};
      written := written + [path];
    }

    /** Stages one operation, as the source's loop body does. */
    method StageOne(overlay: Overlay, op: Operation, ghost done: Done)
      returns (r: Result<(Overlay, FileChange), PatchError>)
      requires Staged(files, overlay) && Shows(files, overlay, done.files)
      ensures var spec := ApplyOne(files, done, op);
              if r.Err? then spec == Err(r.error) && r.error != Interrupted
              else && spec.Ok? && spec.value.changes == done.changes + [r.value.1]
                   && Staged(files, r.value.0) && Shows(files, r.value.0, spec.value.files)
    {
      var at := WorkspacePath(op.path);
      if at.Err? { return Err(at.error); }
      var path := at.value;
      var o := StateFor(files, overlay, path);
      ReadingIsInvisible(files, overlay, path, done.files);
      assert Look(files, o, path) == Read(done.files, path);
      var source := o.states[path];
      if op.AddFile? {
        if source.value.Some? { return Err(AlreadyExists(path)); }
        StagingIsPutting(files, o, path, Some(op.content), done.files);
        return Ok((Stage(o, path, Some(op.content)), FileChange(ChangeKind.Added, path, CountLines(op.content), 0)));
      }
      if source.value.None? { return Err(DoesNotExist(path)); }
      if op.DeleteFile? {
        StagingIsPutting(files, o, path, None, done.files);
        var count := CountLines(if source.original.Some? then source.original.value else "");
        return Ok((Stage(o, path, None), FileChange(ChangeKind.Deleted, path, 0, count)));
      }
      var updated := ApplyUpdateText(source.value.value, op.hunks);
      if updated.Err? { return Err(Conflict(path, updated.error)); }
      var to := Destination(path, op);
      if to.Err? { return Err(to.error); }
      var content := Some(updated.value.content);
      var counts := updated.value.done;
      if to.value == path {
        StagingIsPutting(files, o, path, content, done.files);
        return Ok((Stage(o, path, content), FileChange(ChangeKind.Updated, path, counts.added, counts.deleted)));
      }
      var both := StateFor(files, o, to.value);
      ReadingIsInvisible(files, o, to.value, done.files);
      assert Look(files, both, to.value) == Read(done.files, to.value);
      if both.states[to.value].value.Some? { return Err(DestinationExists(path, to.value)); }
      StagingIsPutting(files, both, to.value, content, done.files);
      var placed := Stage(both, to.value, content);
      StagingIsPutting(files, placed, path, None, Put(done.files, to.value, content));
      r := Ok((Stage(placed, path, None), FileChange(Moved, to.value, counts.added, counts.deleted)));
    }

    /** Stages every operation without writing anything; any conflict or interruption ends the patch here. */
    method StageAll(ops: seq<Operation>, patience: Option<nat>)
      returns (r: Result<(Overlay, seq<FileChange>), PatchError>, left: Option<nat>)
      ensures r.Ok? ==> StagedAll(files, r.value.0, ops, r.value.1)
      ensures r.Err? ==> r.error == Interrupted || ApplyAll(files, ops) == Err(r.error)
      ensures patience.None? ==> left.None? && (r.Err? ==> r.error != Interrupted)
    {
      var overlay, changes: seq<FileChange> := Overlay([], map[]), [];
      left := patience;
      for i := 0 to |ops|
        invariant patience.None? ==> left.None?
        invariant StagedAll(files, overlay, ops[..i], changes)
      {
        if left == Some(0) { return Err(Interrupted), left; }
        left := if left.Some? then Some(left.value - 1) else None;
        assert ops[..i + 1][..i] == ops[..i];
        var staged := StageOne(overlay, ops[i], ApplyAll(files, ops[..i]).value);
        if staged.Err? {
          FailsEarly(files, ops, i + 1);
          return Err(staged.error), left;
        }
        overlay, changes := staged.value.0, changes + [staged.value.1];
      }
      assert ops[..|ops|] == ops;
      r := Ok((overlay, changes));
    }

    /**
     The whole patch. `patience` is the number of abort checks and file accesses that succeed before the turn is
     interrupted, if it ever is. Any conflict leaves every file alone; a patch that finishes leaves what applying the
     operations one by one leaves, having written just the files that differ; an interrupted one leaves each file
     old or final.
     */
    method Execute(ops: seq<Operation>, patience: Option<nat>) returns (r: Result<seq<FileChange>, PatchError>)
      modifies this
      ensures r.Ok? ==>
                && ApplyAll(old(files), ops) == Ok(Done(files, r.value))
                && Direct(old(files), ops).Ok? && files == Direct(old(files), ops).value.files
                && (r.value == Direct(old(files), ops).value.changes <==> DeletionsCountAsFound(old(files), ops))
                && exists w :: written == old(written) + w && WritesExactly(old(files), files, w)
      ensures r.Err? ==> if r.error == Interrupted then patience.Some? else Direct(old(files), ops) == Err(r.error)
      ensures r.Err? && (r.error != Interrupted || Direct(old(files), ops).Err?) ==> files == old(files) && written == old(written)
      ensures r.Err? && Direct(old(files), ops).Ok? ==> Between(old(files), Direct(old(files), ops).value.files, files)
    {
      FilesAgree(files, ops);
      if Direct(files, ops).Ok? { ChangesAgreeExactly(files, ops); }
      var staged, left := StageAll(ops, patience);
      if staged.Err? { return Err(staged.error); }
      var overlay := staged.value.0;
      ghost var after := ApplyAll(files, ops).value.files;
      r := Commit(overlay, staged.value.1, left, after);
      if r.Ok? {
        FullyWritten(old(files), overlay, files, after);
        ChangedIsTheDifference(old(files), overlay, after);
      }
    }

    /** Writes one staged state, if its value differs from the one found. */
    method CommitOne(overlay: Overlay, i: nat, ghost start: Files, ghost log: seq<string>) returns (ghost more: seq<string>)
      requires Committed(start, overlay, i, files, log) && i < |overlay.order|
      modifies this
      ensures Committed(start, overlay, i + 1, files, more)
      ensures log <= more && written == old(written) + more[|log|..]
    {
      var path := overlay.order[i];
      var state := overlay.states[path];
      CommittedNext(start, overlay, i, files, log);
      more := log;
      if state.value != state.original {
        Write(path, state.value);
        more := log + [path];
      }
    }

    /** Writes the staged states that differ, in the order in which their paths were read. */
    method Commit(overlay: Overlay, changes: seq<FileChange>, patience: Option<nat>, ghost after: Files)
      returns (r: Result<seq<FileChange>, PatchError>)
      requires Staged(files, overlay) && Shows(files, overlay, after)
      modifies this
      ensures r == Ok(changes) || (r == Err(Interrupted) && patience.Some?)
      ensures r.Ok? ==> WrittenAt(old(files), overlay, overlay.order, files)
      ensures r.Ok? ==> written == old(written) + Changed(overlay.order, overlay.states)
      ensures Between(old(files), after, files)
    {
      var left := patience;
      ghost var start, log := files, [];
      NothingCommitted(start, overlay);
      for i := 0 to |overlay.order|
        invariant Committed(start, overlay, i, files, log)
        invariant patience.None? ==> left.None?
        invariant written == old(written) + log
      {
        if left == Some(0) {
          PartlyCommitted(start, overlay, i, files, log, after);
          return Err(Interrupted);
        }
        left := if left.Some? then Some(left.value - 1) else None;
        log := CommitOne(overlay, i, start, log);
      }
      PartlyCommitted(start, overlay, |overlay.order|, files, log, after);
      r := Ok(changes);
    }
  }
}
