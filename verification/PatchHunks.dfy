/** Exact-context hunks over line arrays, and the text form of the same update. */
module PatchHunks {
  import opened Common
  import opened Counting

  type Lines = seq<string>

  /** A hunk line by its prefix character. */
  datatype HunkLine = Context(text: string) | Added(text: string) | Deleted(text: string)

  /** The header counts are advisory and never read. */
  datatype Hunk = Hunk(oldStart: Option<nat>, newStart: Option<nat>, lines: seq<HunkLine>)

  datatype HunkError = OutsideFile | NoMatch | AmbiguousContext

  function OldLines(ls: seq<HunkLine>): Lines {
    if ls == [] then [] else (if ls[0].Added? then [] else [ls[0].text]) + OldLines(ls[1..])
  }

  function NewLines(ls: seq<HunkLine>): Lines {
    if ls == [] then [] else (if ls[0].Deleted? then [] else [ls[0].text]) + NewLines(ls[1..])
  }

  function AddedCount(ls: seq<HunkLine>): nat {
    if ls == [] then 0 else (if ls[0].Added? then 1 else 0) + AddedCount(ls[1..])
  }

  function DeletedCount(ls: seq<HunkLine>): nat {
    if ls == [] then 0 else (if ls[0].Deleted? then 1 else 0) + DeletedCount(ls[1..])
  }

  // ---- locating a hunk ----

  predicate MatchesAt(lines: Lines, before: Lines, i: nat) {
    i + |before| <= |lines| && lines[i..i + |before|] == before
  }

  /** The line hint of a header, counted from zero. */
  function Hint(h: Hunk): Option<nat> {
    var start := if h.oldStart.Some? then h.oldStart else h.newStart;
    if start.None? then None else Some(if start.value == 0 then 0 else start.value - 1)
  }

  /** The positions below `n` where `before` matches. */
  function MatchesBelow(lines: Lines, before: Lines, n: nat): (r: seq<nat>)
    ensures forall i: nat :: i in r <==> i < n && MatchesAt(lines, before, i)
    ensures NoDuplicates(r)
  {
    if n == 0 then []
    else
      var r := MatchesBelow(lines, before, n - 1);
      if MatchesAt(lines, before, n - 1) then r + [n - 1] else r
  }

  function Locate(lines: Lines, before: Lines, hint: Option<nat>): Result<nat, HunkError> {
    if before == [] then
      var at := if hint.Some? then hint.value else |lines|;
      if at > |lines| then Err(OutsideFile) else Ok(at)
    else
      var matches := MatchesBelow(lines, before, |lines|);
      if matches == [] then Err(NoMatch)
      else if hint.Some? && hint.value in matches then Ok(hint.value)
      else if |matches| > 1 then Err(AmbiguousContext)
      else Ok(matches[0])
  }

  /**
   Where a non-empty context is found, without reference to the search: at the hinted position if it matches there,
   otherwise at the only position where it matches; a second match makes it ambiguous.
   */
  lemma LocateMeaning(lines: Lines, before: Lines, hint: Option<nat>)
    requires before != []
    ensures Locate(lines, before, hint).Err? && Locate(lines, before, hint).error.NoMatch? <==> forall i: nat :: !MatchesAt(lines, before, i)
    ensures forall at: nat :: Locate(lines, before, hint) == Ok(at) <==>
              MatchesAt(lines, before, at) && (hint == Some(at) || (
                (hint.Some? ==> !MatchesAt(lines, before, hint.value)) && forall i: nat :: MatchesAt(lines, before, i) ==> i == at))
  {
    var matches := MatchesBelow(lines, before, |lines|);
    assert forall i: nat :: MatchesAt(lines, before, i) <==> i in matches;
    if |matches| > 1 {
      assert matches[0] in matches && matches[1] in matches && matches[0] != matches[1];
    } else if |matches| == 1 {
      assert matches[0] in matches;
      assert forall i: nat :: i in matches ==> i == matches[0];
    }
  }

  /** Lines without context go to the hinted position, or to the end, as long as that is inside the file. */
  lemma InsertionMeaning(lines: Lines, hint: Option<nat>)
    ensures forall at: nat :: Locate(lines, [], hint) == Ok(at) <==> at <= |lines| && at == if hint.Some? then hint.value else |lines|
    ensures Locate(lines, [], hint).Err? ==> Locate(lines, [], hint).error == OutsideFile && hint.Some? && hint.value > |lines|
  {
  }

  // ---- applying hunks ----

  /** What a hunk list did: the new lines, the counts, and the position of every splice. */
  datatype Applied = Applied(lines: Lines, added: nat, deleted: nat, positions: seq<nat>)

  function Splice(lines: Lines, at: nat, removed: nat, inserted: Lines): Lines
    requires at + removed <= |lines|
  {
    lines[..at] + inserted + lines[at + removed..]
  }

  /** A located context lies inside the file. */
  lemma LocatedInside(lines: Lines, before: Lines, hint: Option<nat>)
    ensures var r := Locate(lines, before, hint); r.Ok? ==> MatchesAt(lines, before, r.value)
  {
    if before != [] {
      var matches := MatchesBelow(lines, before, |lines|);
      if matches != [] { assert matches[0] in matches; }
    }
  }

  function ApplyHunk(lines: Lines, h: Hunk): Result<Applied, HunkError> {
    var before := OldLines(h.lines);
    var at := Locate(lines, before, Hint(h));
    if at.Err? then Err(at.error)
    else
      LocatedInside(lines, before, Hint(h));
      Ok(Applied(Splice(lines, at.value, |before|, NewLines(h.lines)), AddedCount(h.lines), DeletedCount(h.lines), [at.value]))
  }

  function ApplyHunks(lines: Lines, hunks: seq<Hunk>): Result<Applied, HunkError> {
    if hunks == [] then Ok(Applied(lines, 0, 0, []))
    else
      var first := ApplyHunks(lines, hunks[..|hunks| - 1]);
      if first.Err? then first
      else
        var last := ApplyHunk(first.value.lines, hunks[|hunks| - 1]);
        if last.Err? then last
        else Ok(Applied(last.value.lines, first.value.added + last.value.added, first.value.deleted + last.value.deleted,
                        first.value.positions + last.value.positions))
  }

  /** The source's loop: locate, splice in place, count. */
  method ApplyToLines(lines: Lines, hunks: seq<Hunk>) returns (r: Result<Applied, HunkError>)
    ensures r == ApplyHunks(lines, hunks)
    ensures r.Ok? ==> exists from: seq<Source> :: Woven(lines, hunks, r.value.lines, from) && |lines| <= KeptCount(from) + r.value.deleted
  {
    var target, added: nat, deleted: nat, positions := lines, 0, 0, [];
    for i := 0 to |hunks|
      invariant ApplyHunks(lines, hunks[..i]) == Ok(Applied(target, added, deleted, positions))
    {
      ApplyNext(lines, hunks, i);
      var before := OldLines(hunks[i].lines);
      var at := Locate(target, before, Hint(hunks[i]));
      if at.Err? {
        FailsOnPrefix(lines, hunks, i + 1);
        return Err(at.error);
      }
      LocatedInside(target, before, Hint(hunks[i]));
      target := Splice(target, at.value, |before|, NewLines(hunks[i].lines));
      added := added + AddedCount(hunks[i].lines);
      deleted := deleted + DeletedCount(hunks[i].lines);
      positions := positions + [at.value];
    }
    assert hunks[..|hunks|] == hunks;
    ghost var from := HunksKeepTheRest(lines, hunks, |hunks|);
    r := Ok(Applied(target, added, deleted, positions));
  }

  lemma ApplyNext(lines: Lines, hunks: seq<Hunk>, i: nat)
    requires i < |hunks| && ApplyHunks(lines, hunks[..i]).Ok?
    ensures var first := ApplyHunks(lines, hunks[..i]).value;
            var last := ApplyHunk(first.lines, hunks[i]);
            ApplyHunks(lines, hunks[..i + 1])
            == if last.Err? then last
               else Ok(Applied(last.value.lines, first.added + last.value.added, first.deleted + last.value.deleted,
                               first.positions + last.value.positions))
  {
    assert hunks[..i + 1][..i] == hunks[..i];
  }

  lemma {:induction false} FailsOnPrefix(lines: Lines, hunks: seq<Hunk>, n: nat)
    requires n <= |hunks| && ApplyHunks(lines, hunks[..n]).Err?
    ensures ApplyHunks(lines, hunks) == ApplyHunks(lines, hunks[..n])
    decreases |hunks| - n
  {
    if n == |hunks| {
      assert hunks[..n] == hunks;
    } else {
      assert hunks[..n + 1][..n] == hunks[..n];
      FailsOnPrefix(lines, hunks, n + 1);
    }
  }

  // ---- line counts ----

  lemma {:induction false} HunkLineCounts(ls: seq<HunkLine>)
    ensures |NewLines(ls)| + DeletedCount(ls) == |OldLines(ls)| + AddedCount(ls)
  {
    if ls != [] { HunkLineCounts(ls[1..]); }
  }

  /** The line count after an update is the count before, plus the added lines, minus the deleted ones. */
  lemma {:induction false} LineCounts(lines: Lines, hunks: seq<Hunk>)
    ensures var r := ApplyHunks(lines, hunks);
            r.Ok? ==> && |r.value.lines| + r.value.deleted == |lines| + r.value.added
                      && |r.value.positions| == |hunks|
  {
    if hunks != [] {
      var init, h := hunks[..|hunks| - 1], hunks[|hunks| - 1];
      LineCounts(lines, init);
      HunkLineCounts(h.lines);
      var first := ApplyHunks(lines, init);
      if first.Ok? { LocatedInside(first.value.lines, OldLines(h.lines), Hint(h)); }
    }
  }

  // ---- what a hunk does, line by line ----

  /** Context and deleted lines stand in the old file, context and added lines in the new one, each in the hunk's order. */
  lemma {:induction false} OldSide(a: seq<HunkLine>, b: seq<HunkLine>)
    ensures OldLines(a + b) == OldLines(a) + OldLines(b)
  {
    if a == [] {
      assert a + b == b;
    } else {
      assert (a + b)[1..] == a[1..] + b;
      OldSide(a[1..], b);
    }
  }

  lemma {:induction false} NewSide(a: seq<HunkLine>, b: seq<HunkLine>)
    ensures NewLines(a + b) == NewLines(a) + NewLines(b)
  {
    if a == [] {
      assert a + b == b;
    } else {
      assert (a + b)[1..] == a[1..] + b;
      NewSide(a[1..], b);
    }
  }

  lemma SidesOfHunk(a: seq<HunkLine>, l: HunkLine)
    ensures OldLines(a + [l]) == OldLines(a) + (if l.Context? || l.Deleted? then [l.text] else [])
    ensures NewLines(a + [l]) == NewLines(a) + (if l.Context? || l.Added? then [l.text] else [])
  {
    OldSide(a, [l]);
    NewSide(a, [l]);
  }

  predicate IsAdded(l: HunkLine) {
    l.Added?
  }

  predicate IsDeleted(l: HunkLine) {
    l.Deleted?
  }

  /** The reported counts are those of the added and of the deleted lines. */
  lemma {:induction false} CountsOfHunk(ls: seq<HunkLine>)
    ensures AddedCount(ls) == CountIf(ls, IsAdded)
    ensures DeletedCount(ls) == CountIf(ls, IsDeleted)
  {
    if ls != [] {
      assert ls == [ls[0]] + ls[1..];
      CountsOfHunk(ls[1..]);
      CountAppend([ls[0]], ls[1..], IsAdded);
      CountAppend([ls[0]], ls[1..], IsDeleted);
    }
  }

  /**
   Line by line: the old side of the hunk stood at the reported position and the new side stands there now; every line
   in front keeps its number, and every line behind moves by the difference of the two sides. The counts are those of the
   added and deleted lines.
   */
  ghost predicate ByLine(lines: Lines, h: Hunk, r: Applied) {
    var before, after := OldLines(h.lines), NewLines(h.lines);
    && |r.positions| == 1
    && var at := r.positions[0];
    && at + |before| <= |lines| && |r.lines| == |lines| - |before| + |after|
    && (forall k :: 0 <= k < at ==> r.lines[k] == lines[k])
    && (forall k :: 0 <= k < |before| ==> lines[at + k] == before[k])
    && (forall k :: 0 <= k < |after| ==> r.lines[at + k] == after[k])
    && (forall k :: at + |before| <= k < |lines| ==> r.lines[k - |before| + |after|] == lines[k])
    && r.added == CountIf(h.lines, IsAdded) && r.deleted == CountIf(h.lines, IsDeleted)
  }

  lemma HunkByLine(lines: Lines, h: Hunk)
    requires ApplyHunk(lines, h).Ok?
    ensures ByLine(lines, h, ApplyHunk(lines, h).value)
  {
    var before := OldLines(h.lines);
    LocatedInside(lines, before, Hint(h));
    ByLineAt(lines, h, Locate(lines, before, Hint(h)).value);
  }

  lemma ByLineAt(lines: Lines, h: Hunk, at: nat)
    requires MatchesAt(lines, OldLines(h.lines), at)
    ensures ByLine(lines, h, Applied(Splice(lines, at, |OldLines(h.lines)|, NewLines(h.lines)), AddedCount(h.lines), DeletedCount(h.lines), [at]))
  {
    CountsOfHunk(h.lines);
    SpliceByLine(lines, at, OldLines(h.lines), NewLines(h.lines));
  }

  lemma SpliceByLine(lines: Lines, at: nat, before: Lines, after: Lines)
    requires MatchesAt(lines, before, at)
    ensures var r := Splice(lines, at, |before|, after);
            && |r| == |lines| - |before| + |after|
            && (forall k :: 0 <= k < at ==> r[k] == lines[k])
            && (forall k :: 0 <= k < |before| ==> lines[at + k] == before[k])
            && (forall k :: 0 <= k < |after| ==> r[at + k] == after[k])
            && (forall k :: at + |before| <= k < |lines| ==> r[k - |before| + |after|] == lines[k])
  {
    forall k | 0 <= k < |before| ensures lines[at + k] == before[k] { assert lines[at..at + |before|][k] == before[k]; }
  }

  /**
   Where a hunk goes: its header names a line by the old start or, without one, by the new start, and line zero means the
   first. A hunk without old lines goes there or to the end; any other goes where its old lines stand, if they stand at the
   named line or nowhere else.
   */
  lemma PlaceMeaning(lines: Lines, h: Hunk, at: nat)
    ensures var before, start := OldLines(h.lines), if h.oldStart.Some? then h.oldStart else h.newStart;
            var named: int := if start.None? then -1 else if start.value > 0 then start.value - 1 else 0;
            (ApplyHunk(lines, h).Ok? && ApplyHunk(lines, h).value.positions == [at]) <==>
            if before == [] then at <= |lines| && at == (if start.None? then |lines| else named)
            else MatchesAt(lines, before, at)
                 && (at == named || ((named >= 0 ==> !MatchesAt(lines, before, named)) && forall i: nat :: MatchesAt(lines, before, i) ==> i == at))
  {
    var before, hint := OldLines(h.lines), Hint(h);
    if before == [] { InsertionMeaning(lines, hint); } else { LocateMeaning(lines, before, hint); }
    assert ApplyHunk(lines, h).Ok? && ApplyHunk(lines, h).value.positions == [at] <==> Locate(lines, before, hint) == Ok(at);
  }

  // ---- what is left of a file ----

  /** Where a line of the new file comes from: a line of the old file, or an added line of a hunk. */
  datatype Source = Kept(index: nat) | Inserted(hunk: nat, line: nat)

  /** A source of this text. */
  ghost predicate Supplies(lines: Lines, hunks: seq<Hunk>, source: Source, text: string) {
    match source
    case Kept(k) => k < |lines| && lines[k] == text
    case Inserted(h, l) => h < |hunks| && l < |hunks[h].lines| && hunks[h].lines[l] == Added(text)
  }

  /** What is kept of the old file stands in its old order. */
  ghost predicate InOrder(from: seq<Source>) {
    forall x, y :: 0 <= x < y < |from| && from[x].Kept? && from[y].Kept? ==> from[x].index < from[y].index
  }

  ghost predicate Woven(lines: Lines, hunks: seq<Hunk>, result: Lines, from: seq<Source>) {
    |from| == |result| && InOrder(from) && forall x :: 0 <= x < |result| ==> Supplies(lines, hunks, from[x], result[x])
  }

  function KeptCount(from: seq<Source>): nat {
    CountIf(from, (s: Source) => s.Kept?)
  }

  /** The sources of a hunk's new side, given those of its old side; `l` numbers the hunk's lines. */
  function Weave(ls: seq<HunkLine>, from: seq<Source>, h: nat, l: nat): seq<Source>
    requires |from| == |OldLines(ls)|
  {
    if ls == [] then []
    else
      match ls[0]
      case Context(_) => [from[0]] + Weave(ls[1..], from[1..], h, l + 1)
      case Deleted(_) => Weave(ls[1..], from[1..], h, l + 1)
      case Added(_) => [Inserted(h, l)] + Weave(ls[1..], from, h, l + 1)
  }

  ghost predicate AllSupplied(lines: Lines, hunks: seq<Hunk>, from: seq<Source>, texts: Lines) {
    |from| == |texts| && forall x :: 0 <= x < |texts| ==> Supplies(lines, hunks, from[x], texts[x])
  }

  lemma SuppliedCons(lines: Lines, hunks: seq<Hunk>, s: Source, text: string, from: seq<Source>, texts: Lines)
    ensures AllSupplied(lines, hunks, [s] + from, [text] + texts) <==>
            Supplies(lines, hunks, s, text) && AllSupplied(lines, hunks, from, texts)
  {
    if AllSupplied(lines, hunks, [s] + from, [text] + texts) {
      assert ([s] + from)[0] == s && ([text] + texts)[0] == text;
      forall x | 0 <= x < |texts| ensures Supplies(lines, hunks, from[x], texts[x]) {
        assert ([s] + from)[x + 1] == from[x] && ([text] + texts)[x + 1] == texts[x];
      }
    }
  }

  lemma {:induction false} WeaveSupplies(lines: Lines, hunks: seq<Hunk>, ls: seq<HunkLine>, from: seq<Source>, h: nat, l: nat)
    requires h < |hunks| && l <= |hunks[h].lines| && hunks[h].lines[l..] == ls && AllSupplied(lines, hunks, from, OldLines(ls))
    ensures AllSupplied(lines, hunks, Weave(ls, from, h, l), NewLines(ls))
  {
    if ls != [] {
      var rest := ls[1..];
      assert hunks[h].lines[l] == ls[0] && hunks[h].lines[l + 1..] == rest;
      if ls[0].Added? {
        WeaveSupplies(lines, hunks, rest, from, h, l + 1);
        SuppliedCons(lines, hunks, Inserted(h, l), ls[0].text, Weave(rest, from, h, l + 1), NewLines(rest));
      } else {
        assert from == [from[0]] + from[1..];
        SuppliedCons(lines, hunks, from[0], ls[0].text, from[1..], OldLines(rest));
        WeaveSupplies(lines, hunks, rest, from[1..], h, l + 1);
        SuppliedCons(lines, hunks, from[0], ls[0].text, Weave(rest, from[1..], h, l + 1), NewLines(rest));
      }
    }
  }

  lemma {:induction false} WeaveInOrder(ls: seq<HunkLine>, front: seq<Source>, from: seq<Source>, back: seq<Source>, h: nat, l: nat)
    requires |from| == |OldLines(ls)| && InOrder(front + from + back)
    ensures InOrder(front + Weave(ls, from, h, l) + back)
  {
    if ls == [] {
      assert from == [] && front + [] + back == front + from + back;
    } else if ls[0].Added? {
      assert front + (from + back) == front + from + back;
      InsertInOrder(front, from + back, Inserted(h, l));
      assert front + [Inserted(h, l)] + (from + back) == front + [Inserted(h, l)] + from + back;
      WeaveInOrder(ls[1..], front + [Inserted(h, l)], from, back, h, l + 1);
      assert front + [Inserted(h, l)] + Weave(ls[1..], from, h, l + 1) + back == front + Weave(ls, from, h, l) + back;
    } else {
      assert from == [from[0]] + from[1..];
      if ls[0].Context? {
        assert front + [from[0]] + from[1..] + back == front + from + back;
        WeaveInOrder(ls[1..], front + [from[0]], from[1..], back, h, l + 1);
        assert front + [from[0]] + Weave(ls[1..], from[1..], h, l + 1) + back == front + Weave(ls, from, h, l) + back;
      } else {
        assert front + [from[0]] + (from[1..] + back) == front + from + back;
        RemoveInOrder(front, from[0], from[1..] + back);
        assert front + (from[1..] + back) == front + from[1..] + back;
        WeaveInOrder(ls[1..], front, from[1..], back, h, l + 1);
      }
    }
  }

  lemma InsertInOrder(front: seq<Source>, back: seq<Source>, s: Source)
    requires InOrder(front + back) && s.Inserted?
    ensures InOrder(front + [s] + back)
  {
    var from, all := front + back, front + [s] + back;
    forall x, y | 0 <= x < y < |all| && all[x].Kept? && all[y].Kept? ensures all[x].index < all[y].index {
      var x', y' := if x < |front| then x else x - 1, if y < |front| then y else y - 1;
      assert all[x] == from[x'] && all[y] == from[y'];
    }
  }

  lemma RemoveInOrder(front: seq<Source>, s: Source, back: seq<Source>)
    requires InOrder(front + [s] + back)
    ensures InOrder(front + back)
  {
    var from, all := front + [s] + back, front + back;
    forall x, y | 0 <= x < y < |all| && all[x].Kept? && all[y].Kept? ensures all[x].index < all[y].index {
      var x', y' := if x < |front| then x else x + 1, if y < |front| then y else y + 1;
      assert all[x] == from[x'] && all[y] == from[y'];
    }
  }

  lemma {:induction false} WeaveKeeps(ls: seq<HunkLine>, from: seq<Source>, h: nat, l: nat)
    requires |from| == |OldLines(ls)|
    ensures KeptCount(from) <= KeptCount(Weave(ls, from, h, l)) + DeletedCount(ls)
  {
    if ls != [] {
      var kept := (s: Source) => s.Kept?;
      if ls[0].Added? {
        WeaveKeeps(ls[1..], from, h, l + 1);
        CountAppend([Inserted(h, l)], Weave(ls[1..], from, h, l + 1), kept);
      } else {
        assert from == [from[0]] + from[1..];
        WeaveKeeps(ls[1..], from[1..], h, l + 1);
        CountAppend([from[0]], from[1..], kept);
        CountAppend([from[0]], Weave(ls[1..], from[1..], h, l + 1), kept);
        assert CountIf([from[0]], kept) <= 1;
      }
    }
  }

  /** The sources after one hunk: those in front and behind stay, those of its old side are woven with its added lines. */
  function WovenBy(h: Hunk, n: nat, at: nat, from: seq<Source>): seq<Source>
    requires at + |OldLines(h.lines)| <= |from|
  {
    var end := at + |OldLines(h.lines)|;
    from[..at] + Weave(h.lines, from[at..end], n, 0) + from[end..]
  }

  lemma WovenNext(lines: Lines, hunks: seq<Hunk>, n: nat, before: Lines, from: seq<Source>, r: Applied)
    requires n < |hunks| && Woven(lines, hunks, before, from) && ByLine(before, hunks[n], r)
    ensures Woven(lines, hunks, r.lines, WovenBy(hunks[n], n, r.positions[0], from))
    ensures KeptCount(from) <= KeptCount(WovenBy(hunks[n], n, r.positions[0], from)) + r.deleted
  {
    WovenSupplies(lines, hunks, n, before, from, r);
    WovenInOrder(hunks[n], n, r.positions[0], from);
    WovenKeeps(hunks[n], n, r.positions[0], from);
    CountsOfHunk(hunks[n].lines);
  }

  lemma WovenInOrder(h: Hunk, n: nat, at: nat, from: seq<Source>)
    requires InOrder(from) && at + |OldLines(h.lines)| <= |from|
    ensures InOrder(WovenBy(h, n, at, from))
  {
    var end := at + |OldLines(h.lines)|;
    assert from == from[..at] + from[at..end] + from[end..];
    WeaveInOrder(h.lines, from[..at], from[at..end], from[end..], n, 0);
  }

  lemma WovenKeeps(h: Hunk, n: nat, at: nat, from: seq<Source>)
    requires at + |OldLines(h.lines)| <= |from|
    ensures KeptCount(from) <= KeptCount(WovenBy(h, n, at, from)) + DeletedCount(h.lines)
  {
    var end := at + |OldLines(h.lines)|;
    assert from == from[..at] + from[at..end] + from[end..];
    WeaveKeeps(h.lines, from[at..end], n, 0);
    CountThree(from[..at], from[at..end], from[end..]);
    CountThree(from[..at], Weave(h.lines, from[at..end], n, 0), from[end..]);
  }

  lemma CountThree(a: seq<Source>, b: seq<Source>, c: seq<Source>)
    ensures KeptCount(a + b + c) == KeptCount(a) + KeptCount(b) + KeptCount(c)
  {
    CountAppend(a, b, (s: Source) => s.Kept?);
    CountAppend(a + b, c, (s: Source) => s.Kept?);
  }

  /** The woven side of a hunk whose old side stands at `at`. */
  lemma MiddleSupplies(lines: Lines, hunks: seq<Hunk>, n: nat, before: Lines, from: seq<Source>, at: nat)
    requires n < |hunks| && Woven(lines, hunks, before, from) && at + |OldLines(hunks[n].lines)| <= |before|
    requires forall k :: 0 <= k < |OldLines(hunks[n].lines)| ==> before[at + k] == OldLines(hunks[n].lines)[k]
    ensures var ls := hunks[n].lines;
            var woven := Weave(ls, from[at..at + |OldLines(ls)|], n, 0);
            |woven| == |NewLines(ls)| && forall x :: 0 <= x < |woven| ==> Supplies(lines, hunks, woven[x], NewLines(ls)[x])
  {
    var ls := hunks[n].lines;
    var middle := from[at..at + |OldLines(ls)|];
    forall x | 0 <= x < |middle| ensures Supplies(lines, hunks, middle[x], OldLines(ls)[x]) {
      assert middle[x] == from[at + x] && Supplies(lines, hunks, from[at + x], before[at + x]);
    }
    assert ls[0..] == ls && AllSupplied(lines, hunks, middle, OldLines(ls));
    WeaveSupplies(lines, hunks, ls, middle, n, 0);
  }

  lemma WovenSupplies(lines: Lines, hunks: seq<Hunk>, n: nat, before: Lines, from: seq<Source>, r: Applied)
    requires n < |hunks| && Woven(lines, hunks, before, from) && ByLine(before, hunks[n], r)
    ensures var sources := WovenBy(hunks[n], n, r.positions[0], from);
            |sources| == |r.lines| && forall x :: 0 <= x < |sources| ==> Supplies(lines, hunks, sources[x], r.lines[x])
  {
    var ls := hunks[n].lines;
    var at, removed := r.positions[0], |OldLines(ls)|;
    MiddleSupplies(lines, hunks, n, before, from, at);
    SplicedSupplies(lines, hunks, before, from, r.lines, at, removed, Weave(ls, from[at..at + removed], n, 0));
  }

  lemma SplicedSupplies(lines: Lines, hunks: seq<Hunk>, before: Lines, from: seq<Source>, after: Lines, at: nat, removed: nat, woven: seq<Source>)
    requires Woven(lines, hunks, before, from) && at + removed <= |before| && |after| == |before| - removed + |woven|
    requires forall k :: 0 <= k < at ==> after[k] == before[k]
    requires forall k :: at + removed <= k < |before| ==> after[k - removed + |woven|] == before[k]
    requires forall x :: 0 <= x < |woven| ==> Supplies(lines, hunks, woven[x], after[at + x])
    ensures var sources := from[..at] + woven + from[at + removed..];
            |sources| == |after| && forall x :: 0 <= x < |after| ==> Supplies(lines, hunks, sources[x], after[x])
  {
    var sources := from[..at] + woven + from[at + removed..];
    forall x | 0 <= x < |after| ensures Supplies(lines, hunks, sources[x], after[x]) {
      if at <= x < at + |woven| {
        assert sources[x] == woven[x - at] && Supplies(lines, hunks, woven[x - at], after[at + (x - at)]);
      } else if x >= at {
        var k := x - |woven| + removed;
        assert sources[x] == from[k] && after[k - removed + |woven|] == before[k];
      }
    }
  }

  /**
   A whole hunk list: the new lines are lines of the old file in their old order, woven with added lines of the hunks,
   and no more old lines are gone than deletions are reported.
   */
  lemma {:induction false} HunksKeepTheRest(lines: Lines, hunks: seq<Hunk>, n: nat) returns (from: seq<Source>)
    requires n <= |hunks| && ApplyHunks(lines, hunks[..n]).Ok?
    ensures var r := ApplyHunks(lines, hunks[..n]).value;
            Woven(lines, hunks, r.lines, from) && |lines| <= KeptCount(from) + r.deleted
  {
    if n == 0 {
      from := seq(|lines|, i requires 0 <= i < |lines| => Kept(i));
      AllKept(lines);
    } else {
      assert hunks[..n][..n - 1] == hunks[..n - 1];
      var before := HunksKeepTheRest(lines, hunks, n - 1);
      var first := ApplyHunks(lines, hunks[..n - 1]).value;
      var last := ApplyHunk(first.lines, hunks[n - 1]).value;
      HunkByLine(first.lines, hunks[n - 1]);
      WovenNext(lines, hunks, n - 1, first.lines, before, last);
      from := WovenBy(hunks[n - 1], n - 1, last.positions[0], before);
    }
  }

  lemma {:induction false} AllKept(lines: Lines)
    ensures KeptCount(seq(|lines|, i requires 0 <= i < |lines| => Kept(i))) == |lines|
  {
    if lines != [] {
      var init := lines[..|lines| - 1];
      var all := seq(|lines|, i requires 0 <= i < |lines| => Kept(i));
      AllKept(init);
      assert all[..|all| - 1] == seq(|init|, i requires 0 <= i < |init| => Kept(i));
    }
  }

  // ---- inverting ----

  function FlipLine(l: HunkLine): HunkLine {
    match l
    case Context(t) => Context(t)
    case Added(t) => Deleted(t)
    case Deleted(t) => Added(t)
  }

  /** The reverse hunk, with its header naming the line where the original was applied. */
  function Flip(h: Hunk, at: nat): Hunk {
    Hunk(Some(at + 1), None, seq(|h.lines|, i requires 0 <= i < |h.lines| => FlipLine(h.lines[i])))
  }

  /** The flipped hunks in reverse order, each with the position of its original. */
  function Inverse(hunks: seq<Hunk>, positions: seq<nat>): seq<Hunk>
    requires |positions| == |hunks|
  {
    if hunks == [] then []
    else [Flip(hunks[|hunks| - 1], positions[|hunks| - 1])] + Inverse(hunks[..|hunks| - 1], positions[..|hunks| - 1])
  }

  lemma {:induction false} FlippedLines(ls: seq<HunkLine>, flipped: seq<HunkLine>)
    requires |flipped| == |ls| && forall i :: 0 <= i < |ls| ==> flipped[i] == FlipLine(ls[i])
    ensures OldLines(flipped) == NewLines(ls) && NewLines(flipped) == OldLines(ls)
    ensures AddedCount(flipped) == DeletedCount(ls) && DeletedCount(flipped) == AddedCount(ls)
  {
    if ls != [] { FlippedLines(ls[1..], flipped[1..]); }
  }

  /** Replacing a slice and putting the old one back. */
  lemma SpliceBack(lines: Lines, at: nat, before: Lines, after: Lines)
    requires MatchesAt(lines, before, at)
    ensures var r := Splice(lines, at, |before|, after);
            MatchesAt(r, after, at) && Splice(r, at, |after|, before) == lines
  {
    var r := Splice(lines, at, |before|, after);
    assert r[at..at + |after|] == after;
  }

  lemma LocatedByHint(lines: Lines, before: Lines, at: nat)
    requires MatchesAt(lines, before, at)
    ensures Locate(lines, before, Some(at)) == Ok(at)
  {
    if before != [] { assert at in MatchesBelow(lines, before, |lines|); }
  }

  lemma FlipUndoes(lines: Lines, h: Hunk)
    requires ApplyHunk(lines, h).Ok?
    ensures var r := ApplyHunk(lines, h).value;
            ApplyHunk(r.lines, Flip(h, r.positions[0])) == Ok(Applied(lines, r.deleted, r.added, r.positions))
  {
    var r := ApplyHunk(lines, h).value;
    var at := r.positions[0];
    var before, after := OldLines(h.lines), NewLines(h.lines);
    LocatedInside(lines, before, Hint(h));
    FlippedLines(h.lines, Flip(h, at).lines);
    SpliceBack(lines, at, before, after);
    assert Hint(Flip(h, at)) == Some(at);
    LocatedByHint(r.lines, after, at);
  }

  /** What two updates in sequence add up to. */
  function Then(first: Applied, second: Applied): Applied {
    Applied(second.lines, first.added + second.added, first.deleted + second.deleted, first.positions + second.positions)
  }

  lemma ThenAssociates(a: Applied, b: Applied, c: Applied)
    ensures Then(a, Then(b, c)) == Then(Then(a, b), c)
  {
  }

  lemma ApplySnoc(lines: Lines, hunks: seq<Hunk>, h: Hunk)
    requires ApplyHunks(lines, hunks).Ok?
    ensures var first, all := ApplyHunks(lines, hunks).value, ApplyHunks(lines, hunks + [h]);
            var last := ApplyHunk(first.lines, h);
            all == if last.Ok? then Ok(Then(first, last.value)) else last
  {
    assert (hunks + [h])[..|hunks|] == hunks && (hunks + [h])[|hunks|] == h;
  }

  lemma {:induction false} ApplyAppend(lines: Lines, a: seq<Hunk>, b: seq<Hunk>)
    requires ApplyHunks(lines, a).Ok? && ApplyHunks(ApplyHunks(lines, a).value.lines, b).Ok?
    ensures var first := ApplyHunks(lines, a).value;
            ApplyHunks(lines, a + b) == Ok(Then(first, ApplyHunks(first.lines, b).value))
  {
    var first := ApplyHunks(lines, a).value;
    if b == [] {
      assert a + b == a && first.positions + [] == first.positions;
    } else {
      var init, h := b[..|b| - 1], b[|b| - 1];
      assert b == init + [h] && a + b == (a + init) + [h];
      ApplyAppend(lines, a, init);
      ApplySnoc(lines, a + init, h);
      ApplySnoc(first.lines, init, h);
      var mid := ApplyHunks(first.lines, init).value;
      ThenAssociates(first, mid, ApplyHunk(mid.lines, h).value);
    }
  }

  /**
   Hunks are invertible: whatever a hunk list did to a line array, its flipped hunks in reverse order, hinted at the
   positions where the originals matched, restore the array and swap the counts.
   */
  lemma {:induction false} HunksInvertible(lines: Lines, hunks: seq<Hunk>)
    requires ApplyHunks(lines, hunks).Ok?
    ensures var r := ApplyHunks(lines, hunks).value;
            && |r.positions| == |hunks|
            && var back := ApplyHunks(r.lines, Inverse(hunks, r.positions));
               back.Ok? && back.value.lines == lines && back.value.added == r.deleted && back.value.deleted == r.added
  {
    LineCounts(lines, hunks);
    if hunks != [] {
      var r := ApplyHunks(lines, hunks).value;
      var init, h := hunks[..|hunks| - 1], hunks[|hunks| - 1];
      HunksInvertible(lines, init);
      var mid := ApplyHunks(lines, init).value;
      var last := ApplyHunk(mid.lines, h).value;
      FlipUndoes(mid.lines, h);
      var flip := Flip(h, last.positions[0]);
      assert r.positions[..|init|] == mid.positions && r.positions[|init|] == last.positions[0];
      ApplySnoc(r.lines, [], flip);
      assert [] + [flip] == [flip];
      assert ApplyHunks(r.lines, [flip]).Ok? && ApplyHunks(r.lines, [flip]).value.lines == mid.lines;
      ApplyAppend(r.lines, [flip], Inverse(init, mid.positions));
    }
  }
}
