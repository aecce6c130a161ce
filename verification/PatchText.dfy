/** Updating file text: line endings are normalized, the text is split into lines, updated and joined again. */
module PatchText {
  import opened Common
  import opened PatchHunks
  import opened Text

  // ---- text and lines ----

  /** CRLF and lone CR become LF. */
  function Normalize(s: string): (r: string)
    ensures '\r' !in r
    ensures '\r' !in s ==> r == s
  {
    if s == "" then ""
    else if s[0] == '\r' then "\n" + Normalize(if |s| > 1 && s[1] == '\n' then s[2..] else s[1..])
    else [s[0]] + Normalize(s[1..])
  }

  ghost predicate AllClean(lines: Lines) {
    forall i :: 0 <= i < |lines| ==> Clean(lines[i])
  }

  lemma {:induction false} NormalizeKeeps(a: string, b: string)
    requires '\r' !in a
    ensures Normalize(a + b) == a + Normalize(b)
  {
    if a == "" {
      assert a + b == b;
    } else {
      assert (a + b)[0] == a[0] && (a + b)[1..] == a[1..] + b;
      NormalizeKeeps(a[1..], b);
      Regroup([a[0]], a[1..], Normalize(b));
      assert [a[0]] + a[1..] == a;
    }
  }

  lemma ReturnNormalized(b: string)
    ensures Normalize("\r\n" + b) == "\n" + Normalize(b)
    ensures (b == "" || b[0] != '\n') ==> Normalize("\r" + b) == "\n" + Normalize(b)
  {
    assert ("\r\n" + b)[2..] == b && ("\r" + b)[1..] == b;
  }

  /** Up to the first carriage return the text stays; that one, with a line feed behind it if there is one, becomes a line feed. */
  lemma NormalizeMeaning(a: string, b: string)
    requires '\r' !in a
    ensures Normalize(a + ("\r\n" + b)) == a + ("\n" + Normalize(b))
    ensures (b == "" || b[0] != '\n') ==> Normalize(a + ("\r" + b)) == a + ("\n" + Normalize(b))
  {
    NormalizeKeeps(a, "\r\n" + b);
    NormalizeKeeps(a, "\r" + b);
    ReturnNormalized(b);
  }

  function SplitOn(s: string, separator: char): (r: Lines)
    ensures r != [] && forall i :: 0 <= i < |r| ==> separator !in r[i]
    ensures separator == '\n' && '\r' !in s ==> AllClean(r)
  {
    if s == "" then [""]
    else
      var rest := SplitOn(s[1..], separator);
      if s[0] == separator then [""] + rest else [[s[0]] + rest[0]] + rest[1..]
  }

  function Split(s: string): Lines {
    SplitOn(s, '\n')
  }

  /** A stretch between two separators, or between one and an end of the text. */
  predicate Segment(s: string, separator: char, i: nat, j: nat) {
    && i <= j <= |s| && separator !in s[i..j]
    && (i == 0 || s[i - 1] == separator) && (j == |s| || s[j] == separator)
  }

  lemma {:induction false} SegmentIsPart(s: string, separator: char, i: nat, j: nat)
    requires Segment(s, separator, i, j)
    ensures i == 0 ==> SplitOn(s, separator)[0] == s[i..j]
    ensures i > 0 ==> s[i..j] in SplitOn(s, separator)[1..]
  {
    if s != "" {
      var t := s[1..];
      if i > 0 {
        assert t[i - 1..j - 1] == s[i..j];
        SegmentIsPart(t, separator, i - 1, j - 1);
      } else if s[0] != separator {
        assert s[i..j] == [s[0]] + t[..j - 1];
        SegmentIsPart(t, separator, 0, j - 1);
      }
    }
  }

  lemma Shifted(s: string, i: nat, j: nat)
    requires i <= j < |s|
    ensures s[1..][i..j] == s[i + 1..j + 1] && s[..j + 1] == [s[0]] + s[1..][..j]
  {
  }

  lemma {:induction false} PartIsSegment(s: string, separator: char, k: nat) returns (i: nat, j: nat)
    requires k < |SplitOn(s, separator)|
    ensures Segment(s, separator, i, j) && s[i..j] == SplitOn(s, separator)[k] && (k == 0 <==> i == 0)
  {
    i, j := 0, 0;
    if s != "" && !(s[0] == separator && k == 0) {
      var t := s[1..];
      i, j := PartIsSegment(t, separator, if s[0] == separator then k - 1 else k);
      Shifted(s, i, j);
      if s[0] != separator && k == 0 {
        j := j + 1;
      } else {
        i, j := i + 1, j + 1;
      }
    }
  }

  /** Splitting gives the stretches between separators and nothing else. */
  lemma SplitMeaning(s: string, separator: char, part: string)
    ensures part in SplitOn(s, separator) <==> exists i: nat, j: nat :: Segment(s, separator, i, j) && s[i..j] == part
  {
    if part in SplitOn(s, separator) {
      var k :| 0 <= k < |SplitOn(s, separator)| && SplitOn(s, separator)[k] == part;
      var i, j := PartIsSegment(s, separator, k);
    }
    if i: nat, j: nat :| Segment(s, separator, i, j) && s[i..j] == part { SegmentIsPart(s, separator, i, j); }
  }

  function Join(lines: Lines): string {
    if lines == [] then "" else if |lines| == 1 then lines[0] else lines[0] + "\n" + Join(lines[1..])
  }

  lemma {:induction false} JoinSplit(s: string)
    ensures Join(Split(s)) == s
  {
    if s != "" {
      JoinSplit(s[1..]);
      var rest := Split(s[1..]);
      if s[0] == '\n' {
        assert ([""] + rest)[1..] == rest;
        assert Join([""] + rest) == "" + "\n" + s[1..];
      } else {
        var line := [s[0]] + rest[0];
        assert ([line] + rest[1..])[1..] == rest[1..];
        if |rest| > 1 {
          assert line + "\n" + Join(rest[1..]) == [s[0]] + (rest[0] + "\n" + Join(rest[1..]));
        }
      }
    }
  }

  lemma {:induction false} SplitLine(line: string, rest: string)
    requires '\n' !in line
    ensures Split(line) == [line]
    ensures Split(line + "\n" + rest) == [line] + Split(rest)
  {
    var s := line + "\n" + rest;
    if line == "" {
      assert s[1..] == rest;
    } else {
      SplitLine(line[1..], rest);
      assert s[1..] == line[1..] + "\n" + rest;
      assert [s[0]] + line[1..] == line;
      assert ([line[1..]] + Split(rest))[1..] == Split(rest);
    }
  }

  lemma {:induction false} SplitJoin(lines: Lines)
    requires lines != [] && AllClean(lines)
    ensures Split(Join(lines)) == lines
  {
    if |lines| == 1 {
      SplitLine(lines[0], "");
    } else {
      SplitJoin(lines[1..]);
      SplitLine(lines[0], Join(lines[1..]));
    }
  }

  /** Joined lines end in a newline exactly when the last of several lines is empty, and are empty only for no text. */
  lemma {:induction false} JoinEnds(lines: Lines)
    requires lines != [] && AllClean(lines)
    ensures var s := Join(lines);
            && (s == "" <==> lines == [""])
            && (s != "" ==> (s[|s| - 1] == '\n' <==> |lines| > 1 && lines[|lines| - 1] == ""))
    ensures '\r' !in Join(lines)
  {
    if |lines| > 1 {
      JoinEnds(lines[1..]);
      var s, rest := Join(lines), Join(lines[1..]);
      assert s == (lines[0] + "\n") + rest;
      if rest != "" { assert s[|s| - 1] == rest[|rest| - 1]; }
    }
  }

  // ---- the update ----

  datatype Loaded = Loaded(lines: Lines, trailing: bool, empty: bool)

  predicate EndsLine(s: string) {
    s != "" && s[|s| - 1] == '\n'
  }

  function LoadText(text: string): Loaded {
    var body := if EndsLine(text) then text[..|text| - 1] else text;
    Loaded(if body == "" then [] else Split(body), EndsLine(text), body == "")
  }

  function Load(current: string): Loaded {
    LoadText(Normalize(current))
  }

  function Save(lines: Lines, from: Loaded): string {
    if (from.trailing || (lines != [] && from.empty)) && lines != [] then Join(lines) + "\n" else Join(lines)
  }

  datatype Updated = Updated(content: string, done: Applied)

  function UpdateText(current: string, hunks: seq<Hunk>): Result<Updated, HunkError> {
    var from := Load(current);
    var r := ApplyHunks(from.lines, hunks);
    if r.Err? then Err(r.error) else Ok(Updated(Save(r.value.lines, from), r.value))
  }

  method ApplyUpdateText(current: string, hunks: seq<Hunk>) returns (r: Result<Updated, HunkError>)
    ensures r == UpdateText(current, hunks)
  {
    var from := Load(current);
    var applied := ApplyToLines(from.lines, hunks);
    if applied.Err? { return Err(applied.error); }
    var newline := from.trailing || (applied.value.lines != [] && from.empty);
    r := Ok(Updated(Join(applied.value.lines) + (if newline && applied.value.lines != [] then "\n" else ""), applied.value));
    assert Join(applied.value.lines) + "" == Join(applied.value.lines);
  }

  // ---- counting the lines of a text ----

  function CountLines(value: string): nat {
    if value == "" then 0
    else
      var text := Normalize(value);
      if EndsLine(text) then |Split(text[..|text| - 1])| else |Split(text)|
  }

  /** A text counts the lines it is loaded as, except that a lone newline counts as one line and is loaded as none. */
  lemma CountIsLoaded(value: string)
    ensures CountLines(value) == if Normalize(value) == "\n" then 1 else |Load(value).lines|
  {
    var text := Normalize(value);
    if value != "" {
      assert text != "";
      if EndsLine(text) && text[..|text| - 1] == "" { assert text == "\n"; }
    }
  }

  /** A saved line array counts its lines, unless an empty last line is lost for want of a trailing newline. */
  lemma CountSaved(lines: Lines, from: Loaded)
    requires AllClean(lines)
    ensures CountLines(Save(lines, from))
            == if lines != [] && !from.trailing && !from.empty && lines[|lines| - 1] == "" then |lines| - 1 else |lines|
  {
    if lines != [] {
      if from.trailing || from.empty {
        CountEnded(lines);
      } else if lines[|lines| - 1] == "" && |lines| > 1 {
        var init := lines[..|lines| - 1];
        assert lines == init + [""];
        JoinSnoc(init);
        CountEnded(init);
      } else {
        CountUnended(lines);
      }
    }
  }

  lemma CountEnded(lines: Lines)
    requires AllClean(lines) && lines != []
    ensures CountLines(Join(lines) + "\n") == |lines|
  {
    var saved := Join(lines) + "\n";
    JoinEnds(lines);
    SplitJoin(lines);
    assert saved[..|saved| - 1] == Join(lines);
  }

  lemma CountUnended(lines: Lines)
    requires AllClean(lines) && lines != [] && (lines[|lines| - 1] == "" ==> |lines| == 1)
    ensures CountLines(Join(lines)) == if lines[|lines| - 1] == "" then 0 else |lines|
  {
    JoinEnds(lines);
    SplitJoin(lines);
  }

  lemma {:induction false} JoinSnoc(init: Lines)
    requires init != []
    ensures Join(init + [""]) == Join(init) + "\n"
  {
    if |init| == 1 {
      assert (init + [""])[1..] == [""];
      assert init[0] + "\n" + "" == init[0] + "\n";
    } else {
      assert (init + [""])[1..] == init[1..] + [""];
      JoinSnoc(init[1..]);
      assert Join(init) == init[0] + "\n" + Join(init[1..]);
      assert init[0] + "\n" + (Join(init[1..]) + "\n") == init[0] + "\n" + Join(init[1..]) + "\n";
    }
  }

  /** The last line of the array is empty and no newline is written behind it. */
  predicate LosesLast(lines: Lines, from: Loaded) {
    lines != [] && !from.trailing && !from.empty && lines[|lines| - 1] == ""
  }

  lemma CountsOfUpdate(current: string, hunks: seq<Hunk>)
    requires CleanHunks(hunks) && UpdateText(current, hunks).Ok?
    ensures var u := UpdateText(current, hunks).value;
            CountLines(u.content) == |u.done.lines| - (if LosesLast(u.done.lines, Load(current)) then 1 else 0)
  {
    var from, u := Load(current), UpdateText(current, hunks).value;
    LoadMeaning(Normalize(current));
    ApplyClean(from.lines, hunks);
    CountSaved(u.done.lines, from);
  }

  /**
   The counted lines of the two texts balance with the reported additions and deletions, exactly unless the text was a
   lone newline or the update leaves an empty last line that is lost for want of a trailing newline.
   */
  lemma CountsBalanceExactly(current: string, hunks: seq<Hunk>)
    requires CleanHunks(hunks) && UpdateText(current, hunks).Ok?
    ensures var text, u := Normalize(current), UpdateText(current, hunks).value;
            var lines := u.done.lines;
            CountLines(u.content) + u.done.deleted == CountLines(current) + u.done.added
            <==> text != "\n" && !(text != "" && !EndsLine(text) && lines != [] && lines[|lines| - 1] == "")
  {
    CountsOfUpdate(current, hunks);
    LineCounts(Load(current).lines, hunks);
    CountIsLoaded(current);
    LoadMeaning(Normalize(current));
  }

  // ---- inverting an update at the text level ----

  ghost predicate CleanHunks(hunks: seq<Hunk>) {
    forall i, j :: 0 <= i < |hunks| && 0 <= j < |hunks[i].lines| ==> Clean(hunks[i].lines[j].text)
  }

  lemma {:induction false} NewLinesClean(ls: seq<HunkLine>)
    requires forall j :: 0 <= j < |ls| ==> Clean(ls[j].text)
    ensures AllClean(NewLines(ls))
  {
    if ls != [] { NewLinesClean(ls[1..]); }
  }

  lemma {:induction false} ApplyClean(lines: Lines, hunks: seq<Hunk>)
    requires AllClean(lines) && CleanHunks(hunks) && ApplyHunks(lines, hunks).Ok?
    ensures AllClean(ApplyHunks(lines, hunks).value.lines)
  {
    if hunks != [] {
      var init, h := hunks[..|hunks| - 1], hunks[|hunks| - 1];
      ApplyClean(lines, init);
      NewLinesClean(h.lines);
      var mid := ApplyHunks(lines, init).value.lines;
      LocatedInside(mid, OldLines(h.lines), Hint(h));
    }
  }

  lemma {:induction false} InverseClean(hunks: seq<Hunk>, positions: seq<nat>)
    requires CleanHunks(hunks) && |positions| == |hunks|
    ensures CleanHunks(Inverse(hunks, positions))
  {
    if hunks != [] {
      InverseClean(hunks[..|hunks| - 1], positions[..|hunks| - 1]);
      var h := hunks[|hunks| - 1];
      assert forall j :: 0 <= j < |h.lines| ==> FlipLine(h.lines[j]).text == h.lines[j].text;
    }
  }

  /** Lines read from a text that can be written back to it. */
  ghost predicate LoadedFrom(text: string, from: Loaded) {
    && AllClean(from.lines) && from.lines != [""]
    && (from.empty <==> from.lines == [])
    && text == Join(from.lines) + (if from.trailing then "\n" else "")
    && (from.lines != [] && !from.trailing ==> from.lines[|from.lines| - 1] != "")
  }

  /** The lines of a loaded text, and the text they came from. */
  lemma LoadMeaning(text: string)
    requires '\r' !in text
    ensures LoadedFrom(text, LoadText(text))
  {
    var body := if EndsLine(text) then text[..|text| - 1] else text;
    if EndsLine(text) {
      assert [text[|text| - 1]] == "\n";
      assert text == body + "\n";
    } else {
      assert text == body + "";
    }
    if body != "" {
      var lines := Split(body);
      JoinSplit(body);
      JoinEnds(lines);
    }
  }

  /** Reading back a saved line array: what survives, and what does not. */
  lemma LoadSaved(lines: Lines, from: Loaded)
    requires AllClean(lines)
    ensures var newline := from.trailing || from.empty;
            var back := Load(Save(lines, from));
            && (lines == [] ==> back == Loaded([], false, true))
            && (lines == [""] ==> back == Loaded([], newline, true))
            && (lines != [] && lines != [""] && newline ==> back == Loaded(lines, true, false))
            && (lines != [] && !newline && lines[|lines| - 1] != "" ==> back == Loaded(lines, false, false))
            && (lines != [] && !newline && lines[|lines| - 1] == "" ==> back.trailing || back.empty)
  {
    if lines != [] {
      JoinEnds(lines);
      SplitJoin(lines);
      var joined := Join(lines);
      var saved := Save(lines, from);
      if from.trailing || from.empty {
        assert saved == joined + "\n" && saved[..|saved| - 1] == joined;
      } else if lines[|lines| - 1] == "" {
        assert saved == "" || EndsLine(saved);
      }
    }
  }

  /** When updating a text and then applying the inverse hunks gives the normalized text back. */
  predicate RoundTripSafe(text: string, updated: Lines) {
    if text == "" then updated != [""]
    else if EndsLine(text) then text != "\n" && updated != [""]
    else updated != [] && updated[|updated| - 1] != ""
  }

  lemma InverseRuns(current: string, hunks: seq<Hunk>)
    requires CleanHunks(hunks) && UpdateText(current, hunks).Ok?
    ensures var u := UpdateText(current, hunks).value;
            var from, back := Load(current), Load(u.content);
            && |u.done.positions| == |hunks|
            && AllClean(u.done.lines)
            && (back.lines == u.done.lines ==>
                  && UpdateText(u.content, Inverse(hunks, u.done.positions)).Ok?
                  && UpdateText(u.content, Inverse(hunks, u.done.positions)).value.content == Save(from.lines, back))
            && (UpdateText(u.content, Inverse(hunks, u.done.positions)).Ok? ==>
                  var x := UpdateText(u.content, Inverse(hunks, u.done.positions)).value.done.lines;
                  AllClean(x) && |x| + |u.done.lines| == |back.lines| + |from.lines|)
  {
    var u := UpdateText(current, hunks).value;
    var from, back := Load(current), Load(u.content);
    LoadMeaning(Normalize(current));
    LoadMeaning(Normalize(u.content));
    HunksInvertible(from.lines, hunks);
    ApplyClean(from.lines, hunks);
    LineCounts(from.lines, hunks);
    var inverse := Inverse(hunks, u.done.positions);
    InverseClean(hunks, u.done.positions);
    if UpdateText(u.content, inverse).Ok? {
      ApplyClean(back.lines, inverse);
      LineCounts(back.lines, inverse);
      InverseCounts(from.lines, u.done.lines, hunks, u.done.positions, back.lines);
    }
  }

  /** The inverse hunks add what the originals deleted, on whatever lines they succeed. */
  lemma {:induction false} InverseCounts(lines: Lines, after: Lines, hunks: seq<Hunk>, positions: seq<nat>, other: Lines)
    requires |positions| == |hunks| && ApplyHunks(lines, hunks).Ok? && ApplyHunks(lines, hunks).value.lines == after
    requires ApplyHunks(other, Inverse(hunks, positions)).Ok?
    ensures var x := ApplyHunks(other, Inverse(hunks, positions)).value.lines; |x| + |after| == |other| + |lines|
  {
    LineCounts(lines, hunks);
    LineCounts(other, Inverse(hunks, positions));
    TotalCounts(lines, hunks);
    TotalCounts(other, Inverse(hunks, positions));
    InverseTotals(hunks, positions);
  }

  function Total(hunks: seq<Hunk>, added: bool): nat {
    if hunks == [] then 0
    else Total(hunks[..|hunks| - 1], added)
         + (if added then AddedCount(hunks[|hunks| - 1].lines) else DeletedCount(hunks[|hunks| - 1].lines))
  }

  lemma {:induction false} TotalCounts(lines: Lines, hunks: seq<Hunk>)
    requires ApplyHunks(lines, hunks).Ok?
    ensures ApplyHunks(lines, hunks).value.added == Total(hunks, true)
    ensures ApplyHunks(lines, hunks).value.deleted == Total(hunks, false)
  {
    if hunks != [] { TotalCounts(lines, hunks[..|hunks| - 1]); }
  }

  lemma {:induction false} TotalCons(h: Hunk, hunks: seq<Hunk>, added: bool)
    ensures Total([h] + hunks, added) == Total(hunks, added) + (if added then AddedCount(h.lines) else DeletedCount(h.lines))
  {
    if hunks == [] {
      assert ([h] + hunks)[..0] == [];
    } else {
      assert ([h] + hunks)[..|hunks|] == [h] + hunks[..|hunks| - 1];
      TotalCons(h, hunks[..|hunks| - 1], added);
    }
  }

  lemma {:induction false} InverseTotals(hunks: seq<Hunk>, positions: seq<nat>)
    requires |positions| == |hunks|
    ensures Total(Inverse(hunks, positions), true) == Total(hunks, false)
    ensures Total(Inverse(hunks, positions), false) == Total(hunks, true)
  {
    if hunks != [] {
      var last := |hunks| - 1;
      var f := Flip(hunks[last], positions[last]);
      FlippedLines(hunks[last].lines, f.lines);
      InverseTotals(hunks[..last], positions[..last]);
      TotalCons(f, Inverse(hunks[..last], positions[..last]), true);
      TotalCons(f, Inverse(hunks[..last], positions[..last]), false);
    }
  }

  /**
   At the text level the inverse hunks restore the normalized text exactly when neither line array is one that text
   cannot carry: no lone empty line, no file of a single newline, and without a trailing newline no update that
   removes every line or leaves an empty last line.
   */
  lemma TextInvertibleExactly(current: string, hunks: seq<Hunk>)
    requires CleanHunks(hunks) && UpdateText(current, hunks).Ok?
    ensures var u := UpdateText(current, hunks).value;
            && |u.done.positions| == |hunks|
            && var back := UpdateText(u.content, Inverse(hunks, u.done.positions));
               (back.Ok? && back.value.content == Normalize(current)) <==> RoundTripSafe(Normalize(current), u.done.lines)
  {
    var u := UpdateText(current, hunks).value;
    var text, from := Normalize(current), Load(current);
    LoadMeaning(Normalize(current));
    InverseRuns(current, hunks);
    var inverse := UpdateText(u.content, Inverse(hunks, u.done.positions));
    LoadSaved(u.done.lines, from);
    var back := Load(u.content);
    if back.lines == u.done.lines {
      SavedAgain(text, from, u.done.lines, back);
    } else if inverse.Ok? {
      LostLines(text, from, u.done.lines, back, inverse.value.done.lines);
    }
  }

  /** The lines came back: only the newline at the end can differ. */
  lemma SavedAgain(text: string, from: Loaded, updated: Lines, back: Loaded)
    requires LoadedFrom(text, from)
    requires AllClean(updated) && back == Load(Save(updated, from)) && back.lines == updated
    ensures Save(from.lines, back) == text <==> RoundTripSafe(text, updated)
  {
    LoadSaved(updated, from);
    var joined := Join(from.lines);
    if from.lines == [] {
      assert joined == "" && Save(from.lines, back) == "";
    } else {
      JoinEnds(from.lines);
      if from.trailing {
        assert text == joined + "\n";
        assert text[|text| - 1] == '\n' && |text| > 1;
      } else {
        assert text == joined && !EndsLine(text);
        assert updated != [] ==> (back.trailing || back.empty <==> updated[|updated| - 1] == "");
      }
      assert Save(from.lines, back) == if back.trailing || back.empty then joined + "\n" else joined;
      assert |joined + "\n"| == |joined| + 1;
    }
  }

  /** The lines did not come back, so neither does the text. */
  lemma LostLines(text: string, from: Loaded, updated: Lines, back: Loaded, x: Lines)
    requires LoadedFrom(text, from)
    requires AllClean(updated) && back == Load(Save(updated, from)) && back.lines != updated
    requires AllClean(x) && |x| + |updated| == |back.lines| + |from.lines|
    ensures Save(x, back) != text && !RoundTripSafe(text, updated)
  {
    LoadSaved(updated, from);
    if from.lines != [] { JoinEnds(from.lines); }
    if x != [] {
      JoinEnds(x);
      var saved := Save(x, back);
      assert back.trailing || back.empty;
      assert saved == Join(x) + "\n";
      assert saved[|saved| - 1] == '\n';
      if from.trailing && from.lines != [] && saved == text {
        assert Join(x) == saved[..|saved| - 1] == Join(from.lines);
        SplitJoin(x);
        SplitJoin(from.lines);
        assert false;
      }
    }
  }
}
