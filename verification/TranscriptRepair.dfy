/** Projecting an append-only event stream onto the branch that edits leave visible. */
module TranscriptRepair {
  import opened Common

  datatype Kind = TurnStarted | MessageReceived | ContextCleared | Other

  /** The turn an event belongs to; for a clear marker, the turn it edits. `id` tells events apart. */
  datatype Event = Event(kind: Kind, turn: string, id: nat)

  type Events = seq<Event>

  function FindLast(s: Events, p: Event -> bool): (r: Option<nat>)
    ensures r.Some? ==> r.value < |s| && p(s[r.value]) && forall i :: r.value < i < |s| ==> !p(s[i])
    ensures r.None? <==> forall i :: 0 <= i < |s| ==> !p(s[i])
  {
    if s == [] then None else if p(s[|s| - 1]) then Some(|s| - 1) else FindLast(s[..|s| - 1], p)
  }

  predicate Is(e: Event, kind: Kind, turn: string) {
    e.kind == kind && e.turn == turn
  }

  function LastOf(s: Events, kind: Kind, turn: string): Option<nat> {
    FindLast(s, (e: Event) => Is(e, kind, turn))
  }

  // ---- one event at a time ----

  /** The message a clear marker goes back to: its turn's last one, or any last one when no marker came before. */
  function EditedMessage(kept: Events, turn: string, repeated: bool): Option<nat> {
    var own := LastOf(kept, MessageReceived, turn);
    if own.None? && !repeated then FindLast(kept, (e: Event) => e.kind == MessageReceived) else own
  }

  /** The turn's last start at or before one of its messages, or that message if there is none. */
  function StartBefore(s: Events, message: nat): (n: nat)
    requires message < |s|
    ensures n <= message
  {
    var turn := s[message].turn;
    var start := if turn == "" then None else LastOf(s[..message + 1], TurnStarted, turn);
    if start.Some? then start.value else message
  }

  /** How much of what was kept before stays in front of a clear marker of `turn`. */
  function CutAt(projected: Events, turn: string): (n: nat)
    ensures n <= |projected|
  {
    var marker := LastOf(projected, ContextCleared, turn);
    var kept := if marker.Some? then projected[..marker.value] else projected;
    var message := EditedMessage(kept, turn, marker.Some?);
    if message.None? then |kept| else StartBefore(kept, message.value)
  }

  function Project1(projected: Events, e: Event): Events {
    if e.kind == ContextCleared then projected[..CutAt(projected, e.turn)] + [e] else projected + [e]
  }

  /** Processing further events on top of a projection. */
  function Continue(projected: Events, events: Events): Events {
    if events == [] then projected else Project1(Continue(projected, events[..|events| - 1]), events[|events| - 1])
  }

  function Project(events: Events): Events {
    Continue([], events)
  }

  /** Makes room for a clear marker of `turn`. */
  method Truncate(before: Events, turn: string) returns (projected: Events)
    ensures projected == before[..CutAt(before, turn)]
  {
    projected := before;
    var marker := LastOf(projected, ContextCleared, turn);
    if marker.Some? { projected := projected[..marker.value]; }
    var message := LastOf(projected, MessageReceived, turn);
    if message.None? && marker.None? { message := FindLast(projected, (c: Event) => c.kind == MessageReceived); }
    if message.Some? { projected := projected[..StartBefore(projected, message.value)]; }
  }

  /** The source's loop, which pushes to one array and truncates it. */
  method ProjectEditedBranches(events: Events) returns (projected: Events)
    ensures projected == Project(events)
  {
    projected := [];
    for k := 0 to |events|
      invariant projected == Project(events[..k])
    {
      assert events[..k + 1][..k] == events[..k];
      if events[k].kind == ContextCleared { projected := Truncate(projected, events[k].turn); }
      projected := projected + [events[k]];
    }
    assert events[..|events|] == events;
  }

  lemma {:induction false} ContinueAppend(projected: Events, a: Events, b: Events)
    ensures Continue(projected, a + b) == Continue(Continue(projected, a), b)
  {
    if b == [] {
      assert a + b == a;
    } else {
      assert (a + b)[..|a + b| - 1] == a + b[..|b| - 1];
      ContinueAppend(projected, a, b[..|b| - 1]);
    }
  }

  // ---- one edit, by position ----

  /** Position `k` holds the last message of the turn, or of any turn. */
  ghost predicate LastMessage(s: Events, turn: Option<string>, k: nat) {
    && k < |s| && s[k].kind == MessageReceived && (turn.Some? ==> s[k].turn == turn.value)
    && forall i :: k < i < |s| && s[i].kind == MessageReceived ==> turn.Some? && s[i].turn != turn.value
  }

  /** Position `n` is where the turn of the message at `k` was last started up to it, or `k` if it was not started or has no name. */
  ghost predicate BeginsAt(s: Events, k: nat, n: nat) {
    && n <= k < |s|
    && if s[k].turn != "" && exists i :: 0 <= i <= k && s[i].kind == TurnStarted && s[i].turn == s[k].turn
       then s[n].kind == TurnStarted && s[n].turn == s[k].turn && forall i :: n < i <= k && s[i].kind == TurnStarted ==> s[i].turn != s[k].turn
       else n == k
  }

  /** The cut goes back to the message at `k`, or nowhere if there is no such message. */
  ghost predicate CutsBack(kept: Events, turn: Option<string>, n: nat) {
    if exists k: nat :: LastMessage(kept, turn, k) then exists k: nat :: LastMessage(kept, turn, k) && BeginsAt(kept, k, n) else n == |kept|
  }

  lemma BeginsMeaning(s: Events, k: nat)
    requires k < |s|
    ensures BeginsAt(s, k, StartBefore(s, k))
  {
    var turn := s[k].turn;
    var start := LastOf(s[..k + 1], TurnStarted, turn);
    if i :| 0 <= i <= k && s[i].kind == TurnStarted && s[i].turn == turn { assert Is(s[..k + 1][i], TurnStarted, turn); }
    if start.Some? {
      forall i | start.value < i <= k && s[i].kind == TurnStarted ensures s[i].turn != turn { assert !Is(s[..k + 1][i], TurnStarted, turn); }
    }
  }

  lemma MessageMeaning(s: Events, turn: Option<string>)
    ensures var found := if turn.Some? then LastOf(s, MessageReceived, turn.value) else FindLast(s, (e: Event) => e.kind == MessageReceived);
            && (found.Some? ==> LastMessage(s, turn, found.value))
            && (found.None? ==> forall k: nat :: !LastMessage(s, turn, k))
  {
  }

  /**
   Where an edit cuts, position by position. Behind the turn's own last marker everything goes, and in front of it the cut
   goes back to the turn's last message. Without such a marker it goes back to the turn's last message, or if it has none to
   the last message of all. Without any message nothing more is cut.
   */
  lemma CutMeaning(projected: Events, turn: string)
    ensures forall m: nat :: m < |projected| && Is(projected[m], ContextCleared, turn)
              && (forall i :: m < i < |projected| ==> !Is(projected[i], ContextCleared, turn))
              ==> CutsBack(projected[..m], Some(turn), CutAt(projected, turn))
    ensures (forall i :: 0 <= i < |projected| ==> !Is(projected[i], ContextCleared, turn)) ==>
              CutsBack(projected, if exists k: nat :: LastMessage(projected, Some(turn), k) then Some(turn) else None, CutAt(projected, turn))
  {
    var marker := LastOf(projected, ContextCleared, turn);
    if marker.Some? {
      forall m: nat | m < |projected| && Is(projected[m], ContextCleared, turn) && forall i :: m < i < |projected| ==> !Is(projected[i], ContextCleared, turn)
        ensures m == marker.value
      {
      }
      CutBackMeaning(projected[..marker.value], turn, true);
    } else {
      CutBackMeaning(projected, turn, false);
    }
  }

  lemma CutBackMeaning(kept: Events, turn: string, repeated: bool)
    ensures var message := EditedMessage(kept, turn, repeated);
            var n := if message.None? then |kept| else StartBefore(kept, message.value);
            CutsBack(kept, if repeated || exists k: nat :: LastMessage(kept, Some(turn), k) then Some(turn) else None, n)
  {
    MessageMeaning(kept, Some(turn));
    MessageMeaning(kept, None);
    var message := EditedMessage(kept, turn, repeated);
    if message.Some? { BeginsMeaning(kept, message.value); }
  }

  /** Any event but a clear marker is added to what is visible, and removes nothing. */
  lemma {:induction false} OthersRemoveNothing(projected: Events, events: Events)
    requires forall i :: 0 <= i < |events| ==> events[i].kind != ContextCleared
    ensures Continue(projected, events) == projected + events
  {
    if events != [] {
      FrontAndLast(events);
      OthersRemoveNothing(projected, events[..|events| - 1]);
      assert projected + events[..|events| - 1] + [events[|events| - 1]] == projected + (events[..|events| - 1] + [events[|events| - 1]]);
    }
  }

  // ---- a subsequence that ends in the last event ----

  ghost predicate Picks(s: Events, at: seq<nat>, out: Events) {
    && |at| == |out|
    && (forall i :: 0 <= i < |at| ==> at[i] < |s| && out[i] == s[at[i]])
    && (forall i, j :: 0 <= i < j < |at| ==> at[i] < at[j])
  }

  /** The projection picks events in their order, and always ends in the last one. */
  lemma {:induction false} ProjectionIsSubsequence(events: Events) returns (at: seq<nat>)
    ensures Picks(events, at, Project(events))
    ensures events != [] ==> at != [] && at[|at| - 1] == |events| - 1
  {
    if events == [] {
      at := [];
    } else {
      var last := |events| - 1;
      var before := ProjectionIsSubsequence(events[..last]);
      var n := |Project(events)| - 1;
      at := before[..n] + [last];
    }
  }

  // ---- one marker per edited turn ----

  ghost predicate OneMarkerEach(s: Events) {
    forall i, j :: 0 <= i < j < |s| && s[i].kind == ContextCleared && s[j].kind == ContextCleared ==> s[i].turn != s[j].turn
  }

  lemma CutBeforeMarker(projected: Events, turn: string)
    ensures var marker := LastOf(projected, ContextCleared, turn); marker.Some? ==> CutAt(projected, turn) <= marker.value
  {
  }

  /** At most one clear marker per edited turn remains. */
  lemma {:induction false} AtMostOneMarker(events: Events)
    ensures OneMarkerEach(Project(events))
  {
    if events != [] {
      var last := events[|events| - 1];
      AtMostOneMarker(events[..|events| - 1]);
      var p := Project(events[..|events| - 1]);
      if last.kind == ContextCleared {
        CutBeforeMarker(p, last.turn);
        var n := CutAt(p, last.turn);
        var marker := LastOf(p, ContextCleared, last.turn);
        assert marker.None? ==> forall i :: 0 <= i < |p| ==> !Is(p[i], ContextCleared, last.turn);
      }
    }
  }

  // ---- nothing of an edited turn survives before its marker ----

  ghost predicate Absent(s: Events, turn: string) {
    forall i :: 0 <= i < |s| ==> s[i].turn != turn
  }

  /** The turn's one start comes first of all its events, and it received a message. */
  ghost predicate StartsAt(s: Events, turn: string, start: nat) {
    && turn != "" && start < |s| && Is(s[start], TurnStarted, turn)
    && (forall i :: 0 <= i < |s| && s[i].turn == turn && i != start ==> start < i && s[i].kind != TurnStarted)
    && (exists i :: 0 <= i < |s| && Is(s[i], MessageReceived, turn))
  }

  ghost predicate Intact(s: Events, turn: string) {
    Absent(s, turn) || exists start: nat :: StartsAt(s, turn, start)
  }

  predicate FirstOf(s: Events, turn: string, i: nat) {
    i < |s| && s[i].turn == turn && forall j :: 0 <= j < i ==> s[j].turn != turn
  }

  /**
   What a first edit removes wholly: a turn that begins where its last message was started; a turn without messages
   that begins behind the start of the last message of all; and a turn that is not there.
   */
  ghost predicate Removable(s: Events, turn: string) {
    var own, any := LastOf(s, MessageReceived, turn), FindLast(s, (e: Event) => e.kind == MessageReceived);
    || Absent(s, turn)
    || (own.Some? && FirstOf(s, turn, StartBefore(s, own.value)))
    || (own.None? && any.Some? && Absent(s[..StartBefore(s, any.value)], turn))
  }

  /** Every turn can be removed wholly when it is edited for the first time. */
  ghost predicate Orderly(events: Events) {
    forall k :: 0 <= k < |events| ==> EditedRemovable(Project(events[..k]), events[k])
  }

  ghost predicate EditedRemovable(projected: Events, e: Event) {
    e.kind == ContextCleared && LastOf(projected, ContextCleared, e.turn).None? ==> Removable(projected, e.turn)
  }

  /** No event of an edited turn is left in front of the turn's marker. */
  ghost predicate NothingSurvives(s: Events) {
    forall i :: 0 <= i < |s| && s[i].kind == ContextCleared ==> Absent(s[..i], s[i].turn)
  }

  lemma CutAtStart(projected: Events, turn: string, start: nat, message: nat)
    requires StartsAt(projected, turn, start) && message < |projected| && Is(projected[message], MessageReceived, turn)
    ensures LastOf(projected[..message + 1], TurnStarted, turn) == Some(start)
  {
    var upTo := projected[..message + 1];
    assert start < message && Is(upTo[start], TurnStarted, turn);
    var found := LastOf(upTo, TurnStarted, turn);
    assert found.Some? && Is(projected[found.value], TurnStarted, turn);
  }

  /** The first edit of a turn removes the turn and all that followed, and keeps everything before the turn. */
  lemma FirstEditCuts(projected: Events, turn: string, start: nat)
    requires LastOf(projected, ContextCleared, turn).None? && StartsAt(projected, turn, start)
    ensures CutAt(projected, turn) == start
  {
    var own := LastOf(projected, MessageReceived, turn);
    var i :| 0 <= i < |projected| && Is(projected[i], MessageReceived, turn);
    assert own.Some?;
    CutAtStart(projected, turn, start, own.value);
  }

  /** A marker that names no known turn edits the turn of the last message instead, or nothing if there is no message. */
  lemma LegacyEditCuts(projected: Events, turn: string)
    requires Absent(projected, turn)
    ensures (forall i :: 0 <= i < |projected| ==> projected[i].kind != MessageReceived) ==> CutAt(projected, turn) == |projected|
    ensures forall start: nat, message: nat ::
              && message < |projected| && projected[message].kind == MessageReceived
              && StartsAt(projected, projected[message].turn, start)
              && (forall i :: message < i < |projected| ==> projected[i].kind != MessageReceived)
              ==> CutAt(projected, turn) == start
  {
    assert LastOf(projected, ContextCleared, turn).None? && LastOf(projected, MessageReceived, turn).None?;
    forall start: nat, message: nat |
      && message < |projected| && projected[message].kind == MessageReceived
      && StartsAt(projected, projected[message].turn, start)
      && (forall i :: message < i < |projected| ==> projected[i].kind != MessageReceived)
      ensures CutAt(projected, turn) == start
    {
      assert EditedMessage(projected, turn, false) == Some(message);
      CutAtStart(projected, projected[message].turn, start, message);
    }
  }

  /** A repeated edit cuts at the turn's own marker when nothing of the turn is left in front of it. */
  lemma RepeatedEditCuts(projected: Events, turn: string, marker: nat)
    requires LastOf(projected, ContextCleared, turn) == Some(marker) && Absent(projected[..marker], turn)
    ensures CutAt(projected, turn) == marker
  {
    var kept := projected[..marker];
    assert LastOf(kept, MessageReceived, turn).None?;
  }

  lemma CutOfFirstEdit(s: Events, turn: string)
    requires LastOf(s, ContextCleared, turn).None?
    ensures var own, any := LastOf(s, MessageReceived, turn), FindLast(s, (e: Event) => e.kind == MessageReceived);
            CutAt(s, turn) == if own.Some? then StartBefore(s, own.value) else if any.Some? then StartBefore(s, any.value) else |s|
  {
  }

  /** The first edit of a turn leaves nothing of it if and only if the turn is removable. */
  lemma FirstEditRemovesExactly(s: Events, turn: string)
    requires LastOf(s, ContextCleared, turn).None?
    ensures Absent(s[..CutAt(s, turn)], turn) <==> Removable(s, turn)
  {
    CutOfFirstEdit(s, turn);
    var own := LastOf(s, MessageReceived, turn);
    var n := CutAt(s, turn);
    assert forall i :: 0 <= i < n ==> s[..n][i] == s[i];
    if own.Some? {
      assert s[n].turn == turn by { StartOfTurn(s, own.value); }
    } else if n == |s| {
      assert s[..n] == s;
    }
  }

  lemma StartOfTurn(s: Events, message: nat)
    requires message < |s|
    ensures StartBefore(s, message) <= message && s[StartBefore(s, message)].turn == s[message].turn
  {
    var upTo := s[..message + 1];
    var start := LastOf(upTo, TurnStarted, s[message].turn);
    if start.Some? { assert upTo[start.value] == s[start.value]; }
  }

  /** A turn that starts once, before all its other events, and received a message is removable. */
  lemma IntactIsRemovable(projected: Events, turn: string)
    requires LastOf(projected, ContextCleared, turn).None? && Intact(projected, turn)
    ensures Removable(projected, turn)
  {
    if start: nat :| StartsAt(projected, turn, start) {
      FirstEditCuts(projected, turn, start);
      FirstEditRemovesExactly(projected, turn);
    }
  }

  lemma AbsentPrefix(s: Events, turn: string, n: nat)
    requires Absent(s, turn) && n <= |s|
    ensures Absent(s[..n], turn)
  {
  }

  /** On orderly streams nothing of an edited turn from before its marker survives. */
  lemma {:induction false} EditedTurnsVanish(events: Events)
    requires Orderly(events)
    ensures NothingSurvives(Project(events))
  {
    if events != [] {
      var init, last := events[..|events| - 1], events[|events| - 1];
      assert Orderly(init) by {
        forall k | 0 <= k < |init| ensures EditedRemovable(Project(init[..k]), init[k]) {
          assert init[..k] == events[..k];
          assert EditedRemovable(Project(events[..k]), events[k]);
        }
      }
      EditedTurnsVanish(init);
      assert EditedRemovable(Project(events[..|init|]), events[|init|]);
      SurvivorsNext(Project(init), last);
    }
  }

  lemma SurvivorsNext(p: Events, e: Event)
    requires NothingSurvives(p) && EditedRemovable(p, e)
    ensures NothingSurvives(Project1(p, e))
  {
    var out := Project1(p, e);
    var n := |out| - 1;
    forall i | 0 <= i < |out| && out[i].kind == ContextCleared ensures Absent(out[..i], out[i].turn) {
      if i < n {
        assert out[..i] == p[..i] && out[i] == p[i];
      } else {
        assert out[..i] == p[..n];
        var marker := LastOf(p, ContextCleared, e.turn);
        if marker.None? {
          FirstEditRemovesExactly(p, e.turn);
        } else {
          CutBeforeMarker(p, e.turn);
          AbsentPrefix(p[..marker.value], e.turn, n);
          assert p[..marker.value][..n] == p[..n];
        }
      }
    }
  }

  ghost predicate CleanUpTo(events: Events, k: int)
    requires 0 <= k <= |events|
  {
    NothingSurvives(Project(events[..k]))
  }

  lemma OrderlyIsClean(events: Events, k: nat)
    requires Orderly(events) && k <= |events|
    ensures CleanUpTo(events, k)
  {
    OrderlyPrefix(events, k);
    EditedTurnsVanish(events[..k]);
  }

  lemma CleanIsOrderly(events: Events, k: nat)
    requires k < |events| && CleanUpTo(events, k + 1)
    ensures EditedRemovable(Project(events[..k]), events[k])
  {
    assert events[..k + 1] == events[..k] + [events[k]];
    VanishedWasRemovable(events[..k], events[k]);
  }

  /** Nothing of an edited turn survives in any prefix of a stream, if and only if the stream is orderly. */
  lemma EditedTurnsVanishExactly(events: Events)
    ensures (forall k :: 0 <= k <= |events| ==> CleanUpTo(events, k)) <==> Orderly(events)
  {
    if Orderly(events) {
      forall k | 0 <= k <= |events| ensures CleanUpTo(events, k) { OrderlyIsClean(events, k); }
    }
    if forall k :: 0 <= k <= |events| ==> CleanUpTo(events, k) {
      forall k | 0 <= k < |events| ensures EditedRemovable(Project(events[..k]), events[k]) {
        assert CleanUpTo(events, k + 1);
        CleanIsOrderly(events, k);
      }
    }
  }

  lemma VanishedWasRemovable(a: Events, e: Event)
    requires NothingSurvives(Project(a + [e]))
    ensures EditedRemovable(Project(a), e)
  {
    if e.kind == ContextCleared && LastOf(Project(a), ContextCleared, e.turn).None? {
      ProjectClear(a, e);
      var p := Project(a);
      var kept := p[..CutAt(p, e.turn)];
      var out := kept + [e];
      assert out[|kept|] == e && out[..|kept|] == kept;
      FirstEditRemovesExactly(p, e.turn);
    }
  }

  lemma OrderlyPrefix(events: Events, n: nat)
    requires Orderly(events) && n <= |events|
    ensures Orderly(events[..n])
  {
    forall k | 0 <= k < n ensures EditedRemovable(Project(events[..n][..k]), events[..n][k]) {
      assert events[..n][..k] == events[..k];
      assert EditedRemovable(Project(events[..k]), events[k]);
    }
  }

  /** A message that was never started is enough: the edit removes it. */
  lemma UnstartedTurnVanishes(turn: string)
    ensures Orderly([Event(MessageReceived, turn, 0), Event(ContextCleared, turn, 1)])
  {
    var message, clear := Event(MessageReceived, turn, 0), Event(ContextCleared, turn, 1);
    var events := [message, clear];
    NoClearsAppend([], [message]);
    assert Project([message]) == [message];
    LoneMessageRemovable(message);
    assert EditedRemovable(Project([message]), clear);
    forall k | 0 <= k < 2 ensures EditedRemovable(Project(events[..k]), events[k]) {
      if k == 1 { assert events[..1] == [message]; }
    }
  }

  lemma LoneMessageRemovable(message: Event)
    requires message.kind == MessageReceived
    ensures Removable([message], message.turn)
  {
    assert LastOf([message], MessageReceived, message.turn) == Some(0);
    assert StartBefore([message], 0) == 0;
    assert FirstOf([message], message.turn, 0);
  }

  /** Each turn, when first edited, has one start in front of its other events and a message, or nothing of it is left. */
  ghost predicate EditsIntactTurns(events: Events) {
    forall k :: 0 <= k < |events| ==> EditedIntact(Project(events[..k]), events[k])
  }

  ghost predicate EditedIntact(projected: Events, e: Event) {
    e.kind == ContextCleared && LastOf(projected, ContextCleared, e.turn).None? ==> Intact(projected, e.turn)
  }

  /** Such streams are orderly. */
  lemma IntactStreamsAreOrderly(events: Events)
    requires EditsIntactTurns(events)
    ensures Orderly(events)
  {
    forall k | 0 <= k < |events| ensures EditedRemovable(Project(events[..k]), events[k]) {
      assert EditedIntact(Project(events[..k]), events[k]);
      var p, e := Project(events[..k]), events[k];
      if e.kind == ContextCleared && LastOf(p, ContextCleared, e.turn).None? { IntactIsRemovable(p, e.turn); }
    }
  }

  /** A stream that is not orderly: of a turn that was started twice, the first part outlives the edit. */
  lemma RestartedTurnSurvives(turn: string)
    requires turn != ""
    ensures var e := (kind: Kind, id: nat) => Event(kind, turn, id);
            Project([e(TurnStarted, 0), e(MessageReceived, 1), e(TurnStarted, 2), e(MessageReceived, 3), e(ContextCleared, 4)])
            == [e(TurnStarted, 0), e(MessageReceived, 1), e(ContextCleared, 4)]
  {
    var e := (kind: Kind, id: nat) => Event(kind, turn, id);
    var p := [e(TurnStarted, 0), e(MessageReceived, 1), e(TurnStarted, 2), e(MessageReceived, 3)];
    var clear := e(ContextCleared, 4);
    NoClearsAppend([], p);
    assert Project(p) == p;
    assert LastOf(p, ContextCleared, turn).None?;
    assert LastOf(p, MessageReceived, turn) == Some(3);
    assert p[..4] == p && LastOf(p, TurnStarted, turn) == Some(2);
    assert CutAt(p, turn) == 2;
    ContinueAppend([], p, [clear]);
    assert p + [clear] == [e(TurnStarted, 0), e(MessageReceived, 1), e(TurnStarted, 2), e(MessageReceived, 3), clear];
  }

  // ---- retried edits ----

  ghost predicate NoClears(s: Events) {
    forall i :: 0 <= i < |s| ==> s[i].kind != ContextCleared
  }

  ghost predicate NoMessageOf(s: Events, turn: string) {
    forall i :: 0 <= i < |s| ==> !Is(s[i], MessageReceived, turn)
  }

  lemma {:induction false} NoClearsAppend(projected: Events, b: Events)
    requires NoClears(b)
    ensures Continue(projected, b) == projected + b
  {
    if b != [] {
      NoClearsAppend(projected, b[..|b| - 1]);
      assert b == b[..|b| - 1] + [b[|b| - 1]];
    } else {
      assert projected + b == projected;
    }
  }

  /** What a second marker of the same turn leaves, when no other marker came between. */
  lemma SecondMarker(kept: Events, first: Event, b: Events, second: Event)
    requires first.kind == ContextCleared && second.kind == ContextCleared && first.turn == second.turn
    requires NoClears(b)
    ensures var r := Project1(kept + [first] + b, second);
            if NoMessageOf(kept, first.turn) then r == kept + [second] else |r| <= |kept|
  {
    var p, turn := kept + [first] + b, first.turn;
    var marker := LastOf(p, ContextCleared, turn);
    assert Is(p[|kept|], ContextCleared, turn);
    assert forall i :: |kept| < i < |p| ==> p[i] == b[i - |kept| - 1];
    assert marker == Some(|kept|);
    assert p[..|kept|] == kept;
    var own := LastOf(kept, MessageReceived, turn);
  }

  lemma RetryStates(a: Events, first: Event, b: Events, second: Event)
    requires first.kind == ContextCleared && second.kind == ContextCleared && first.turn == second.turn
    requires NoClears(b)
    ensures var retried, once, tried := Project(a + [first] + b + [second]), Project(a + [second]), Project(a + [first]);
            if NoMessageOf(tried, first.turn) then retried == once else |retried| < |once|
  {
    var p := Project(a);
    var kept := p[..CutAt(p, first.turn)];
    ProjectClear(a, first);
    ProjectClear(a, second);
    ProjectMore(a + [first], b);
    ProjectClear(a + [first] + b, second);
    SecondMarker(kept, first, b, second);
    MessagesBefore(kept, first);
  }

  lemma MessagesBefore(kept: Events, marker: Event)
    requires marker.kind == ContextCleared
    ensures NoMessageOf(kept + [marker], marker.turn) <==> NoMessageOf(kept, marker.turn)
  {
    assert forall i :: 0 <= i < |kept| ==> (kept + [marker])[i] == kept[i];
  }

  lemma ProjectClear(a: Events, marker: Event)
    requires marker.kind == ContextCleared
    ensures Project(a + [marker]) == Project(a)[..CutAt(Project(a), marker.turn)] + [marker]
    ensures Project(a + [marker]) == Project1(Project(a), marker)
  {
    assert (a + [marker])[..|a|] == a;
  }

  lemma ProjectMore(a: Events, b: Events)
    requires NoClears(b)
    ensures Project(a + b) == Project(a) + b
  {
    ContinueAppend([], a, b);
    NoClearsAppend(Project(a), b);
  }

  /**
   A retried edit projects as if only the last try had happened, whatever follows, exactly when the first try left no
   message of the turn in front of its marker.
   */
  lemma RetriedEditExactly(a: Events, first: Event, b: Events, second: Event)
    requires first.kind == ContextCleared && second.kind == ContextCleared && first.turn == second.turn
    requires NoClears(b)
    ensures (forall c :: Project(a + [first] + b + [second] + c) == Project(a + [second] + c))
            <==> NoMessageOf(Project(a + [first]), first.turn)
  {
    RetryStates(a, first, b, second);
    var retried, once := a + [first] + b + [second], a + [second];
    forall c ensures Project(retried + c) == Continue(Project(retried), c) && Project(once + c) == Continue(Project(once), c) {
      ContinueAppend([], retried, c);
      ContinueAppend([], once, c);
    }
    if forall c :: Project(retried + c) == Project(once + c) {
      assert retried + [] == retried && once + [] == once;
      assert Project(retried) == Project(once);
    }
  }

  lemma OrderlyLeavesNoMessage(a: Events, marker: Event)
    requires marker.kind == ContextCleared && Orderly(a + [marker])
    ensures NoMessageOf(Project(a + [marker]), marker.turn)
  {
    EditedTurnsVanish(a + [marker]);
    ProjectClear(a, marker);
    var kept := Project(a)[..CutAt(Project(a), marker.turn)];
    var p := kept + [marker];
    assert p[|kept|] == marker && p[..|kept|] == kept;
    assert Absent(kept, marker.turn);
    MessagesBefore(kept, marker);
  }

  /** So on orderly streams every retry is invisible. */
  lemma OrderlyRetriesVanish(a: Events, first: Event, b: Events, second: Event, c: Events)
    requires first.kind == ContextCleared && second.kind == ContextCleared && first.turn == second.turn
    requires NoClears(b) && Orderly(a + [first])
    ensures Project(a + [first] + b + [second] + c) == Project(a + [second] + c)
  {
    OrderlyLeavesNoMessage(a, first);
    RetryStates(a, first, b, second);
    ContinueAppend([], a + [first] + b + [second], c);
    ContinueAppend([], a + [second], c);
  }
}
