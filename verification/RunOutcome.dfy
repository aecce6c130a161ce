/** The stored status of a run against the whole event stream, over every run of the lifecycle. */
module RunOutcome {
  import opened Common
  import opened RunProjection
  import opened RunTable
  import opened RunLifecycle

  const NEW_RUN: Projection := Projection(0, None, None, Running, NO_USAGE)

  /** What folding a stream from its beginning gives, without any page boundary. */
  function WholeFold(events: seq<Event>): Fold {
    FoldAll(Start(NEW_RUN), events)
  }

  /** Cutting the stream into pages is invisible. */
  ghost predicate PageableStream(stream: seq<Event>) {
    Pageable(Start(NEW_RUN), stream)
  }

  /** The fold had this status after some prefix of at most `n` events. */
  ghost predicate Reached(stream: seq<Event>, n: nat, status: RunStatus) {
    exists m :: 0 <= m <= n && m <= |stream| && WholeFold(stream[..m]).status == status
  }

  /** A run still in flight holds the fold of the counted events; a settled one holds a status this fold had. */
  ghost predicate InStep(r: Row, stream: seq<Event>) {
    var p := r.projection;
    p.eventCount <= |stream| &&
    match p.status
    case Submitting => p == NEW_RUN.(status := Submitting)
    case SubmissionAmbiguous => true
    case Running => p == Finish(WholeFold(stream[..p.eventCount]), p.eventCount)
    case WaitingInput => p == Finish(WholeFold(stream[..p.eventCount]), p.eventCount)
    case WaitingAuthorization => p == Finish(WholeFold(stream[..p.eventCount]), p.eventCount)
    case Failed => r.sessionId.None? || Reached(stream, p.eventCount, Failed)
    case _ => Reached(stream, p.eventCount, p.status)
  }

  ghost predicate Tracks(r: Row, stream: seq<Event>) {
    r.cancellationRequestedAt.None? && PageableStream(stream) ==> InStep(r, stream)
  }

  ghost predicate CopyTracks(streams: seq<seq<Event>>, c: Copy) {
    c.run < |streams| && Tracks(c.row, streams[c.run]) && (c.page.Some? ==> !Terminal(c.row.projection.status))
  }

  ghost predicate RowsTrack(rows: Table, streams: seq<seq<Event>>) {
    |streams| == |rows| && forall i :: 0 <= i < |rows| ==> Tracks(rows[i], streams[i])
  }

  ghost predicate CopiesTrack(streams: seq<seq<Event>>, copies: map<nat, Copy>) {
    forall caller: nat <- copies :: CopyTracks(streams, copies[caller])
  }

  ghost predicate OutcomeInv(s: State) {
    RowsTrack(s.rows, s.streams) && CopiesTrack(s.streams, s.copies)
  }

  // ---- single rows ----

  lemma FreshTracks(key: RunKey, fingerprint: string)
    ensures Tracks(FreshRow(key, fingerprint), [])
  {
  }

  lemma AttachedTracks(r: Row, stream: seq<Event>)
    requires r.projection == NEW_RUN && |stream| >= 0
    ensures InStep(r, stream)
  {
    assert stream[..0] == [];
  }

  lemma SubmissionTracks(r: Row, pc: Starter, stream: seq<Event>)
    requires Tracks(r, stream) && CallsStore(pc) && (pc.Rejecting? ==> r.sessionId.None?)
    ensures Tracks(SubmissionRow(r, pc), stream)
  {
    var r' := SubmissionRow(r, pc);
    if r'.cancellationRequestedAt.None? && PageableStream(stream) && r'.projection == NEW_RUN { AttachedTracks(r', stream); }
  }

  lemma ReachedStays(stream: seq<Event>, event: Event, n: nat, status: RunStatus)
    requires Reached(stream, n, status)
    ensures Reached(stream + [event], n, status)
  {
    var m :| 0 <= m <= n && m <= |stream| && WholeFold(stream[..m]).status == status;
    assert (stream + [event])[..m] == stream[..m];
  }

  lemma PageablePrefix(f: Fold, stream: seq<Event>, event: Event)
    requires Pageable(f, stream + [event])
    ensures Pageable(f, stream)
  {
    forall n | 0 <= n < |stream| ensures KeepsFlags(FoldAll(f, stream[..n]), stream[n]) {
      assert (stream + [event])[..n] == stream[..n] && (stream + [event])[n] == stream[n];
    }
  }

  lemma EmittedTracks(r: Row, stream: seq<Event>, event: Event)
    requires Tracks(r, stream)
    ensures Tracks(r, stream + [event])
  {
    if r.cancellationRequestedAt.None? && PageableStream(stream + [event]) {
      var n := r.projection.eventCount;
      PageablePrefix(Start(NEW_RUN), stream, event);
      assert (stream + [event])[..n] == stream[..n];
      if Reached(stream, n, r.projection.status) { ReachedStays(stream, event, n, r.projection.status); }
    }
  }

  /** A page folded from a row in flight continues the fold of the whole stream. */
  lemma PageContinues(c: Row, stream: seq<Event>, page: seq<Event>)
    requires InStep(c, stream) && PageableStream(stream) && !Terminal(c.projection.status)
    requires c.projection.eventCount + |page| <= |stream|
    requires page == stream[c.projection.eventCount..c.projection.eventCount + |page|]
    ensures var m := c.projection.eventCount + |page|; Project(c.projection, page) == Finish(WholeFold(stream[..m]), m)
  {
    var n := c.projection.eventCount;
    PagePrefix(stream, n, page);
    if c.projection.status.Submitting? {
      assert stream[..0] == [] && stream[..|page|] == page;
    } else {
      StoredContinues(c.projection, stream, n, page);
    }
  }

  lemma StoredContinues(p: Projection, stream: seq<Event>, n: nat, page: seq<Event>)
    requires PageableStream(stream) && n + |page| <= |stream| && page == stream[n..n + |page|]
    requires p == Finish(WholeFold(stream[..n]), n) && !Terminal(p.status) && !p.status.Submitting?
    ensures Project(p, page) == Finish(WholeFold(stream[..n + |page|]), n + |page|)
  {
    var f, g := WholeFold(stream[..n]), Start(p);
    PagePrefix(stream, n, page);
    PageableStored(Start(NEW_RUN), stream, n);
    FoldSplit(Start(NEW_RUN), stream[..n], page);
    assert Alike(g, f);
    AlikeStays(g, f, page);
  }

  lemma WrittenTracks(r: Row, c: Row, stream: seq<Event>, page: seq<Event>)
    requires Tracks(r, stream) && Tracks(c, stream) && Follows(c, r) && !Terminal(c.projection.status)
    requires c.projection.eventCount + |page| <= |stream|
    requires page == stream[c.projection.eventCount..c.projection.eventCount + |page|]
    ensures Tracks(UpdateProjection(r, Project(c.projection, page)), stream)
  {
    var r', m := UpdateProjection(r, Project(c.projection, page)), c.projection.eventCount + |page|;
    if r'.cancellationRequestedAt.None? && PageableStream(stream) && r' != r {
      PageContinues(c, stream, page);
      NeverSubmitting(NEW_RUN, stream[..m]);
      WrittenInStep(r, r', stream, m);
    }
  }

  lemma WrittenInStep(r: Row, r': Row, stream: seq<Event>, m: nat)
    requires m <= |stream| && InStep(r, stream) && r.cancellationRequestedAt.None? && r' != r
    requires r' == UpdateProjection(r, Finish(WholeFold(stream[..m]), m)) && !WholeFold(stream[..m]).status.Submitting?
    ensures InStep(r', stream)
  {
    if Terminal(r.projection.status) {
      if Reached(stream, r.projection.eventCount, r.projection.status) {
        var k :| 0 <= k <= r.projection.eventCount && k <= |stream| && WholeFold(stream[..k]).status == r.projection.status;
        assert Reached(stream, m, r.projection.status);
      }
    } else {
      assert r'.projection.status == WholeFold(stream[..m]).status;
      assert Reached(stream, m, r'.projection.status);
    }
  }

  // ---- steps ----

  lemma PutTracks(rows: Table, streams: seq<seq<Event>>, i: nat, r: Row)
    requires RowsTrack(rows, streams) && i < |rows| && Tracks(r, streams[i])
    ensures RowsTrack(rows[i := r], streams)
  {
  }

  lemma PutCopyTracks(streams: seq<seq<Event>>, copies: map<nat, Copy>, caller: nat, c: Copy)
    requires CopiesTrack(streams, copies) && CopyTracks(streams, c)
    ensures CopiesTrack(streams, copies[caller := c])
  {
  }

  /** The store's answer to a caller, as in `ReturnRowKeeps`. */
  lemma ReturnTracks(s: State, caller: nat, i: nat, r: Row)
    requires OutcomeInv(s) && i < |s.rows| && Tracks(r, s.streams[i])
    ensures OutcomeInv(s.(rows := s.rows[i := r], copies := s.copies[caller := Copy(i, r, None, false)]))
  {
    PutTracks(s.rows, s.streams, i, r);
    PutCopyTracks(s.streams, s.copies, caller, Copy(i, r, None, false));
  }

  lemma SubmitTracks(s: State, key: RunKey, fingerprint: string)
    requires OutcomeInv(s)
    ensures OutcomeInv(StepSubmit(s, key, fingerprint))
  {
    FreshTracks(key, fingerprint);
    forall caller: nat <- s.copies ensures CopyTracks(s.streams + [[]], s.copies[caller]) { assert CopyTracks(s.streams, s.copies[caller]); }
  }

  lemma SubmissionCallTracks(s: State, run: nat, end: CallEnd)
    requires Inv(s) && OutcomeInv(s)
    ensures OutcomeInv(StepSubmissionCall(s, run, end))
  {
    if run in s.starters && run < |s.rows| && CallsStore(s.starters[run]) && !end.NotRun? {
      SubmissionTracks(s.rows[run], s.starters[run], s.streams[run]);
      PutTracks(s.rows, s.streams, run, SubmissionRow(s.rows[run], s.starters[run]));
    }
  }

  lemma EmitTracks(s: State, run: nat, event: Event)
    requires OutcomeInv(s) && run < |s.streams|
    ensures OutcomeInv(s.(streams := s.streams[run := s.streams[run] + [event]]))
  {
    var streams := s.streams[run := s.streams[run] + [event]];
    EmittedTracks(s.rows[run], s.streams[run], event);
    forall caller: nat <- s.copies ensures CopyTracks(streams, s.copies[caller]) {
      assert CopyTracks(s.streams, s.copies[caller]);
      if s.copies[caller].run == run { EmittedTracks(s.copies[caller].row, s.streams[run], event); }
    }
  }

  lemma ReadPageTracks(s: State, caller: nat, limit: nat)
    requires OutcomeInv(s)
    ensures OutcomeInv(StepReadPage(s, caller, limit))
  {
    if Holds(s, caller) && !Terminal(s.copies[caller].row.projection.status) {
      var c := s.copies[caller];
      assert CopyTracks(s.streams, c);
      PutCopyTracks(s.streams, s.copies, caller, c.(page := Some(NextPage(s.streams[c.run], c.row.projection.eventCount, limit))));
    }
  }

  lemma WritePageTracks(s: State, caller: nat)
    requires Inv(s) && OutcomeInv(s)
    ensures OutcomeInv(StepWritePage(s, caller))
  {
    if Holds(s, caller) && s.copies[caller].page.Some? {
      var c := s.copies[caller];
      assert CopyOk(s.rows, s.streams, c) && CopyTracks(s.streams, c);
      if c.page.value == [] {
        PutCopyTracks(s.streams, s.copies, caller, c.(page := None));
      } else {
        WrittenTracks(s.rows[c.run], c.row, s.streams[c.run], c.page.value);
        ReturnTracks(s, caller, c.run, UpdateProjection(s.rows[c.run], Project(c.row.projection, c.page.value)));
      }
    }
  }

  lemma RequestCancelTracks(s: State, caller: nat)
    requires Inv(s) && OutcomeInv(s)
    ensures OutcomeInv(StepRequestCancel(s, caller))
  {
    if Holds(s, caller) {
      var i := s.copies[caller].run;
      ReturnTracks(s, caller, i, MarkCancellationRequested(s.rows[i], s.now));
    }
  }

  lemma FinishCancelTracks(s: State, caller: nat)
    requires Inv(s) && OutcomeInv(s)
    ensures OutcomeInv(StepFinishCancel(s, caller))
  {
    if MayForce(s, caller) {
      var c := s.copies[caller];
      assert CopyOk(s.rows, s.streams, c);
      ReturnTracks(s, caller, c.run, MarkCancelled(s.rows[c.run]));
    }
  }

  lemma ResetForCancelTracks(s: State, caller: nat, end: CallEnd)
    requires OutcomeInv(s)
    ensures OutcomeInv(StepResetForCancel(s, caller, end))
  {
    if MayForce(s, caller) { PutCopyTracks(s.streams, s.copies, caller, s.copies[caller].(cleared := true)); }
  }

  /** A step that leaves rows, streams and copies alone. */
  lemma QuietTracks(s: State, a: Action)
    requires OutcomeInv(s) && (a.Tick? || a.RuntimeStart? || a.RuntimeReset? || a.SubmitterCrash?)
    ensures OutcomeInv(RunLifecycle.Step(s, a))
  {
    var s' := RunLifecycle.Step(s, a);
    assert s'.rows == s.rows && s'.streams == s.streams && s'.copies == s.copies;
  }

  lemma ReadRowTracks(s: State, caller: nat, run: nat)
    requires OutcomeInv(s)
    ensures OutcomeInv(RunLifecycle.Step(s, ReadRow(caller, run)))
  {
    if run < |s.rows| { PutCopyTracks(s.streams, s.copies, caller, Copy(run, s.rows[run], None, false)); }
  }

  predicate CallerActs(a: Action) {
    a.ReadPage? || a.WritePage? || a.RequestCancel? || a.ResetForCancel? || a.FinishCancel?
  }

  lemma CallerTracks(s: State, a: Action)
    requires Inv(s) && OutcomeInv(s) && CallerActs(a)
    ensures OutcomeInv(RunLifecycle.Step(s, a))
  {
    match a
    case ReadPage(caller, limit) => ReadPageTracks(s, caller, limit);
    case WritePage(caller) => WritePageTracks(s, caller);
    case RequestCancel(caller) => RequestCancelTracks(s, caller);
    case ResetForCancel(caller, end) => ResetForCancelTracks(s, caller, end);
    case FinishCancel(caller) => FinishCancelTracks(s, caller);
  }

  lemma OutcomeKept(s: State, a: Action)
    requires Inv(s) && OutcomeInv(s)
    ensures OutcomeInv(RunLifecycle.Step(s, a))
  {
    match a
    case Submit(key, fingerprint) => SubmitTracks(s, key, fingerprint);
    case SubmissionCall(run, end) => SubmissionCallTracks(s, run, end);
    case Emit(run, event) => if run < |s.streams| { EmitTracks(s, run, event); }
    case ReadRow(caller, run) => ReadRowTracks(s, caller, run);
    case _ => if CallerActs(a) { CallerTracks(s, a); } else { QuietTracks(s, a); }
  }

  lemma {:induction false} OutcomeReachable(init: State, run: seq<Action>)
    requires Inv(init) && OutcomeInv(init)
    ensures OutcomeInv(Exec(init, run))
  {
    if run != [] {
      Reachable(init, run[..|run| - 1]);
      OutcomeReachable(init, run[..|run| - 1]);
      OutcomeKept(Exec(init, run[..|run| - 1]), run[|run| - 1]);
    }
  }

  /**
   In every run, as long as nobody asked to cancel it and its stream can be cut into pages without harm, a run that is
   bound to a session shows just what its counted events say, whichever stale pages were folded and in what order: in
   flight its stored columns are those of folding the counted events at once, and once it is completed, failed or
   cancelled this fold had that status after some of them.
   */
  lemma StatusFollowsStream(caps: Caps, attachAttempts: nat, cleanupAttempts: nat, run: seq<Action>, i: nat)
    ensures var s := Exec(Initial(caps, attachAttempts, cleanupAttempts), run);
            i < |s.rows| && s.rows[i].sessionId.Some? && s.rows[i].cancellationRequestedAt.None? ==>
              && i < |s.streams| && s.rows[i].projection.eventCount <= |s.streams[i]|
              && (PageableStream(s.streams[i]) ==>
                    var p := s.rows[i].projection;
                    var whole := FoldAll(Start(NEW_RUN), s.streams[i][..p.eventCount]);
                    && (p.status.Running? || p.status.WaitingInput? || p.status.WaitingAuthorization? ==>
                          p.status == whole.status && p.result == whole.result && p.failure == whole.failure && p.usage == whole.usage)
                    && (p.status.Completed? || p.status.Failed? || p.status.Cancelled? ==>
                          exists m :: 0 <= m <= p.eventCount && FoldAll(Start(NEW_RUN), s.streams[i][..m]).status == p.status)
                    && (p.status.Submitting? ==> p.eventCount == 0))
  {
    var init := Initial(caps, attachAttempts, cleanupAttempts);
    Reachable(init, run);
    OutcomeReachable(init, run);
    var s := Exec(init, run);
    if i < |s.rows| && s.rows[i].sessionId.Some? && s.rows[i].cancellationRequestedAt.None? {
      assert RowAt(s.rows[i], s.streams[i], AcceptedFor(s.accepted, i), s.resets) && Tracks(s.rows[i], s.streams[i]);
      if PageableStream(s.streams[i]) { StatusShown(s.rows[i], s.streams[i]); }
    }
  }

  lemma StatusShown(r: Row, stream: seq<Event>)
    requires InStep(r, stream) && r.sessionId.Some?
    ensures r.projection.status.Completed? || r.projection.status.Failed? || r.projection.status.Cancelled? ==>
              exists m :: 0 <= m <= r.projection.eventCount && FoldAll(Start(NEW_RUN), stream[..m]).status == r.projection.status
  {
    var p := r.projection;
    if p.status.Completed? || p.status.Failed? || p.status.Cancelled? {
      var m :| 0 <= m <= p.eventCount && m <= |stream| && WholeFold(stream[..m]).status == p.status;
      assert FoldAll(Start(NEW_RUN), stream[..m]).status == p.status;
    }
  }
}
