/** From every state, what the calls of the run lifecycle bring about when they go through, and how each kind of trouble ends. */
module RunProgress {
  import opened Common
  import opened RunProjection
  import opened RunTable
  import opened RunLifecycle

  function Run(s: State, actions: seq<Action>): State {
    if actions == [] then s else RunLifecycle.Step(Run(s, actions[..|actions| - 1]), actions[|actions| - 1])
  }

  lemma {:induction false} RunAppend(s: State, a: seq<Action>, b: seq<Action>)
    ensures Run(s, a + b) == Run(Run(s, a), b)
  {
    if b == [] {
      assert a + b == a;
    } else {
      assert (a + b)[..|a + b| - 1] == a + b[..|b| - 1];
      RunAppend(s, a, b[..|b| - 1]);
    }
  }

  lemma RunTwo(s: State, a: Action, b: Action)
    ensures Run(s, [a]) == RunLifecycle.Step(s, a) && Run(s, [a, b]) == RunLifecycle.Step(RunLifecycle.Step(s, a), b)
  {
    assert [a][..0] == [] && [a, b][..1] == [a];
  }

  // ---- submission ----

  /** Run `i` has this row and stream. */
  ghost predicate Has(s: State, i: nat, r: Row, stream: seq<Event>) {
    i < |s.rows| && |s.streams| == |s.rows| && s.rows[i] == r && s.streams[i] == stream
  }

  lemma SubmitStep(s: State, key: RunKey, fingerprint: string)
    requires |s.streams| == |s.rows| && Reserve(s.rows, s.caps, key, fingerprint).1.Reserved?
    ensures var s', i := RunLifecycle.Step(s, Submit(key, fingerprint)), |s.rows|;
            && Has(s', i, Row(key, fingerprint, Projection(0, None, None, Submitting, NO_USAGE), None, None, 1), [])
            && i in s'.starters && s'.starters[i] == Starting && s'.accepted == s.accepted
  {
  }

  lemma StartStep(s: State, i: nat, r: Row, stream: seq<Event>, reply: StartReply)
    requires Has(s, i, r, stream) && i in s.starters && s.starters[i] == Starting
    requires reply.SessionAccepted? ==> reply.session !in s.accepted.Values
    ensures var s' := RunLifecycle.Step(s, RuntimeStart(i, reply));
            && Has(s', i, r, stream) && i in s'.starters
            && (match reply
                case SessionAccepted(session) => s'.starters[i] == Attaching(session, 0) && i in s'.accepted && s'.accepted[i] == session
                case ClientRejected => s'.starters[i] == Rejecting
                case Unknown => s'.starters[i] == Abandoning)
  {
  }

  /** A submitter's store call that goes through, on a row that is still submitting. */
  lemma CallStep(s: State, i: nat, r: Row, stream: seq<Event>, pc: Starter)
    requires Has(s, i, r, stream) && i in s.starters && s.starters[i] == pc && r.projection.status.Submitting? && r.sessionId.None?
    ensures var s' := RunLifecycle.Step(s, SubmissionCall(i, Answered));
            match pc
            case Attaching(session, _) =>
              && Has(s', i, r.(projection := r.projection.(status := Running), sessionId := Some(session), revision := r.revision + 1), stream)
              && i in s'.starters && s'.starters[i] == Finished(Some(session), true)
            case Binding(session) =>
              && Has(s', i, r.(sessionId := Some(session), revision := r.revision + 1), stream)
              && i in s'.starters && s'.starters[i] == Cleaning(session, 0)
            case Rejecting =>
              && Has(s', i, r.(projection := r.projection.(status := Failed, failure := Some(REJECTED)), revision := r.revision + 1), stream)
              && i in s'.starters && s'.starters[i] == Finished(None, false)
            case Abandoning =>
              && Has(s', i, r.(projection := r.projection.(status := SubmissionAmbiguous, failure := Some(AMBIGUOUS)), revision := r.revision + 1), stream)
              && i in s'.starters && s'.starters[i] == Finished(None, false)
            case Settling(session) =>
              && Has(s', i, r.(projection := r.projection.(status := SubmissionAmbiguous, failure := Some(AMBIGUOUS)), revision := r.revision + 1), stream)
              && i in s'.starters && s'.starters[i] == Finished(Some(session), false)
            case _ => s' == s
  {
  }

  /** An unanswered attach is tried again as often as allowed, then the session is at least bound; an unanswered bind is cleaned up. */
  lemma UnansweredCall(s: State, i: nat, session: SessionId, attempts: nat, end: CallEnd)
    requires i in s.starters && i < |s.rows| && !end.Answered?
    ensures s.starters[i] == Attaching(session, attempts) ==>
              var s' := RunLifecycle.Step(s, SubmissionCall(i, end));
              i in s'.starters && s'.starters[i] == if attempts + 1 < s.attachAttempts then Attaching(session, attempts + 1) else Binding(session)
    ensures s.starters[i] == Binding(session) ==>
              var s' := RunLifecycle.Step(s, SubmissionCall(i, end)); i in s'.starters && s'.starters[i] == Cleaning(session, 0)
  {
  }

  /** Cleaning up resets the session, which is tried again as often as allowed; only a confirmed reset goes on to settle the row. */
  lemma CleanupStep(s: State, i: nat, session: SessionId, attempts: nat, end: CallEnd)
    requires i in s.starters && s.starters[i] == Cleaning(session, attempts)
    ensures var s' := RunLifecycle.Step(s, RuntimeReset(i, end));
            && s'.rows == s.rows && s'.resets == (if end.NotRun? then s.resets else s.resets + {session})
            && i in s'.starters
            && s'.starters[i] == if end.Answered? then Settling(session)
                                 else if attempts + 1 < s.cleanupAttempts then Cleaning(session, attempts + 1)
                                 else Finished(Some(session), false)
  {
  }

  // ---- synchronization ----

  lemma EmitStep(s: State, i: nat, r: Row, stream: seq<Event>, event: Event)
    requires Has(s, i, r, stream)
    ensures Has(RunLifecycle.Step(s, Emit(i, event)), i, r, stream + [event])
  {
  }

  function Emits(i: nat, events: seq<Event>): seq<Action> {
    seq(|events|, k requires 0 <= k < |events| => Emit(i, events[k]))
  }

  lemma {:induction false} EmitAll(s: State, i: nat, r: Row, stream: seq<Event>, events: seq<Event>)
    requires Has(s, i, r, stream)
    ensures Has(Run(s, Emits(i, events)), i, r, stream + events)
  {
    if events == [] {
      assert stream + events == stream;
    } else {
      var n := |events| - 1;
      var all := Emits(i, events);
      EmitAll(s, i, r, stream, events[..n]);
      assert all[..n] == Emits(i, events[..n]) && all[n] == Emit(i, events[n]);
      EmitStep(Run(s, Emits(i, events[..n])), i, r, stream + events[..n], events[n]);
      assert stream + events[..n] + [events[n]] == stream + events;
    }
  }

  /** A synchronizer that reads the row, reads all events behind it and writes the page stores the folded projection. */
  lemma SyncStores(s: State, i: nat, r: Row, stream: seq<Event>, caller: nat, limit: nat)
    requires Has(s, i, r, stream) && r.sessionId.Some? && !Terminal(r.projection.status) && r.cancellationRequestedAt.None?
    requires r.projection.eventCount < |stream| <= r.projection.eventCount + limit
    ensures var s' := Run(s, [ReadRow(caller, i), ReadPage(caller, limit)] + [WritePage(caller)]);
            var p := Project(r.projection, stream[r.projection.eventCount..]);
            Has(s', i, r.(projection := if p.status.Cancelled? then p.(result := None, failure := None) else p, revision := r.revision + 1), stream)
  {
    var s1 := RunLifecycle.Step(s, ReadRow(caller, i));
    var s2 := RunLifecycle.Step(s1, ReadPage(caller, limit));
    var page := stream[r.projection.eventCount..];
    RunTwo(s, ReadRow(caller, i), ReadPage(caller, limit));
    RunTwo(s2, WritePage(caller), WritePage(caller));
    RunAppend(s, [ReadRow(caller, i), ReadPage(caller, limit)], [WritePage(caller)]);
    PageIsRead(s1, s2, i, r, stream, caller, limit);
    WriteStores(s2, i, r, stream, caller, page);
  }

  lemma PageIsRead(s1: State, s2: State, i: nat, r: Row, stream: seq<Event>, caller: nat, limit: nat)
    requires Has(s1, i, r, stream) && caller in s1.copies && s1.copies[caller] == Copy(i, r, None, false)
    requires r.sessionId.Some? && !Terminal(r.projection.status) && r.projection.eventCount <= |stream| <= r.projection.eventCount + limit
    requires s2 == RunLifecycle.Step(s1, ReadPage(caller, limit))
    ensures Has(s2, i, r, stream) && caller in s2.copies && s2.copies[caller] == Copy(i, r, Some(stream[r.projection.eventCount..]), false)
  {
    assert stream[r.projection.eventCount..|stream|] == stream[r.projection.eventCount..];
  }

  lemma WriteStores(s: State, i: nat, r: Row, stream: seq<Event>, caller: nat, page: seq<Event>)
    requires Has(s, i, r, stream) && caller in s.copies && s.copies[caller] == Copy(i, r, Some(page), false) && page != []
    requires !Terminal(r.projection.status) && r.cancellationRequestedAt.None?
    ensures var p := Project(r.projection, page);
            Has(RunLifecycle.Step(s, WritePage(caller)), i,
                r.(projection := if p.status.Cancelled? then p.(result := None, failure := None) else p, revision := r.revision + 1), stream)
  {
    assert Project(r.projection, page).eventCount != r.projection.eventCount;
  }

  /**
   In every state a new key within capacity can become a run that is attached to its session and shows, after one
   synchronization, just what its events fold to.
   */
  lemma RunShowsItsEvents(s: State, key: RunKey, fingerprint: string, session: SessionId, events: seq<Event>, caller: nat)
    requires |s.streams| == |s.rows| && Reserve(s.rows, s.caps, key, fingerprint).1.Reserved? && session !in s.accepted.Values && events != []
    ensures var i := |s.rows|;
            var attached := Run(Run(s, [Submit(key, fingerprint), RuntimeStart(i, SessionAccepted(session))]), [SubmissionCall(i, Answered)]);
            var s' := Run(Run(attached, Emits(i, events)), [ReadRow(caller, i), ReadPage(caller, |events|)] + [WritePage(caller)]);
            var p := Project(Projection(0, None, None, Running, NO_USAGE), events);
            && i < |s'.rows| && s'.rows[i].key == key && s'.rows[i].sessionId == Some(session)
            && s'.rows[i].projection == if p.status.Cancelled? then p.(result := None, failure := None) else p
  {
    var i := |s.rows|;
    var newRow := Row(key, fingerprint, Projection(0, None, None, Submitting, NO_USAGE), None, None, 1);
    var s1 := RunLifecycle.Step(s, Submit(key, fingerprint));
    SubmitStep(s, key, fingerprint);
    StartStep(s1, i, newRow, [], SessionAccepted(session));
    var s2 := RunLifecycle.Step(s1, RuntimeStart(i, SessionAccepted(session)));
    RunTwo(s, Submit(key, fingerprint), RuntimeStart(i, SessionAccepted(session)));
    CallStep(s2, i, newRow, [], Attaching(session, 0));
    var s3 := RunLifecycle.Step(s2, SubmissionCall(i, Answered));
    RunTwo(s2, SubmissionCall(i, Answered), SubmissionCall(i, Answered));
    AttachedShows(s3, i, s3.rows[i], events, caller);
  }

  lemma AttachedShows(s: State, i: nat, r: Row, events: seq<Event>, caller: nat)
    requires Has(s, i, r, []) && r.projection == Projection(0, None, None, Running, NO_USAGE) && r.sessionId.Some? && r.cancellationRequestedAt.None?
    requires events != []
    ensures var s' := Run(Run(s, Emits(i, events)), [ReadRow(caller, i), ReadPage(caller, |events|)] + [WritePage(caller)]);
            var p := Project(r.projection, events);
            Has(s', i, r.(projection := if p.status.Cancelled? then p.(result := None, failure := None) else p, revision := r.revision + 1), events)
  {
    EmitAll(s, i, r, [], events);
    assert [] + events == events && events[0..] == events;
    SyncStores(Run(s, Emits(i, events)), i, r, events, caller, |events|);
  }

  // ---- cancellation ----

  lemma RequestStep(s: State, i: nat, r: Row, stream: seq<Event>, caller: nat)
    requires Has(s, i, r, stream) && r.sessionId.Some? && !Terminal(r.projection.status) && r.cancellationRequestedAt.None?
    ensures var s', r' := Run(s, [ReadRow(caller, i), RequestCancel(caller)]), r.(cancellationRequestedAt := Some(s.now), revision := r.revision + 1);
            Has(s', i, r', stream) && caller in s'.copies && s'.copies[caller] == Copy(i, r', None, false) && s'.resets == s.resets
  {
    RunTwo(s, ReadRow(caller, i), RequestCancel(caller));
    RequestOnCopy(RunLifecycle.Step(s, ReadRow(caller, i)), i, r, stream, caller);
  }

  lemma RequestOnCopy(s: State, i: nat, r: Row, stream: seq<Event>, caller: nat)
    requires Has(s, i, r, stream) && caller in s.copies && s.copies[caller] == Copy(i, r, None, false)
    requires r.sessionId.Some? && !Terminal(r.projection.status) && r.cancellationRequestedAt.None?
    ensures var s', r' := RunLifecycle.Step(s, RequestCancel(caller)), r.(cancellationRequestedAt := Some(s.now), revision := r.revision + 1);
            Has(s', i, r', stream) && caller in s'.copies && s'.copies[caller] == Copy(i, r', None, false) && s'.resets == s.resets
  {
  }

  lemma ForceStep(s: State, i: nat, r: Row, stream: seq<Event>, caller: nat)
    requires Has(s, i, r, stream) && caller in s.copies && s.copies[caller] == Copy(i, r, None, false)
    requires r.sessionId.Some? && r.cancellationRequestedAt.Some? && !r.projection.status.Cancelled?
    ensures var s' := Run(s, [ResetForCancel(caller, Answered), FinishCancel(caller)]);
            && r.sessionId.value in s'.resets
            && Has(s', i, r.(projection := r.projection.(status := Cancelled, result := None, failure := None), revision := r.revision + 1), stream)
  {
    RunTwo(s, ResetForCancel(caller, Answered), FinishCancel(caller));
  }

  /** In every state a bound run in flight can be cancelled: the request is stored, its session is reset, and the row ends cancelled. */
  lemma CancellationCompletes(s: State, i: nat, r: Row, stream: seq<Event>, caller: nat)
    requires Has(s, i, r, stream) && r.sessionId.Some? && !Terminal(r.projection.status) && r.cancellationRequestedAt.None?
    ensures var s' := Run(s, [ReadRow(caller, i), RequestCancel(caller)] + [ResetForCancel(caller, Answered), FinishCancel(caller)]);
            && i < |s'.rows| && s'.rows[i].projection.status.Cancelled? && s'.rows[i].cancellationRequestedAt == Some(s.now)
            && s'.rows[i].projection.result.None? && s'.rows[i].projection.failure.None? && r.sessionId.value in s'.resets
  {
    RequestStep(s, i, r, stream, caller);
    var requested := Run(s, [ReadRow(caller, i), RequestCancel(caller)]);
    ForceStep(requested, i, requested.rows[i], stream, caller);
    RunAppend(s, [ReadRow(caller, i), RequestCancel(caller)], [ResetForCancel(caller, Answered), FinishCancel(caller)]);
  }

  // ---- every caller's step, whether or not it applies ----

  /** A submitter whose attach took effect although nobody answered finds its row attached. */
  lemma LostAttachIsFound(s: State, i: nat, r: Row, stream: seq<Event>, session: SessionId, attempts: nat)
    requires Has(s, i, r, stream) && i in s.starters && (s.starters[i] == Attaching(session, attempts) || s.starters[i] == Binding(session))
    requires r.sessionId == Some(session) && r.projection.status.Running?
    ensures var s' := RunLifecycle.Step(s, SubmissionCall(i, Answered));
            Has(s', i, r, stream) && i in s'.starters && s'.starters[i] == Finished(Some(session), true)
  {
  }

  /** A submitter that waits for the runtime, cleans up or is finished calls no store. */
  lemma OtherStartersWait(s: State, i: nat, end: CallEnd)
    requires i in s.starters && (s.starters[i].Starting? || s.starters[i].Cleaning? || s.starters[i].Finished?)
    ensures RunLifecycle.Step(s, SubmissionCall(i, end)) == s
    ensures !s.starters[i].Starting? ==> forall reply: StartReply :: RunLifecycle.Step(s, RuntimeStart(i, reply)) == s
    ensures !s.starters[i].Cleaning? ==> RunLifecycle.Step(s, RuntimeReset(i, end)) == s
  {
  }

  /** A page starts behind the copy's counted events and has as many as the limit and the stream allow; only a bound copy in flight reads one. */
  lemma ReadPageExactly(s: State, caller: nat, limit: nat, c: Copy, stream: seq<Event>)
    requires caller in s.copies && s.copies[caller] == c && c.run < |s.rows| && Has(s, c.run, s.rows[c.run], stream) && c.row.projection.eventCount <= |stream|
    ensures var s', n := RunLifecycle.Step(s, ReadPage(caller, limit)), c.row.projection.eventCount;
            var status := c.row.projection.status;
            var more := if limit < |stream| - n then limit else |stream| - n;
            s' == if c.page.None? && c.row.sessionId.Some?
                     && (status.Submitting? || status.Running? || status.WaitingInput? || status.WaitingAuthorization?)
                  then s.(copies := s.copies[caller := c.(page := Some(stream[n..n + more]))]) else s
  {
  }

  /** Writing a page that was read: an empty one changes nothing; otherwise the caller goes on with the row that was stored. */
  lemma WritePageExactly(s: State, caller: nat, c: Copy)
    requires caller in s.copies && s.copies[caller] == c && c.run < |s.rows| && c.run < |s.streams|
    ensures var s' := RunLifecycle.Step(s, WritePage(caller));
            && (c.page.None? ==> s' == s)
            && (c.page == Some([]) ==> s' == s.(copies := s.copies[caller := c.(page := None)]))
            && (c.page.Some? && c.page.value != [] ==>
                  var row := UpdateProjection(s.rows[c.run], Project(c.row.projection, c.page.value));
                  s' == s.(rows := s.rows[c.run := row], copies := s.copies[caller := Copy(c.run, row, None, false)]))
  {
  }

  /** Requesting a cancellation applies to a bound copy in flight without a request, and is stored unless the row settled or has one. */
  lemma RequestCancelExactly(s: State, caller: nat, c: Copy)
    requires caller in s.copies && s.copies[caller] == c && c.run < |s.rows| && c.run < |s.streams|
    ensures var s', r, status := RunLifecycle.Step(s, RequestCancel(caller)), s.rows[c.run], c.row.projection.status;
            var settled := r.projection.status.Completed? || r.projection.status.Failed? || r.projection.status.Cancelled? || r.projection.status.SubmissionAmbiguous?;
            if c.row.sessionId.Some? && c.row.cancellationRequestedAt.None?
               && (status.Submitting? || status.Running? || status.WaitingInput? || status.WaitingAuthorization?)
            then
              var row := if settled || r.cancellationRequestedAt.Some? then r
                         else r.(cancellationRequestedAt := Some(s.now), revision := r.revision + 1);
              s' == s.(rows := s.rows[c.run := row], copies := s.copies[caller := Copy(c.run, row, None, false)])
            else s' == s
  {
  }

  /** A copy that was asked to be cancelled, is bound and not cancelled, and has no page to write, may be forced. */
  predicate Forcible(c: Copy) {
    && c.page.None? && c.row.cancellationRequestedAt.Some? && c.row.sessionId.Some?
    && !(c.row.projection.status == Cancelled)
  }

  /** Forcing a cancellation resets the session first, and only a confirmed reset lets the row be cancelled. */
  lemma ForceExactly(s: State, caller: nat, c: Copy, end: CallEnd)
    requires caller in s.copies && s.copies[caller] == c && c.run < |s.rows| && c.run < |s.streams|
    ensures var s' := RunLifecycle.Step(s, ResetForCancel(caller, end));
            if !Forcible(c) then s' == s
            else && s'.rows == s.rows && s'.resets == (if end.NotRun? then s.resets else s.resets + {c.row.sessionId.value})
                 && s'.copies == if end.Answered? then s.copies[caller := c.(cleared := true)] else s.copies - {caller}
  {
  }

  lemma FinishExactly(s: State, caller: nat, c: Copy)
    requires caller in s.copies && s.copies[caller] == c && c.run < |s.rows| && c.run < |s.streams|
    ensures var s', r := RunLifecycle.Step(s, FinishCancel(caller)), s.rows[c.run];
            if !Forcible(c) || !c.cleared then s' == s
            else
              var row := if r.projection.status == Cancelled then r
                         else r.(projection := r.projection.(status := Cancelled, result := None, failure := None), revision := r.revision + 1);
              s' == s.(rows := s.rows[c.run := row], copies := s.copies[caller := Copy(c.run, row, None, false)])
  {
  }

  /** Time passes, a submitter crashes, a caller reads a row. */
  lemma OtherSteps(s: State, to: int, run: nat, caller: nat)
    ensures RunLifecycle.Step(s, Tick(to)) == s.(now := to)
    ensures RunLifecycle.Step(s, SubmitterCrash(run)) == s.(starters := s.starters - {run})
    ensures RunLifecycle.Step(s, ReadRow(caller, run))
         == if run < |s.rows| then s.(copies := s.copies[caller := Copy(run, s.rows[run], None, false)]) else s
  {
  }
}
