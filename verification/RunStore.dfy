/** The AgentRun store as an object, and the submit, synchronize and cancel programs that call it. */
module RunStore {
  import opened Common
  import opened RunProjection
  import opened RunTable
  import opened RunLifecycle
  import Sql = RunTable

  /**
   What a page that is not stale makes of a row: a settled row and one with a pending cancellation keep their status, the
   latter unless the page cancels it; a pending or effected cancellation stores neither result nor failure.
   */
  ghost predicate PageStored(r: Row, p: Projection, r': Row) {
    var before, after, pending := r.projection, r'.projection, r.cancellationRequestedAt.Some?;
    var settled := before.status.Completed? || before.status.Failed? || before.status.Cancelled? || before.status.SubmissionAmbiguous?;
    && after.eventCount == p.eventCount && after.usage == p.usage
    && (settled ==> after.status == before.status)
    && (!settled && !pending ==> after.status == p.status)
    && (!settled && pending ==> after.status == if p.status.Cancelled? then Cancelled else before.status)
    && (if pending || after.status.Cancelled? then after.result.None? && after.failure.None?
        else after.result == p.result && after.failure == p.failure)
    && r' == r.(projection := after, revision := if after == before then r.revision else r.revision + 1)
  }

  class Store {
    const caps: Caps
    var rows: Table

    constructor (caps: Caps)
      ensures this.caps == caps && rows == []
    {
      this.caps := caps;
      rows := [];
    }

    /** Looks the idempotency key up first, then checks capacity, then inserts. */
    method Reserve(key: RunKey, fingerprint: string) returns (r: Reservation)
      modifies this
      ensures !r.Reserved? ==> rows == old(rows)
      ensures r.Replay? || r.Conflict? <==> exists i :: 0 <= i < |old(rows)| && old(rows)[i].key == key
      ensures r.Replay? || r.Conflict? ==>
                r.run < |rows| && rows[r.run].key == key && (r.Replay? <==> rows[r.run].fingerprint == fingerprint)
      ensures r.AtCapacity? ==>
                || 0 < caps.maxActiveRuns <= |InFlight(old(rows))|
                || 0 < caps.maxActiveRunsPerTenant <= |InFlightOf(old(rows), key.tenantId)|
      ensures r.Reserved? ==>
                && !(0 < caps.maxActiveRuns <= |InFlight(old(rows))|)
                && !(0 < caps.maxActiveRunsPerTenant <= |InFlightOf(old(rows), key.tenantId)|)
                && r.run == |old(rows)|
                && rows == old(rows) + [Row(key, fingerprint, Projection(0, None, None, Submitting, Usage(0, 0, 0.0, 0, 0, 0)), None, None, 1)]
      ensures (rows, r) == Sql.Reserve(old(rows), caps, key, fingerprint)
    {
      ActiveCountMeaning(rows, key.tenantId);
      var existing := FindKey(rows, key);
      if existing.Some? {
        return if rows[existing.value].fingerprint == fingerprint then Replay(existing.value) else Conflict(existing.value);
      }
      if caps.maxActiveRuns > 0 || caps.maxActiveRunsPerTenant > 0 {
        var active, activeTenant := 0, 0;
        for i := 0 to |rows|
          invariant active == ActiveCount(rows[..i], None) && activeTenant == ActiveCount(rows[..i], Some(key.tenantId))
        {
          assert rows[..i + 1][..i] == rows[..i];
          if Active(rows[i].projection.status) {
            active := active + 1;
            if rows[i].key.tenantId == key.tenantId { activeTenant := activeTenant + 1; }
          }
        }
        assert rows[..|rows|] == rows;
        if (caps.maxActiveRuns > 0 && active >= caps.maxActiveRuns)
           || (caps.maxActiveRunsPerTenant > 0 && activeTenant >= caps.maxActiveRunsPerTenant) {
          return AtCapacity;
        }
      }
      rows := rows + [FreshRow(key, fingerprint)];
      r := Reserved(|rows| - 1);
    }

    /** Attaches, or recognises a row whose attach response was lost. */
    method AttachSession(run: nat, session: SessionId) returns (ok: bool)
      requires run < |rows|
      modifies this
      ensures var r := old(rows)[run];
              rows == if r.projection.status.Submitting?
                      then old(rows)[run := r.(projection := r.projection.(status := Running), sessionId := Some(session), revision := r.revision + 1)]
                      else old(rows)
      ensures rows == old(rows)[run := Sql.AttachSession(old(rows)[run], session)]
      ensures ok <==> rows[run].sessionId == Some(session) && rows[run].projection.status.Running?
    {
      if rows[run].projection.status.Submitting? {
        rows := rows[run := SetStatus(rows[run], Running).(sessionId := Some(session))];
        return true;
      }
      ok := rows[run].sessionId == Some(session) && rows[run].projection.status.Running?;
    }

    method BindSubmissionSession(run: nat, session: SessionId) returns (ok: bool)
      requires run < |rows|
      modifies this
      ensures var r := old(rows)[run];
              rows == if r.projection.status.Submitting? && (r.sessionId.None? || r.sessionId == Some(session))
                      then old(rows)[run := r.(sessionId := Some(session), revision := r.revision + 1)]
                      else old(rows)
      ensures rows == old(rows)[run := Sql.BindSubmissionSession(old(rows)[run], session)]
      ensures ok <==> rows[run].sessionId == Some(session) && (rows[run].projection.status.Submitting? || rows[run].projection.status.Running?)
    {
      var r := rows[run];
      if r.projection.status.Submitting? && (r.sessionId.None? || r.sessionId == Some(session)) {
        rows := rows[run := r.(sessionId := Some(session), revision := r.revision + 1)];
        return true;
      }
      ok := r.sessionId == Some(session) && (r.projection.status.Submitting? || r.projection.status.Running?);
    }

    method MarkSubmissionAmbiguous(run: nat)
      requires run < |rows|
      modifies this
      ensures !old(rows)[run].projection.status.Submitting? ==> rows == old(rows)
      ensures old(rows)[run].projection.status.Submitting? ==>
                && |rows| == |old(rows)| && rows == old(rows)[run := rows[run]]
                && rows[run].projection.status.SubmissionAmbiguous? && rows[run].projection.failure == Some(AMBIGUOUS)
                && rows[run].revision == old(rows)[run].revision + 1
                && rows[run] == old(rows)[run].(revision := rows[run].revision, projection := old(rows)[run].projection.(
                     status := SubmissionAmbiguous, failure := Some(AMBIGUOUS)))
    {
      if rows[run].projection.status.Submitting? {
        rows := rows[run := SetStatus(rows[run].(projection := rows[run].projection.(failure := Some(AMBIGUOUS))), SubmissionAmbiguous)];
      }
    }

    method MarkCancelled(run: nat)
      requires run < |rows|
      modifies this
      ensures var r := old(rows)[run];
              rows == if r.projection.status.Cancelled? then old(rows)
                      else old(rows)[run := r.(projection := r.projection.(status := Cancelled, result := None, failure := None), revision := r.revision + 1)]
      ensures rows == old(rows)[run := Sql.MarkCancelled(old(rows)[run])]
    {
      var r := rows[run];
      if !r.projection.status.Cancelled? {
        rows := rows[run := r.(projection := r.projection.(status := Cancelled, result := None, failure := None), revision := r.revision + 1)];
      }
    }

    /** The guarded write: stale pages are ignored, terminal rows and pending cancellations keep their status. */
    method UpdateProjection(run: nat, p: Projection)
      requires run < |rows|
      modifies this
      ensures |rows| == |old(rows)| && rows == old(rows)[run := rows[run]]
      ensures p.eventCount < old(rows)[run].projection.eventCount ==> rows == old(rows)
      ensures p.eventCount >= old(rows)[run].projection.eventCount ==> PageStored(old(rows)[run], p, rows[run])
      ensures rows[run] == Sql.UpdateProjection(old(rows)[run], p)
    {
      var r := rows[run];
      if r.projection.eventCount > p.eventCount { return; }
      var pending := r.cancellationRequestedAt.Some?;
      var status := p.status;
      if Terminal(r.projection.status) || (pending && !p.status.Cancelled?) { status := r.projection.status; }
      var effective := p.(status := status);
      if pending || status.Cancelled? { effective := effective.(result := None, failure := None); }
      if r.projection != effective {
        rows := rows[run := r.(projection := effective, revision := r.revision + 1)];
      }
    }
  }

  // ---- submission ----

  datatype Disposition = Started | AmbiguousDisposition

  /** Retries the attach; a lost response may hide an attach that took effect. */
  method AttachSessionWithRetry(store: Store, run: nat, session: SessionId, attempts: nat, ends: nat -> CallEnd) returns (ok: bool)
    requires run < |store.rows| && store.rows[run].projection.status.Submitting?
    modifies store
    ensures |store.rows| == |old(store.rows)|
    ensures ok ==> Attached(store.rows[run], session)
    ensures !ok ==> forall k :: 0 <= k < attempts ==> !ends(k).Answered?
    ensures store.rows[run] == old(store.rows)[run] || Attached(store.rows[run], session)
    ensures forall i :: 0 <= i < |store.rows| && i != run ==> store.rows[i] == old(store.rows)[i]
  {
    ok := false;
    var attempt := 0;
    while attempt < attempts
      invariant attempt <= attempts && |store.rows| == |old(store.rows)|
      invariant store.rows[run] == old(store.rows)[run] || Attached(store.rows[run], session)
      invariant forall i :: 0 <= i < |store.rows| && i != run ==> store.rows[i] == old(store.rows)[i]
      invariant forall k :: 0 <= k < attempt ==> !ends(k).Answered?
    {
      if !ends(attempt).NotRun? {
        var attached := store.AttachSession(run, session);
        if ends(attempt).Answered? && attached { return true; }
      }
      attempt := attempt + 1;
    }
  }

  /** Retries the reset until one is confirmed; `reset` says whether the runtime executed any. */
  method ResetAcceptedSessionWithRetry(attempts: nat, ends: nat -> CallEnd) returns (confirmed: bool, reset: bool)
    ensures confirmed ==> reset
    ensures confirmed <==> exists k :: 0 <= k < attempts && ends(k).Answered?
    ensures reset <==> exists k :: 0 <= k < attempts && !ends(k).NotRun? && forall j :: 0 <= j < k ==> !ends(j).Answered?
  {
    confirmed, reset := false, false;
    for attempt := 0 to attempts
      invariant !confirmed && forall k :: 0 <= k < attempt ==> !ends(k).Answered?
      invariant reset <==> exists k :: 0 <= k < attempt && !ends(k).NotRun? && forall j :: 0 <= j < k ==> !ends(j).Answered?
    {
      if !ends(attempt).NotRun? { reset := true; }
      if ends(attempt).Answered? { return true, true; }
    }
  }

  /**
   What `startAgentRun` does once `runtime.start` returned a session, for every pattern of lost and failed calls and
   no other writer of the row. The run ends on exactly that session, or the session was reset, or the row is still
   submitting; it is marked ambiguous only after a confirmed reset.
   */
  method SettleAcceptedSession(store: Store, run: nat, session: SessionId, attachAttempts: nat, cleanupAttempts: nat,
                               attachEnds: nat -> CallEnd, bindEnd: CallEnd, resetEnds: nat -> CallEnd, markEnd: CallEnd)
    returns (d: Disposition, reset: bool)
    requires run < |store.rows| && store.rows[run].projection.status.Submitting? && store.rows[run].sessionId.None?
    modifies store
    ensures run < |store.rows|
    ensures d.Started? ==> Attached(store.rows[run], session) && !reset
    ensures Attached(store.rows[run], session) || reset || store.rows[run].projection.status.Submitting?
    ensures store.rows[run].projection.status.SubmissionAmbiguous? ==> reset
    ensures store.rows[run].sessionId.Some? ==> store.rows[run].sessionId == Some(session)
    ensures bindEnd.Answered? ==> d.Started? || store.rows[run].sessionId == Some(session)
    ensures forall i :: 0 <= i < |store.rows| && i != run ==> i < |old(store.rows)| && store.rows[i] == old(store.rows)[i]
  {
    reset := false;
    var attached := AttachSessionWithRetry(store, run, session, attachAttempts, attachEnds);
    if attached { return Started, false; }
    if !bindEnd.NotRun? {
      var bound := store.BindSubmissionSession(run, session);
      if bindEnd.Answered? && bound && store.rows[run].projection.status.Running? { return Started, false; }
    }
    var confirmed;
    confirmed, reset := ResetAcceptedSessionWithRetry(cleanupAttempts, resetEnds);
    if confirmed && !markEnd.NotRun? { store.MarkSubmissionAmbiguous(run); }
    d := AmbiguousDisposition;
  }

  // ---- synchronization ----

  /** The row after the page that was read for the caller's record: stale and empty pages change nothing. */
  ghost predicate PageFolded(r: Row, record: Row, page: seq<Event>, r': Row) {
    var p := Project(record.projection, page);
    if page == [] || p.eventCount < r.projection.eventCount then r' == r else PageStored(r, p, r')
  }

  function ForcedCancelled(r: Row): Row {
    if r.projection.status.Cancelled? then r
    else r.(projection := r.projection.(status := Cancelled, result := None, failure := None), revision := r.revision + 1)
  }

  /**
   One synchronization from a possibly stale record: fold the page it read, then, when a cancellation outlived its
   grace period, reset the session and force the row to cancelled.
   */
  method SynchronizeAgentRun(store: Store, run: nat, record: Row, page: seq<Event>, graceElapsed: bool, resetEnd: CallEnd)
    returns (result: Option<Row>)
    requires run < |store.rows|
    modifies store
    ensures |store.rows| == |old(store.rows)|
    ensures record.sessionId.None? || Terminal(record.projection.status) ==> result == Some(record) && store.rows == old(store.rows)
    ensures store.rows == old(store.rows)[run := store.rows[run]]
    ensures record.sessionId.Some? && !Terminal(record.projection.status) ==>
              exists written: Row ::
                && PageFolded(old(store.rows)[run], record, page, written)
                && var seen := if page == [] then record else written;
                && var forced := !seen.projection.status.Cancelled? && seen.cancellationRequestedAt.Some? && seen.sessionId.Some? && graceElapsed;
                && store.rows[run] == (if forced && resetEnd.Answered? then ForcedCancelled(written) else written)
                && result == (if !forced then Some(seen) else if resetEnd.Answered? then Some(store.rows[run]) else None)
  {
    if record.sessionId.None? || Terminal(record.projection.status) { return Some(record); }
    var projected := record;
    ghost var written := store.rows[run];
    if page != [] {
      var p := ProjectFrom(record.projection, page);
      store.UpdateProjection(run, p);
      projected := store.rows[run];
      written := projected;
    }
    assert PageFolded(old(store.rows)[run], record, page, written);
    if !projected.projection.status.Cancelled? && projected.cancellationRequestedAt.Some? && projected.sessionId.Some? && graceElapsed {
      if !resetEnd.Answered? { return None; }
      store.MarkCancelled(run);
      projected := store.rows[run];
    }
    result := Some(projected);
  }
}
