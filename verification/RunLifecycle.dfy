/**
 The life of AgentRuns: submissions that survive lost responses, any number of synchronizers and cancellers that
 hold stale copies of a row, and the runtime that appends events, interleaved one statement or call at a time.
 */
module RunLifecycle {
  import opened Common
  import opened RunProjection
  import opened RunTable

  /** What `runtime.start` tells its caller. */
  datatype StartReply = SessionAccepted(session: SessionId) | ClientRejected | Unknown

  /** Where the request that reserved a run stands; attempts count the calls already made. */
  datatype Starter =
    | Starting
    | Rejecting
    | Abandoning
    | Attaching(session: SessionId, attempts: nat)
    | Binding(session: SessionId)
    | Cleaning(session: SessionId, attempts: nat)
    | Settling(session: SessionId)
    | Finished(handle: Option<SessionId>, started: bool)

  /** A caller's copy of a row, the page it read for it, and whether it has reset the session. */
  datatype Copy = Copy(run: nat, row: Row, page: Option<seq<Event>>, cleared: bool)

  /**
   `streams[i]` is the event stream of run `i`. `accepted` maps a run to the session its start returned, and
   `resets` holds the sessions the runtime was told to reset.
   */
  datatype State = State(
    caps: Caps,
    attachAttempts: nat,
    cleanupAttempts: nat,
    now: int,
    rows: Table,
    streams: seq<seq<Event>>,
    starters: map<nat, Starter>,
    accepted: map<nat, SessionId>,
    resets: set<SessionId>,
    copies: map<nat, Copy>)

  function Initial(caps: Caps, attachAttempts: nat, cleanupAttempts: nat): State {
    State(caps, attachAttempts, cleanupAttempts, 0, [], [], map[], map[], {}, map[])
  }

  datatype Action =
    | Tick(to: int)
    | Submit(key: RunKey, fingerprint: string)
    | RuntimeStart(run: nat, reply: StartReply)
    | SubmissionCall(run: nat, end: CallEnd)
    | RuntimeReset(run: nat, end: CallEnd)
    | SubmitterCrash(run: nat)
    | Emit(run: nat, event: Event)
    | ReadRow(caller: nat, run: nat)
    | ReadPage(caller: nat, limit: nat)
    | WritePage(caller: nat)
    | RequestCancel(caller: nat)
    | ResetForCancel(caller: nat, end: CallEnd)
    | FinishCancel(caller: nat)

  // ---- the submitter ----

  function StepSubmit(s: State, key: RunKey, fingerprint: string): State {
    var (rows, reservation) := Reserve(s.rows, s.caps, key, fingerprint);
    if reservation.Reserved?
    then s.(rows := rows, streams := s.streams + [[]], starters := s.starters[reservation.run := Starting])
    else s
  }

  function StepRuntimeStart(s: State, run: nat, reply: StartReply): State {
    if run in s.starters && s.starters[run].Starting? then
      match reply
      case SessionAccepted(session) =>
        if session in s.accepted.Values then s
        else s.(starters := s.starters[run := Attaching(session, 0)], accepted := s.accepted[run := session])
      case ClientRejected => s.(starters := s.starters[run := Rejecting])
      case Unknown => s.(starters := s.starters[run := Abandoning])
    else s
  }

  /** The row after the submitter's next store call. */
  function SubmissionRow(r: Row, pc: Starter): Row {
    match pc
    case Rejecting => FailSubmission(r, Failed, REJECTED)
    case Abandoning => FailSubmission(r, SubmissionAmbiguous, AMBIGUOUS)
    case Attaching(session, _) => AttachSession(r, session)
    case Binding(session) => BindSubmissionSession(r, session)
    case Settling(_) => FailSubmission(r, SubmissionAmbiguous, AMBIGUOUS)
    case _ => r
  }

  /** Where the submitter goes after the call left row `r`, which an unanswered caller does not see. */
  function AfterSubmissionCall(s: State, r: Row, pc: Starter, answered: bool): Starter {
    match pc
    case Rejecting => Finished(None, false)
    case Abandoning => Finished(None, false)
    case Attaching(session, attempts) =>
      if answered && Attached(r, session) then Finished(Some(session), true)
      else if attempts + 1 < s.attachAttempts then Attaching(session, attempts + 1)
      else Binding(session)
    case Binding(session) =>
      if answered && Attached(r, session) then Finished(Some(session), true) else Cleaning(session, 0)
    case Settling(session) => Finished(Some(session), false)
    case _ => pc
  }

  predicate CallsStore(pc: Starter) {
    pc.Rejecting? || pc.Abandoning? || pc.Attaching? || pc.Binding? || pc.Settling?
  }

  function StepSubmissionCall(s: State, run: nat, end: CallEnd): State {
    if run in s.starters && run < |s.rows| && CallsStore(s.starters[run]) then
      var row := if end.NotRun? then s.rows[run] else SubmissionRow(s.rows[run], s.starters[run]);
      s.(rows := s.rows[run := row],
         starters := s.starters[run := AfterSubmissionCall(s, row, s.starters[run], end.Answered?)])
    else s
  }

  function StepRuntimeReset(s: State, run: nat, end: CallEnd): State {
    if run in s.starters && s.starters[run].Cleaning? then
      var pc := s.starters[run];
      s.(resets := if end.NotRun? then s.resets else s.resets + {pc.session},
         starters := s.starters[run :=
           if end.Answered? then Settling(pc.session)
           else if pc.attempts + 1 < s.cleanupAttempts then Cleaning(pc.session, pc.attempts + 1)
           else Finished(Some(pc.session), false)])
    else s
  }

  // ---- synchronizers and cancellers ----

  predicate Holds(s: State, caller: nat) {
    caller in s.copies && s.copies[caller].run < |s.rows| && s.copies[caller].run < |s.streams|
  }

  /** The events that follow the first `n`, as far as they go. */
  function NextPage(stream: seq<Event>, n: nat, limit: nat): seq<Event> {
    var from := if n <= |stream| then n else |stream|;
    var to := if from + limit <= |stream| then from + limit else |stream|;
    stream[from..to]
  }

  /** A page is read only for a bound, unsettled copy, from the copy's own cursor. */
  function StepReadPage(s: State, caller: nat, limit: nat): State {
    if Holds(s, caller) && s.copies[caller].row.sessionId.Some? && !Terminal(s.copies[caller].row.projection.status)
       && s.copies[caller].page.None?
    then
      var c := s.copies[caller];
      s.(copies := s.copies[caller := c.(page := Some(NextPage(s.streams[c.run], c.row.projection.eventCount, limit)))])
    else s
  }

  /** An empty page leaves the copy as it is; otherwise the caller goes on with the row the store returned. */
  function StepWritePage(s: State, caller: nat): State {
    if Holds(s, caller) && s.copies[caller].page.Some? then
      var c := s.copies[caller];
      if c.page.value == [] then s.(copies := s.copies[caller := c.(page := None)])
      else
        var row := UpdateProjection(s.rows[c.run], Project(c.row.projection, c.page.value));
        s.(rows := s.rows[c.run := row], copies := s.copies[caller := Copy(c.run, row, None, false)])
    else s
  }

  function StepRequestCancel(s: State, caller: nat): State {
    if Holds(s, caller) && s.copies[caller].row.sessionId.Some? && !Terminal(s.copies[caller].row.projection.status)
       && s.copies[caller].row.cancellationRequestedAt.None?
    then
      var c := s.copies[caller];
      var row := MarkCancellationRequested(s.rows[c.run], s.now);
      s.(rows := s.rows[c.run := row], copies := s.copies[caller := Copy(c.run, row, None, false)])
    else s
  }

  /** The grace period of a requested cancellation is over for this copy. */
  predicate MayForce(s: State, caller: nat) {
    && Holds(s, caller) && s.copies[caller].page.None?
    && s.copies[caller].row.cancellationRequestedAt.Some? && s.copies[caller].row.sessionId.Some?
    && !s.copies[caller].row.projection.status.Cancelled?
  }

  function StepResetForCancel(s: State, caller: nat, end: CallEnd): State {
    if MayForce(s, caller) then
      var c := s.copies[caller];
      s.(resets := if end.NotRun? then s.resets else s.resets + {c.row.sessionId.value},
         copies := if end.Answered? then s.copies[caller := c.(cleared := true)] else s.copies - {caller})
    else s
  }

  function StepFinishCancel(s: State, caller: nat): State {
    if MayForce(s, caller) && s.copies[caller].cleared then
      var c := s.copies[caller];
      var row := MarkCancelled(s.rows[c.run]);
      s.(rows := s.rows[c.run := row], copies := s.copies[caller := Copy(c.run, row, None, false)])
    else s
  }

  function Step(s: State, a: Action): State {
    match a
    case Tick(to) => s.(now := to)
    case Submit(key, fingerprint) => StepSubmit(s, key, fingerprint)
    case RuntimeStart(run, reply) => StepRuntimeStart(s, run, reply)
    case SubmissionCall(run, end) => StepSubmissionCall(s, run, end)
    case RuntimeReset(run, end) => StepRuntimeReset(s, run, end)
    case SubmitterCrash(run) => s.(starters := s.starters - {run})
    case Emit(run, event) => if run < |s.streams| then s.(streams := s.streams[run := s.streams[run] + [event]]) else s
    case ReadRow(caller, run) =>
      if run < |s.rows| then s.(copies := s.copies[caller := Copy(run, s.rows[run], None, false)]) else s
    case ReadPage(caller, limit) => StepReadPage(s, caller, limit)
    case WritePage(caller) => StepWritePage(s, caller)
    case RequestCancel(caller) => StepRequestCancel(s, caller)
    case ResetForCancel(caller, end) => StepResetForCancel(s, caller, end)
    case FinishCancel(caller) => StepFinishCancel(s, caller)
  }

  function Exec(init: State, run: seq<Action>): State {
    if run == [] then init else Step(Exec(init, run[..|run| - 1]), run[|run| - 1])
  }

  // ---- the invariant ----

  /** Usage after a prefix of the stream, and the result it produced. */
  function UsageOf(events: seq<Event>): Usage {
    FoldAll(Start(Projection(0, None, None, Running, NO_USAGE)), events).usage
  }

  function ResultOf(events: seq<Event>): Option<RunResult> {
    FoldAll(Start(Projection(0, None, None, Running, NO_USAGE)), events).result
  }

  /** A row accounts for exactly the first `eventCount` events of its stream. */
  predicate Accounts(r: Row, stream: seq<Event>) {
    && r.projection.eventCount <= |stream|
    && r.projection.usage == UsageOf(stream[..r.projection.eventCount])
    && (r.cancellationRequestedAt.None? && !r.projection.status.Cancelled? ==>
          r.projection.result == ResultOf(stream[..r.projection.eventCount]))
  }

  /** What holds of a row alone. */
  predicate RowOk(r: Row) {
    && (r.cancellationRequestedAt.Some? ==> r.sessionId.Some? && !r.projection.status.Completed? && !r.projection.status.Failed?)
    && (r.projection.status.Cancelled? ==> r.sessionId.Some? && r.projection.result.None? && r.projection.failure.None?)
  }

  /** No store call moves a row backwards. */
  predicate Follows(r: Row, r': Row) {
    && r'.key == r.key && r'.fingerprint == r.fingerprint
    && (r.sessionId.Some? ==> r'.sessionId == r.sessionId)
    && (r.cancellationRequestedAt.Some? ==> r'.cancellationRequestedAt == r.cancellationRequestedAt)
    && r.projection.eventCount <= r'.projection.eventCount && r.revision <= r'.revision
    && (r.projection.status.Completed? || r.projection.status.Failed? || r.projection.status.Cancelled?
        ==> r'.projection.status == r.projection.status)
    && (r.projection.status.SubmissionAmbiguous? ==> r'.projection.status.SubmissionAmbiguous? || r'.projection.status.Cancelled?)
    && (!r.projection.status.Submitting? ==> !r'.projection.status.Submitting?)
  }

  predicate CopyOk(rows: Table, streams: seq<seq<Event>>, c: Copy) {
    && c.run < |rows| && c.run < |streams|
    && Follows(c.row, rows[c.run]) && RowOk(c.row) && Accounts(c.row, streams[c.run])
    && (c.page.Some? ==>
          && c.row.sessionId.Some? && !c.row.projection.status.Cancelled? && !c.row.projection.status.SubmissionAmbiguous?
          && c.row.projection.eventCount + |c.page.value| <= |streams[c.run]|
          && c.page.value == streams[c.run][c.row.projection.eventCount..c.row.projection.eventCount + |c.page.value|])
  }

  /** An accepted session is the one its run goes on with, was reset, or its row still counts as submitting. */
  predicate NotOrphaned(r: Row, session: SessionId, resets: set<SessionId>) {
    || r.projection.status.Submitting?
    || (r.sessionId == Some(session) && !r.projection.status.SubmissionAmbiguous?)
    || session in resets
  }

  /** The session the runtime returned for a run. */
  function AcceptedFor(accepted: map<nat, SessionId>, run: nat): Option<SessionId> {
    if run in accepted then Some(accepted[run]) else None
  }

  /** A row beside its stream and the session the runtime returned for it. */
  predicate RowAt(r: Row, stream: seq<Event>, accepted: Option<SessionId>, resets: set<SessionId>) {
    && RowOk(r) && Accounts(r, stream) && (r.sessionId.Some? ==> r.sessionId == accepted)
    && (accepted.Some? ==> NotOrphaned(r, accepted.value, resets))
  }

  /** A submitter beside its row and the session the runtime returned for it. */
  predicate StarterOk(r: Row, accepted: Option<SessionId>, resets: set<SessionId>, pc: Starter) {
    match pc
    case Starting => r.projection.status.Submitting? && r.sessionId.None? && accepted.None?
    case Rejecting => r.projection.status.Submitting? && r.sessionId.None? && accepted.None?
    case Abandoning => r.projection.status.Submitting? && r.sessionId.None? && accepted.None?
    case Attaching(session, _) => accepted == Some(session)
    case Binding(session) => accepted == Some(session)
    case Cleaning(session, _) => accepted == Some(session)
    case Settling(session) => accepted == Some(session) && session in resets
    case Finished(None, started) => !started
    case Finished(Some(session), started) =>
      accepted == Some(session) && (started ==> r.sessionId == Some(session) && !r.projection.status.Submitting?)
  }

  ghost predicate TableOk(rows: Table, streams: seq<seq<Event>>, accepted: map<nat, SessionId>, resets: set<SessionId>) {
    && |streams| == |rows| && (forall i <- accepted :: i < |rows|)
    && forall i :: 0 <= i < |rows| ==> RowAt(rows[i], streams[i], AcceptedFor(accepted, i), resets)
  }

  ghost predicate StartersOk(rows: Table, accepted: map<nat, SessionId>, resets: set<SessionId>, starters: map<nat, Starter>) {
    forall i: nat <- starters :: i < |rows| && StarterOk(rows[i], AcceptedFor(accepted, i), resets, starters[i])
  }

  ghost predicate CopiesOk(rows: Table, streams: seq<seq<Event>>, copies: map<nat, Copy>) {
    forall caller: nat <- copies :: CopyOk(rows, streams, copies[caller])
  }

  ghost predicate Inv(s: State) {
    && TableOk(s.rows, s.streams, s.accepted, s.resets)
    && StartersOk(s.rows, s.accepted, s.resets, s.starters)
    && CopiesOk(s.rows, s.streams, s.copies)
  }

  // ---- single rows ----

  lemma SubmissionRowMoves(r: Row, pc: Starter, stream: seq<Event>, accepted: Option<SessionId>, resets: set<SessionId>)
    requires RowAt(r, stream, accepted, resets) && StarterOk(r, accepted, resets, pc) && CallsStore(pc)
    ensures var r' := SubmissionRow(r, pc); Follows(r, r') && RowAt(r', stream, accepted, resets)
  {
  }

  /** Where the caller goes on after the call left row `r'`. */
  lemma SubmissionGoesOn(s: State, r: Row, r': Row, pc: Starter, accepted: Option<SessionId>, answered: bool)
    requires StarterOk(r, accepted, s.resets, pc) && CallsStore(pc) && (r' == r || r' == SubmissionRow(r, pc))
    ensures StarterOk(r', accepted, s.resets, AfterSubmissionCall(s, r', pc, answered))
  {
  }

  /** The events of a page after a counted prefix. */
  lemma PagePrefix(stream: seq<Event>, n: nat, page: seq<Event>)
    requires n + |page| <= |stream| && page == stream[n..n + |page|]
    ensures stream[..n + |page|] == stream[..n] + page
  {
  }

  lemma ProjectAccounts(c: Row, stream: seq<Event>, page: seq<Event>)
    requires Accounts(c, stream) && c.projection.eventCount + |page| <= |stream|
    requires page == stream[c.projection.eventCount..c.projection.eventCount + |page|]
    ensures var p := Project(c.projection, page);
            && p.eventCount == c.projection.eventCount + |page|
            && p.usage == UsageOf(stream[..p.eventCount])
            && (c.cancellationRequestedAt.None? && !c.projection.status.Cancelled? ==> p.result == ResultOf(stream[..p.eventCount]))
            && !p.status.Submitting?
  {
    var n := c.projection.eventCount;
    var zero := Projection(0, None, None, Running, NO_USAGE);
    var prefix := FoldAll(Start(zero), stream[..n]);
    PagePrefix(stream, n, page);
    FoldSplit(Start(zero), stream[..n], page);
    NeverSubmitting(c.projection, page);
    var f := Start(c.projection);
    UsageStays(f, prefix, page);
    if c.cancellationRequestedAt.None? && !c.projection.status.Cancelled? { ResultStays(f, prefix, page); }
  }

  lemma {:induction false} UsageStays(f: Fold, g: Fold, events: seq<Event>)
    requires f.usage == g.usage
    ensures FoldAll(f, events).usage == FoldAll(g, events).usage
  {
    if events != [] {
      var init, last := events[..|events| - 1], events[|events| - 1];
      UsageStays(f, g, init);
      UsageStep(FoldAll(f, init), last);
      UsageStep(FoldAll(g, init), last);
    }
  }

  lemma {:induction false} ResultStays(f: Fold, g: Fold, events: seq<Event>)
    requires f.result == g.result
    ensures FoldAll(f, events).result == FoldAll(g, events).result
  {
    if events != [] {
      var init, last := events[..|events| - 1], events[|events| - 1];
      ResultStays(f, g, init);
      ResultStep(FoldAll(f, init), last);
      ResultStep(FoldAll(g, init), last);
    }
  }

  lemma UpdateProjectionMoves(r: Row, c: Row, stream: seq<Event>, page: seq<Event>)
    requires RowOk(r) && Accounts(r, stream) && Accounts(c, stream) && Follows(c, r)
    requires r.sessionId.Some? && !c.projection.status.Cancelled?
    requires c.projection.eventCount + |page| <= |stream|
    requires page == stream[c.projection.eventCount..c.projection.eventCount + |page|]
    ensures var r' := UpdateProjection(r, Project(c.projection, page)); Follows(r, r') && RowOk(r') && Accounts(r', stream)
  {
    ProjectAccounts(c, stream, page);
  }

  lemma CancellationMoves(r: Row, stream: seq<Event>, now: int)
    requires RowOk(r) && Accounts(r, stream) && r.sessionId.Some?
    ensures var r' := MarkCancellationRequested(r, now); Follows(r, r') && RowOk(r') && Accounts(r', stream)
    ensures r.cancellationRequestedAt.Some? ==>
              var r' := MarkCancelled(r); Follows(r, r') && RowOk(r') && Accounts(r', stream)
  {
  }

  lemma FollowsOn(a: Row, b: Row, c: Row)
    requires Follows(a, b) && Follows(b, c)
    ensures Follows(a, c)
  {
  }

  /** A row that may take the place of row `i`. */
  ghost predicate Moves(s: State, i: nat, r: Row) {
    i < |s.rows| && i < |s.streams| && Follows(s.rows[i], r) && RowAt(r, s.streams[i], AcceptedFor(s.accepted, i), s.resets)
  }

  // ---- preservation ----

  lemma PutTable(s: State, i: nat, r: Row)
    requires TableOk(s.rows, s.streams, s.accepted, s.resets) && Moves(s, i, r)
    ensures TableOk(s.rows[i := r], s.streams, s.accepted, s.resets)
  {
  }

  lemma PutCopies(rows: Table, streams: seq<seq<Event>>, copies: map<nat, Copy>, i: nat, r: Row)
    requires CopiesOk(rows, streams, copies) && i < |rows| && Follows(rows[i], r)
    ensures CopiesOk(rows[i := r], streams, copies)
  {
    forall caller: nat <- copies ensures CopyOk(rows[i := r], streams, copies[caller]) {
      assert CopyOk(rows, streams, copies[caller]);
      if copies[caller].run == i { FollowsOn(copies[caller].row, rows[i], r); }
    }
  }

  /** A submitter whose row has a session sees it move without harm. */
  lemma PutStarters(s: State, i: nat, r: Row)
    requires StartersOk(s.rows, s.accepted, s.resets, s.starters) && Moves(s, i, r) && s.rows[i].sessionId.Some?
    ensures StartersOk(s.rows[i := r], s.accepted, s.resets, s.starters)
  {
  }

  lemma PutStarter(rows: Table, accepted: map<nat, SessionId>, resets: set<SessionId>, starters: map<nat, Starter>, i: nat, r: Row, pc: Starter)
    requires StartersOk(rows, accepted, resets, starters) && i < |rows| && StarterOk(r, AcceptedFor(accepted, i), resets, pc)
    ensures StartersOk(rows[i := r], accepted, resets, starters[i := pc])
  {
  }

  lemma PutCopy(rows: Table, streams: seq<seq<Event>>, copies: map<nat, Copy>, caller: nat, c: Copy)
    requires CopiesOk(rows, streams, copies) && CopyOk(rows, streams, c)
    ensures CopiesOk(rows, streams, copies[caller := c])
  {
  }

  /** The store's answer to a caller: the row is replaced, and the caller goes on with the new one. */
  lemma ReturnRowKeeps(s: State, caller: nat, i: nat, r: Row)
    requires Inv(s) && Moves(s, i, r) && s.rows[i].sessionId.Some?
    ensures Inv(s.(rows := s.rows[i := r], copies := s.copies[caller := Copy(i, r, None, false)]))
  {
    PutTable(s, i, r);
    PutStarters(s, i, r);
    PutCopies(s.rows, s.streams, s.copies, i, r);
    PutCopy(s.rows[i := r], s.streams, s.copies, caller, Copy(i, r, None, false));
  }

  lemma SubmitKeeps(s: State, key: RunKey, fingerprint: string)
    requires Inv(s)
    ensures Inv(StepSubmit(s, key, fingerprint))
  {
    AppendedTable(s.rows, s.streams, s.accepted, s.resets, FreshRow(key, fingerprint));
    AppendedStarters(s.rows, s.accepted, s.resets, s.starters, FreshRow(key, fingerprint));
    AppendedCopies(s.rows, s.streams, s.copies, FreshRow(key, fingerprint));
  }

  lemma AppendedTable(rows: Table, streams: seq<seq<Event>>, accepted: map<nat, SessionId>, resets: set<SessionId>, row: Row)
    requires TableOk(rows, streams, accepted, resets) && row == FreshRow(row.key, row.fingerprint)
    ensures TableOk(rows + [row], streams + [[]], accepted, resets) && |rows| !in accepted
  {
  }

  lemma AppendedStarters(rows: Table, accepted: map<nat, SessionId>, resets: set<SessionId>, starters: map<nat, Starter>, row: Row)
    requires StartersOk(rows, accepted, resets, starters) && |rows| !in accepted && row == FreshRow(row.key, row.fingerprint)
    ensures StartersOk(rows + [row], accepted, resets, starters[|rows| := Starting])
  {
  }

  lemma AppendedCopies(rows: Table, streams: seq<seq<Event>>, copies: map<nat, Copy>, row: Row)
    requires CopiesOk(rows, streams, copies) && |streams| == |rows|
    ensures CopiesOk(rows + [row], streams + [[]], copies)
  {
  }

  /** A starting run has no session yet, so noting one changes nothing for the others. */
  lemma StartAccepted(s: State, run: nat, session: SessionId)
    requires Inv(s) && run in s.starters && s.starters[run].Starting?
    ensures Inv(s.(starters := s.starters[run := Attaching(session, 0)], accepted := s.accepted[run := session]))
  {
    AcceptedTable(s.rows, s.streams, s.accepted, s.resets, run, session);
    AcceptedStarters(s.rows, s.accepted, s.resets, s.starters, run, session);
  }

  lemma AcceptedTable(rows: Table, streams: seq<seq<Event>>, accepted: map<nat, SessionId>, resets: set<SessionId>, run: nat, session: SessionId)
    requires TableOk(rows, streams, accepted, resets) && run < |rows| && rows[run].projection.status.Submitting? && rows[run].sessionId.None?
    ensures TableOk(rows, streams, accepted[run := session], resets)
  {
  }

  lemma AcceptedStarters(rows: Table, accepted: map<nat, SessionId>, resets: set<SessionId>, starters: map<nat, Starter>, run: nat, session: SessionId)
    requires StartersOk(rows, accepted, resets, starters) && run < |rows|
    ensures StartersOk(rows, accepted[run := session], resets, starters[run := Attaching(session, 0)])
  {
  }

  lemma RuntimeStartKeeps(s: State, run: nat, reply: StartReply)
    requires Inv(s)
    ensures Inv(StepRuntimeStart(s, run, reply))
  {
    if run in s.starters && s.starters[run].Starting? {
      match reply
      case ClientRejected => PutStarter(s.rows, s.accepted, s.resets, s.starters, run, s.rows[run], Rejecting);
      case Unknown => PutStarter(s.rows, s.accepted, s.resets, s.starters, run, s.rows[run], Abandoning);
      case SessionAccepted(session) => StartAccepted(s, run, session);
    }
  }

  /** The row a submission call leaves, whether or not it took effect. */
  lemma SubmissionMoves(s: State, run: nat, row: Row)
    requires Inv(s) && run in s.starters && CallsStore(s.starters[run]) && run < |s.rows|
    requires row == s.rows[run] || row == SubmissionRow(s.rows[run], s.starters[run])
    ensures Moves(s, run, row)
  {
    SubmissionRowMoves(s.rows[run], s.starters[run], s.streams[run], AcceptedFor(s.accepted, run), s.resets);
  }

  /** Writing the row and moving the submitter in one step. */
  lemma SubmissionCallKeeps(s: State, run: nat, end: CallEnd)
    requires Inv(s)
    ensures Inv(StepSubmissionCall(s, run, end))
  {
    if run in s.starters && run < |s.rows| && CallsStore(s.starters[run]) {
      var pc := s.starters[run];
      var row := if end.NotRun? then s.rows[run] else SubmissionRow(s.rows[run], pc);
      SubmissionMoves(s, run, row);
      SubmissionGoesOn(s, s.rows[run], row, pc, AcceptedFor(s.accepted, run), end.Answered?);
      PutTable(s, run, row);
      PutStarter(s.rows, s.accepted, s.resets, s.starters, run, row, AfterSubmissionCall(s, row, pc, end.Answered?));
      PutCopies(s.rows, s.streams, s.copies, run, row);
    }
  }

  lemma ResetsGrow(s: State, session: SessionId)
    requires Inv(s)
    ensures TableOk(s.rows, s.streams, s.accepted, s.resets + {session}) && StartersOk(s.rows, s.accepted, s.resets + {session}, s.starters)
  {
  }

  lemma RuntimeResetKeeps(s: State, run: nat, end: CallEnd)
    requires Inv(s)
    ensures Inv(StepRuntimeReset(s, run, end))
  {
    if run in s.starters && s.starters[run].Cleaning? {
      var s' := StepRuntimeReset(s, run, end);
      ResetsGrow(s, s.starters[run].session);
      PutStarter(s.rows, s.accepted, s'.resets, s.starters, run, s.rows[run], s'.starters[run]);
    }
  }

  lemma AccountsGrow(r: Row, stream: seq<Event>, event: Event)
    requires Accounts(r, stream)
    ensures Accounts(r, stream + [event])
  {
    assert (stream + [event])[..r.projection.eventCount] == stream[..r.projection.eventCount];
  }

  lemma EmitKeeps(s: State, run: nat, event: Event)
    requires Inv(s) && run < |s.streams|
    ensures Inv(s.(streams := s.streams[run := s.streams[run] + [event]]))
  {
    var streams := s.streams[run := s.streams[run] + [event]];
    AccountsGrow(s.rows[run], s.streams[run], event);
    assert TableOk(s.rows, streams, s.accepted, s.resets);
    forall caller: nat <- s.copies ensures CopyOk(s.rows, streams, s.copies[caller]) {
      EmitKeepsCopy(s.rows, s.streams, run, event, s.copies[caller]);
    }
  }

  lemma EmitKeepsCopy(rows: Table, streams: seq<seq<Event>>, run: nat, event: Event, c: Copy)
    requires CopyOk(rows, streams, c) && run < |streams|
    ensures CopyOk(rows, streams[run := streams[run] + [event]], c)
  {
    if c.run == run {
      AccountsGrow(c.row, streams[run], event);
      if c.page.Some? {
        var n := c.row.projection.eventCount;
        assert (streams[run] + [event])[n..n + |c.page.value|] == streams[run][n..n + |c.page.value|];
      }
    }
  }

  lemma PageMoves(s: State, c: Copy)
    requires Inv(s) && CopyOk(s.rows, s.streams, c) && c.page.Some?
    ensures Moves(s, c.run, UpdateProjection(s.rows[c.run], Project(c.row.projection, c.page.value)))
  {
    UpdateProjectionMoves(s.rows[c.run], c.row, s.streams[c.run], c.page.value);
    NeverAmbiguous(c.row.projection, c.page.value);
    assert RowAt(s.rows[c.run], s.streams[c.run], AcceptedFor(s.accepted, c.run), s.resets);
  }

  lemma WritePageKeeps(s: State, caller: nat)
    requires Inv(s)
    ensures Inv(StepWritePage(s, caller))
  {
    if Holds(s, caller) && s.copies[caller].page.Some? {
      var c := s.copies[caller];
      if c.page.value == [] {
        PutCopy(s.rows, s.streams, s.copies, caller, c.(page := None));
      } else {
        PageMoves(s, c);
        ReturnRowKeeps(s, caller, c.run, UpdateProjection(s.rows[c.run], Project(c.row.projection, c.page.value)));
      }
    }
  }

  lemma CancelMoves(s: State, c: Copy)
    requires Inv(s) && CopyOk(s.rows, s.streams, c) && c.row.sessionId.Some?
    ensures Moves(s, c.run, MarkCancellationRequested(s.rows[c.run], s.now))
    ensures c.row.cancellationRequestedAt.Some? ==> Moves(s, c.run, MarkCancelled(s.rows[c.run]))
  {
    CancellationMoves(s.rows[c.run], s.streams[c.run], s.now);
    assert RowAt(s.rows[c.run], s.streams[c.run], AcceptedFor(s.accepted, c.run), s.resets);
  }

  lemma RequestCancelKeeps(s: State, caller: nat)
    requires Inv(s)
    ensures Inv(StepRequestCancel(s, caller))
  {
    if Holds(s, caller) && s.copies[caller].row.sessionId.Some? {
      var c := s.copies[caller];
      CancelMoves(s, c);
      ReturnRowKeeps(s, caller, c.run, MarkCancellationRequested(s.rows[c.run], s.now));
    }
  }

  lemma FinishCancelKeeps(s: State, caller: nat)
    requires Inv(s)
    ensures Inv(StepFinishCancel(s, caller))
  {
    if MayForce(s, caller) {
      var c := s.copies[caller];
      CancelMoves(s, c);
      ReturnRowKeeps(s, caller, c.run, MarkCancelled(s.rows[c.run]));
    }
  }

  lemma ResetForCancelKeeps(s: State, caller: nat, end: CallEnd)
    requires Inv(s)
    ensures Inv(StepResetForCancel(s, caller, end))
  {
    if MayForce(s, caller) {
      var c := s.copies[caller];
      ResetsGrow(s, c.row.sessionId.value);
      PutCopy(s.rows, s.streams, s.copies, caller, c.(cleared := true));
    }
  }

  lemma PageRead(rows: Table, streams: seq<seq<Event>>, c: Copy, limit: nat)
    requires CopyOk(rows, streams, c) && c.row.sessionId.Some? && !Terminal(c.row.projection.status)
    ensures CopyOk(rows, streams, c.(page := Some(NextPage(streams[c.run], c.row.projection.eventCount, limit))))
  {
  }

  lemma ReadPageKeeps(s: State, caller: nat, limit: nat)
    requires Inv(s)
    ensures Inv(StepReadPage(s, caller, limit))
  {
    if Holds(s, caller) && s.copies[caller].row.sessionId.Some? && !Terminal(s.copies[caller].row.projection.status) {
      var c := s.copies[caller];
      PageRead(s.rows, s.streams, c, limit);
      PutCopy(s.rows, s.streams, s.copies, caller, c.(page := Some(NextPage(s.streams[c.run], c.row.projection.eventCount, limit))));
    }
  }

  lemma StepKeeps(s: State, a: Action)
    requires Inv(s)
    ensures Inv(Step(s, a))
  {
    match a
    case Tick(to) =>
    case Submit(key, fingerprint) => SubmitKeeps(s, key, fingerprint);
    case RuntimeStart(run, reply) => RuntimeStartKeeps(s, run, reply);
    case SubmissionCall(run, end) => SubmissionCallKeeps(s, run, end);
    case RuntimeReset(run, end) => RuntimeResetKeeps(s, run, end);
    case SubmitterCrash(run) =>
    case Emit(run, event) => if run < |s.streams| { EmitKeeps(s, run, event); }
    case ReadRow(caller, run) => if run < |s.rows| { PutCopy(s.rows, s.streams, s.copies, caller, Copy(run, s.rows[run], None, false)); }
    case ReadPage(caller, limit) => ReadPageKeeps(s, caller, limit);
    case WritePage(caller) => WritePageKeeps(s, caller);
    case RequestCancel(caller) => RequestCancelKeeps(s, caller);
    case ResetForCancel(caller, end) => ResetForCancelKeeps(s, caller, end);
    case FinishCancel(caller) => FinishCancelKeeps(s, caller);
  }

  // ---- runs ----

  lemma {:induction false} Reachable(init: State, run: seq<Action>)
    requires Inv(init)
    ensures Inv(Exec(init, run))
  {
    if run != [] {
      Reachable(init, run[..|run| - 1]);
      StepKeeps(Exec(init, run[..|run| - 1]), run[|run| - 1]);
    }
  }

  ghost predicate AllFollow(t: Table, t': Table) {
    |t| <= |t'| && forall i :: 0 <= i < |t| ==> Follows(t[i], t'[i])
  }

  lemma PutFollows(t: Table, i: nat, r: Row)
    requires i < |t| && Follows(t[i], r)
    ensures AllFollow(t, t[i := r])
  {
  }

  lemma SubmissionFollows(s: State, run: nat, end: CallEnd)
    requires Inv(s)
    ensures AllFollow(s.rows, StepSubmissionCall(s, run, end).rows)
  {
    if run in s.starters && run < |s.rows| && CallsStore(s.starters[run]) {
      var row := if end.NotRun? then s.rows[run] else SubmissionRow(s.rows[run], s.starters[run]);
      SubmissionMoves(s, run, row);
      PutFollows(s.rows, run, row);
    }
  }

  lemma WriteFollows(s: State, caller: nat)
    requires Inv(s)
    ensures AllFollow(s.rows, StepWritePage(s, caller).rows)
  {
    if Holds(s, caller) && s.copies[caller].page.Some? {
      var c := s.copies[caller];
      PageMoves(s, c);
      PutFollows(s.rows, c.run, UpdateProjection(s.rows[c.run], Project(c.row.projection, c.page.value)));
    }
  }

  lemma RequestFollows(s: State, caller: nat)
    requires Inv(s)
    ensures AllFollow(s.rows, StepRequestCancel(s, caller).rows)
  {
    if Holds(s, caller) && s.copies[caller].row.sessionId.Some? {
      var c := s.copies[caller];
      CancelMoves(s, c);
      PutFollows(s.rows, c.run, MarkCancellationRequested(s.rows[c.run], s.now));
    }
  }

  lemma FinishFollows(s: State, caller: nat)
    requires Inv(s)
    ensures AllFollow(s.rows, StepFinishCancel(s, caller).rows)
  {
    if MayForce(s, caller) {
      var c := s.copies[caller];
      CancelMoves(s, c);
      PutFollows(s.rows, c.run, MarkCancelled(s.rows[c.run]));
    }
  }

  lemma SubmitFollows(s: State, key: RunKey, fingerprint: string)
    ensures AllFollow(s.rows, Step(s, Submit(key, fingerprint)).rows)
  {
    var rows := Step(s, Submit(key, fingerprint)).rows;
    assert rows == s.rows || rows == s.rows + [FreshRow(key, fingerprint)];
  }

  lemma OtherRowsStay(s: State, a: Action)
    requires !a.SubmissionCall? && !a.WritePage? && !a.RequestCancel? && !a.FinishCancel? && !a.Submit?
    ensures Step(s, a).rows == s.rows
  {
  }

  /** No step deletes a row or moves one backwards. */
  lemma RowsFollow(s: State, a: Action)
    requires Inv(s)
    ensures AllFollow(s.rows, Step(s, a).rows)
  {
    match a
    case SubmissionCall(run, end) => SubmissionFollows(s, run, end);
    case WritePage(caller) => WriteFollows(s, caller);
    case RequestCancel(caller) => RequestFollows(s, caller);
    case FinishCancel(caller) => FinishFollows(s, caller);
    case Submit(key, fingerprint) => SubmitFollows(s, key, fingerprint);
    case _ => OtherRowsStay(s, a);
  }

  lemma AllFollowOn(a: Table, b: Table, c: Table)
    requires AllFollow(a, b) && AllFollow(b, c)
    ensures AllFollow(a, c)
  {
    forall i | 0 <= i < |a| ensures Follows(a[i], c[i]) { FollowsOn(a[i], b[i], c[i]); }
  }

  lemma ExecNext(init: State, run: seq<Action>, more: seq<Action>)
    requires more != []
    ensures Exec(init, run + more) == Step(Exec(init, run + more[..|more| - 1]), more[|more| - 1])
  {
    assert (run + more)[..|run + more| - 1] == run + more[..|more| - 1];
  }

  lemma {:induction false} RowsFollowRuns(init: State, run: seq<Action>, more: seq<Action>)
    requires Inv(init)
    ensures AllFollow(Exec(init, run).rows, Exec(init, run + more).rows)
  {
    if more == [] {
      assert run + more == run;
    } else {
      var last := |more| - 1;
      var before := Exec(init, run + more[..last]);
      RowsFollowRuns(init, run, more[..last]);
      Reachable(init, run + more[..last]);
      ExecNext(init, run, more);
      RowsFollow(before, more[last]);
      AllFollowOn(Exec(init, run).rows, before.rows, Step(before, more[last]).rows);
    }
  }

  /**
   Cancellation is final, for every interleaving of stale callers. Once a request is stored the run is never
   completed or failed; completed, failed and cancelled runs keep their status; a cancelled run carries no result
   and no failure.
   */
  lemma CancellationFinal(caps: Caps, attachAttempts: nat, cleanupAttempts: nat, run: seq<Action>, more: seq<Action>, i: nat)
    requires i < |Exec(Initial(caps, attachAttempts, cleanupAttempts), run).rows|
    ensures var init := Initial(caps, attachAttempts, cleanupAttempts);
            && i < |Exec(init, run + more).rows|
            && var before, after := Exec(init, run).rows[i], Exec(init, run + more).rows[i];
            && (before.cancellationRequestedAt.Some? ==>
                  && after.cancellationRequestedAt == before.cancellationRequestedAt
                  && !after.projection.status.Completed? && !after.projection.status.Failed?)
            && (before.projection.status.Completed? || before.projection.status.Failed? || before.projection.status.Cancelled? ==>
                  after.projection.status == before.projection.status)
            && (Terminal(before.projection.status) ==> Terminal(after.projection.status))
            && (after.projection.status.Cancelled? ==> after.projection.result.None? && after.projection.failure.None?)
  {
    var init := Initial(caps, attachAttempts, cleanupAttempts);
    RowsFollowRuns(init, run, more);
    Reachable(init, run);
    Reachable(init, run + more);
  }

  /**
   No accepted session is orphaned. In every reachable state, crashes included, a session that `runtime.start`
   returned was reset, or its row is still submitting and counted, or its row is bound to it and not given up as
   ambiguous; a submitter that reported `started` left its row on exactly that session.
   */
  lemma NoOrphanedSession(caps: Caps, attachAttempts: nat, cleanupAttempts: nat, run: seq<Action>, i: nat)
    ensures var s := Exec(Initial(caps, attachAttempts, cleanupAttempts), run);
            && (i in s.accepted ==>
                  && i < |s.rows|
                  && (|| s.accepted[i] in s.resets
                      || (s.rows[i].projection.status.Submitting? && Active(s.rows[i].projection.status))
                      || (s.rows[i].sessionId == Some(s.accepted[i]) && !s.rows[i].projection.status.SubmissionAmbiguous?))
                  && (s.rows[i].sessionId.Some? ==> s.rows[i].sessionId == Some(s.accepted[i])))
            && (i in s.starters && s.starters[i].Finished? && s.starters[i].started ==>
                  && i in s.accepted && i < |s.rows| && s.starters[i].handle == Some(s.accepted[i])
                  && s.rows[i].sessionId == s.starters[i].handle && !s.rows[i].projection.status.Submitting?)
  {
    var s := Exec(Initial(caps, attachAttempts, cleanupAttempts), run);
    Reachable(Initial(caps, attachAttempts, cleanupAttempts), run);
    if i in s.starters { assert StarterOk(s.rows[i], AcceptedFor(s.accepted, i), s.resets, s.starters[i]); }
  }

  /**
   Every stored row accounts for exactly a prefix of its event stream, however many synchronizers fold overlapping
   pages from stale copies: its usage is that of the first `eventCount` events, and so is its result unless a
   cancellation was requested or took effect.
   */
  lemma EventsCountedOnce(caps: Caps, attachAttempts: nat, cleanupAttempts: nat, run: seq<Action>, i: nat)
    ensures var s := Exec(Initial(caps, attachAttempts, cleanupAttempts), run);
            i < |s.rows| ==>
              && i < |s.streams| && s.rows[i].projection.eventCount <= |s.streams[i]|
              && var seen := s.streams[i][..s.rows[i].projection.eventCount];
              && s.rows[i].projection.usage == UsageOf(seen)
              && (s.rows[i].cancellationRequestedAt.None? && !s.rows[i].projection.status.Cancelled? ==>
                    s.rows[i].projection.result == ResultOf(seen))
  {
    Reachable(Initial(caps, attachAttempts, cleanupAttempts), run);
  }

  // ---- capacity and idempotency ----

  ghost predicate WithinCaps(t: Table, caps: Caps) {
    && (caps.maxActiveRuns > 0 ==> ActiveCount(t, None) <= caps.maxActiveRuns)
    && (caps.maxActiveRunsPerTenant > 0 ==>
          forall tenant: string :: ActiveCount(t, Some(tenant)) <= caps.maxActiveRunsPerTenant)
  }

  ghost predicate KeysDistinct(t: Table) {
    forall i, j :: 0 <= i < j < |t| ==> t[i].key != t[j].key
  }

  lemma ReserveKeeps(t: Table, caps: Caps, key: RunKey, fingerprint: string)
    requires WithinCaps(t, caps) && KeysDistinct(t)
    ensures WithinCaps(Reserve(t, caps, key, fingerprint).0, caps) && KeysDistinct(Reserve(t, caps, key, fingerprint).0)
  {
    var t' := Reserve(t, caps, key, fingerprint).0;
    if t' != t { assert t'[..|t'| - 1] == t; }
  }

  lemma NoNewActives(t: Table, t': Table, caps: Caps)
    requires WithinCaps(t, caps) && KeysDistinct(t) && |t'| == |t|
    requires forall i :: 0 <= i < |t| ==> Follows(t[i], t'[i])
    ensures WithinCaps(t', caps) && KeysDistinct(t')
  {
    ActiveShrinks(t, t', None);
    forall tenant: string ensures ActiveCount(t', Some(tenant)) <= ActiveCount(t, Some(tenant)) {
      ActiveShrinks(t, t', Some(tenant));
    }
  }

  lemma CapsFixed(s: State, a: Action)
    ensures Step(s, a).caps == s.caps
    ensures !a.Submit? ==> |Step(s, a).rows| == |s.rows|
  {
  }

  /** As `CapacityAndIdempotency`, counting the runs in flight themselves. */
  lemma RunsWithinCaps(caps: Caps, attachAttempts: nat, cleanupAttempts: nat, run: seq<Action>)
    ensures var rows := Exec(Initial(caps, attachAttempts, cleanupAttempts), run).rows;
            && (caps.maxActiveRuns > 0 ==> |InFlight(rows)| <= caps.maxActiveRuns)
            && (caps.maxActiveRunsPerTenant > 0 ==> forall tenantId: string :: |InFlightOf(rows, tenantId)| <= caps.maxActiveRunsPerTenant)
            && forall i, j :: 0 <= i < j < |rows| ==> rows[i].key != rows[j].key
  {
    CapacityAndIdempotency(caps, attachAttempts, cleanupAttempts, run);
    var rows := Exec(Initial(caps, attachAttempts, cleanupAttempts), run).rows;
    ActiveCountMeaning(rows, "");
    forall tenantId: string ensures ActiveCount(rows, Some(tenantId)) == |InFlightOf(rows, tenantId)| { ActiveCountMeaning(rows, tenantId); }
  }

  /** In every run the active runs stay within every positive cap and an idempotency key has at most one row. */
  lemma {:induction false} CapacityAndIdempotency(caps: Caps, attachAttempts: nat, cleanupAttempts: nat, run: seq<Action>)
    ensures var s := Exec(Initial(caps, attachAttempts, cleanupAttempts), run);
            s.caps == caps && WithinCaps(s.rows, caps) && KeysDistinct(s.rows)
  {
    if run != [] {
      var init := Initial(caps, attachAttempts, cleanupAttempts);
      var s, a := Exec(init, run[..|run| - 1]), run[|run| - 1];
      CapacityAndIdempotency(caps, attachAttempts, cleanupAttempts, run[..|run| - 1]);
      Reachable(init, run[..|run| - 1]);
      CapsFixed(s, a);
      if a.Submit? {
        ReserveKeeps(s.rows, caps, a.key, a.fingerprint);
      } else {
        RowsFollow(s, a);
        NoNewActives(s.rows, Step(s, a).rows, caps);
      }
    }
  }
}
