/** The agent_runs table: one row per AgentRun and the statements of its PostgreSQL store. */
module RunTable {
  import opened Common
  import opened RunProjection

  type SessionId = nat

  datatype RunKey = RunKey(tenantId: string, principalId: string, idempotencyKey: string)

  datatype Row = Row(
    key: RunKey,
    fingerprint: string,
    projection: Projection,
    sessionId: Option<SessionId>,
    cancellationRequestedAt: Option<int>,
    revision: nat)

  /** A run is addressed by its position; rows are never deleted. */
  type Table = seq<Row>

  predicate Terminal(status: RunStatus) {
    status.Completed? || status.Failed? || status.Cancelled? || status.SubmissionAmbiguous?
  }

  /** The statuses that count against capacity. */
  predicate Active(status: RunStatus) {
    status.Submitting? || status.Running? || status.WaitingInput? || status.WaitingAuthorization?
  }

  function SetStatus(r: Row, status: RunStatus): Row {
    r.(projection := r.projection.(status := status), revision := r.revision + 1)
  }

  // ---- attach and bind; a lost response is answered by reading the row back ----

  function AttachSession(r: Row, session: SessionId): Row {
    if r.projection.status.Submitting? then SetStatus(r, Running).(sessionId := Some(session)) else r
  }

  predicate Attached(r: Row, session: SessionId) {
    r.sessionId == Some(session) && r.projection.status.Running?
  }

  function BindSubmissionSession(r: Row, session: SessionId): Row {
    if r.projection.status.Submitting? && (r.sessionId.None? || r.sessionId == Some(session))
    then r.(sessionId := Some(session), revision := r.revision + 1)
    else r
  }

  // ---- cancellation and submission outcomes ----

  function MarkCancellationRequested(r: Row, now: int): Row {
    if r.cancellationRequestedAt.None? && !Terminal(r.projection.status)
    then r.(cancellationRequestedAt := Some(now), revision := r.revision + 1)
    else r
  }

  function MarkCancelled(r: Row): Row {
    if r.projection.status.Cancelled? then r
    else r.(projection := r.projection.(status := Cancelled, result := None, failure := None), revision := r.revision + 1)
  }

  function FailSubmission(r: Row, status: RunStatus, failure: RunFailure): Row {
    if r.projection.status.Submitting?
    then SetStatus(r.(projection := r.projection.(failure := Some(failure))), status)
    else r
  }

  const REJECTED: RunFailure :=
    RunFailure("runtime-rejected", "The Agent runtime rejected the request before accepting a session.")

  const AMBIGUOUS: RunFailure := RunFailure("submission-ambiguous", "")

  // ---- projection writes ----

  function EffectiveStatus(r: Row, p: Projection): RunStatus {
    if Terminal(r.projection.status) then r.projection.status
    else if r.cancellationRequestedAt.Some? && !p.status.Cancelled? then r.projection.status
    else p.status
  }

  /** A pending cancellation or a cancelled run stores neither result nor failure. */
  function EffectiveProjection(r: Row, p: Projection): Projection {
    var status := EffectiveStatus(r, p);
    if r.cancellationRequestedAt.Some? || status.Cancelled?
    then Projection(p.eventCount, None, None, status, p.usage)
    else p.(status := status)
  }

  /** Older pages are ignored, and a page that changes nothing is not written. */
  function UpdateProjection(r: Row, p: Projection): Row {
    if r.projection.eventCount > p.eventCount then r
    else
      var e := EffectiveProjection(r, p);
      if r.projection == e then r else r.(projection := e, revision := r.revision + 1)
  }

  // ---- reserve ----

  datatype Caps = Caps(maxActiveRuns: nat, maxActiveRunsPerTenant: nat)

  datatype Reservation = Reserved(run: nat) | Replay(run: nat) | Conflict(run: nat) | AtCapacity

  function FindKey(t: Table, key: RunKey): (found: Option<nat>)
    ensures found.Some? ==> found.value < |t| && t[found.value].key == key
    ensures found.None? ==> forall i :: 0 <= i < |t| ==> t[i].key != key
  {
    if t == [] then None
    else if t[|t| - 1].key == key then Some(|t| - 1)
    else FindKey(t[..|t| - 1], key)
  }

  /** Active rows, of one tenant or of all of them. */
  function ActiveCount(t: Table, tenant: Option<string>): nat {
    if t == [] then 0
    else
      var last := t[|t| - 1];
      ActiveCount(t[..|t| - 1], tenant)
      + (if Active(last.projection.status) && (tenant.None? || last.key.tenantId == tenant.value) then 1 else 0)
  }

  predicate Full(t: Table, caps: Caps, tenant: string) {
    || (caps.maxActiveRuns > 0 && ActiveCount(t, None) >= caps.maxActiveRuns)
    || (caps.maxActiveRunsPerTenant > 0 && ActiveCount(t, Some(tenant)) >= caps.maxActiveRunsPerTenant)
  }

  function FreshRow(key: RunKey, fingerprint: string): Row {
    Row(key, fingerprint, Projection(0, None, None, Submitting, NO_USAGE), None, None, 1)
  }

  /** The idempotency lookup comes before the capacity check. */
  function Reserve(t: Table, caps: Caps, key: RunKey, fingerprint: string): (Table, Reservation) {
    var existing := FindKey(t, key);
    if existing.Some? then
      (t, if t[existing.value].fingerprint == fingerprint then Replay(existing.value) else Conflict(existing.value))
    else if Full(t, caps, key.tenantId) then (t, AtCapacity)
    else (t + [FreshRow(key, fingerprint)], Reserved(|t|))
  }

  /** A replay or conflict takes no slot, and is answered even when the store is full. */
  lemma ReplayTakesNoSlot(t: Table, caps: Caps, i: nat, fingerprint: string)
    requires i < |t|
    ensures var (t', r) := Reserve(t, caps, t[i].key, fingerprint); t' == t && (r.Replay? || r.Conflict?) && t[r.run].key == t[i].key
  {
  }

  /** The runs that count against capacity, and those of one tenant. */
  function InFlight(t: Table): set<nat> {
    set i | 0 <= i < |t| && var status := t[i].projection.status;
            status.Submitting? || status.Running? || status.WaitingInput? || status.WaitingAuthorization?
  }

  function InFlightOf(t: Table, tenantId: string): set<nat> {
    set i | i in InFlight(t) && t[i].key.tenantId == tenantId
  }

  lemma InFlightNext(init: Table, last: Row)
    ensures InFlight(init + [last]) == if Active(last.projection.status) then InFlight(init) + {|init|} else InFlight(init)
  {
    var t := init + [last];
    forall i | 0 <= i < |init| ensures t[i] == init[i] {
    }
  }

  lemma InFlightOfNext(init: Table, last: Row, tenantId: string)
    ensures InFlightOf(init + [last], tenantId)
         == if Active(last.projection.status) && last.key.tenantId == tenantId then InFlightOf(init, tenantId) + {|init|} else InFlightOf(init, tenantId)
  {
    InFlightNext(init, last);
    var t := init + [last];
    forall i | 0 <= i < |init| ensures t[i] == init[i] {
    }
  }

  /** Active counts are sizes of sets of runs. */
  lemma {:induction false} ActiveCountMeaning(t: Table, tenantId: string)
    ensures ActiveCount(t, None) == |InFlight(t)| && ActiveCount(t, Some(tenantId)) == |InFlightOf(t, tenantId)|
  {
    if t != [] {
      var init, last := t[..|t| - 1], t[|t| - 1];
      assert t == init + [last];
      ActiveCountMeaning(init, tenantId);
      InFlightNext(init, last);
      InFlightOfNext(init, last, tenantId);
    }
  }

  /** Rows that do not become active again cannot raise a count. */
  lemma {:induction false} ActiveShrinks(t: Table, t': Table, tenant: Option<string>)
    requires |t| == |t'|
    requires forall i :: 0 <= i < |t| ==> t'[i].key == t[i].key && (Active(t'[i].projection.status) ==> Active(t[i].projection.status))
    ensures ActiveCount(t', tenant) <= ActiveCount(t, tenant)
  {
    if t != [] { ActiveShrinks(t[..|t| - 1], t'[..|t| - 1], tenant); }
  }
}
