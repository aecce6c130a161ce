/**
 The mailbox table and the SQL statements of the PostgreSQL mailbox store.

 Every statement is atomic. A row update is a function from the row to `Some` new row,
 or to `None` when the statement's WHERE clause does not select the row. MailboxStore runs the
 statements in place; MailboxProtocol interleaves them.
 */
module MailboxTable {
  import opened Common

  const EDIT_ADMISSION_TIMEOUT_MS: int := 120_000
  const MAX_PENDING: nat := 5

  datatype Status = Queued | Delivering | Accepted | Ambiguous | Failed | Committed | Cancelled

  datatype Kind = Send | Steer | Edit | Respond

  /** `guarded` is the `consumptionGuard: "edit-v1"` mark inside the stored payload. */
  datatype Operation = Operation(kind: Kind, beforeTurnId: Option<string>, expectedTurnId: Option<string>, guarded: bool)

  datatype Owner = Owner(tenantId: string, principalId: string)

  type Token = nat

  /** The two claim columns; the table's check constraint makes them null together. */
  datatype Claim = Claim(token: Token, expiresAt: int)

  datatype Item = Item(
    owner: Owner,
    sessionId: string,
    clientMessageId: string,
    fingerprint: string,
    operation: Option<Operation>,
    createdAt: int,
    uid: nat,
    status: Status,
    attemptCount: nat,
    availableAt: int,
    claim: Option<Claim>,
    admissionStartedAt: Option<int>,
    acceptedSessionId: Option<string>)
  {
    predicate Guarded() {
      operation.Some? && operation.value.guarded
    }

    predicate IsKind(kind: Kind) {
      operation.Some? && operation.value.kind == kind
    }

    /** The two statuses that stop blocking younger items. */
    predicate Settled() {
      status.Committed? || status.Cancelled?
    }

    predicate ClaimedBy(token: Token) {
      status.Delivering? && claim.Some? && claim.value.token == token
    }

    /** The columns no statement ever writes, apart from the guard inside `operation`. */
    predicate SameIdentity(other: Item) {
      && owner == other.owner && sessionId == other.sessionId
      && clientMessageId == other.clientMessageId && fingerprint == other.fingerprint
      && createdAt == other.createdAt && uid == other.uid
      && operation.Some? == other.operation.Some?
      && (operation.Some? ==> operation.value == other.operation.value.(guarded := operation.value.guarded))
    }
  }

  /** An item is addressed by its position; rows are never deleted. */
  type Table = seq<Item>

  /** The row order `(created_at, item_id)`. */
  predicate Before(a: Item, b: Item) {
    a.createdAt < b.createdAt || (a.createdAt == b.createdAt && a.uid < b.uid)
  }

  // ---- the statements of claimNext ----

  function ExpireEdit(r: Item, now: int): Item {
    if (r.status.Delivering? || r.status.Accepted? || r.status.Ambiguous?) && r.Guarded()
       && r.admissionStartedAt.Some? && r.admissionStartedAt.value < now - EDIT_ADMISSION_TIMEOUT_MS
    then r.(status := Cancelled, claim := None)
    else r
  }

  function ExpireEdits(t: Table, now: int): Table {
    seq(|t|, i requires 0 <= i < |t| => ExpireEdit(t[i], now))
  }

  function Lapse(r: Item, now: int): Item {
    if r.status.Delivering? && r.claim.Some? && r.claim.value.expiresAt < now && r.admissionStartedAt.Some?
    then r.(status := Ambiguous, claim := None)
    else r
  }

  function LapseAdmissions(t: Table, now: int): Table {
    seq(|t|, i requires 0 <= i < |t| => Lapse(t[i], now))
  }

  /** The `not exists (select 1 ... blocker ...)` clause fails. */
  predicate Blocked(t: Table, i: nat)
    requires i < |t|
  {
    exists j :: 0 <= j < |t| && j != i && t[j].sessionId == t[i].sessionId && !t[j].Settled() && Before(t[j], t[i])
  }

  predicate Due(r: Item, now: int) {
    || (r.status.Queued? && r.availableAt <= now)
    || (r.status.Delivering? && r.claim.Some? && r.claim.value.expiresAt < now && r.admissionStartedAt.None?)
  }

  predicate Claimable(t: Table, i: nat, now: int) {
    i < |t| && Due(t[i], now) && !Blocked(t, i)
  }

  function ClaimRow(r: Item, token: Token, now: int, leaseMs: nat): Item {
    r.(status := Delivering, claim := Some(Claim(token, now + leaseMs)), admissionStartedAt := None,
       attemptCount := r.attemptCount + 1)
  }

  /** The candidate order `available_at, created_at, item_id`. */
  predicate ClaimsFirst(a: Item, b: Item) {
    a.availableAt < b.availableAt || (a.availableAt == b.availableAt && Before(a, b))
  }

  // ---- the statements that carry a claim token ----

  function BeginAdmission(r: Item, token: Token, guardEdit: bool, now: int): Option<Item> {
    if r.ClaimedBy(token) && r.admissionStartedAt.None? && r.claim.value.expiresAt >= now then
      Some(r.(admissionStartedAt := Some(now),
              operation := if guardEdit && r.IsKind(Edit) then Some(r.operation.value.(guarded := true)) else r.operation))
    else None
  }

  function Requeue(r: Item, availableAt: int): Item {
    r.(status := Queued, claim := None, admissionStartedAt := None, availableAt := availableAt)
  }

  function Defer(r: Item, token: Token, availableAt: int): Option<Item> {
    if r.ClaimedBy(token) && r.admissionStartedAt.None? then Some(Requeue(r, availableAt)) else None
  }

  function DeferRejectedAdmission(r: Item, token: Token, availableAt: int): Option<Item> {
    if r.ClaimedBy(token) then Some(Requeue(r, availableAt)) else None
  }

  function Accept(r: Item, token: Token, sessionId: string): Option<Item> {
    if r.ClaimedBy(token) then Some(r.(status := Accepted, claim := None, acceptedSessionId := Some(sessionId))) else None
  }

  function Fail(r: Item, token: Token): Option<Item> {
    if r.ClaimedBy(token) then Some(r.(status := Failed, claim := None)) else None
  }

  function MarkSubmissionAmbiguous(r: Item, token: Token): Option<Item> {
    if r.ClaimedBy(token) then Some(r.(status := Ambiguous, claim := None)) else None
  }

  // ---- the statements without a token ----

  predicate Committable(r: Item) {
    r.status.Delivering? || r.status.Accepted? || r.status.Ambiguous? || r.status.Committed?
  }

  function Commit(r: Item, sessionId: string): Option<Item> {
    if Committable(r) && (r.acceptedSessionId.None? || r.acceptedSessionId.value == sessionId) then
      Some(r.(status := Committed, claim := None, acceptedSessionId := Some(sessionId)))
    else None
  }

  /** The identity a guarded rewind presents before it may touch the context. */
  datatype EditIdentity = EditIdentity(owner: Owner, sessionId: string, clientMessageId: string, beforeTurnId: string)

  predicate EditMatches(r: Item, id: EditIdentity) {
    && r.sessionId == id.sessionId && r.clientMessageId == id.clientMessageId && r.owner == id.owner
    && r.IsKind(Edit) && r.operation.value.beforeTurnId == Some(id.beforeTurnId)
  }

  /** Whether `consumeEdit` lets the rewind proceed. */
  predicate EditAllowed(r: Item, id: EditIdentity) {
    EditMatches(r, id) && (!r.Guarded() || Committable(r))
  }

  /** The row after `consumeEdit`; an unguarded edit keeps its row. */
  function ConsumeEdit(r: Item, id: EditIdentity): Item {
    if EditAllowed(r, id) && r.Guarded()
    then r.(status := Committed, claim := None, acceptedSessionId := Some(id.sessionId))
    else r
  }

  predicate OwnerMayCancel(r: Item) {
    r.status.Queued? || r.status.Failed? || (r.status.Delivering? && r.admissionStartedAt.None?)
  }

  function CancelOwned(r: Item, owner: Owner): Option<Item> {
    if r.owner == owner && OwnerMayCancel(r) then Some(r.(status := Cancelled, claim := None, admissionStartedAt := None))
    else None
  }

  function RetryOwned(r: Item, owner: Owner, now: int): Option<Item> {
    if r.owner == owner && r.status.Failed? then
      Some(r.(status := Queued, availableAt := now, admissionStartedAt := None))
    else None
  }

  // ---- enqueue ----

  datatype NewItem = NewItem(
    owner: Owner, sessionId: string, clientMessageId: string, fingerprint: string, operation: Option<Operation>,
    createdAt: int, uid: nat)

  datatype EnqueueResult = Created | Replay(id: nat) | Conflict(id: nat) | MissingSession | Forbidden | Full | UnsupportedEdit

  predicate SameClientMessage(r: Item, input: NewItem) {
    r.owner == input.owner && r.clientMessageId == input.clientMessageId
  }

  /** The position of the row with this owner and client message id, if there is one. */
  function FindClientMessage(t: Table, input: NewItem): (found: Option<nat>)
    ensures found.Some? ==> found.value < |t| && SameClientMessage(t[found.value], input)
    ensures found.None? ==> forall i :: 0 <= i < |t| ==> !SameClientMessage(t[i], input)
  {
    if t == [] then None
    else if SameClientMessage(t[|t| - 1], input) then Some(|t| - 1)
    else FindClientMessage(t[..|t| - 1], input)
  }

  /** Rows of a session that are neither committed nor cancelled. */
  function PendingCount(t: Table, sessionId: string): nat {
    if t == [] then 0
    else PendingCount(t[..|t| - 1], sessionId)
         + (if t[|t| - 1].sessionId == sessionId && !t[|t| - 1].Settled() then 1 else 0)
  }

  /** The rows of a session that are neither committed nor cancelled. */
  function Pending(t: Table, sessionId: string): set<nat> {
    set i | 0 <= i < |t| && t[i].sessionId == sessionId && !t[i].status.Committed? && !t[i].status.Cancelled?
  }

  lemma PendingNext(init: Table, last: Item, sessionId: string)
    ensures Pending(init + [last], sessionId)
         == if last.sessionId == sessionId && !last.Settled() then Pending(init, sessionId) + {|init|} else Pending(init, sessionId)
  {
    forall i | 0 <= i < |init| ensures (init + [last])[i] == init[i] {
    }
  }

  lemma {:induction false} PendingMeaning(t: Table, sessionId: string)
    ensures PendingCount(t, sessionId) == |Pending(t, sessionId)|
  {
    if t != [] {
      FrontAndLast(t);
      PendingMeaning(t[..|t| - 1], sessionId);
      PendingNext(t[..|t| - 1], t[|t| - 1], sessionId);
    }
  }

  /** A stored steer already addressed the turn this edit would replace. */
  predicate SteersTurn(r: Item, input: NewItem, turnId: Option<string>) {
    && r.sessionId == input.sessionId && r.owner == input.owner
    && r.IsKind(Steer) && turnId.Some? && r.operation.value.expectedTurnId == turnId
    && !r.status.Cancelled? && !r.status.Failed?
  }

  predicate EditUnsupported(t: Table, input: NewItem) {
    && input.operation.Some? && input.operation.value.kind == Edit
    && exists i :: 0 <= i < |t| && SteersTurn(t[i], input, input.operation.value.beforeTurnId)
  }

  function EnqueueOutcome(t: Table, input: NewItem, sessionOwner: Option<Owner>): EnqueueResult {
    var existing := FindClientMessage(t, input);
    if sessionOwner.None? then MissingSession
    else if sessionOwner.value != input.owner then Forbidden
    else if existing.Some? then
      var r := t[existing.value];
      if r.fingerprint == input.fingerprint && r.sessionId == input.sessionId then Replay(existing.value) else Conflict(existing.value)
    else if EditUnsupported(t, input) then UnsupportedEdit
    else if PendingCount(t, input.sessionId) >= MAX_PENDING then Full
    else Created
  }

  /** The inserted row with the schema's column defaults; a caller cannot set the guard. */
  function FreshRow(input: NewItem): Item {
    var operation := if input.operation.Some? then Some(input.operation.value.(guarded := false)) else None;
    Item(input.owner, input.sessionId, input.clientMessageId, input.fingerprint, operation, input.createdAt, input.uid,
         Queued, 0, input.createdAt, None, None, None)
  }

  /** Primary keys are unique, so an insert that reuses one fails. */
  predicate UidFree(t: Table, uid: nat) {
    forall i :: 0 <= i < |t| ==> t[i].uid != uid
  }

  function Enqueue(t: Table, input: NewItem, sessionOwner: Option<Owner>): Table {
    if EnqueueOutcome(t, input, sessionOwner).Created? && UidFree(t, input.uid) then t + [FreshRow(input)] else t
  }

  // ---- what a claim token protects ----

  /** A statement that carries a token other than the row's current claim selects no row. */
  lemma StaleTokenSelectsNothing(r: Item, token: Token, guardEdit: bool, now: int, availableAt: int, sessionId: string)
    ensures BeginAdmission(r, token, guardEdit, now).Some? ==> r.ClaimedBy(token)
    ensures !r.ClaimedBy(token) ==>
              && Defer(r, token, availableAt).None? && DeferRejectedAdmission(r, token, availableAt).None?
              && Accept(r, token, sessionId).None? && Fail(r, token).None? && MarkSubmissionAmbiguous(r, token).None?
              && BeginAdmission(r, token, guardEdit, now).None?
  {
  }
}
