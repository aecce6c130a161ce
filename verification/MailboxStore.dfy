/** The mailbox store as an object: each method runs its statements in place, and one dispatcher pass over it. */
module MailboxStore {
  import opened Common
  import opened MailboxTable
  import opened MailboxProtocol
  import Sql = MailboxTable

  datatype StoreError = LeaseOutOfRange | RowChanged | DuplicateKey

  /** The reverting delivery Eve's HTTP adapter hands to the edit gate. */
  datatype Delivery = Delivery(itemId: Option<nat>, revert: Option<EditIdentity>)

  // ---- what an enqueue looks at, column by column ----

  /** The owner already sent this client message id. */
  ghost predicate AlreadySent(t: Table, input: NewItem) {
    exists i :: 0 <= i < |t| && t[i].owner == input.owner && t[i].clientMessageId == input.clientMessageId
  }

  /** An edit of a turn that a steer of the same owner and session addressed, unless the steer was cancelled or failed. */
  ghost predicate ReplacesSteeredTurn(t: Table, input: NewItem) {
    && input.operation.Some? && input.operation.value.kind == Edit && input.operation.value.beforeTurnId.Some?
    && exists i :: && 0 <= i < |t| && t[i].sessionId == input.sessionId && t[i].owner == input.owner
                   && t[i].operation.Some? && t[i].operation.value.kind == Steer
                   && t[i].operation.value.expectedTurnId == input.operation.value.beforeTurnId
                   && !t[i].status.Cancelled? && !t[i].status.Failed?
  }

  // ---- what a claim looks at, column by column ----

  /** What the reaper leaves of a row: an edit whose guarded admission is two minutes old is cancelled, a lapsed admission is ambiguous. */
  function Reaped(r: Item, now: int): Item {
    var guarded, started := r.operation.Some? && r.operation.value.guarded, r.admissionStartedAt;
    if guarded && started.Some? && now - started.value > 120_000 && (r.status.Delivering? || r.status.Accepted? || r.status.Ambiguous?)
    then r.(status := Cancelled, claim := None)
    else if r.status.Delivering? && r.claim.Some? && now > r.claim.value.expiresAt && started.Some?
    then r.(status := Ambiguous, claim := None)
    else r
  }

  /** `a` was created before `b`, or at the same time with the lower id. */
  predicate Older(a: Item, b: Item) {
    if a.createdAt == b.createdAt then a.uid < b.uid else a.createdAt < b.createdAt
  }

  /** A queued row that is due, or one whose claim lapsed before admission, without an older unsettled row of its session. */
  ghost predicate Eligible(t: Table, i: nat, now: int)
    requires i < |t|
  {
    && (if t[i].status.Queued? then t[i].availableAt <= now
        else t[i].status.Delivering? && t[i].admissionStartedAt.None? && t[i].claim.Some? && now > t[i].claim.value.expiresAt)
    && forall j :: 0 <= j < |t| && j != i && t[j].sessionId == t[i].sessionId && Older(t[j], t[i]) ==>
                     var left := Reaped(t[j], now).status; left.Committed? || left.Cancelled?
  }

  /** The earlier available row comes first, of equals the older one. */
  predicate Precedes(a: Item, b: Item) {
    if a.availableAt == b.availableAt then Older(a, b) else a.availableAt < b.availableAt
  }

  lemma ReapedMeaning(t: Table, now: int)
    ensures var reaped := LapseAdmissions(ExpireEdits(t, now), now);
            |reaped| == |t| && forall i :: 0 <= i < |t| ==> reaped[i] == Reaped(t[i], now)
  {
  }

  lemma EligibleMeaning(t: Table, now: int)
    ensures var reaped := LapseAdmissions(ExpireEdits(t, now), now);
            forall i :: 0 <= i < |t| ==>
              && (Claimable(reaped, i, now) <==> Eligible(t, i, now))
              && (Eligible(t, i, now) ==> reaped[i] == t[i])
  {
    var reaped := LapseAdmissions(ExpireEdits(t, now), now);
    ReapedMeaning(t, now);
    forall i | 0 <= i < |t| ensures (Claimable(reaped, i, now) <==> Eligible(t, i, now)) && (Eligible(t, i, now) ==> reaped[i] == t[i]) {
      if Due(t[i], now) { assert reaped[i] == t[i]; }
      if Eligible(t, i, now) {
        forall j | 0 <= j < |t| && j != i && reaped[j].sessionId == reaped[i].sessionId && Before(reaped[j], reaped[i]) ensures reaped[j].Settled() {
          assert t[j].sessionId == t[i].sessionId && Older(t[j], t[i]);
        }
      }
      if Claimable(reaped, i, now) {
        forall j | 0 <= j < |t| && j != i && t[j].sessionId == t[i].sessionId && Older(t[j], t[i])
          ensures Reaped(t[j], now).status.Committed? || Reaped(t[j], now).status.Cancelled?
        {
          assert reaped[j].Settled();
        }
      }
    }
  }

  class Store {
    var rows: Table

    constructor ()
      ensures rows == []
    {
      rows := [];
    }

    /** Stores a new item of the session's owner, unless that owner already sent this client message id. */
    method Enqueue(input: NewItem, sessionOwner: Option<Owner>) returns (r: Result<EnqueueResult, StoreError>)
      modifies this
      ensures rows == Sql.Enqueue(old(rows), input, sessionOwner)
      ensures r.Ok? ==> r.value == EnqueueOutcome(old(rows), input, sessionOwner)
      ensures r.Err? || !r.value.Created? ==> rows == old(rows)
      ensures r == Ok(MissingSession) <==> sessionOwner.None?
      ensures r == Ok(Forbidden) <==> sessionOwner.Some? && sessionOwner.value != input.owner
      ensures r.Ok? && r.value.Replay? ==>
                && r.value.id < |rows| && rows[r.value.id].owner == input.owner && rows[r.value.id].clientMessageId == input.clientMessageId
                && rows[r.value.id].fingerprint == input.fingerprint && rows[r.value.id].sessionId == input.sessionId
      ensures r.Ok? && r.value.Conflict? ==>
                && r.value.id < |rows| && rows[r.value.id].owner == input.owner && rows[r.value.id].clientMessageId == input.clientMessageId
                && (rows[r.value.id].fingerprint != input.fingerprint || rows[r.value.id].sessionId != input.sessionId)
      ensures sessionOwner == Some(input.owner) ==>
                (r.Ok? && (r.value.Replay? || r.value.Conflict?) <==> AlreadySent(old(rows), input))
      ensures r == Ok(UnsupportedEdit) <==>
                sessionOwner == Some(input.owner) && !AlreadySent(old(rows), input) && ReplacesSteeredTurn(old(rows), input)
      ensures r == Ok(Full) <==>
                && sessionOwner == Some(input.owner) && !AlreadySent(old(rows), input) && !ReplacesSteeredTurn(old(rows), input)
                && |Pending(old(rows), input.sessionId)| >= 5
      ensures r.Err? ==> r.error == DuplicateKey && !UidFree(old(rows), input.uid)
      ensures r == Ok(Created) ==>
                && sessionOwner == Some(input.owner) && !AlreadySent(old(rows), input) && !ReplacesSteeredTurn(old(rows), input)
                && |Pending(old(rows), input.sessionId)| < 5 && (forall i :: 0 <= i < |old(rows)| ==> old(rows)[i].uid != input.uid)
                && |rows| == |old(rows)| + 1 && rows[..|old(rows)|] == old(rows)
                && var row := rows[|old(rows)|];
                && row.owner == input.owner && row.sessionId == input.sessionId && row.clientMessageId == input.clientMessageId
                && row.fingerprint == input.fingerprint && row.uid == input.uid
                && row.operation == (if input.operation.Some? then Some(input.operation.value.(guarded := false)) else None)
                && row.status.Queued? && row.claim.None? && row.admissionStartedAt.None? && row.acceptedSessionId.None?
                && row.attemptCount == 0 && !row.Guarded() && row.availableAt == row.createdAt == input.createdAt
    {
      PendingMeaning(rows, input.sessionId);
      if sessionOwner.None? { return Ok(MissingSession); }
      if sessionOwner.value != input.owner { return Ok(Forbidden); }
      var existing := FindClientMessage(rows, input);
      if existing.Some? {
        var row := rows[existing.value];
        var same := row.fingerprint == input.fingerprint && row.sessionId == input.sessionId;
        return Ok(if same then Replay(existing.value) else Conflict(existing.value));
      }
      if EditUnsupported(rows, input) { return Ok(UnsupportedEdit); }
      if PendingCount(rows, input.sessionId) >= MAX_PENDING { return Ok(Full); }
      if exists i :: 0 <= i < |rows| && rows[i].uid == input.uid { return Err(DuplicateKey); }
      rows := rows + [FreshRow(input)];
      r := Ok(Created);
    }

    /**
     Reaps expired edits and lapsed leases, then claims the first unlocked candidate in
     `(available_at, created_at, item_id)` order.
     */
    method ClaimNext(token: Token, leaseMs: nat, now: int, locked: set<nat>) returns (r: Result<Option<nat>, StoreError>)
      modifies this
      ensures !(1_000 <= leaseMs <= 900_000) ==> r == Err(LeaseOutOfRange) && rows == old(rows)
      ensures 1_000 <= leaseMs <= 900_000 ==> r.Ok?
      ensures r.Ok? ==>
                && |rows| == |old(rows)| && (r.value.Some? ==> r.value.value < |rows|)
                && (forall j :: 0 <= j < |rows| && r.value != Some(j) ==> rows[j] == Reaped(old(rows)[j], now))
                && (forall j :: 0 <= j < |rows| && j !in locked && Eligible(old(rows), j, now) ==>
                      r.value.Some? && (j == r.value.value || !Precedes(old(rows)[j], old(rows)[r.value.value])))
                && (r.value.Some? ==>
                      var row := old(rows)[r.value.value];
                      && r.value.value !in locked && Eligible(old(rows), r.value.value, now)
                      && rows[r.value.value] == row.(status := Delivering, claim := Some(Claim(token, now + leaseMs)),
                                                     admissionStartedAt := None, attemptCount := row.attemptCount + 1))
    {
      if !(1_000 <= leaseMs <= 900_000) { return Err(LeaseOutOfRange); }
      ReapedMeaning(rows, now);
      EligibleMeaning(rows, now);
      rows := ExpireEdits(rows, now);
      rows := LapseAdmissions(rows, now);
      var best: Option<nat> := None;
      for i := 0 to |rows|
        invariant rows == LapseAdmissions(ExpireEdits(old(rows), now), now)
        invariant best.Some? ==> best.value < i && Claimable(rows, best.value, now) && best.value !in locked
        invariant best.None? ==> forall j :: 0 <= j < i && Claimable(rows, j, now) ==> j in locked
        invariant best.Some? ==> forall j :: 0 <= j < i && Claimable(rows, j, now) && j !in locked ==>
                                               !ClaimsFirst(rows[j], rows[best.value])
      {
        if Claimable(rows, i, now) && i !in locked && (best.None? || ClaimsFirst(rows[i], rows[best.value])) {
          best := Some(i);
        }
      }
      if best.Some? { rows := rows[best.value := ClaimRow(rows[best.value], token, now, leaseMs)]; }
      r := Ok(best);
    }

    /** Writes the row a statement selected; an unselected row is the store's "changed unexpectedly" error. */
    method WriteRow(id: nat, row: Option<Item>) returns (r: Result<Item, StoreError>)
      requires row.Some? ==> id < |rows|
      modifies this
      ensures row.None? ==> r == Err(RowChanged) && rows == old(rows)
      ensures row.Some? ==> r == Ok(row.value) && rows == old(rows)[id := row.value]
    {
      if row.None? { return Err(RowChanged); }
      rows := rows[id := row.value];
      r := Ok(row.value);
    }

    /** `select ... where item_id = id`. */
    function Row(id: nat): (r: Option<Item>)
      reads this
      ensures r.Some? <==> id < |rows|
      ensures r.Some? ==> r.value == rows[id]
    {
      if id < |rows| then Some(rows[id]) else None
    }

    method BeginAdmission(id: nat, token: Token, guardEdit: bool, now: int) returns (r: Result<Item, StoreError>)
      modifies this
      ensures r.Ok? <==> id < |old(rows)| && old(rows)[id].ClaimedBy(token) && old(rows)[id].admissionStartedAt.None?
                         && old(rows)[id].claim.value.expiresAt >= now
      ensures r.Err? ==> r.error == RowChanged && rows == old(rows)
      ensures r.Ok? ==>
                var operation := old(rows)[id].operation;
                && r.value == old(rows)[id].(admissionStartedAt := Some(now),
                                             operation := if guardEdit && operation.Some? && operation.value.kind == Edit
                                                          then Some(operation.value.(guarded := true)) else operation)
                && rows == old(rows)[id := r.value]
    {
      r := WriteRow(id, if id < |rows| then Sql.BeginAdmission(rows[id], token, guardEdit, now) else None);
    }

    method Defer(id: nat, token: Token, availableAt: int) returns (r: Result<Item, StoreError>)
      modifies this
      ensures r.Ok? <==> id < |old(rows)| && old(rows)[id].ClaimedBy(token) && old(rows)[id].admissionStartedAt.None?
      ensures r.Err? ==> r.error == RowChanged && rows == old(rows)
      ensures r.Ok? ==>
                && r.value == old(rows)[id].(status := Queued, claim := None, admissionStartedAt := None, availableAt := availableAt)
                && rows == old(rows)[id := r.value]
    {
      r := WriteRow(id, if id < |rows| then Sql.Defer(rows[id], token, availableAt) else None);
    }

    method DeferRejectedAdmission(id: nat, token: Token, availableAt: int) returns (r: Result<Item, StoreError>)
      modifies this
      ensures r.Ok? <==> id < |old(rows)| && old(rows)[id].ClaimedBy(token)
      ensures r.Err? ==> r.error == RowChanged && rows == old(rows)
      ensures r.Ok? ==>
                && r.value == old(rows)[id].(status := Queued, claim := None, admissionStartedAt := None, availableAt := availableAt)
                && rows == old(rows)[id := r.value]
    {
      r := WriteRow(id, if id < |rows| then Sql.DeferRejectedAdmission(rows[id], token, availableAt) else None);
    }

    /** Accepts, or returns the row that the commit hook already committed under the same session. */
    method Accept(id: nat, token: Token, sessionId: string) returns (r: Result<Item, StoreError>)
      modifies this
      ensures id < |old(rows)| && old(rows)[id].ClaimedBy(token) ==>
                && r.Ok? && r.value == old(rows)[id].(status := Status.Accepted, claim := None, acceptedSessionId := Some(sessionId))
                && rows == old(rows)[id := r.value]
      ensures !(id < |old(rows)| && old(rows)[id].ClaimedBy(token)) ==>
                && rows == old(rows)
                && (r.Ok? <==> id < |rows| && rows[id].status.Committed? && rows[id].acceptedSessionId == Some(sessionId))
                && (r.Ok? ==> r.value == rows[id])
    {
      r := WriteRow(id, if id < |rows| then Sql.Accept(rows[id], token, sessionId) else None);
      if r.Err? && id < |rows| && rows[id].status.Committed? && rows[id].acceptedSessionId == Some(sessionId) {
        r := Ok(rows[id]);
      }
    }

    method Commit(id: nat, sessionId: string) returns (r: Result<Item, StoreError>)
      modifies this
      ensures r.Ok? <==>
                && id < |old(rows)| && (old(rows)[id].acceptedSessionId.None? || old(rows)[id].acceptedSessionId == Some(sessionId))
                && (old(rows)[id].status.Delivering? || old(rows)[id].status.Accepted? || old(rows)[id].status.Ambiguous?
                    || old(rows)[id].status.Committed?)
      ensures r.Err? ==> r.error == RowChanged && rows == old(rows)
      ensures r.Ok? ==>
                && r.value == old(rows)[id].(status := Committed, claim := None, acceptedSessionId := Some(sessionId))
                && rows == old(rows)[id := r.value]
    {
      r := WriteRow(id, if id < |rows| then Sql.Commit(rows[id], sessionId) else None);
    }

    method Fail(id: nat, token: Token) returns (r: Result<Item, StoreError>)
      modifies this
      ensures r.Ok? <==> id < |old(rows)| && old(rows)[id].ClaimedBy(token)
      ensures r.Err? ==> r.error == RowChanged && rows == old(rows)
      ensures r.Ok? ==> r.value == old(rows)[id].(status := Failed, claim := None) && rows == old(rows)[id := r.value]
    {
      r := WriteRow(id, if id < |rows| then Sql.Fail(rows[id], token) else None);
    }

    method MarkSubmissionAmbiguous(id: nat, token: Token) returns (r: Result<Item, StoreError>)
      modifies this
      ensures r.Ok? <==> id < |old(rows)| && old(rows)[id].ClaimedBy(token)
      ensures r.Err? ==> r.error == RowChanged && rows == old(rows)
      ensures r.Ok? ==> r.value == old(rows)[id].(status := Ambiguous, claim := None) && rows == old(rows)[id := r.value]
    {
      r := WriteRow(id, if id < |rows| then Sql.MarkSubmissionAmbiguous(rows[id], token) else None);
    }

    method ConsumeEdit(id: nat, edit: EditIdentity) returns (allowed: bool)
      modifies this
      ensures allowed <==>
                && id < |old(rows)|
                && var row := old(rows)[id];
                && row.sessionId == edit.sessionId && row.clientMessageId == edit.clientMessageId && row.owner == edit.owner
                && row.operation.Some? && row.operation.value.kind == Edit && row.operation.value.beforeTurnId == Some(edit.beforeTurnId)
                && (row.operation.value.guarded ==>
                      row.status.Delivering? || row.status.Accepted? || row.status.Ambiguous? || row.status.Committed?)
      ensures rows == if allowed && old(rows)[id].operation.value.guarded
                      then old(rows)[id := old(rows)[id].(status := Committed, claim := None, acceptedSessionId := Some(edit.sessionId))]
                      else old(rows)
      ensures allowed <==> id < |old(rows)| && EditAllowed(old(rows)[id], edit)
      ensures allowed ==> rows == old(rows)[id := Sql.ConsumeEdit(old(rows)[id], edit)]
    {
      if id >= |rows| || !EditMatches(rows[id], edit) { return false; }
      if !rows[id].Guarded() { return true; }
      if !Committable(rows[id]) { return false; }
      rows := rows[id := rows[id].(status := Committed, claim := None, acceptedSessionId := Some(edit.sessionId))];
      allowed := true;
    }

    /** The adapter's `deliver`: a reverting delivery of a mailbox item passes only if its edit is consumed first. */
    method AdmitDelivery(d: Delivery) returns (passed: bool)
      modifies this
      ensures d.revert.None? || d.itemId.None? ==> passed && rows == old(rows)
      ensures d.revert.Some? && d.itemId.Some? ==>
                var id := d.itemId.value;
                && (passed <==> id < |old(rows)| && EditAllowed(old(rows)[id], d.revert.value))
                && (!passed ==> rows == old(rows))
                && (passed && old(rows)[id].Guarded() ==> id < |rows| && rows[id].status.Committed?)
                && (passed ==> rows == old(rows)[id := Sql.ConsumeEdit(old(rows)[id], d.revert.value)])
    {
      if d.revert.Some? && d.itemId.Some? {
        var allowed := ConsumeEdit(d.itemId.value, d.revert.value);
        if !allowed { return false; }
      }
      passed := true;
    }

    method CancelOwned(owner: Owner, id: nat) returns (found: bool)
      modifies this
      ensures found <==>
                && id < |old(rows)| && old(rows)[id].owner == owner
                && (old(rows)[id].status.Queued? || old(rows)[id].status.Failed?
                    || (old(rows)[id].status.Delivering? && old(rows)[id].admissionStartedAt.None?))
      ensures rows == if found then old(rows)[id := old(rows)[id].(status := Cancelled, claim := None, admissionStartedAt := None)] else old(rows)
    {
      var r := WriteRow(id, if id < |rows| then Sql.CancelOwned(rows[id], owner) else None);
      found := r.Ok?;
    }

    method RetryOwned(owner: Owner, id: nat, now: int) returns (found: bool)
      modifies this
      ensures found <==> id < |old(rows)| && old(rows)[id].owner == owner && old(rows)[id].status.Failed?
      ensures rows == if found then old(rows)[id := old(rows)[id].(status := Queued, availableAt := now, admissionStartedAt := None)] else old(rows)
    {
      var r := WriteRow(id, if id < |rows| then Sql.RetryOwned(rows[id], owner, now) else None);
      found := r.Ok?;
    }
  }

  // ---- one dispatcher pass ----

  datatype DeliverReply = Delivered(sessionId: string) | Refused(failure: Failure)

  datatype DispatchResult = Idle | Done(id: nat, status: Status) | Thrown(error: StoreError)

  /** The boundary runs the turn that the item steers. */
  predicate SteersRunningTurn(operation: Option<Operation>, boundary: Boundary) {
    && boundary.Running? && operation.Some? && operation.value.kind == Steer
    && operation.value.expectedTurnId.Some? && operation.value.expectedTurnId == boundary.turnId
  }

  /** The row once its admission has begun: an edit is marked as guarded when the waiting boundary says so. */
  function Marked(r: Item, boundary: Boundary, beginAt: int): Item {
    if boundary.Waiting? && boundary.editGuard && r.operation.Some? && r.operation.value.kind == Edit
    then r.(admissionStartedAt := Some(beginAt), operation := Some(r.operation.value.(guarded := true)))
    else r.(admissionStartedAt := Some(beginAt))
  }

  /** What the row of an item claimed until `leaseEnd` becomes when nobody else touches it during the pass. */
  function PassOutcome(r: Item, leaseEnd: int, boundary: Option<Boundary>, beginAt: int, retryAt: int, reply: DeliverReply): Item {
    if boundary == Some(Terminal) then r.(status := Failed, claim := None)
    else if boundary.None? || (boundary.value.Running? && !SteersRunningTurn(r.operation, boundary.value)) then
      r.(status := Queued, claim := None, admissionStartedAt := None, availableAt := retryAt)
    else if beginAt > leaseEnd then r.(status := Ambiguous, claim := None)
    else
      var b := Marked(r, boundary.value, beginAt);
      match reply
      case Delivered(sessionId) =>
        var responded := r.operation.Some? && r.operation.value.kind == Respond;
        b.(status := if responded then Committed else Accepted, claim := None, acceptedSessionId := Some(sessionId))
      case Refused(Busy) => b.(status := Queued, claim := None, admissionStartedAt := None, availableAt := retryAt)
      case Refused(Rejected) => b.(status := Failed, claim := None)
      case Refused(Other) => b.(status := Ambiguous, claim := None)
  }

  /**
   The `catch` block: a row that was committed or cancelled meanwhile is reported as it is; a row still claimed by the
   pass is requeued when the runtime was busy, failed when it rejected, and ambiguous otherwise; a row lost to another
   claim is left alone and the store's error is thrown.
   */
  method SettleFailure(store: Store, id: nat, token: Token, retryAt: int, failure: Failure) returns (r: DispatchResult)
    requires id < |store.rows|
    modifies store
    ensures var row := old(store.rows)[id];
            if row.Settled() then store.rows == old(store.rows) && r == Done(id, row.status)
            else if !row.ClaimedBy(token) then store.rows == old(store.rows) && r == Thrown(RowChanged)
            else
              var row' := match failure
                case Busy => row.(status := Queued, claim := None, admissionStartedAt := None, availableAt := retryAt)
                case Rejected => row.(status := Failed, claim := None)
                case Other => row.(status := Ambiguous, claim := None);
              store.rows == old(store.rows)[id := row'] && r == Done(id, row'.status)
  {
    var current := store.rows[id];
    if current.status.Committed? || current.status.Cancelled? { return Done(id, current.status); }
    var settled: Result<Item, StoreError>;
    match failure {
      case Busy => settled := store.DeferRejectedAdmission(id, token, retryAt);
      case Rejected => settled := store.Fail(id, token);
      case Other => settled := store.MarkSubmissionAmbiguous(id, token);
    }
    r := if settled.Ok? then Done(id, settled.value.status) else Thrown(settled.error);
  }

  /** The pass after its claim: inspect, defer or fail or begin admission, deliver, then accept or settle. */
  method DispatchClaimed(store: Store, id: nat, token: Token, boundary: Option<Boundary>, beginAt: int, retryAt: int, reply: DeliverReply)
    returns (r: DispatchResult, delivered: bool)
    requires id < |store.rows| && store.rows[id].ClaimedBy(token) && store.rows[id].admissionStartedAt.None?
    modifies store
    ensures var claimed := old(store.rows)[id];
            && store.rows == old(store.rows)[id := PassOutcome(claimed, claimed.claim.value.expiresAt, boundary, beginAt, retryAt, reply)]
            && r == Done(id, store.rows[id].status)
            && (delivered <==> boundary.Some? && (boundary.value.Waiting? || SteersRunningTurn(claimed.operation, boundary.value))
                               && beginAt <= claimed.claim.value.expiresAt)
  {
    delivered := false;
    var item := store.rows[id];
    var next := AfterInspect(item, boundary);
    if next.Refusing? {
      var failed := store.Fail(id, token);
      r := Done(id, failed.value.status);
    } else if next.Beginning? {
      var begun := store.BeginAdmission(id, token, next.guardEdit, beginAt);
      if begun.Err? {
        r := SettleFailure(store, id, token, retryAt, Other);
        return;
      }
      delivered := true;
      if reply.Refused? {
        r := SettleFailure(store, id, token, retryAt, reply.failure);
      } else {
        var accepted := store.Accept(id, token, reply.sessionId);
        if item.IsKind(Respond) {
          accepted := store.Commit(id, reply.sessionId);
        }
        r := Done(id, accepted.value.status);
      }
    } else {
      var deferred := store.Defer(id, token, retryAt);
      r := Done(id, deferred.value.status);
    }
  }

  /**
   One undisturbed pass over the first eligible row. The runtime sees a delivery only after the admission mark is stored,
   and only what the boundary lets through within the lease.
   */
  method DispatchNext(store: Store, token: Token, leaseMs: nat, now: int, boundary: Option<Boundary>,
                      beginAt: int, retryAt: int, reply: DeliverReply) returns (r: DispatchResult, delivered: bool)
    modifies store
    ensures r.Idle? || r.Thrown? ==> !delivered
    ensures r.Thrown? <==> !(1_000 <= leaseMs <= 900_000)
    ensures r.Thrown? ==> store.rows == old(store.rows)
    ensures !r.Thrown? ==>
              && |store.rows| == |old(store.rows)|
              && forall j :: 0 <= j < |store.rows| && !(r.Done? && j == r.id) ==> store.rows[j] == Reaped(old(store.rows)[j], now)
    ensures r.Idle? ==> forall j :: 0 <= j < |store.rows| ==> !Eligible(old(store.rows), j, now)
    ensures r.Done? ==>
              && r.id < |store.rows| && Eligible(old(store.rows), r.id, now)
              && (forall j :: 0 <= j < |store.rows| && j != r.id && Eligible(old(store.rows), j, now) ==>
                    !Precedes(old(store.rows)[j], old(store.rows)[r.id]))
              && var before, row := old(store.rows)[r.id], store.rows[r.id];
              && var claimed := before.(status := Delivering, claim := Some(Claim(token, now + leaseMs)), admissionStartedAt := None,
                                        attemptCount := before.attemptCount + 1);
              && row == PassOutcome(claimed, now + leaseMs, boundary, beginAt, retryAt, reply) && r.status == row.status
    ensures r.Done? ==>
              && r.id < |old(store.rows)| && r.id < |store.rows|
              && var operation, row := old(store.rows)[r.id].operation, store.rows[r.id];
              && var steers := && boundary.Some? && boundary.value.Running? && operation.Some? && operation.value.kind == Steer
                               && operation.value.expectedTurnId.Some? && operation.value.expectedTurnId == boundary.value.turnId;
              && (delivered <==> beginAt <= now + leaseMs && boundary.Some? && (boundary.value.Waiting? || steers))
              && (boundary == Some(Terminal) ==> row.status.Failed?)
              && (boundary.None? || (boundary.value.Running? && !steers) ==>
                    row.status.Queued? && row.availableAt == retryAt && row.claim.None? && row.admissionStartedAt.None?)
              && (delivered && reply.Delivered? ==>
                    && row.acceptedSessionId == Some(reply.sessionId)
                    && row.status == if operation.Some? && operation.value.kind == Respond then Committed else Accepted)
              && (row.Guarded() <==>
                    || (operation.Some? && operation.value.guarded)
                    || (operation.Some? && operation.value.kind == Edit && delivered && boundary == Some(Waiting(true))))
  {
    var claim := store.ClaimNext(token, leaseMs, now, {});
    if claim.Err? { return Thrown(claim.error), false; }
    if claim.value.None? { return Idle, false; }
    r, delivered := DispatchClaimed(store, claim.value.value, token, boundary, beginAt, retryAt, reply);
  }
}
