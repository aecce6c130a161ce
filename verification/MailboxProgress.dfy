/** From every state, what the protocol can bring an item to when its calls go through, and how each kind of trouble ends. */
module MailboxProgress {
  import opened Common
  import opened MailboxTable
  import opened MailboxProtocol
  import opened MailboxInspection

  function Run(s: State, actions: seq<Action>): State {
    if actions == [] then s else Step(Run(s, actions[..|actions| - 1]), actions[|actions| - 1])
  }

  lemma {:induction false} RunAppend(s: State, a: seq<Action>, b: seq<Action>)
    ensures Run(s, a + b) == Run(Run(s, a), b)
  {
    if b == [] {
      assert a + b == a;
    } else {
      assert (a + b)[..|a + b| - 1] == a + b[..|b| - 1];
      RunAppend(s, a, b[..|b| - 1]);
    }
  }

  lemma RunOne(s: State, a: Action)
    ensures Run(s, [a]) == Step(s, a)
  {
    assert [a][..0] == [] && Run(s, []) == s;
  }

  /** The dispatcher of token `k` stands at `pc`, with this row for its item. */
  ghost predicate At(s: State, k: Token, id: nat, pc: Pc, r: Item) {
    && k in s.dispatchers && s.dispatchers[k] == pc && k < |s.tokens| && s.tokens[k] == id
    && id < |s.table| && s.table[id] == r
  }

  /** The dispatcher of token `k` is done and left this row. */
  ghost predicate Left(s: State, k: Token, id: nat, r: Item) {
    k !in s.dispatchers && k < |s.tokens| && s.tokens[k] == id && id < |s.table| && s.table[id] == r
  }

  // ---- single steps ----

  lemma ClaimStep(s: State, id: nat, leaseMs: nat)
    requires Claimable(s.table, id, s.now)
    ensures var s' := Step(s, ClaimItem(id, leaseMs));
            && At(s', |s.tokens|, id, Inspecting, s.table[id].(status := Delivering, claim := Some(Claim(|s.tokens|, s.now + leaseMs)),
                                                               admissionStartedAt := None, attemptCount := s.table[id].attemptCount + 1))
            && s'.admissions == s.admissions && s'.now == s.now && s'.commits == s.commits
  {
  }

  lemma InspectStep(s: State, k: Token, id: nat, r: Item, boundary: Option<Boundary>)
    requires At(s, k, id, Inspecting, r)
    ensures var s', guard := Step(s, Inspect(k, boundary)), GuardsEdit(r.operation, boundary);
            && At(s', k, id, if LetsThrough(r.operation, boundary) then Beginning(guard) else if boundary == Some(Terminal) then Refusing else Deferring, r)
            && s'.admissions == s.admissions && s'.now == s.now && s'.commits == s.commits && s'.inspected == s.inspected[k := boundary]
  {
    InspectionMeaning(r, boundary);
  }

  /** The row a begun admission leaves. */
  function BegunRow(r: Item, guard: bool, now: int): Item {
    r.(admissionStartedAt := Some(now),
       operation := if guard && r.operation.Some? && r.operation.value.kind == Edit then Some(r.operation.value.(guarded := true)) else r.operation)
  }

  lemma BeginStep(s: State, k: Token, id: nat, r: Item, guard: bool, availableAt: int)
    requires At(s, k, id, Beginning(guard), r) && r.ClaimedBy(k) && r.admissionStartedAt.None? && s.now <= r.claim.value.expiresAt
    ensures var s' := Step(s, StoreCall(k, Answered, availableAt));
            At(s', k, id, Sending, BegunRow(r, guard, s.now)) && s'.admissions == s.admissions && s'.commits == s.commits
  {
  }

  lemma SendStep(s: State, k: Token, id: nat, r: Item, decision: Decision)
    requires At(s, k, id, Sending, r) && !r.status.Committed?
    ensures var s' := Run(s, [Deliver(k), Decide(k, decision)]);
            && At(s', k, id, Awaiting, r) && k in s'.requests && s'.requests[k] == Some(decision) && s'.commits == s.commits
            && s'.admissions == if decision.Admits? then s.admissions + [k] else s.admissions
  {
    var first := Step(s, Deliver(k));
    assert [Deliver(k), Decide(k, decision)][..1] == [Deliver(k)];
    RunOne(s, Deliver(k));
    assert Run(s, [Deliver(k), Decide(k, decision)]) == Step(first, Decide(k, decision));
  }

  lemma ReplyStep(s: State, k: Token, id: nat, r: Item, sessionId: string)
    requires At(s, k, id, Awaiting, r) && k in s.requests && s.requests[k].Some?
    ensures var s' := Step(s, Reply(k, sessionId));
            && At(s', k, id, match s.requests[k].value case Admits => Accepting(sessionId) case AnswersBusy => Caught(Busy) case Rejects => Caught(Rejected), r)
            && s'.admissions == s.admissions && s'.requests == s.requests && s'.commits == s.commits
  {
  }

  lemma AcceptStep(s: State, k: Token, id: nat, r: Item, sessionId: string, availableAt: int)
    requires At(s, k, id, Accepting(sessionId), r) && r.ClaimedBy(k)
    ensures var s', r' := Step(s, StoreCall(k, Answered, availableAt)), r.(status := Status.Accepted, claim := None, acceptedSessionId := Some(sessionId));
            && (if r.operation.Some? && r.operation.value.kind == Respond then At(s', k, id, Committing(sessionId), r') else Left(s', k, id, r'))
            && s'.admissions == s.admissions && s'.requests == s.requests && s'.commits == s.commits
  {
  }

  /** A response is committed by the dispatcher, anything else by the hook, once the runtime has admitted it. */
  lemma CommitStep(s: State, k: Token, id: nat, r: Item, sessionId: string, availableAt: int)
    requires r.status.Accepted? && r.acceptedSessionId == Some(sessionId) && k in s.requests && s.requests[k] == Some(Admits)
    requires At(s, k, id, Committing(sessionId), r) || Left(s, k, id, r)
    ensures var s' := Step(s, if k in s.dispatchers then StoreCall(k, Answered, availableAt) else HookCommit(k, sessionId));
            && Left(s', k, id, r.(status := Committed, claim := None)) && s'.admissions == s.admissions && s'.commits == s.commits + [id]
  {
  }

  // ---- the way through ----

  /** The calls of one delivery that all go through. */
  function Way(k: Token, boundary: Option<Boundary>, sessionId: string, availableAt: int): seq<Action> {
    [Inspect(k, boundary), StoreCall(k, Answered, availableAt)] + [Deliver(k), Decide(k, Admits)]
    + [Reply(k, sessionId), StoreCall(k, Answered, availableAt)]
  }

  lemma RunTwo(s: State, a: Action, b: Action)
    ensures Run(s, [a, b]) == Step(Step(s, a), b)
  {
    assert [a, b][..1] == [a];
    RunOne(s, a);
  }

  /**
   In every state an item that can be claimed, and that its session's boundary lets through, can be delivered, admitted
   and committed within its lease, and that is its only admission.
   */
  lemma DeliveryCompletes(s: State, id: nat, leaseMs: nat, boundary: Option<Boundary>, sessionId: string, availableAt: int)
    requires Claimable(s.table, id, s.now) && LetsThrough(s.table[id].operation, boundary)
    ensures var k := |s.tokens|;
            var accepted := Run(Step(s, ClaimItem(id, leaseMs)), Way(k, boundary, sessionId, availableAt));
            var done := Step(accepted, if k in accepted.dispatchers then StoreCall(k, Answered, availableAt) else HookCommit(k, sessionId));
            && id < |done.table| && done.table[id].status.Committed? && done.table[id].acceptedSessionId == Some(sessionId)
            && done.table[id].claim.None? && done.table[id].attemptCount == s.table[id].attemptCount + 1
            && done.admissions == s.admissions + [k] && done.commits == s.commits + [id] && k !in done.dispatchers
            && (done.table[id].Guarded() <==> s.table[id].Guarded() || GuardsEdit(s.table[id].operation, boundary))
  {
    var k := |s.tokens|;
    var s0 := Step(s, ClaimItem(id, leaseMs));
    ClaimStep(s, id, leaseMs);
    var r0 := s0.table[id];
    var guard := GuardsEdit(r0.operation, boundary);
    InspectStep(s0, k, id, r0, boundary);
    var s1 := Step(s0, Inspect(k, boundary));
    BeginStep(s1, k, id, r0, guard, availableAt);
    var s2 := Step(s1, StoreCall(k, Answered, availableAt));
    RunTwo(s0, Inspect(k, boundary), StoreCall(k, Answered, availableAt));
    WayOn(s, s0, s2, id, k, BegunRow(r0, guard, s1.now), boundary, sessionId, availableAt);
  }

  lemma WayOn(s: State, s0: State, s2: State, id: nat, k: Token, r: Item, boundary: Option<Boundary>, sessionId: string, availableAt: int)
    requires At(s2, k, id, Sending, r) && r.ClaimedBy(k) && s2 == Run(s0, [Inspect(k, boundary), StoreCall(k, Answered, availableAt)])
    requires s2.admissions == s.admissions && s2.commits == s.commits
    ensures var accepted := Run(s0, Way(k, boundary, sessionId, availableAt));
            var done := Step(accepted, if k in accepted.dispatchers then StoreCall(k, Answered, availableAt) else HookCommit(k, sessionId));
            && Left(done, k, id, r.(status := Committed, claim := None, acceptedSessionId := Some(sessionId)))
            && done.admissions == s.admissions + [k] && done.commits == s.commits + [id]
  {
    SendStep(s2, k, id, r, Admits);
    var s4 := Run(s2, [Deliver(k), Decide(k, Admits)]);
    ReplyStep(s4, k, id, r, sessionId);
    var s5 := Step(s4, Reply(k, sessionId));
    AcceptStep(s5, k, id, r, sessionId, availableAt);
    var s6 := Step(s5, StoreCall(k, Answered, availableAt));
    RunTwo(s4, Reply(k, sessionId), StoreCall(k, Answered, availableAt));
    RunAppend(s0, [Inspect(k, boundary), StoreCall(k, Answered, availableAt)], [Deliver(k), Decide(k, Admits)]);
    RunAppend(s0, [Inspect(k, boundary), StoreCall(k, Answered, availableAt)] + [Deliver(k), Decide(k, Admits)],
              [Reply(k, sessionId), StoreCall(k, Answered, availableAt)]);
    CommitStep(s6, k, id, r.(status := Status.Accepted, claim := None, acceptedSessionId := Some(sessionId)), sessionId, availableAt);
  }

  // ---- trouble ----

  /** What the boundary does not let through goes back to the queue, or fails if the session is over. */
  lemma HeldBack(s: State, k: Token, id: nat, r: Item, boundary: Option<Boundary>, availableAt: int)
    requires At(s, k, id, Inspecting, r) && r.ClaimedBy(k) && r.admissionStartedAt.None? && !LetsThrough(r.operation, boundary)
    ensures var s' := Run(s, [Inspect(k, boundary), StoreCall(k, Answered, availableAt)]);
            && s'.admissions == s.admissions
            && Left(s', k, id, if boundary == Some(Terminal) then r.(status := Failed, claim := None)
                               else r.(status := Queued, claim := None, admissionStartedAt := None, availableAt := availableAt))
  {
    InspectStep(s, k, id, r, boundary);
    RunTwo(s, Inspect(k, boundary), StoreCall(k, Answered, availableAt));
  }

  /** A failure caught by the dispatcher settles the row it still claims: back to the queue, failed, or ambiguous. */
  lemma FailureSettles(s: State, k: Token, id: nat, r: Item, failure: Failure, availableAt: int)
    requires At(s, k, id, Caught(failure), r) && r.ClaimedBy(k)
    ensures var s' := Run(s, [Find(k), StoreCall(k, Answered, availableAt)]);
            && s'.admissions == s.admissions
            && Left(s', k, id, match failure
                               case Busy => r.(status := Queued, claim := None, admissionStartedAt := None, availableAt := availableAt)
                               case Rejected => r.(status := Failed, claim := None)
                               case Other => r.(status := Ambiguous, claim := None))
  {
    RunTwo(s, Find(k), StoreCall(k, Answered, availableAt));
    SettleStep(Step(s, Find(k)), k, id, r, failure, availableAt);
  }

  lemma SettleStep(s: State, k: Token, id: nat, r: Item, failure: Failure, availableAt: int)
    requires At(s, k, id, Settling(failure), r) && r.ClaimedBy(k)
    ensures var s' := Step(s, StoreCall(k, Answered, availableAt));
            && s'.admissions == s.admissions
            && Left(s', k, id, match failure
                               case Busy => r.(status := Queued, claim := None, admissionStartedAt := None, availableAt := availableAt)
                               case Rejected => r.(status := Failed, claim := None)
                               case Other => r.(status := Ambiguous, claim := None))
  {
  }

  /** A row that was committed or cancelled meanwhile is left alone. */
  lemma FailureFindsSettled(s: State, k: Token, id: nat, r: Item, failure: Failure)
    requires At(s, k, id, Caught(failure), r) && (r.status.Committed? || r.status.Cancelled?)
    ensures Left(Step(s, Find(k)), k, id, r)
  {
  }

  /** A store call or a reply that is lost is caught as any other failure, or ends the pass if nothing was admitted or it is settling. */
  lemma LossIsCaught(s: State, k: Token, id: nat, r: Item, pc: Pc, end: CallEnd, availableAt: int)
    requires At(s, k, id, pc, r) && !end.Answered?
    ensures pc.Beginning? || pc.Accepting? || pc.AcceptLookup? || pc.Committing? ==>
              var s' := Step(s, StoreCall(k, end, availableAt));
              k in s'.dispatchers && s'.dispatchers[k] == Caught(Other) && (end.NotRun? ==> s'.table == s.table)
    ensures pc.Deferring? || pc.Refusing? || pc.Settling? ==>
              var s' := Step(s, StoreCall(k, end, availableAt)); k !in s'.dispatchers && (end.NotRun? ==> s'.table == s.table)
    ensures pc.Awaiting? ==> At(Step(s, LoseReply(k)), k, id, Caught(Other), r)
  {
  }

  /** A statement that selects no row changes none: inside the delivery that is caught, elsewhere it ends the pass. */
  lemma UnselectedRow(s: State, k: Token, id: nat, r: Item, pc: Pc, availableAt: int)
    requires At(s, k, id, pc, r)
    ensures var s' := Step(s, StoreCall(k, Answered, availableAt));
            && (pc.Beginning? && (!r.ClaimedBy(k) || r.admissionStartedAt.Some? || s.now > r.claim.value.expiresAt) ==> At(s', k, id, Caught(Other), r))
            && (pc.Committing? && r.acceptedSessionId.Some? && r.acceptedSessionId.value != pc.sessionId ==> At(s', k, id, Caught(Other), r))
            && (pc.Committing? && (r.status.Queued? || r.status.Failed? || r.status.Cancelled?) ==> At(s', k, id, Caught(Other), r))
            && ((pc.Deferring? || pc.Refusing? || pc.Settling?) && !r.ClaimedBy(k) ==> Left(s', k, id, r))
  {
  }

  /** A dispatcher calls the store only where its program does. */
  lemma OtherPlacesCallNothing(s: State, k: Token, id: nat, r: Item, pc: Pc, end: CallEnd, availableAt: int)
    requires At(s, k, id, pc, r)
    ensures pc.Inspecting? || pc.Sending? || pc.Awaiting? || pc.Caught? ==> Step(s, StoreCall(k, end, availableAt)) == s
  {
  }

  /** And it hears from the runtime only where its program does. */
  lemma OtherCallsDoNothing(s: State, k: Token, id: nat, r: Item, pc: Pc, sessionId: string)
    requires At(s, k, id, pc, r)
    ensures !pc.Awaiting? ==> Step(s, Reply(k, sessionId)) == s && Step(s, LoseReply(k)) == s
    ensures !pc.Sending? ==> Step(s, Deliver(k)) == s
    ensures !pc.Inspecting? ==> forall boundary: Option<Boundary> :: Step(s, Inspect(k, boundary)) == s
    ensures !pc.Caught? ==> Step(s, Find(k)) == s
  {
  }

  /** An accept that finds its claim gone looks the row up. */
  lemma LateAccept(s: State, k: Token, id: nat, r: Item, sessionId: string, availableAt: int)
    requires At(s, k, id, Accepting(sessionId), r) && !r.ClaimedBy(k)
    ensures At(Step(s, StoreCall(k, Answered, availableAt)), k, id, AcceptLookup(sessionId), r)
  {
  }

  /** The lookup goes on if the hook committed the row in this session, and is caught otherwise. */
  lemma LookupStep(s: State, k: Token, id: nat, r: Item, sessionId: string, availableAt: int)
    requires At(s, k, id, AcceptLookup(sessionId), r)
    ensures var s' := Step(s, StoreCall(k, Answered, availableAt));
            if !(r.status.Committed? && r.acceptedSessionId == Some(sessionId)) then At(s', k, id, Caught(Other), r)
            else if r.operation.Some? && r.operation.value.kind == Respond then At(s', k, id, Committing(sessionId), r)
            else Left(s', k, id, r)
  {
  }

  // ---- the owner and the edit gate ----

  lemma OwnerActs(s: State, owner: Owner, id: nat)
    requires id < |s.table| && s.table[id].owner == owner
    ensures var r, s' := s.table[id], Step(s, OwnerCancel(owner, id));
            s'.table == if r.status.Queued? || r.status.Failed? || (r.status.Delivering? && r.admissionStartedAt.None?)
                        then s.table[id := r.(status := Cancelled, claim := None, admissionStartedAt := None)] else s.table
    ensures var r := s.table[id];
            Step(s, OwnerRetry(owner, id)).table
            == if r.status.Failed? then s.table[id := r.(status := Queued, availableAt := s.now, admissionStartedAt := None)] else s.table
  {
  }

  /** What the owner cancelled is on record. */
  lemma CancelIsRecorded(s: State, owner: Owner, id: nat)
    requires id < |s.table|
    ensures var s' := Step(s, OwnerCancel(owner, id));
            s'.ownerCancelled == if s'.table != s.table || (s.table[id].owner == owner && OwnerMayCancel(s.table[id])) then s.ownerCancelled + {id} else s.ownerCancelled
  {
  }

  /** The two reapers: edits whose guarded admission is over two minutes old are cancelled, lapsed admissions become ambiguous. */
  lemma ReapersAct(s: State, i: nat)
    requires i < |s.table|
    ensures var r, expired, lapsed := s.table[i], Step(s, Expire), Step(s, LapseLeases);
            && i < |expired.table| && i < |lapsed.table|
            && var late := && (r.status.Delivering? || r.status.Accepted? || r.status.Ambiguous?) && r.operation.Some? && r.operation.value.guarded
                           && r.admissionStartedAt.Some? && s.now - r.admissionStartedAt.value > 120_000;
            && expired.table[i] == (if late then r.(status := Cancelled, claim := None) else r)
            && (i in expired.expired <==> late || i in s.expired)
            && lapsed.table[i] == if r.status.Delivering? && r.claim.Some? && r.admissionStartedAt.Some? && s.now > r.claim.value.expiresAt
                                  then r.(status := Ambiguous, claim := None) else r
  {
  }

  lemma TimePasses(s: State, to: int)
    ensures Step(s, Tick(to)) == s.(now := to)
  {
  }

  /** An admitted guarded edit is consumed exactly while its row is not settled otherwise, and is committed by that. */
  lemma EditIsConsumed(s: State, k: Token, id: nat, r: Item, edit: EditIdentity)
    requires k in s.requests && s.requests[k] == Some(Admits) && k < |s.tokens| && s.tokens[k] == id && id < |s.table| && s.table[id] == r
    requires EditMatches(r, edit) && r.operation.value.guarded
    ensures var s' := Step(s, Consume(k, edit));
            if r.status.Delivering? || r.status.Accepted? || r.status.Ambiguous? || r.status.Committed? then
              && s'.table == s.table[id := r.(status := Committed, claim := None, acceptedSessionId := Some(edit.sessionId))]
              && k in s'.consumed
            else s' == s
  {
  }
}
