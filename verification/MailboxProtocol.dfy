/**
 The delivery protocol: any number of dispatchers, the runtime that admits messages, the owner
 and the commit hook, interleaved one statement at a time over one mailbox table.

 A claim token names one run of the dispatcher. A run may crash between any two statements, and
 the answer of any call may be lost.
 */
module MailboxProtocol {
  import opened Common
  import opened MailboxTable

  // ---- the dispatcher's program ----

  datatype Boundary = Running(turnId: Option<string>, editGuard: bool) | Waiting(editGuard: bool) | Terminal

  datatype Failure = Busy | Rejected | Other

  /** Where a dispatcher stands; every constructor names the call it makes next. */
  datatype Pc =
    | Inspecting
    | Deferring
    | Refusing
    | Beginning(guardEdit: bool)
    | Sending
    | Awaiting
    | Accepting(sessionId: string)
    | AcceptLookup(sessionId: string)
    | Committing(sessionId: string)
    | Caught(failure: Failure)
    | Settling(failure: Failure)

  /** The runtime's decision about one delivery request. */
  datatype Decision = Admits | AnswersBusy | Rejects

  predicate CanSteer(r: Item, turnId: Option<string>) {
    && r.IsKind(Steer) && r.operation.value.expectedTurnId.Some?
    && r.operation.value.expectedTurnId == turnId
  }

  /** The branch the dispatcher takes on the inspected boundary; `None` is a failed inspection. */
  function AfterInspect(r: Item, boundary: Option<Boundary>): Pc {
    match boundary
    case None => Deferring
    case Some(Running(turnId, guard)) => if CanSteer(r, turnId) then Beginning(r.IsKind(Edit) && guard) else Deferring
    case Some(Terminal) => Refusing
    case Some(Waiting(guard)) => Beginning(r.IsKind(Edit) && guard)
  }

  // ---- the protocol state ----

  /**
   `tokens[k]` is the item claimed with token `k`. `requests` holds every delivery request that left a
   dispatcher, with the runtime's decision once it made one. The last six fields are a log of what happened:
   the boundary each token inspected; tokens whose request was admitted, in order; tokens whose edit was consumed;
   items in the order they committed; items the reaper expired; items the owner cancelled.
   */
  datatype State = State(
    now: int,
    table: Table,
    tokens: seq<nat>,
    dispatchers: map<Token, Pc>,
    requests: map<Token, Option<Decision>>,
    inspected: map<Token, Option<Boundary>>,
    admissions: seq<Token>,
    consumed: set<Token>,
    commits: seq<nat>,
    expired: set<nat>,
    ownerCancelled: set<nat>)

  const INITIAL: State := State(0, [], [], map[], map[], map[], [], {}, [], {}, {})

  datatype Action =
    | Tick(to: int)
    | EnqueueItem(input: NewItem, sessionOwner: Option<Owner>)
    | Expire
    | LapseLeases
    | ClaimItem(id: nat, leaseMs: nat)
    | Inspect(token: Token, boundary: Option<Boundary>)
    | StoreCall(token: Token, end: CallEnd, availableAt: int)
    | Deliver(token: Token)
    | Decide(token: Token, decision: Decision)
    | Reply(token: Token, sessionId: string)
    | LoseReply(token: Token)
    | Find(token: Token)
    | Crash(token: Token)
    | HookCommit(token: Token, sessionId: string)
    | Consume(token: Token, edit: EditIdentity)
    | OwnerCancel(owner: Owner, id: nat)
    | OwnerRetry(owner: Owner, id: nat)

  // ---- steps ----

  /** Replaces one row and records it in `commits` when this makes it committed. */
  function Put(s: State, id: nat, r: Item): State
    requires id < |s.table|
  {
    s.(table := s.table[id := r],
       commits := if r.status.Committed? && !s.table[id].status.Committed? then s.commits + [id] else s.commits)
  }

  function Leave(s: State, token: Token): State {
    s.(dispatchers := s.dispatchers - {token})
  }

  function Goto(s: State, token: Token, pc: Pc): State {
    s.(dispatchers := s.dispatchers[token := pc])
  }

  function StepExpire(s: State): State {
    var table := ExpireEdits(s.table, s.now);
    s.(table := table,
       expired := s.expired + set i | 0 <= i < |s.table| && s.table[i] != table[i])
  }

  function StepClaim(s: State, id: nat, leaseMs: nat): State {
    if Claimable(s.table, id, s.now) then
      var token := |s.tokens|;
      s.(table := s.table[id := ClaimRow(s.table[id], token, s.now, leaseMs)],
         tokens := s.tokens + [id],
         dispatchers := s.dispatchers[token := Inspecting])
    else s
  }

  /** The row a dispatcher's next store call would leave; `None` when it selects no row. */
  function CallRow(r: Item, token: Token, pc: Pc, now: int, availableAt: int): Option<Item> {
    match pc
    case Deferring => Defer(r, token, availableAt)
    case Refusing => Fail(r, token)
    case Beginning(guardEdit) => BeginAdmission(r, token, guardEdit, now)
    case Accepting(sessionId) => Accept(r, token, sessionId)
    case Committing(sessionId) => Commit(r, sessionId)
    case Settling(Busy) => DeferRejectedAdmission(r, token, availableAt)
    case Settling(Rejected) => Fail(r, token)
    case Settling(Other) => MarkSubmissionAmbiguous(r, token)
    case _ => None
  }

  /** Where the dispatcher continues after a store call, or `None` when `dispatchNext` returns or throws. */
  function AfterCall(r: Item, pc: Pc, succeeded: bool): Option<Pc> {
    match pc
    case Beginning(_) => Some(if succeeded then Sending else Caught(Other))
    case Accepting(sessionId) =>
      if !succeeded then Some(AcceptLookup(sessionId))
      else if r.IsKind(Respond) then Some(Committing(sessionId)) else None
    case AcceptLookup(sessionId) =>
      if !(r.status.Committed? && r.acceptedSessionId == Some(sessionId)) then Some(Caught(Other))
      else if r.IsKind(Respond) then Some(Committing(sessionId)) else None
    case Committing(_) => if succeeded then None else Some(Caught(Other))
    case _ => None
  }

  /** A failed or lost call inside the dispatcher's `try` block enters its `catch` block. */
  function AfterError(pc: Pc): Option<Pc> {
    if pc.Beginning? || pc.Accepting? || pc.AcceptLookup? || pc.Committing? then Some(Caught(Other)) else None
  }

  predicate CallsStore(pc: Pc) {
    pc.Deferring? || pc.Refusing? || pc.Beginning? || pc.Accepting? || pc.AcceptLookup? || pc.Committing? || pc.Settling?
  }

  function StepStoreCall(s: State, token: Token, end: CallEnd, availableAt: int): State {
    if token in s.dispatchers && token < |s.tokens| && s.tokens[token] < |s.table| && CallsStore(s.dispatchers[token]) then
      var id := s.tokens[token];
      var pc := s.dispatchers[token];
      var row := CallRow(s.table[id], token, pc, s.now, availableAt);
      var s' := if end.NotRun? || row.None? then s else Put(s, id, row.value);
      var next := if end.Answered? then AfterCall(s.table[id], pc, row.Some?) else AfterError(pc);
      if next.Some? then Goto(s', token, next.value) else Leave(s', token)
    else s
  }

  function StepReply(s: State, token: Token, sessionId: string): State {
    if token in s.dispatchers && s.dispatchers[token].Awaiting? && token in s.requests && s.requests[token].Some? then
      Goto(s, token, match s.requests[token].value
                     case Admits => Accepting(sessionId)
                     case AnswersBusy => Caught(Busy)
                     case Rejects => Caught(Rejected))
    else s
  }

  function StepFind(s: State, token: Token): State {
    if token in s.dispatchers && s.dispatchers[token].Caught? && token < |s.tokens| && s.tokens[token] < |s.table| then
      if s.table[s.tokens[token]].Settled() then Leave(s, token)
      else Goto(s, token, Settling(s.dispatchers[token].failure))
    else s
  }

  /** The runtime holds an admitted request of this token. */
  predicate Admitted(s: State, token: Token) {
    token in s.requests && s.requests[token] == Some(Admits) && token < |s.tokens| && s.tokens[token] < |s.table|
  }

  function StepHookCommit(s: State, token: Token, sessionId: string): State {
    if Admitted(s, token) then
      var id := s.tokens[token];
      var row := Commit(s.table[id], sessionId);
      if row.Some? then Put(s, id, row.value) else s
    else s
  }

  function StepConsume(s: State, token: Token, edit: EditIdentity): State {
    if Admitted(s, token) && EditAllowed(s.table[s.tokens[token]], edit) then
      var id := s.tokens[token];
      Put(s, id, ConsumeEdit(s.table[id], edit)).(consumed := s.consumed + {token})
    else s
  }

  function StepOwnerCancel(s: State, owner: Owner, id: nat): State {
    if id < |s.table| && CancelOwned(s.table[id], owner).Some? then
      Put(s, id, CancelOwned(s.table[id], owner).value).(ownerCancelled := s.ownerCancelled + {id})
    else s
  }

  function StepOwnerRetry(s: State, owner: Owner, id: nat): State {
    if id < |s.table| && RetryOwned(s.table[id], owner, s.now).Some? then
      Put(s, id, RetryOwned(s.table[id], owner, s.now).value)
    else s
  }

  function Step(s: State, a: Action): State {
    match a
    case Tick(to) => s.(now := to)
    case EnqueueItem(input, sessionOwner) => s.(table := Enqueue(s.table, input, sessionOwner))
    case Expire => StepExpire(s)
    case LapseLeases => s.(table := LapseAdmissions(s.table, s.now))
    case ClaimItem(id, leaseMs) => StepClaim(s, id, leaseMs)
    case Inspect(token, boundary) =>
      if token in s.dispatchers && s.dispatchers[token].Inspecting? && token < |s.tokens| && s.tokens[token] < |s.table|
      then Goto(s, token, AfterInspect(s.table[s.tokens[token]], boundary)).(inspected := s.inspected[token := boundary]) else s
    case StoreCall(token, end, availableAt) => StepStoreCall(s, token, end, availableAt)
    case Deliver(token) =>
      if token in s.dispatchers && s.dispatchers[token].Sending?
      then Goto(s, token, Awaiting).(requests := s.requests[token := None]) else s
    case Decide(token, decision) =>
      if token in s.requests && s.requests[token].None?
      then s.(requests := s.requests[token := Some(decision)],
              admissions := if decision.Admits? then s.admissions + [token] else s.admissions)
      else s
    case Reply(token, sessionId) => StepReply(s, token, sessionId)
    case LoseReply(token) =>
      if token in s.dispatchers && s.dispatchers[token].Awaiting? then Goto(s, token, Caught(Other)) else s
    case Find(token) => StepFind(s, token)
    case Crash(token) => Leave(s, token)
    case HookCommit(token, sessionId) => StepHookCommit(s, token, sessionId)
    case Consume(token, edit) => StepConsume(s, token, edit)
    case OwnerCancel(owner, id) => StepOwnerCancel(s, owner, id)
    case OwnerRetry(owner, id) => StepOwnerRetry(s, owner, id)
  }

  /** The state after a run from the empty mailbox. */
  function Exec(run: seq<Action>): State {
    if run == [] then INITIAL else Step(Exec(run[..|run| - 1]), run[|run| - 1])
  }

  // ---- the invariant ----

  function PcOf(dispatchers: map<Token, Pc>, k: Token): Option<Pc> {
    if k in dispatchers then Some(dispatchers[k]) else None
  }

  function RequestOf(requests: map<Token, Option<Decision>>, k: Token): Option<Option<Decision>> {
    if k in requests then Some(requests[k]) else None
  }

  /** The request was admitted, may still be admitted, or is about to be sent. */
  predicate IsLive(pc: Option<Pc>, request: Option<Option<Decision>>) {
    pc == Some(Sending) || request == Some(None) || request == Some(Some(Admits))
  }

  predicate Live(dispatchers: map<Token, Pc>, requests: map<Token, Option<Decision>>, k: Token) {
    IsLive(PcOf(dispatchers, k), RequestOf(requests, k))
  }

  /** The table's check constraint on the claim columns, and what a claim leaves behind. */
  predicate RowWellFormed(r: Item) {
    (r.status.Delivering? <==> r.claim.Some?) && (!r.status.Queued? && !r.status.Cancelled? ==> r.attemptCount > 0)
  }

  predicate RowLinked(r: Item, i: nat, tokens: seq<nat>) {
    RowWellFormed(r) && (r.claim.Some? ==> r.claim.value.token < |tokens| && tokens[r.claim.value.token] == i)
  }

  ghost predicate Linked(t: Table, tokens: seq<nat>) {
    && (forall k :: 0 <= k < |tokens| ==> tokens[k] < |t|)
    && (forall i :: 0 <= i < |t| ==> RowLinked(t[i], i, tokens))
  }

  ghost predicate Known(tokens: seq<nat>, dispatchers: map<Token, Pc>, requests: map<Token, Option<Decision>>) {
    (forall k: Token <- dispatchers :: k < |tokens|) && (forall k: Token <- requests :: k < |tokens|)
  }

  ghost predicate WellFormed(s: State) {
    Linked(s.table, s.tokens) && Known(s.tokens, s.dispatchers, s.requests)
  }

  /** A row that cannot lead to a second delivery while the request of token `k` is live. */
  predicate Held(r: Item, k: Token) {
    && r.admissionStartedAt.Some?
    && !r.status.Queued? && !r.status.Failed?
    && (r.status.Delivering? ==> r.ClaimedBy(k))
    && (r.status.Cancelled? ==> r.Guarded())
  }

  /** What a dispatcher knows about its request at each point of its program. */
  predicate PcAgrees(r: Item, k: Token, pc: Pc, request: Option<Option<Decision>>) {
    match pc
    case Inspecting => request.None? && (r.ClaimedBy(k) ==> r.admissionStartedAt.None?)
    case Deferring => request.None? && (r.ClaimedBy(k) ==> r.admissionStartedAt.None?)
    case Refusing => request.None? && (r.ClaimedBy(k) ==> r.admissionStartedAt.None?)
    case Beginning(_) => request.None? && (r.ClaimedBy(k) ==> r.admissionStartedAt.None?)
    case Sending => request.None?
    case Awaiting => request.Some?
    case Accepting(_) => request == Some(Some(Admits))
    case AcceptLookup(_) => request == Some(Some(Admits))
    case Committing(_) => request == Some(Some(Admits))
    case Caught(Busy) => request == Some(Some(AnswersBusy))
    case Caught(Rejected) => request == Some(Some(Rejects))
    case Caught(Other) => true
    case Settling(Busy) => request == Some(Some(AnswersBusy))
    case Settling(Rejected) => request == Some(Some(Rejects))
    case Settling(Other) => true
  }

  /** A token beside the row it claimed. */
  predicate TokenOk(r: Item, k: Token, pc: Option<Pc>, request: Option<Option<Decision>>) {
    (IsLive(pc, request) ==> Held(r, k)) && (pc.Some? ==> PcAgrees(r, k, pc.value, request))
  }

  ghost predicate TokensOk(t: Table, tokens: seq<nat>, dispatchers: map<Token, Pc>, requests: map<Token, Option<Decision>>) {
    forall k :: 0 <= k < |tokens| ==> tokens[k] < |t| && TokenOk(t[tokens[k]], k, PcOf(dispatchers, k), RequestOf(requests, k))
  }

  /** Of the tokens of one item at most one is live. */
  ghost predicate OneLive(tokens: seq<nat>, dispatchers: map<Token, Pc>, requests: map<Token, Option<Decision>>) {
    forall k, l :: 0 <= k < l < |tokens| && tokens[k] == tokens[l] ==> !Live(dispatchers, requests, k) || !Live(dispatchers, requests, l)
  }

  ghost predicate AdmissionsOk(requests: map<Token, Option<Decision>>, admissions: seq<Token>) {
    && NoDuplicates(admissions)
    && forall k: Token {:trigger k in admissions} :: k in admissions <==> RequestOf(requests, k) == Some(Some(Admits))
  }

  predicate Consumable(r: Item) {
    !r.status.Cancelled? && (r.Guarded() ==> r.status.Committed?)
  }

  ghost predicate ConsumedOk(t: Table, tokens: seq<nat>, requests: map<Token, Option<Decision>>, consumed: set<Token>) {
    forall k: Token <- consumed ::
      k < |tokens| && tokens[k] < |t| && RequestOf(requests, k) == Some(Some(Admits)) && Consumable(t[tokens[k]])
  }

  /** The reaper cancels what an admission had started, the owner what none had. */
  ghost predicate CancelledOk(t: Table, expired: set<nat>, ownerCancelled: set<nat>) {
    && (forall i: nat <- expired :: i < |t| && t[i].status.Cancelled? && t[i].admissionStartedAt.Some?)
    && (forall i: nat <- ownerCancelled :: i < |t| && t[i].status.Cancelled? && t[i].admissionStartedAt.None?)
  }

  ghost predicate Inv(s: State) {
    && Linked(s.table, s.tokens) && Known(s.tokens, s.dispatchers, s.requests)
    && TokensOk(s.table, s.tokens, s.dispatchers, s.requests) && OneLive(s.tokens, s.dispatchers, s.requests)
    && AdmissionsOk(s.requests, s.admissions) && ConsumedOk(s.table, s.tokens, s.requests, s.consumed)
    && CancelledOk(s.table, s.expired, s.ownerCancelled)
  }

  // ---- preservation: rows ----

  /** What every update of a row but a claim keeps. */
  predicate Quiet(r: Item, r': Item) {
    && RowWellFormed(r') && (r'.claim.None? || r'.claim == r.claim)
    && (r.status.Cancelled? ==> r'.status.Cancelled? && r'.admissionStartedAt == r.admissionStartedAt)
    && (r.Guarded() ==> r'.Guarded()) && (r.status.Committed? ==> r'.status.Committed?)
  }

  /** The row's update suits every token of the row. */
  ghost predicate Suits(s: State, id: nat, r: Item) {
    && (forall k :: 0 <= k < |s.tokens| && s.tokens[k] == id ==> TokenOk(r, k, PcOf(s.dispatchers, k), RequestOf(s.requests, k)))
    && (forall k: Token <- s.consumed :: k < |s.tokens| && s.tokens[k] == id ==> Consumable(r))
  }

  lemma PutKeeps(s: State, id: nat, r: Item)
    requires Inv(s) && id < |s.table| && Quiet(s.table[id], r) && Suits(s, id, r)
    ensures Inv(Put(s, id, r))
  {
    var t := s.table[id := r];
    assert Linked(t, s.tokens);
    assert TokensOk(t, s.tokens, s.dispatchers, s.requests);
    assert ConsumedOk(t, s.tokens, s.requests, s.consumed);
    assert CancelledOk(t, s.expired, s.ownerCancelled);
  }

  /** An update that sets no mark suits a token whose request does not need the row, or that still finds it held. */
  lemma TokenStays(r: Item, r': Item, k: Token, pc: Option<Pc>, request: Option<Option<Decision>>)
    requires TokenOk(r, k, pc, request) && Quiet(r, r') && (r'.claim.Some? ==> r'.admissionStartedAt == r.admissionStartedAt)
    requires RowWellFormed(r) && (IsLive(pc, request) ==> Held(r', k))
    ensures TokenOk(r', k, pc, request)
  {
  }

  /** A row that some request still needs holds; one that was consumed is needed. */
  lemma InvToken(s: State, k: Token)
    requires Inv(s) && k < |s.tokens|
    ensures s.tokens[k] < |s.table| && RowLinked(s.table[s.tokens[k]], s.tokens[k], s.tokens)
    ensures TokenOk(s.table[s.tokens[k]], k, PcOf(s.dispatchers, k), RequestOf(s.requests, k))
    ensures k in s.consumed ==> Held(s.table[s.tokens[k]], k) && Consumable(s.table[s.tokens[k]])
  {
  }

  lemma EnqueueKeeps(s: State, input: NewItem, sessionOwner: Option<Owner>)
    requires Inv(s)
    ensures Inv(Step(s, EnqueueItem(input, sessionOwner)))
  {
    var t := Enqueue(s.table, input, sessionOwner);
    assert forall i :: 0 <= i < |s.table| ==> t[i] == s.table[i];
    assert Linked(t, s.tokens);
    assert TokensOk(t, s.tokens, s.dispatchers, s.requests);
    assert ConsumedOk(t, s.tokens, s.requests, s.consumed);
    assert CancelledOk(t, s.expired, s.ownerCancelled);
  }

  /** An update of many rows, each of which suits whatever it suited before. */
  predicate Harmless(r: Item, r': Item) {
    && Quiet(r, r') && (r'.claim.Some? ==> r'.admissionStartedAt == r.admissionStartedAt)
    && (r' == r || (r.admissionStartedAt.Some? && (r'.status.Ambiguous? || (r'.status.Cancelled? && r.Guarded() && !r.status.Committed?))
                    && r'.admissionStartedAt.Some? && r'.Guarded() == r.Guarded()))
  }

  lemma HarmlessSuits(r: Item, r': Item, k: Token, pc: Option<Pc>, request: Option<Option<Decision>>)
    requires TokenOk(r, k, pc, request) && RowWellFormed(r) && Harmless(r, r')
    ensures TokenOk(r', k, pc, request) && (Consumable(r) ==> Consumable(r'))
  {
  }

  lemma ManyKeep(s: State, t: Table, expired: set<nat>)
    requires Inv(s) && |t| == |s.table| && forall i :: 0 <= i < |t| ==> Harmless(s.table[i], t[i])
    requires s.expired <= expired && forall i <- expired - s.expired :: i < |t| && t[i].status.Cancelled? && t[i].admissionStartedAt.Some?
    ensures Inv(s.(table := t, expired := expired))
  {
    forall k | 0 <= k < |s.tokens|
      ensures s.tokens[k] < |t| && TokenOk(t[s.tokens[k]], k, PcOf(s.dispatchers, k), RequestOf(s.requests, k))
      ensures k in s.consumed ==> Consumable(t[s.tokens[k]])
    {
      InvToken(s, k);
      HarmlessSuits(s.table[s.tokens[k]], t[s.tokens[k]], k, PcOf(s.dispatchers, k), RequestOf(s.requests, k));
    }
    LinkedStays(s.table, t, s.tokens);
    CancelledStays(s.table, t, s.expired, expired, s.ownerCancelled);
  }

  lemma LinkedStays(t: Table, t': Table, tokens: seq<nat>)
    requires Linked(t, tokens) && |t'| == |t| && forall i :: 0 <= i < |t| ==> Quiet(t[i], t'[i])
    ensures Linked(t', tokens)
  {
    forall i | 0 <= i < |t'| ensures RowLinked(t'[i], i, tokens) { assert RowLinked(t[i], i, tokens) && Quiet(t[i], t'[i]); }
  }

  lemma CancelledStays(t: Table, t': Table, expired: set<nat>, expired': set<nat>, ownerCancelled: set<nat>)
    requires CancelledOk(t, expired, ownerCancelled) && |t'| == |t| && forall i :: 0 <= i < |t| ==> Quiet(t[i], t'[i])
    requires forall i <- expired' - expired :: i < |t'| && t'[i].status.Cancelled? && t'[i].admissionStartedAt.Some?
    ensures CancelledOk(t', expired', ownerCancelled)
  {
    forall i | 0 <= i < |t| ensures t[i].status.Cancelled? ==> t'[i].status.Cancelled? && t'[i].admissionStartedAt == t[i].admissionStartedAt {
      assert Quiet(t[i], t'[i]);
    }
    forall i | i in expired' ensures i < |t'| && t'[i].status.Cancelled? && t'[i].admissionStartedAt.Some? {
      if i !in expired { assert i in expired' - expired; }
    }
  }

  lemma ExpireKeeps(s: State)
    requires Inv(s)
    ensures Inv(StepExpire(s))
  {
    var t := ExpireEdits(s.table, s.now);
    forall i | 0 <= i < |t| ensures Harmless(s.table[i], t[i]) && (t[i] == s.table[i] || (t[i].status.Cancelled? && t[i].admissionStartedAt.Some?)) {
      assert RowLinked(s.table[i], i, s.tokens);
    }
    ManyKeep(s, t, s.expired + set i | 0 <= i < |s.table| && s.table[i] != t[i]);
  }

  lemma LapseKeeps(s: State)
    requires Inv(s)
    ensures Inv(Step(s, LapseLeases))
  {
    var t := LapseAdmissions(s.table, s.now);
    forall i | 0 <= i < |t| ensures Harmless(s.table[i], t[i]) { assert RowLinked(s.table[i], i, s.tokens); }
    ManyKeep(s, t, s.expired);
  }

  // ---- preservation: claims ----

  /** A new claim of a row that no live request holds. */
  lemma ClaimSuits(r: Item, r': Item, k: Token, pc: Option<Pc>, request: Option<Option<Decision>>, token: Token, now: int, leaseMs: nat)
    requires TokenOk(r, k, pc, request) && RowWellFormed(r) && Due(r, now) && r' == ClaimRow(r, token, now, leaseMs) && k < token
    ensures TokenOk(r', k, pc, request) && !IsLive(pc, request)
  {
  }

  lemma ClaimedTokens(s: State, id: nat, r': Item, leaseMs: nat)
    requires Inv(s) && Claimable(s.table, id, s.now) && r' == ClaimRow(s.table[id], |s.tokens|, s.now, leaseMs)
    ensures TokensOk(s.table[id := r'], s.tokens, s.dispatchers, s.requests)
    ensures forall k :: 0 <= k < |s.tokens| && s.tokens[k] == id ==> !Live(s.dispatchers, s.requests, k)
  {
    forall k | 0 <= k < |s.tokens| && s.tokens[k] == id
      ensures TokenOk(r', k, PcOf(s.dispatchers, k), RequestOf(s.requests, k)) && !Live(s.dispatchers, s.requests, k)
    {
      InvToken(s, k);
      ClaimSuits(s.table[id], r', k, PcOf(s.dispatchers, k), RequestOf(s.requests, k), |s.tokens|, s.now, leaseMs);
    }
  }

  /** A new token that starts to inspect. */
  lemma TokenAdded(t: Table, tokens: seq<nat>, dispatchers: map<Token, Pc>, requests: map<Token, Option<Decision>>, id: nat)
    requires TokensOk(t, tokens, dispatchers, requests) && OneLive(tokens, dispatchers, requests) && |tokens| !in requests
    requires id < |t| && t[id].admissionStartedAt.None?
    ensures TokensOk(t, tokens + [id], dispatchers[|tokens| := Inspecting], requests)
    ensures OneLive(tokens + [id], dispatchers[|tokens| := Inspecting], requests)
  {
    var token, dispatchers' := |tokens|, dispatchers[|tokens| := Inspecting];
    assert !Live(dispatchers', requests, token);
    forall k | 0 <= k < token ensures PcOf(dispatchers', k) == PcOf(dispatchers, k) && (tokens + [id])[k] == tokens[k] {
    }
  }

  lemma ClaimLinks(s: State, id: nat, leaseMs: nat)
    requires Inv(s) && Claimable(s.table, id, s.now)
    ensures WellFormed(StepClaim(s, id, leaseMs))
  {
    var s' := StepClaim(s, id, leaseMs);
    forall i | 0 <= i < |s'.table| ensures RowLinked(s'.table[i], i, s'.tokens) { assert RowLinked(s.table[i], i, s.tokens); }
  }

  lemma ClaimKeeps(s: State, id: nat, leaseMs: nat)
    requires Inv(s)
    ensures Inv(StepClaim(s, id, leaseMs))
  {
    if Claimable(s.table, id, s.now) {
      var s' := StepClaim(s, id, leaseMs);
      ClaimLinks(s, id, leaseMs);
      ClaimedTokens(s, id, s'.table[id], leaseMs);
      TokenAdded(s'.table, s.tokens, s.dispatchers, s.requests, id);
      forall k: Token <- s.consumed ensures s.tokens[k] != id { assert Live(s.dispatchers, s.requests, k); }
      assert ConsumedOk(s'.table, s'.tokens, s'.requests, s'.consumed);
    }
  }

  // ---- preservation: dispatchers and requests ----

  /** Moving one token's dispatcher or request, so that no other request comes to life. */
  lemma TokenMoves(s: State, dispatchers: map<Token, Pc>, requests: map<Token, Option<Decision>>, token: Token)
    requires Inv(s) && token < |s.tokens| && Known(s.tokens, dispatchers, requests)
    requires forall k :: k != token ==> PcOf(dispatchers, k) == PcOf(s.dispatchers, k) && RequestOf(requests, k) == RequestOf(s.requests, k)
    requires Live(dispatchers, requests, token) ==> Live(s.dispatchers, s.requests, token)
    requires TokenOk(s.table[s.tokens[token]], token, PcOf(dispatchers, token), RequestOf(requests, token))
    ensures TokensOk(s.table, s.tokens, dispatchers, requests) && OneLive(s.tokens, dispatchers, requests)
  {
    forall k | 0 <= k < |s.tokens| ensures Live(dispatchers, requests, k) ==> Live(s.dispatchers, s.requests, k) {
    }
  }

  lemma GotoKeeps(s: State, token: Token, pc: Pc)
    requires Inv(s) && token < |s.tokens| && !pc.Sending?
    requires PcAgrees(s.table[s.tokens[token]], token, pc, RequestOf(s.requests, token))
    ensures Inv(Goto(s, token, pc))
  {
    TokenMoves(s, s.dispatchers[token := pc], s.requests, token);
  }

  lemma LeaveKeeps(s: State, token: Token)
    requires Inv(s)
    ensures Inv(Leave(s, token))
  {
    var dispatchers := s.dispatchers - {token};
    if token < |s.tokens| {
      TokenMoves(s, dispatchers, s.requests, token);
    } else {
      assert dispatchers == s.dispatchers;
    }
  }

  lemma InspectKeeps(s: State, token: Token, boundary: Option<Boundary>)
    requires Inv(s)
    ensures Inv(Step(s, Inspect(token, boundary)))
  {
    if token in s.dispatchers && s.dispatchers[token].Inspecting? {
      InvToken(s, token);
      GotoKeeps(s, token, AfterInspect(s.table[s.tokens[token]], boundary));
    }
  }

  lemma AdmissionsStay(requests: map<Token, Option<Decision>>, admissions: seq<Token>, token: Token, request: Option<Decision>)
    requires AdmissionsOk(requests, admissions) && (token in requests ==> requests[token].None?)
    ensures AdmissionsOk(requests[token := request], if request == Some(Admits) then admissions + [token] else admissions)
  {
    assert token !in admissions;
    forall k: Token | k != token ensures RequestOf(requests[token := request], k) == RequestOf(requests, k) {
    }
  }

  lemma DeliverKeeps(s: State, token: Token)
    requires Inv(s)
    ensures Inv(Step(s, Deliver(token)))
  {
    if token in s.dispatchers && s.dispatchers[token].Sending? {
      var requests := s.requests[token := None];
      InvToken(s, token);
      AdmissionsStay(s.requests, s.admissions, token, None);
      TokenMoves(s, s.dispatchers[token := Awaiting], requests, token);
      assert ConsumedOk(s.table, s.tokens, requests, s.consumed);
    }
  }

  lemma DecideKeeps(s: State, token: Token, decision: Decision)
    requires Inv(s)
    ensures Inv(Step(s, Decide(token, decision)))
  {
    if token in s.requests && s.requests[token].None? {
      var requests := s.requests[token := Some(decision)];
      InvToken(s, token);
      AdmissionsStay(s.requests, s.admissions, token, Some(decision));
      TokenMoves(s, s.dispatchers, requests, token);
      assert ConsumedOk(s.table, s.tokens, requests, s.consumed);
    }
  }

  lemma ReplyKeeps(s: State, token: Token, sessionId: string)
    requires Inv(s)
    ensures Inv(StepReply(s, token, sessionId))
  {
    if token in s.dispatchers && s.dispatchers[token].Awaiting? && token in s.requests && s.requests[token].Some? {
      GotoKeeps(s, token, match s.requests[token].value
                          case Admits => Accepting(sessionId)
                          case AnswersBusy => Caught(Busy)
                          case Rejects => Caught(Rejected));
    }
  }

  lemma LoseReplyKeeps(s: State, token: Token)
    requires Inv(s)
    ensures Inv(Step(s, LoseReply(token)))
  {
    if token in s.dispatchers { GotoKeeps(s, token, Caught(Other)); }
  }

  lemma FindKeeps(s: State, token: Token)
    requires Inv(s)
    ensures Inv(StepFind(s, token))
  {
    if token in s.dispatchers && s.dispatchers[token].Caught? {
      InvToken(s, token);
      if s.table[s.tokens[token]].Settled() { LeaveKeeps(s, token); }
      else { GotoKeeps(s, token, Settling(s.dispatchers[token].failure)); }
    }
  }

  // ---- preservation: store calls ----

  ghost predicate CanBegin(s: State, token: Token, guardEdit: bool) {
    && Inv(s) && token in s.dispatchers && s.dispatchers[token].Beginning?
    && BeginAdmission(s.table[s.tokens[token]], token, guardEdit, s.now).Some?
  }

  function Begun(s: State, token: Token, guardEdit: bool): Item
    requires token < |s.tokens| && s.tokens[token] < |s.table|
    requires BeginAdmission(s.table[s.tokens[token]], token, guardEdit, s.now).Some?
  {
    BeginAdmission(s.table[s.tokens[token]], token, guardEdit, s.now).value
  }

  /** Only the claiming token's own dispatcher minds the admission mark. */
  lemma BeginSuits(r: Item, token: Token, guardEdit: bool, now: int, k: Token, pc: Option<Pc>, request: Option<Option<Decision>>)
    requires TokenOk(r, k, pc, request) && BeginAdmission(r, token, guardEdit, now).Some?
    ensures !IsLive(pc, request) && (k != token ==> TokenOk(BeginAdmission(r, token, guardEdit, now).value, k, pc, request))
    ensures Held(BeginAdmission(r, token, guardEdit, now).value, token)
  {
  }

  /** Leaving before the mark is set, setting it and going on is the same as all at once. */
  lemma BeginWithout(s: State, token: Token, guardEdit: bool)
    requires CanBegin(s, token, guardEdit)
    ensures Inv(Put(Leave(s, token), s.tokens[token], Begun(s, token, guardEdit)))
    ensures forall k :: 0 <= k < |s.tokens| && s.tokens[k] == s.tokens[token] ==> !Live(s.dispatchers, s.requests, k)
  {
    var id, left := s.tokens[token], Leave(s, token);
    var r, r' := s.table[id], Begun(s, token, guardEdit);
    LeaveKeeps(s, token);
    InvToken(s, token);
    forall k | 0 <= k < |s.tokens| && s.tokens[k] == id
      ensures TokenOk(r', k, PcOf(left.dispatchers, k), RequestOf(s.requests, k)) && !Live(s.dispatchers, s.requests, k)
    {
      InvToken(s, k);
      BeginSuits(r, token, guardEdit, s.now, k, PcOf(s.dispatchers, k), RequestOf(s.requests, k));
    }
    forall k: Token <- s.consumed ensures s.tokens[k] != id { assert Live(s.dispatchers, s.requests, k); }
    PutKeeps(left, id, r');
  }

  /** Setting the admission mark makes this token the only one of its item that can be live. */
  lemma BeginKeeps(s: State, token: Token, guardEdit: bool, next: Pc)
    requires CanBegin(s, token, guardEdit) && (next == Sending || next == Caught(Other))
    ensures Inv(Goto(Put(s, s.tokens[token], Begun(s, token, guardEdit)), token, next))
  {
    var id := s.tokens[token];
    var left := Put(Leave(s, token), id, Begun(s, token, guardEdit));
    BeginWithout(s, token, guardEdit);
    InvToken(s, token);
    BeginSuits(s.table[id], token, guardEdit, s.now, token, PcOf(s.dispatchers, token), RequestOf(s.requests, token));
    assert (s.dispatchers - {token})[token := next] == s.dispatchers[token := next];
    StartKeeps(left, token, next);
  }

  /** A dispatcher may start to send when no other token of its item is live. */
  lemma StartKeeps(s: State, token: Token, next: Pc)
    requires Inv(s) && token < |s.tokens| && (next == Sending || next == Caught(Other)) && RequestOf(s.requests, token).None?
    requires Held(s.table[s.tokens[token]], token)
    requires forall k :: 0 <= k < |s.tokens| && s.tokens[k] == s.tokens[token] ==> !Live(s.dispatchers, s.requests, k)
    ensures Inv(s.(dispatchers := s.dispatchers[token := next]))
  {
    var dispatchers := s.dispatchers[token := next];
    forall k | 0 <= k < |s.tokens| && k != token ensures PcOf(dispatchers, k) == PcOf(s.dispatchers, k) {
    }
    assert TokensOk(s.table, s.tokens, dispatchers, s.requests);
    assert OneLive(s.tokens, dispatchers, s.requests);
  }

  /** A dispatcher's other store calls need no row that another request holds. */
  lemma CallSuits(r: Item, token: Token, own: Pc, now: int, availableAt: int, ownRequest: Option<Option<Decision>>,
                  k: Token, pc: Option<Pc>, request: Option<Option<Decision>>)
    requires RowWellFormed(r) && TokenOk(r, k, pc, request) && TokenOk(r, token, Some(own), ownRequest)
    requires CallsStore(own) && !own.Beginning? && CallRow(r, token, own, now, availableAt).Some?
    requires k == token ==> pc == Some(own) && request == ownRequest
    ensures TokenOk(CallRow(r, token, own, now, availableAt).value, k, pc, request)
  {
    var r' := CallRow(r, token, own, now, availableAt).value;
    if IsLive(pc, request) { assert Held(r', k); }
    TokenStays(r, r', k, pc, request);
  }

  lemma CallRowKeeps(s: State, token: Token, availableAt: int)
    requires Inv(s) && token in s.dispatchers && CallsStore(s.dispatchers[token]) && !s.dispatchers[token].Beginning?
    requires CallRow(s.table[s.tokens[token]], token, s.dispatchers[token], s.now, availableAt).Some?
    ensures var id := s.tokens[token];
            Inv(Put(s, id, CallRow(s.table[id], token, s.dispatchers[token], s.now, availableAt).value))
  {
    var id, pc := s.tokens[token], s.dispatchers[token];
    var r := s.table[id];
    var r' := CallRow(r, token, pc, s.now, availableAt).value;
    InvToken(s, token);
    forall k | 0 <= k < |s.tokens| && s.tokens[k] == id
      ensures TokenOk(r', k, PcOf(s.dispatchers, k), RequestOf(s.requests, k)) && (k in s.consumed ==> Consumable(r'))
    {
      InvToken(s, k);
      CallSuits(r, token, pc, s.now, availableAt, RequestOf(s.requests, token), k, PcOf(s.dispatchers, k), RequestOf(s.requests, k));
    }
    CallIsQuiet(r, token, pc, s.now, availableAt);
    PutKeeps(s, id, r');
  }

  lemma CallIsQuiet(r: Item, token: Token, pc: Pc, now: int, availableAt: int)
    requires RowWellFormed(r) && !pc.Beginning? && CallRow(r, token, pc, now, availableAt).Some?
    ensures Quiet(r, CallRow(r, token, pc, now, availableAt).value)
  {
  }

  /** After a store call the dispatcher goes on or is done. */
  lemma GoOnKeeps(s: State, token: Token, next: Option<Pc>)
    requires Inv(s) && token < |s.tokens|
    requires next.Some? ==> !next.value.Sending? && PcAgrees(s.table[s.tokens[token]], token, next.value, RequestOf(s.requests, token))
    ensures Inv(if next.Some? then Goto(s, token, next.value) else Leave(s, token))
  {
    if next.Some? { GotoKeeps(s, token, next.value); } else { LeaveKeeps(s, token); }
  }

  lemma BeginCallKeeps(s: State, token: Token, end: CallEnd, availableAt: int)
    requires Inv(s) && token in s.dispatchers && s.dispatchers[token].Beginning? && !end.NotRun?
    requires CallRow(s.table[s.tokens[token]], token, s.dispatchers[token], s.now, availableAt).Some?
    ensures Inv(StepStoreCall(s, token, end, availableAt))
  {
    InvToken(s, token);
    BeginKeeps(s, token, s.dispatchers[token].guardEdit, if end.Answered? then Sending else Caught(Other));
  }

  lemma OtherCallKeeps(s: State, token: Token, end: CallEnd, availableAt: int)
    requires Inv(s) && token in s.dispatchers && CallsStore(s.dispatchers[token])
    requires s.dispatchers[token].Beginning? && !end.NotRun? ==>
               CallRow(s.table[s.tokens[token]], token, s.dispatchers[token], s.now, availableAt).None?
    ensures Inv(StepStoreCall(s, token, end, availableAt))
  {
    var id, pc := s.tokens[token], s.dispatchers[token];
    InvToken(s, token);
    var row := CallRow(s.table[id], token, pc, s.now, availableAt);
    var s' := if end.NotRun? || row.None? then s else Put(s, id, row.value);
    if !end.NotRun? && row.Some? { CallRowKeeps(s, token, availableAt); }
    GoOnKeeps(s', token, if end.Answered? then AfterCall(s.table[id], pc, row.Some?) else AfterError(pc));
  }

  lemma StoreCallKeeps(s: State, token: Token, end: CallEnd, availableAt: int)
    requires Inv(s)
    ensures Inv(StepStoreCall(s, token, end, availableAt))
  {
    if token in s.dispatchers && CallsStore(s.dispatchers[token]) {
      InvToken(s, token);
      if s.dispatchers[token].Beginning? && !end.NotRun?
         && CallRow(s.table[s.tokens[token]], token, s.dispatchers[token], s.now, availableAt).Some?
      {
        BeginCallKeeps(s, token, end, availableAt);
      } else {
        OtherCallKeeps(s, token, end, availableAt);
      }
    }
  }

  // ---- preservation: the owner, the hook and the edit gate ----

  lemma CommitSuits(r: Item, sessionId: string, k: Token, pc: Option<Pc>, request: Option<Option<Decision>>)
    requires RowWellFormed(r) && TokenOk(r, k, pc, request) && Commit(r, sessionId).Some?
    ensures Quiet(r, Commit(r, sessionId).value) && TokenOk(Commit(r, sessionId).value, k, pc, request)
    ensures Consumable(Commit(r, sessionId).value)
  {
    TokenStays(r, Commit(r, sessionId).value, k, pc, request);
  }

  lemma HookCommitKeeps(s: State, token: Token, sessionId: string)
    requires Inv(s)
    ensures Inv(StepHookCommit(s, token, sessionId))
  {
    if Admitted(s, token) && Commit(s.table[s.tokens[token]], sessionId).Some? {
      var id := s.tokens[token];
      var r' := Commit(s.table[id], sessionId).value;
      forall k | 0 <= k < |s.tokens| && s.tokens[k] == id
        ensures Quiet(s.table[id], r') && TokenOk(r', k, PcOf(s.dispatchers, k), RequestOf(s.requests, k)) && Consumable(r')
      {
        InvToken(s, k);
        CommitSuits(s.table[id], sessionId, k, PcOf(s.dispatchers, k), RequestOf(s.requests, k));
      }
      assert s.tokens[token] == id;
      PutKeeps(s, id, r');
    }
  }

  lemma ConsumeSuits(r: Item, edit: EditIdentity, k: Token, pc: Option<Pc>, request: Option<Option<Decision>>)
    requires RowWellFormed(r) && TokenOk(r, k, pc, request) && EditAllowed(r, edit)
    ensures Quiet(r, ConsumeEdit(r, edit)) && TokenOk(ConsumeEdit(r, edit), k, pc, request)
    ensures IsLive(pc, request) ==> Consumable(ConsumeEdit(r, edit))
  {
    TokenStays(r, ConsumeEdit(r, edit), k, pc, request);
  }

  lemma ConsumeKeeps(s: State, token: Token, edit: EditIdentity)
    requires Inv(s)
    ensures Inv(StepConsume(s, token, edit))
  {
    if Admitted(s, token) && EditAllowed(s.table[s.tokens[token]], edit) {
      var id := s.tokens[token];
      var r' := ConsumeEdit(s.table[id], edit);
      forall k | 0 <= k < |s.tokens| && s.tokens[k] == id
        ensures Quiet(s.table[id], r') && TokenOk(r', k, PcOf(s.dispatchers, k), RequestOf(s.requests, k))
        ensures Live(s.dispatchers, s.requests, k) ==> Consumable(r')
      {
        InvToken(s, k);
        ConsumeSuits(s.table[id], edit, k, PcOf(s.dispatchers, k), RequestOf(s.requests, k));
      }
      assert s.tokens[token] == id && Live(s.dispatchers, s.requests, token);
      PutKeeps(s, id, r');
    }
  }

  /** What an owner may cancel no live request holds. */
  lemma CancelSuits(r: Item, owner: Owner, k: Token, pc: Option<Pc>, request: Option<Option<Decision>>)
    requires RowWellFormed(r) && TokenOk(r, k, pc, request) && CancelOwned(r, owner).Some?
    ensures TokenOk(CancelOwned(r, owner).value, k, pc, request) && !IsLive(pc, request)
  {
  }

  lemma OwnerCancelKeeps(s: State, owner: Owner, id: nat)
    requires Inv(s)
    ensures Inv(StepOwnerCancel(s, owner, id))
  {
    if id < |s.table| && CancelOwned(s.table[id], owner).Some? {
      var r' := CancelOwned(s.table[id], owner).value;
      assert RowLinked(s.table[id], id, s.tokens);
      forall k | 0 <= k < |s.tokens| && s.tokens[k] == id
        ensures TokenOk(r', k, PcOf(s.dispatchers, k), RequestOf(s.requests, k)) && !Live(s.dispatchers, s.requests, k)
      {
        InvToken(s, k);
        CancelSuits(s.table[id], owner, k, PcOf(s.dispatchers, k), RequestOf(s.requests, k));
      }
      forall k: Token <- s.consumed ensures s.tokens[k] != id { assert Live(s.dispatchers, s.requests, k); }
      PutKeeps(s, id, r');
    }
  }

  lemma RetrySuits(r: Item, owner: Owner, now: int, k: Token, pc: Option<Pc>, request: Option<Option<Decision>>)
    requires RowWellFormed(r) && TokenOk(r, k, pc, request) && RetryOwned(r, owner, now).Some?
    ensures TokenOk(RetryOwned(r, owner, now).value, k, pc, request) && !IsLive(pc, request)
  {
  }

  lemma OwnerRetryKeeps(s: State, owner: Owner, id: nat)
    requires Inv(s)
    ensures Inv(StepOwnerRetry(s, owner, id))
  {
    if id < |s.table| && RetryOwned(s.table[id], owner, s.now).Some? {
      var r' := RetryOwned(s.table[id], owner, s.now).value;
      assert RowLinked(s.table[id], id, s.tokens);
      forall k | 0 <= k < |s.tokens| && s.tokens[k] == id
        ensures TokenOk(r', k, PcOf(s.dispatchers, k), RequestOf(s.requests, k)) && !Live(s.dispatchers, s.requests, k)
      {
        InvToken(s, k);
        RetrySuits(s.table[id], owner, s.now, k, PcOf(s.dispatchers, k), RequestOf(s.requests, k));
      }
      forall k: Token <- s.consumed ensures s.tokens[k] != id { assert Live(s.dispatchers, s.requests, k); }
      PutKeeps(s, id, r');
    }
  }

  lemma TickKeeps(s: State, to: int)
    requires Inv(s)
    ensures Inv(Step(s, Tick(to)))
  {
  }

  /** The dispatcher's own steps, apart from claims. */
  lemma DispatcherStepKeeps(s: State, a: Action)
    requires Inv(s) && (a.Inspect? || a.StoreCall? || a.Deliver? || a.Reply? || a.LoseReply? || a.Find? || a.Crash?)
    ensures Inv(Step(s, a))
  {
    match a
    case Inspect(token, boundary) => InspectKeeps(s, token, boundary);
    case StoreCall(token, end, availableAt) => StoreCallKeeps(s, token, end, availableAt);
    case Deliver(token) => DeliverKeeps(s, token);
    case Reply(token, sessionId) => ReplyKeeps(s, token, sessionId);
    case LoseReply(token) => LoseReplyKeeps(s, token);
    case Find(token) => FindKeeps(s, token);
    case Crash(token) => LeaveKeeps(s, token);
  }

  lemma StepKeeps(s: State, a: Action)
    requires Inv(s)
    ensures Inv(Step(s, a))
  {
    match a
    case Tick(to) => TickKeeps(s, to);
    case EnqueueItem(input, sessionOwner) => EnqueueKeeps(s, input, sessionOwner);
    case Expire => ExpireKeeps(s);
    case LapseLeases => LapseKeeps(s);
    case ClaimItem(id, leaseMs) => ClaimKeeps(s, id, leaseMs);
    case Decide(token, decision) => DecideKeeps(s, token, decision);
    case HookCommit(token, sessionId) => HookCommitKeeps(s, token, sessionId);
    case Consume(token, edit) => ConsumeKeeps(s, token, edit);
    case OwnerCancel(owner, id) => OwnerCancelKeeps(s, owner, id);
    case OwnerRetry(owner, id) => OwnerRetryKeeps(s, owner, id);
    case _ => DispatcherStepKeeps(s, a);
  }

  // ---- runs ----

  /** The invariant holds after every run. */
  lemma {:induction false} Reachable(run: seq<Action>)
    ensures Inv(Exec(run))
  {
    if run != [] {
      Reachable(run[..|run| - 1]);
      StepKeeps(Exec(run[..|run| - 1]), run[|run| - 1]);
    }
  }

  lemma OneAdmitted(s: State, k: Token, l: Token)
    requires Inv(s) && k in s.admissions && l in s.admissions && k != l
    ensures k < |s.tokens| && l < |s.tokens| && s.tokens[k] != s.tokens[l]
  {
    assert Live(s.dispatchers, s.requests, k) && Live(s.dispatchers, s.requests, l);
    assert k in s.requests && l in s.requests;
  }

  /** In every run the runtime admits each mailbox item at most once. */
  lemma AdmittedAtMostOnce(run: seq<Action>)
    ensures var s := Exec(run);
            && (forall p :: 0 <= p < |s.admissions| ==> s.admissions[p] < |s.tokens|)
            && (forall p, q :: 0 <= p < q < |s.admissions| ==> s.tokens[s.admissions[p]] != s.tokens[s.admissions[q]])
  {
    Reachable(run);
    var s := Exec(run);
    forall p | 0 <= p < |s.admissions| ensures s.admissions[p] < |s.tokens| {
      assert s.admissions[p] in s.admissions && s.admissions[p] in s.requests;
    }
    forall p, q | 0 <= p < q < |s.admissions|
      ensures s.tokens[s.admissions[p]] != s.tokens[s.admissions[q]]
    {
      OneAdmitted(s, s.admissions[p], s.admissions[q]);
    }
  }

  /**
   Expiry, consumption and the owner's cancel exclude each other. An expired edit was never consumed, a consumed
   edit is not cancelled and a guarded one is committed, and no request of an item the owner cancelled was
   admitted or can still be.
   */
  lemma EditOutcomesExclusive(run: seq<Action>, k: Token)
    ensures var s := Exec(run);
            k < |s.tokens| ==>
              var id := s.tokens[k];
              && id < |s.table|
              && (k in s.consumed ==>
                    && id !in s.expired && id !in s.ownerCancelled && !s.table[id].status.Cancelled?
                    && (s.table[id].Guarded() ==> s.table[id].status.Committed?))
              && (id in s.expired ==> s.table[id].status.Cancelled? && id !in s.ownerCancelled && id !in s.commits)
              && (id in s.ownerCancelled ==> s.table[id].status.Cancelled? && !Live(s.dispatchers, s.requests, k) && k !in s.admissions)
  {
    Reachable(run);
    CommitsAreCommitted(run);
    var s := Exec(run);
    if k < |s.tokens| {
      InvToken(s, k);
      if k in s.admissions { assert Live(s.dispatchers, s.requests, k); }
    }
  }

  // ---- what every step keeps of every row ----

  /** No step deletes a row, rewrites its identity, reopens a settled row or forgets a claim. */
  predicate Follows(r: Item, r': Item) {
    && r.SameIdentity(r')
    && (r.status.Committed? ==> r'.status.Committed?)
    && (r.status.Cancelled? ==> r'.status.Cancelled? && r'.admissionStartedAt == r.admissionStartedAt)
    && r.attemptCount <= r'.attemptCount
    && (r.Guarded() ==> r'.Guarded())
  }

  /** What a single-row statement may do: it keeps or clears the claim and never counts an attempt. */
  predicate Moves(r: Item, r': Item) {
    Follows(r, r') && r.attemptCount == r'.attemptCount && (r'.claim.None? || r'.claim == r.claim)
  }

  lemma CallRowMoves(r: Item, token: Token, pc: Pc, now: int, availableAt: int)
    ensures CallRow(r, token, pc, now, availableAt).Some? ==> Moves(r, CallRow(r, token, pc, now, availableAt).value)
  {
  }

  ghost predicate Appends(s: State, s': State, a: Action) {
    && a.EnqueueItem? && UidFree(s.table, a.input.uid) && EnqueueOutcome(s.table, a.input, a.sessionOwner).Created?
    && s'.table == s.table + [FreshRow(a.input)] && s'.commits == s.commits && s'.tokens == s.tokens
  }

  ghost predicate Claims(s: State, s': State, i: nat) {
    && Claimable(s.table, i, s.now) && |s'.table| == |s.table|
    && (forall j :: 0 <= j < |s.table| && j != i ==> s'.table[j] == s.table[j])
    && s'.table[i] == s.table[i].(status := Delivering, claim := s'.table[i].claim, admissionStartedAt := None,
                                  attemptCount := s.table[i].attemptCount + 1)
    && s'.table[i].claim.Some? && s'.table[i].claim.value.token == |s.tokens|
    && s'.commits == s.commits && s'.tokens == s.tokens + [i]
  }

  ghost predicate MovesRow(s: State, s': State, i: nat) {
    && i < |s.table| && |s'.table| == |s.table| && s'.tokens == s.tokens
    && Moves(s.table[i], s'.table[i])
    && (forall j :: 0 <= j < |s.table| && j != i ==> s'.table[j] == s.table[j])
    && s'.commits == if s'.table[i].status.Committed? && !s.table[i].status.Committed? then s.commits + [i] else s.commits
  }

  ghost predicate Reaps(s: State, s': State) {
    && |s'.table| == |s.table| && s'.tokens == s.tokens && s'.commits == s.commits
    && forall i :: 0 <= i < |s.table| ==> Moves(s.table[i], s'.table[i])
                                          && (s.table[i].status.Committed? <==> s'.table[i].status.Committed?)
  }

  /** The table after one step: an appended row, a claimed row, one moved row, or rows moved by the reaper. */
  ghost predicate TableStep(s: State, s': State, a: Action) {
    Appends(s, s', a) || (exists i: nat :: Claims(s, s', i)) || (exists i: nat :: MovesRow(s, s', i)) || Reaps(s, s')
  }

  lemma PutMoves(s: State, s': State, id: nat, r: Item)
    requires id < |s.table| && Moves(s.table[id], r)
    requires s'.table == Put(s, id, r).table && s'.commits == Put(s, id, r).commits && s'.tokens == s.tokens
    ensures MovesRow(s, s', id)
  {
  }

  lemma StoreCallMoves(s: State, token: Token, end: CallEnd, availableAt: int)
    requires WellFormed(s)
    ensures var s' := StepStoreCall(s, token, end, availableAt);
            Reaps(s, s') || exists i: nat :: MovesRow(s, s', i)
  {
    if token in s.dispatchers && CallsStore(s.dispatchers[token]) {
      var id := s.tokens[token];
      var row := CallRow(s.table[id], token, s.dispatchers[token], s.now, availableAt);
      CallRowMoves(s.table[id], token, s.dispatchers[token], s.now, availableAt);
      if !end.NotRun? && row.Some? { PutMoves(s, StepStoreCall(s, token, end, availableAt), id, row.value); }
    }
  }

  lemma HookCommitMoves(s: State, token: Token, sessionId: string)
    requires WellFormed(s)
    ensures var s' := StepHookCommit(s, token, sessionId);
            Reaps(s, s') || exists i: nat :: MovesRow(s, s', i)
  {
    if Admitted(s, token) {
      var id := s.tokens[token];
      var row := Commit(s.table[id], sessionId);
      if row.Some? { PutMoves(s, StepHookCommit(s, token, sessionId), id, row.value); }
    }
  }

  lemma ConsumeMoves(s: State, token: Token, edit: EditIdentity)
    requires WellFormed(s)
    ensures var s' := StepConsume(s, token, edit);
            Reaps(s, s') || exists i: nat :: MovesRow(s, s', i)
  {
    if Admitted(s, token) && EditAllowed(s.table[s.tokens[token]], edit) {
      var id := s.tokens[token];
      PutMoves(s, StepConsume(s, token, edit), id, ConsumeEdit(s.table[id], edit));
    }
  }

  lemma OwnerMoves(s: State, owner: Owner, id: nat)
    ensures var s' := StepOwnerCancel(s, owner, id); Reaps(s, s') || MovesRow(s, s', id)
    ensures var s' := StepOwnerRetry(s, owner, id); Reaps(s, s') || MovesRow(s, s', id)
  {
    if id < |s.table| {
      var r := s.table[id];
      if CancelOwned(r, owner).Some? { PutMoves(s, StepOwnerCancel(s, owner, id), id, CancelOwned(r, owner).value); }
      if RetryOwned(r, owner, s.now).Some? { PutMoves(s, StepOwnerRetry(s, owner, id), id, RetryOwned(r, owner, s.now).value); }
    }
  }

  lemma ExpireMoves(s: State)
    ensures Reaps(s, StepExpire(s))
  {
  }

  lemma LapseMoves(s: State)
    ensures Reaps(s, Step(s, LapseLeases))
  {
  }

  lemma InsertMoves(s: State, input: NewItem, sessionOwner: Option<Owner>)
    ensures var a := EnqueueItem(input, sessionOwner); Appends(s, Step(s, a), a) || Reaps(s, Step(s, a))
  {
  }

  lemma ClaimMoves(s: State, id: nat, leaseMs: nat)
    ensures Claims(s, StepClaim(s, id, leaseMs), id) || Reaps(s, StepClaim(s, id, leaseMs))
  {
  }

  lemma OthersStay(s: State, a: Action)
    requires a.Tick? || a.Inspect? || a.Deliver? || a.Decide? || a.Reply? || a.LoseReply? || a.Find? || a.Crash?
    ensures Reaps(s, Step(s, a))
  {
    assert Step(s, a).table == s.table && Step(s, a).commits == s.commits && Step(s, a).tokens == s.tokens;
  }

  lemma StepTableStep(s: State, a: Action)
    requires WellFormed(s)
    ensures TableStep(s, Step(s, a), a)
  {
    var s' := Step(s, a);
    match a
    case EnqueueItem(input, sessionOwner) => InsertMoves(s, input, sessionOwner);
    case Expire => ExpireMoves(s);
    case LapseLeases => LapseMoves(s);
    case ClaimItem(id, leaseMs) => ClaimMoves(s, id, leaseMs);
    case StoreCall(token, end, availableAt) => StoreCallMoves(s, token, end, availableAt);
    case HookCommit(token, sessionId) => HookCommitMoves(s, token, sessionId);
    case Consume(token, edit) => ConsumeMoves(s, token, edit);
    case OwnerCancel(owner, id) => OwnerMoves(s, owner, id);
    case OwnerRetry(owner, id) => OwnerMoves(s, owner, id);
    case _ => OthersStay(s, a);
  }

  lemma RowsFollow(s: State, s': State, a: Action)
    requires TableStep(s, s', a)
    ensures |s.table| <= |s'.table|
    ensures forall i :: 0 <= i < |s.table| ==> Follows(s.table[i], s'.table[i])
    ensures forall i :: 0 <= i < |s.table| && s.table[i].attemptCount < s'.table[i].attemptCount ==> Claimable(s.table, i, s.now)
  {
  }

  lemma SequencesGrow(s: State, a: Action)
    ensures s.admissions <= Step(s, a).admissions && s.commits <= Step(s, a).commits
  {
  }

  lemma SetsGrow(s: State, a: Action)
    ensures s.consumed <= Step(s, a).consumed && s.expired <= Step(s, a).expired && s.ownerCancelled <= Step(s, a).ownerCancelled
  {
  }

  ghost predicate LogsExtend(s: State, s': State) {
    && s.admissions <= s'.admissions && s.commits <= s'.commits
    && s.consumed <= s'.consumed && s.expired <= s'.expired && s.ownerCancelled <= s'.ownerCancelled
  }

  /** The log fields only grow, over any stretch of a run. */
  lemma {:induction false} LogsGrow(run: seq<Action>, more: seq<Action>)
    ensures LogsExtend(Exec(run), Exec(run + more))
  {
    if more == [] {
      assert run + more == run;
    } else {
      var last := |more| - 1;
      LogsGrow(run, more[..last]);
      assert (run + more)[..|run + more| - 1] == run + more[..last];
      SequencesGrow(Exec(run + more[..last]), more[last]);
      SetsGrow(Exec(run + more[..last]), more[last]);
    }
  }

  /** Once a newer claim, a requeue or a settlement replaced a token, that token never selects the row again. */
  lemma StaleStaysStale(s: State, a: Action, k: Token)
    requires Inv(s) && k < |s.tokens|
    requires !s.table[s.tokens[k]].ClaimedBy(k)
    ensures k < |Step(s, a).tokens| && Step(s, a).tokens[k] == s.tokens[k]
    ensures s.tokens[k] < |Step(s, a).table| && !Step(s, a).table[s.tokens[k]].ClaimedBy(k)
  {
    StepTableStep(s, a);
    StaleThroughTable(s, Step(s, a), a, k);
  }

  lemma StaleThroughTable(s: State, s': State, a: Action, k: Token)
    requires Linked(s.table, s.tokens) && TableStep(s, s', a) && k < |s.tokens| && !s.table[s.tokens[k]].ClaimedBy(k)
    ensures k < |s'.tokens| && s'.tokens[k] == s.tokens[k]
    ensures s.tokens[k] < |s'.table| && !s'.table[s.tokens[k]].ClaimedBy(k)
  {
    var id := s.tokens[k];
    if i: nat :| Claims(s, s', i) {
      assert id != i ==> s'.table[id] == s.table[id];
    } else if i: nat :| MovesRow(s, s', i) {
      assert id != i ==> s'.table[id] == s.table[id];
    } else if Appends(s, s', a) {
      assert s'.table[id] == s.table[id];
    } else {
      assert Moves(s.table[id], s'.table[id]);
    }
  }

  // ---- the commit log ----

  ghost predicate CommitLog(s: State) {
    && NoDuplicates(s.commits)
    && (forall i: nat {:trigger i in s.commits} :: i in s.commits <==> i < |s.table| && s.table[i].status.Committed?)
  }

  lemma CommitLogMoved(s: State, s': State, i: nat)
    requires MovesRow(s, s', i) && CommitLog(s)
    ensures CommitLog(s')
  {
    assert i in s.commits ==> s.table[i].status.Committed?;
  }

  lemma CommitLogKept(s: State, s': State, a: Action)
    requires TableStep(s, s', a) && CommitLog(s)
    ensures CommitLog(s')
  {
    if i: nat :| MovesRow(s, s', i) { CommitLogMoved(s, s', i); }
  }

  lemma {:induction false} CommitsAreCommitted(run: seq<Action>)
    ensures CommitLog(Exec(run))
  {
    if run != [] {
      Reachable(run[..|run| - 1]);
      CommitsAreCommitted(run[..|run| - 1]);
      StepTableStep(Exec(run[..|run| - 1]), run[|run| - 1]);
      CommitLogKept(Exec(run[..|run| - 1]), Exec(run), run[|run| - 1]);
    }
  }

  // ---- first in, first out ----

  /** Every item older than a claimed one of its session is committed or cancelled. */
  ghost predicate OlderSettled(t: Table) {
    forall i, j ::
      (0 <= i < |t| && 0 <= j < |t| && t[i].sessionId == t[j].sessionId && t[i].attemptCount > 0 && Before(t[j], t[i]))
      ==> t[j].Settled()
  }

  ghost predicate UidsDistinct(t: Table) {
    forall i, j :: 0 <= i < j < |t| ==> t[i].uid != t[j].uid
  }

  /** The guard on an insert: it does not sort before an item of its session that was already claimed. */
  predicate InsertsBehindClaims(t: Table, a: Action) {
    a.EnqueueItem? && EnqueueOutcome(t, a.input, a.sessionOwner).Created? && UidFree(t, a.input.uid) ==>
      forall i :: 0 <= i < |t| && t[i].sessionId == a.input.sessionId && t[i].attemptCount > 0 ==> !Before(FreshRow(a.input), t[i])
  }

  lemma UidsKept(s: State, s': State, a: Action)
    requires TableStep(s, s', a) && UidsDistinct(s.table)
    ensures UidsDistinct(s'.table)
  {
    RowsFollow(s, s', a);
  }

  lemma FifoKept(s: State, s': State, a: Action)
    requires TableStep(s, s', a) && OlderSettled(s.table)
    ensures OlderSettled(s'.table) <==> (Appends(s, s', a) ==> InsertsBehindClaims(s.table, a))
  {
    RowsFollow(s, s', a);
    var t, t' := s.table, s'.table;
    if Appends(s, s', a) {
      if OlderSettled(t') {
        assert !t'[|t|].Settled();
        assert forall i :: 0 <= i < |t| ==> t'[i] == t[i];
      }
    } else {
      forall i, j | 0 <= i < |t'| && 0 <= j < |t'| && t'[i].sessionId == t'[j].sessionId
                    && t'[i].attemptCount > 0 && Before(t'[j], t'[i])
        ensures t'[j].Settled()
      {
        assert Follows(t[i], t'[i]) && Follows(t[j], t'[j]);
        if t[i].attemptCount == 0 { assert !Blocked(t, i); }
      }
    }
  }

  lemma FifoStep(s: State, a: Action)
    requires WellFormed(s) && OlderSettled(s.table)
    ensures OlderSettled(Step(s, a).table) <==> InsertsBehindClaims(s.table, a)
  {
    StepTableStep(s, a);
    FifoKept(s, Step(s, a), a);
    if a.EnqueueItem? && !Appends(s, Step(s, a), a) {
      assert Step(s, a).table == s.table;
    }
  }

  /** Each enqueue of the run inserts behind the items already claimed. */
  ghost predicate InOrderRun(run: seq<Action>) {
    forall n :: 0 <= n < |run| ==> InsertsBehindClaims(Exec(run[..n]).table, run[n])
  }

  /**
   Strict per-session order, exactly: all items older than any claimed item are settled in every state of a run if
   and only if no enqueue of that run inserts an item before an already claimed one of its session.
   */
  lemma {:induction false} FifoExactly(run: seq<Action>)
    ensures (forall n :: 0 <= n <= |run| ==> OlderSettled(Exec(run[..n]).table)) <==> InOrderRun(run)
  {
    forall n | 0 <= n <= |run| && InOrderRun(run) ensures OlderSettled(Exec(run[..n]).table) {
      InOrderKeepsFifo(run, n);
    }
    if forall n :: 0 <= n <= |run| ==> OlderSettled(Exec(run[..n]).table) {
      forall n | 0 <= n < |run| ensures InsertsBehindClaims(Exec(run[..n]).table, run[n]) {
        Reachable(run[..n]);
        ExecSplit(run, n);
        assert OlderSettled(Exec(run[..n + 1]).table);
        FifoStep(Exec(run[..n]), run[n]);
      }
    }
  }

  lemma ExecSplit(run: seq<Action>, n: nat)
    requires n < |run|
    ensures Exec(run[..n + 1]) == Step(Exec(run[..n]), run[n])
  {
    assert run[..n + 1][..n] == run[..n];
  }

  lemma {:induction false} InOrderKeepsFifo(run: seq<Action>, n: nat)
    requires InOrderRun(run) && n <= |run|
    ensures OlderSettled(Exec(run[..n]).table)
  {
    if n > 0 {
      InOrderKeepsFifo(run, n - 1);
      Reachable(run[..n - 1]);
      ExecSplit(run, n - 1);
      FifoStep(Exec(run[..n - 1]), run[n - 1]);
    }
  }

  /** Commits of one session follow the row order. */
  ghost predicate CommitsInOrder(s: State) {
    forall p, q :: 0 <= p < q < |s.commits| && s.commits[p] < |s.table| && s.commits[q] < |s.table|
                   && s.table[s.commits[p]].sessionId == s.table[s.commits[q]].sessionId ==>
                     Before(s.table[s.commits[p]], s.table[s.commits[q]])
  }

  lemma CommittedEarlier(s: State, i: nat, j: nat)
    requires j in s.commits && i < |s.table| && !s.table[i].Settled() && i != j
    requires CommitLog(s) && Linked(s.table, s.tokens) && UidsDistinct(s.table) && OlderSettled(s.table)
    ensures j < |s.table| && (s.table[j].sessionId == s.table[i].sessionId ==> Before(s.table[j], s.table[i]))
  {
    assert RowLinked(s.table[j], j, s.tokens);
    assert s.table[i].uid != s.table[j].uid;
  }

  lemma NewCommitIsLast(s: State, s': State, i: nat)
    requires MovesRow(s, s', i) && s'.commits == s.commits + [i] && i !in s.commits
    requires CommitLog(s) && CommitLog(s') && Linked(s.table, s.tokens) && UidsDistinct(s.table)
    requires OlderSettled(s.table) && CommitsInOrder(s)
    ensures CommitsInOrder(s')
  {
    assert i in s'.commits;
    assert !s.table[i].Settled();
    forall p | 0 <= p < |s.commits|
      ensures s.commits[p] < |s.table| && (s.table[s.commits[p]].sessionId == s.table[i].sessionId ==> Before(s.table[s.commits[p]], s.table[i]))
    {
      assert s.commits[p] in s.commits;
      CommittedEarlier(s, i, s.commits[p]);
    }
  }

  lemma CommitOrderKept(s: State, s': State, a: Action)
    requires TableStep(s, s', a) && CommitLog(s) && CommitLog(s') && Linked(s.table, s.tokens)
    requires UidsDistinct(s.table) && OlderSettled(s.table) && CommitsInOrder(s)
    ensures CommitsInOrder(s')
  {
    if i: nat :| MovesRow(s, s', i) && s'.commits == s.commits + [i] {
      assert s'.commits[|s.commits|] == i;
      NewCommitIsLast(s, s', i);
    } else {
      assert s'.commits == s.commits;
      assert forall p :: 0 <= p < |s.commits| ==> s.commits[p] in s.commits;
      RowsFollow(s, s', a);
    }
  }

  /**
   When no enqueue jumps ahead of a claimed item, each session commits its items in row order and has at most
   one claimed item that is not settled.
   */
  lemma {:induction false} CommitsFollowEnqueueOrder(run: seq<Action>)
    requires InOrderRun(run)
    ensures CommitsInOrder(Exec(run)) && UidsDistinct(Exec(run).table)
    ensures var t := Exec(run).table;
            forall i, j ::
              (0 <= i < |t| && 0 <= j < |t| && i != j && t[i].sessionId == t[j].sessionId
               && t[i].attemptCount > 0 && t[j].attemptCount > 0)
              ==> t[i].Settled() || t[j].Settled()
  {
    if run != [] {
      var init, a := run[..|run| - 1], run[|run| - 1];
      InitInOrder(run);
      CommitsFollowEnqueueOrder(init);
      Reachable(init);
      Reachable(run);
      CommitsAreCommitted(init);
      CommitsAreCommitted(run);
      InOrderKeepsFifo(run, |run| - 1);
      StepTableStep(Exec(init), a);
      UidsKept(Exec(init), Exec(run), a);
      CommitOrderKept(Exec(init), Exec(run), a);
      InOrderKeepsFifo(run, |run|);
      assert run[..|run|] == run;
    }
    var t := Exec(run).table;
    forall i, j | 0 <= i < |t| && 0 <= j < |t| && i != j && t[i].sessionId == t[j].sessionId
                  && t[i].attemptCount > 0 && t[j].attemptCount > 0
      ensures t[i].Settled() || t[j].Settled()
    {
      assert Before(t[i], t[j]) || Before(t[j], t[i]);
    }
  }

  lemma InitInOrder(run: seq<Action>)
    requires InOrderRun(run) && run != []
    ensures InOrderRun(run[..|run| - 1])
  {
    var init := run[..|run| - 1];
    forall n | 0 <= n < |init| ensures InsertsBehindClaims(Exec(init[..n]).table, init[n]) {
      assert init[..n] == run[..n];
      assert InsertsBehindClaims(Exec(run[..n]).table, run[n]);
    }
  }

  /**
   Without the condition the order can break. `created_at` defaults to the start of the inserting transaction, so
   the slower of two enqueues can insert an item older than one that was already claimed.
   */
  lemma LateInsertBreaksFifo(slow: NewItem, fast: NewItem)
    requires slow.owner == fast.owner && slow.sessionId == fast.sessionId
    requires slow.clientMessageId != fast.clientMessageId && slow.uid != fast.uid
    requires slow.operation.None? && fast.operation.None? && slow.createdAt < fast.createdAt <= 0
    ensures var run := [EnqueueItem(fast, Some(fast.owner)), ClaimItem(0, 60_000), EnqueueItem(slow, Some(slow.owner))];
            !OlderSettled(Exec(run).table)
  {
    var run := [EnqueueItem(fast, Some(fast.owner)), ClaimItem(0, 60_000), EnqueueItem(slow, Some(slow.owner))];
    assert run[..2][..1] == [run[0]] && run[..2] == [run[0], run[1]] && run[..1][..0] == [];
    var s1 := Step(INITIAL, run[0]);
    assert Exec([run[0]]) == s1 by { assert [run[0]][..0] == []; }
    assert EnqueueOutcome([], fast, Some(fast.owner)).Created?;
    assert s1.table == [FreshRow(fast)] && s1.tokens == [];
    var s2 := Exec(run[..2]);
    assert !Blocked(s1.table, 0);
    assert s2 == StepClaim(s1, 0, 60_000);
    assert s2.table[..0] == [];
    assert PendingCount(s2.table, slow.sessionId) <= 1;
    assert FindClientMessage(s2.table, slow).None?;
    var t := Exec(run).table;
    assert run[..|run| - 1] == run[..2];
    assert t == Enqueue(s2.table, slow, Some(slow.owner));
    assert t == s2.table + [FreshRow(slow)];
    assert t[0].attemptCount > 0 && Before(t[1], t[0]) && !t[1].Settled();
  }

  // ---- bounded, idempotent enqueue ----

  /** Rows that only settle or keep their status cannot raise the pending count. */
  lemma {:induction false} PendingShrinks(t: Table, t': Table, sessionId: string)
    requires |t| == |t'|
    requires forall i :: 0 <= i < |t| ==> t'[i].sessionId == t[i].sessionId && (t[i].Settled() ==> t'[i].Settled())
    ensures PendingCount(t', sessionId) <= PendingCount(t, sessionId)
  {
    if t != [] { PendingShrinks(t[..|t| - 1], t'[..|t| - 1], sessionId); }
  }

  ghost predicate Bounded(t: Table) {
    forall sessionId: string :: PendingCount(t, sessionId) <= MAX_PENDING
  }

  ghost predicate ClientMessagesDistinct(t: Table) {
    forall i, j :: 0 <= i < j < |t| ==> t[i].owner != t[j].owner || t[i].clientMessageId != t[j].clientMessageId
  }

  lemma EnqueueGuardsKept(s: State, s': State, a: Action)
    requires TableStep(s, s', a) && Bounded(s.table) && ClientMessagesDistinct(s.table)
    ensures Bounded(s'.table) && ClientMessagesDistinct(s'.table)
  {
    RowsFollow(s, s', a);
    forall sessionId: string ensures PendingCount(s'.table, sessionId) <= MAX_PENDING {
      if |s'.table| == |s.table| {
        PendingShrinks(s.table, s'.table, sessionId);
      } else {
        assert s'.table[..|s'.table| - 1] == s.table;
      }
    }
  }

  /** In every run a session has at most five unsettled items and a client message id is stored at most once per owner. */
  lemma {:induction false} MailboxBounded(run: seq<Action>)
    ensures Bounded(Exec(run).table) && ClientMessagesDistinct(Exec(run).table)
  {
    if run != [] {
      var init := run[..|run| - 1];
      MailboxBounded(init);
      Reachable(init);
      StepTableStep(Exec(init), run[|run| - 1]);
      EnqueueGuardsKept(Exec(init), Exec(run), run[|run| - 1]);
    }
  }

  /** As `MailboxBounded`, counting the pending rows themselves. */
  lemma PendingBounded(run: seq<Action>, sessionId: string)
    ensures |Pending(Exec(run).table, sessionId)| <= 5
  {
    MailboxBounded(run);
    PendingMeaning(Exec(run).table, sessionId);
    assert PendingCount(Exec(run).table, sessionId) <= MAX_PENDING;
  }
}
