/** What the inspected session boundary lets through, for one item and over every run of the protocol. */
module MailboxInspection {
  import opened Common
  import opened MailboxTable
  import opened MailboxProtocol

  /** An item may be delivered at a waiting boundary, or as a steer of exactly the turn that is running. */
  predicate LetsThrough(operation: Option<Operation>, boundary: Option<Boundary>) {
    match boundary
    case None => false
    case Some(Waiting(_)) => true
    case Some(Terminal) => false
    case Some(Running(turnId, _)) =>
      && operation.Some? && operation.value.kind == Steer
      && operation.value.expectedTurnId.Some? && operation.value.expectedTurnId == turnId
  }

  /** An edit is marked guarded at a waiting boundary that guards edits. */
  predicate GuardsEdit(operation: Option<Operation>, boundary: Option<Boundary>) {
    operation.Some? && operation.value.kind == Edit && boundary == Some(Waiting(true))
  }

  /** The dispatcher goes on to the runtime exactly with what the boundary lets through; of the rest it fails what met a terminal session. */
  lemma InspectionMeaning(r: Item, boundary: Option<Boundary>)
    ensures AfterInspect(r, boundary).Beginning? <==> LetsThrough(r.operation, boundary)
    ensures AfterInspect(r, boundary).Beginning? ==> (AfterInspect(r, boundary).guardEdit <==> GuardsEdit(r.operation, boundary))
    ensures AfterInspect(r, boundary).Refusing? <==> boundary == Some(Terminal)
    ensures AfterInspect(r, boundary).Beginning? || AfterInspect(r, boundary).Refusing? || AfterInspect(r, boundary).Deferring?
  {
  }

  // ---- over runs ----

  predicate Cleared(t: Table, tokens: seq<nat>, inspected: map<Token, Option<Boundary>>, k: Token) {
    k < |tokens| && tokens[k] < |t| && k in inspected && LetsThrough(t[tokens[k]].operation, inspected[k])
  }

  /** A dispatcher past its inspection was let through, and begins guarded as the boundary said. */
  predicate PcCleared(t: Table, tokens: seq<nat>, inspected: map<Token, Option<Boundary>>, k: Token, pc: Pc) {
    match pc
    case Inspecting => k !in inspected
    case Beginning(guardEdit) =>
      Cleared(t, tokens, inspected, k) && (guardEdit <==> GuardsEdit(t[tokens[k]].operation, inspected[k]))
    case Sending => Cleared(t, tokens, inspected, k)
    case _ => true
  }

  ghost predicate PcsCleared(t: Table, tokens: seq<nat>, inspected: map<Token, Option<Boundary>>, dispatchers: map<Token, Pc>) {
    forall k: Token <- dispatchers :: PcCleared(t, tokens, inspected, k, dispatchers[k])
  }

  ghost predicate RequestsCleared(t: Table, tokens: seq<nat>, inspected: map<Token, Option<Boundary>>, requests: map<Token, Option<Decision>>) {
    forall k: Token <- requests :: Cleared(t, tokens, inspected, k)
  }

  /** Some token of the item inspected a boundary that guards the edit. */
  predicate Guarding(t: Table, tokens: seq<nat>, inspected: map<Token, Option<Boundary>>, i: nat, k: Token) {
    k < |tokens| && tokens[k] == i && i < |t| && k in inspected && GuardsEdit(t[i].operation, inspected[k])
  }

  ghost predicate GuardsJustified(t: Table, tokens: seq<nat>, inspected: map<Token, Option<Boundary>>) {
    forall i :: 0 <= i < |t| && t[i].Guarded() ==> exists k: Token :: Guarding(t, tokens, inspected, i, k)
  }

  ghost predicate InspectionInv(s: State) {
    && PcsCleared(s.table, s.tokens, s.inspected, s.dispatchers)
    && RequestsCleared(s.table, s.tokens, s.inspected, s.requests)
    && GuardsJustified(s.table, s.tokens, s.inspected)
    && (forall k: Token <- s.inspected :: k < |s.tokens|)
  }

  // ---- what one step changes ----

  /** Where the dispatcher of token `k` comes from. */
  predicate ComesFrom(s: State, a: Action, k: Token, pc: Pc) {
    match pc
    case Inspecting => (k in s.dispatchers && s.dispatchers[k].Inspecting?) || (a.ClaimItem? && k == |s.tokens|)
    case Beginning(_) =>
      && k in s.dispatchers
      && (s.dispatchers[k] == pc
          || (&& a.Inspect? && a.token == k && s.dispatchers[k].Inspecting? && k < |s.tokens| && s.tokens[k] < |s.table|
              && pc == AfterInspect(s.table[s.tokens[k]], a.boundary)))
    case Sending => k in s.dispatchers && (s.dispatchers[k].Sending? || s.dispatchers[k].Beginning?)
    case _ => true
  }

  /** A step inspects only for a dispatcher that has not yet. */
  predicate Inspects(s: State, s': State, a: Action) {
    s'.inspected == s.inspected
    || (a.Inspect? && a.token in s.dispatchers && s.dispatchers[a.token].Inspecting? && s'.inspected == s.inspected[a.token := a.boundary])
  }

  lemma StepInspects(s: State, a: Action)
    ensures Inspects(s, Step(s, a), a)
    ensures a.Inspect? && Step(s, a).inspected != s.inspected ==>
              a.token < |s.tokens| && s.tokens[a.token] < |s.table| && a.token in Step(s, a).dispatchers
              && Step(s, a).dispatchers[a.token] == AfterInspect(s.table[s.tokens[a.token]], a.boundary)
  {
  }

  lemma StepComesFrom(s: State, a: Action, k: Token)
    requires k in Step(s, a).dispatchers
    ensures ComesFrom(s, a, k, Step(s, a).dispatchers[k])
    ensures a.Inspect? && a.token == k && k in s.dispatchers && s.dispatchers[k].Inspecting? && k < |s.tokens| && s.tokens[k] < |s.table|
            ==> Step(s, a).inspected == s.inspected[k := a.boundary]
  {
    if a.StoreCall? { StoreCallComesFrom(s, a.token, a.end, a.availableAt, k); }
  }

  lemma StoreCallComesFrom(s: State, token: Token, end: CallEnd, availableAt: int, k: Token)
    requires k in StepStoreCall(s, token, end, availableAt).dispatchers
    ensures ComesFrom(s, StoreCall(token, end, availableAt), k, StepStoreCall(s, token, end, availableAt).dispatchers[k])
  {
  }

  lemma StepRequests(s: State, a: Action, k: Token)
    requires k in Step(s, a).requests
    ensures k in s.requests || (k in s.dispatchers && s.dispatchers[k].Sending?)
  {
  }

  /** An item becomes guarded only as a dispatcher begins its admission so. */
  predicate Marks(s: State, a: Action, i: nat) {
    && a.StoreCall? && a.token in s.dispatchers && s.dispatchers[a.token] == Beginning(true)
    && a.token < |s.tokens| && s.tokens[a.token] == i
  }

  lemma StepMarks(s: State, a: Action, i: nat)
    requires i < |s.table| && i < |Step(s, a).table| && Step(s, a).table[i].Guarded() && !s.table[i].Guarded()
    ensures Marks(s, a, i) && s.table[i].IsKind(Edit)
  {
    if a.StoreCall? { StoreCallMarks(s, a.token, a.end, a.availableAt, i); }
  }

  lemma StoreCallMarks(s: State, token: Token, end: CallEnd, availableAt: int, i: nat)
    requires var s' := StepStoreCall(s, token, end, availableAt);
             i < |s.table| && i < |s'.table| && s'.table[i].Guarded() && !s.table[i].Guarded()
    ensures Marks(s, StoreCall(token, end, availableAt), i) && s.table[i].IsKind(Edit)
  {
  }

  /** What a step keeps of the rows and tokens that inspections speak about. */
  ghost predicate Grows(s: State, s': State) {
    && s.tokens <= s'.tokens && |s.table| <= |s'.table|
    && (forall i :: 0 <= i < |s.table| ==> s.table[i].SameIdentity(s'.table[i]))
    && (forall i :: |s.table| <= i < |s'.table| ==> !s'.table[i].Guarded())
    && (forall k <- s.inspected :: k in s'.inspected && s'.inspected[k] == s.inspected[k])
  }

  lemma StepTables(s: State, s': State, a: Action)
    requires TableStep(s, s', a)
    ensures s.tokens <= s'.tokens && |s.table| <= |s'.table|
    ensures forall i :: 0 <= i < |s.table| ==> s.table[i].SameIdentity(s'.table[i])
    ensures forall i :: |s.table| <= i < |s'.table| ==> !s'.table[i].Guarded()
  {
    RowsFollow(s, s', a);
  }

  lemma StepGrows(s: State, a: Action)
    requires WellFormed(s) && InspectionInv(s)
    ensures Grows(s, Step(s, a))
  {
    StepTableStep(s, a);
    StepTables(s, Step(s, a), a);
    StepInspects(s, a);
    if Step(s, a).inspected != s.inspected {
      assert PcCleared(s.table, s.tokens, s.inspected, a.token, s.dispatchers[a.token]);
    }
  }

  lemma ClearedStays(s: State, s': State, k: Token)
    requires Grows(s, s') && Cleared(s.table, s.tokens, s.inspected, k)
    ensures Cleared(s'.table, s'.tokens, s'.inspected, k)
    ensures GuardsEdit(s'.table[s'.tokens[k]].operation, s'.inspected[k]) <==> GuardsEdit(s.table[s.tokens[k]].operation, s.inspected[k])
  {
    assert s.table[s.tokens[k]].SameIdentity(s'.table[s.tokens[k]]);
  }

  lemma InspectedNow(s: State, s': State, k: Token, boundary: Option<Boundary>)
    requires Grows(s, s') && k < |s.tokens| && s.tokens[k] < |s.table| && k in s'.inspected && s'.inspected[k] == boundary
    ensures PcCleared(s'.table, s'.tokens, s'.inspected, k, AfterInspect(s.table[s.tokens[k]], boundary))
  {
    assert s.table[s.tokens[k]].SameIdentity(s'.table[s.tokens[k]]);
    InspectionMeaning(s.table[s.tokens[k]], boundary);
  }

  lemma PcKept(s: State, a: Action, k: Token)
    requires Inv(s) && InspectionInv(s) && Grows(s, Step(s, a)) && k in Step(s, a).dispatchers
    ensures var s' := Step(s, a); PcCleared(s'.table, s'.tokens, s'.inspected, k, s'.dispatchers[k])
  {
    var s' := Step(s, a);
    var pc := s'.dispatchers[k];
    StepComesFrom(s, a, k);
    StepInspects(s, a);
    if k in s.dispatchers { assert PcCleared(s.table, s.tokens, s.inspected, k, s.dispatchers[k]); }
    if pc.Beginning? && s.dispatchers[k] != pc {
      InspectedNow(s, s', k, a.boundary);
    } else if pc.Beginning? || pc.Sending? {
      ClearedStays(s, s', k);
    }
  }

  lemma GuardKept(s: State, a: Action, i: nat)
    requires Inv(s) && InspectionInv(s) && Grows(s, Step(s, a)) && i < |Step(s, a).table| && Step(s, a).table[i].Guarded()
    ensures var s' := Step(s, a); exists k: Token :: Guarding(s'.table, s'.tokens, s'.inspected, i, k)
  {
    var s' := Step(s, a);
    assert i < |s.table| && s.table[i].SameIdentity(s'.table[i]);
    var k: Token;
    if s.table[i].Guarded() {
      k :| Guarding(s.table, s.tokens, s.inspected, i, k);
    } else {
      StepMarks(s, a, i);
      k := a.token;
      assert PcCleared(s.table, s.tokens, s.inspected, k, s.dispatchers[k]);
    }
    assert Guarding(s'.table, s'.tokens, s'.inspected, i, k);
  }

  lemma InspectionKept(s: State, a: Action)
    requires Inv(s) && InspectionInv(s)
    ensures InspectionInv(Step(s, a))
  {
    var s' := Step(s, a);
    StepGrows(s, a);
    forall k: Token <- s'.dispatchers ensures PcCleared(s'.table, s'.tokens, s'.inspected, k, s'.dispatchers[k]) { PcKept(s, a, k); }
    forall k: Token <- s'.requests ensures Cleared(s'.table, s'.tokens, s'.inspected, k) {
      StepRequests(s, a, k);
      if k !in s.requests { assert PcCleared(s.table, s.tokens, s.inspected, k, s.dispatchers[k]); }
      ClearedStays(s, s', k);
    }
    forall i | 0 <= i < |s'.table| && s'.table[i].Guarded() ensures exists k: Token :: Guarding(s'.table, s'.tokens, s'.inspected, i, k) {
      GuardKept(s, a, i);
    }
    StepInspects(s, a);
  }

  lemma {:induction false} InspectionReachable(run: seq<Action>)
    ensures InspectionInv(Exec(run))
  {
    if run != [] {
      Reachable(run[..|run| - 1]);
      InspectionReachable(run[..|run| - 1]);
      InspectionKept(Exec(run[..|run| - 1]), run[|run| - 1]);
    }
  }

  /**
   In every run a delivery request leaves a dispatcher only if the boundary that this dispatcher inspected was waiting,
   or running with exactly the turn that the item steers.
   */
  lemma RequestsMatchBoundary(run: seq<Action>, k: Token)
    ensures var s := Exec(run);
            k in s.requests ==>
              && k < |s.tokens| && s.tokens[k] < |s.table| && k in s.inspected && s.inspected[k].Some?
              && var operation, boundary := s.table[s.tokens[k]].operation, s.inspected[k].value;
              && (boundary.Waiting? || boundary.Running?)
              && (boundary.Running? ==>
                    && operation.Some? && operation.value.kind == Steer
                    && operation.value.expectedTurnId.Some? && operation.value.expectedTurnId == boundary.turnId)
  {
    InspectionReachable(run);
  }

  /** In every run only an edit is guarded, and only after some dispatcher of it inspected a waiting boundary that guards edits. */
  lemma GuardsMatchBoundary(run: seq<Action>, i: nat)
    ensures var s := Exec(run);
            i < |s.table| && s.table[i].Guarded() ==>
              && s.table[i].IsKind(Edit)
              && exists k: Token :: k < |s.tokens| && s.tokens[k] == i && k in s.inspected && s.inspected[k] == Some(Waiting(true))
  {
    InspectionReachable(run);
    var s := Exec(run);
    if i < |s.table| && s.table[i].Guarded() {
      var k: Token :| Guarding(s.table, s.tokens, s.inspected, i, k);
    }
  }
}
