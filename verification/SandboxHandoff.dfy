/** Creates that wait for the stop of their key's entry: none is forgotten, in any run. */
module SandboxHandoff {
  import opened Common
  import SandboxGate
  import opened SandboxLifecycle
  import opened SandboxEffects

  /** Whom creates wait for is stopping. */
  ghost predicate WaitedAreStopping(h: Host) {
    forall e <- h.reattaching :: e < |h.allEntries| && h.allEntries[e].operation.Stopping?
  }

  /** The stop of entry `e` settles. */
  predicate Settles(event: Event, e: nat) {
    event == ShutDown(e) || event == ShutdownFailed(e)
  }

  /** Whom creates wait for after the event. */
  function NextReattaching(h: Host, event: Event): set<nat> {
    match event
    case Creating(key) =>
      if key in h.entries && h.entries[key] < |h.allEntries| && h.allEntries[h.entries[key]].operation.Stopping?
      then h.reattaching + {h.entries[key]} else h.reattaching
    case ShutDown(e) => if e < |h.allEntries| && h.allEntries[e].operation.Stopping? then h.reattaching - {e} else h.reattaching
    case ShutdownFailed(e) => if e < |h.allEntries| && h.allEntries[e].operation.Stopping? then h.reattaching - {e} else h.reattaching
    case _ => h.reattaching
  }

  lemma StepReattaching(h: Host, event: Event)
    requires HostInv(h)
    ensures Step(h, event).reattaching == NextReattaching(h, event)
  {
    match event
    case Creating(key) => Creates(h, key);
    case AdmissionTimeout(session) => TimesOut(h, session);
    case Created(key) => Becomes(h, key);
    case CreateFailed(key) => Fails(h, key);
    case ShutDown(e) => ShutsDown(h, e);
    case _ =>
  }

  lemma StartLeavesEntries(h: Host, key: SandboxGate.Key)
    ensures StartCreation(h, key).allEntries == h.allEntries
  {
  }

  lemma DropLeavesEntries(h: Host, other: nat)
    requires other < |h.allEntries| && h.allEntries[other].compute < |h.computes|
    ensures Dropped(h, other).allEntries == h.allEntries[other := h.allEntries[other].(operation := Stopped)]
  {
    var entry := h.allEntries[other];
    ReleaseForgets(h.(computes := h.computes[entry.compute := h.computes[entry.compute].(life := Gone)]), entry.session, other);
  }

  lemma ShutdownLeavesEntries(h: Host, other: nat)
    ensures other >= |h.allEntries| ==> ShutdownSucceeds(h, other).allEntries == h.allEntries
    ensures other < |h.allEntries| ==>
              || ShutdownSucceeds(h, other).allEntries == h.allEntries
              || ShutdownSucceeds(h, other).allEntries == h.allEntries[other := h.allEntries[other].(operation := Stopped)]
  {
    if other < |h.allEntries| && h.allEntries[other].operation.Stopping? && h.allEntries[other].compute < |h.computes| {
      DropLeavesEntries(h, other);
      StartLeavesEntries(Dropped(h, other), h.allEntries[other].key);
    }
  }

  lemma FailureLeavesEntries(h: Host, key: SandboxGate.Key)
    ensures BackendCreateFails(h, key).allEntries == h.allEntries
  {
  }

  lemma CreateLeavesOperations(h: Host, key: SandboxGate.Key, e: nat)
    requires e < |h.allEntries|
    ensures e < |CallCreate(h, key).allEntries| && CallCreate(h, key).allEntries[e].operation == h.allEntries[e].operation
  {
    StartLeavesEntries(h, key);
  }

  /** A stopping entry stops stopping only as its own stop settles. */
  lemma StepOperations(h: Host, event: Event, e: nat)
    requires e < |h.allEntries| && h.allEntries[e].operation.Stopping? && !Settles(event, e)
    ensures e < |Step(h, event).allEntries| && Step(h, event).allEntries[e].operation.Stopping?
  {
    match event
    case Creating(key) => CreateLeavesOperations(h, key, e);
    case CreateFailed(key) => FailureLeavesEntries(h, key);
    case ShutDown(other) => ShutdownLeavesEntries(h, other);
    case _ =>
  }

  lemma NextWaited(h: Host, event: Event, e: nat)
    requires WaitedAreStopping(h) && e in NextReattaching(h, event)
    ensures e < |h.allEntries| && h.allEntries[e].operation.Stopping? && !Settles(event, e)
  {
  }

  lemma WaitedStayStopping(h: Host, event: Event)
    requires HostInv(h) && WaitedAreStopping(h)
    ensures WaitedAreStopping(Step(h, event))
  {
    var h' := Step(h, event);
    StepReattaching(h, event);
    forall e <- NextReattaching(h, event) ensures e < |h'.allEntries| && h'.allEntries[e].operation.Stopping? {
      NextWaited(h, event, e);
      StepOperations(h, event, e);
    }
  }

  lemma {:induction false} WaitedReachable(limit: nat, maxQueued: nat, run: seq<Event>)
    ensures WaitedAreStopping(Exec(limit, maxQueued, run))
  {
    if run != [] {
      Reachable(limit, maxQueued, run[..|run| - 1]);
      WaitedReachable(limit, maxQueued, run[..|run| - 1]);
      WaitedStayStopping(Exec(limit, maxQueued, run[..|run| - 1]), run[|run| - 1]);
    }
  }

  lemma {:induction false} KeepsWaiting(limit: nat, maxQueued: nat, run: seq<Event>, e: nat, more: seq<Event>)
    requires e in Exec(limit, maxQueued, run).reattaching && forall n :: 0 <= n < |more| ==> !Settles(more[n], e)
    ensures e in Exec(limit, maxQueued, run + more).reattaching
  {
    if more == [] {
      assert run + more == run;
    } else {
      var init, last := run + more[..|more| - 1], more[|more| - 1];
      assert run + more == init + [last];
      KeepsWaiting(limit, maxQueued, run, e, more[..|more| - 1]);
      WaitsAfter(limit, maxQueued, init, last, e);
    }
  }

  lemma WaitsAfter(limit: nat, maxQueued: nat, run: seq<Event>, event: Event, e: nat)
    requires e in Exec(limit, maxQueued, run).reattaching && !Settles(event, e)
    ensures e in Exec(limit, maxQueued, run + [event]).reattaching
  {
    Reachable(limit, maxQueued, run);
    ExecSnoc(limit, maxQueued, run, event);
    StepReattaching(Exec(limit, maxQueued, run), event);
  }

  lemma ExecSnoc(limit: nat, maxQueued: nat, run: seq<Event>, event: Event)
    ensures Exec(limit, maxQueued, run + [event]) == Step(Exec(limit, maxQueued, run), event)
  {
    assert (run + [event])[..|run|] == run;
  }

  /** The key has an entry that is being stopped. */
  predicate BeingStopped(h: Host, key: SandboxGate.Key) {
    key in h.entries && h.entries[key] < |h.allEntries| && h.allEntries[h.entries[key]].operation.Stopping?
  }

  /** A create that finds its entry stopping waits for it, and in every run keeps waiting until exactly that stop settles. */
  lemma WaitingCreatesLast(limit: nat, maxQueued: nat, run: seq<Event>, key: SandboxGate.Key, more: seq<Event>)
    requires BeingStopped(Exec(limit, maxQueued, run), key)
    requires forall n :: 0 <= n < |more| ==>
               more[n] != ShutDown(Exec(limit, maxQueued, run).entries[key]) && more[n] != ShutdownFailed(Exec(limit, maxQueued, run).entries[key])
    ensures Exec(limit, maxQueued, run).entries[key] in Exec(limit, maxQueued, run + [Creating(key)] + more).reattaching
  {
    Reachable(limit, maxQueued, run);
    ExecSnoc(limit, maxQueued, run, Creating(key));
    StepReattaching(Exec(limit, maxQueued, run), Creating(key));
    KeepsWaiting(limit, maxQueued, run + [Creating(key)], Exec(limit, maxQueued, run).entries[key], more);
  }

  /** After its stop succeeded, the key has a creation or was turned away by a full queue. */
  ghost predicate ServedAfterStop(h': Host, e: nat, key: SandboxGate.Key) {
    && e !in h'.reattaching && key !in h'.entries
    && (key in h'.creations || (key !in h'.gate.active && |h'.gate.waiters| >= h'.gate.maxQueued))
  }

  /** After its stop failed, the key still has its entry, which can be stopped again. */
  ghost predicate ServedAfterFailure(h': Host, e: nat, key: SandboxGate.Key) {
    && e !in h'.reattaching && key in h'.entries && h'.entries[key] == e
    && e < |h'.allEntries| && h'.allEntries[e].operation.NotStopping?
  }

  /** In every run, once the stop that creates wait for settles, they are served. */
  lemma WaitingCreatesServed(limit: nat, maxQueued: nat, run: seq<Event>, e: nat)
    requires e in Exec(limit, maxQueued, run).reattaching
    ensures var h := Exec(limit, maxQueued, run);
            && e < |h.allEntries| && h.allEntries[e].operation.Stopping?
            && ServedAfterStop(Exec(limit, maxQueued, run + [ShutDown(e)]), e, h.allEntries[e].key)
            && ServedAfterFailure(Exec(limit, maxQueued, run + [ShutdownFailed(e)]), e, h.allEntries[e].key)
  {
    var h := Exec(limit, maxQueued, run);
    Reachable(limit, maxQueued, run);
    WaitedReachable(limit, maxQueued, run);
    ExecSnoc(limit, maxQueued, run, ShutDown(e));
    ExecSnoc(limit, maxQueued, run, ShutdownFailed(e));
    StopServes(h, e);
    FailureServes(h, e);
  }

  lemma StopServes(h: Host, e: nat)
    requires HostInv(h) && WaitedAreStopping(h) && e in h.reattaching
    ensures e < |h.allEntries| && ServedAfterStop(Step(h, ShutDown(e)), e, h.allEntries[e].key)
  {
    ShutsDown(h, e);
    ShutDownStep(h, e);
    EffectServes(h, ShutdownSucceeds(h, e), e);
  }

  lemma ShutDownStep(h: Host, e: nat)
    ensures Step(h, ShutDown(e)) == ShutdownSucceeds(h, e)
  {
  }

  lemma EffectServes(h: Host, h': Host, e: nat)
    requires WaitedAreStopping(h) && e in h.reattaching && ShutDownEffect(h, h', e)
    ensures ServedAfterStop(h', e, h.allEntries[e].key)
  {
  }

  lemma FailureServes(h: Host, e: nat)
    requires HostInv(h) && WaitedAreStopping(h) && e in h.reattaching
    ensures e < |h.allEntries| && ServedAfterFailure(Step(h, ShutdownFailed(e)), e, h.allEntries[e].key)
  {
    StopFails(h, e);
  }
}
