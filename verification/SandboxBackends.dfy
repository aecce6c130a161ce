/**
 The two sandbox wrappers as objects. Every method is one step of SandboxGate or one event of SandboxLifecycle, keeps
 the invariant of its object, and states what it did for its session and key and what it left alone.
 */
module SandboxBackends {
  import opened Common
  import opened SandboxGate
  import opened SandboxLifecycle
  import opened SandboxEffects

  class AdmissionGate {
    const limit: nat
    const maxQueued: nat
    var permitsInUse: nat
    var waiters: seq<nat>
    var active: map<Key, nat>
    var sessions: seq<Session>

    constructor (limit: nat, maxQueued: nat)
      ensures State() == Empty(limit, maxQueued) && Valid()
    {
      this.limit, this.maxQueued := limit, maxQueued;
      permitsInUse, waiters, active, sessions := 0, [], map[], [];
    }

    function State(): Gate
      reads this
    {
      Gate(limit, maxQueued, permitsInUse, waiters, active, sessions)
    }

    /** Permits in use are the registered sessions that hold one, never more than the limit; the queue is served in order. */
    ghost predicate Valid()
      reads this
    {
      Inv(State())
    }

    /** `acquire`: takes a permit at once, joins the queue, or fails because the queue is full. */
    method Acquire(id: nat) returns (admission: Admission)
      modifies this`permitsInUse, this`waiters
      ensures admission.Granted? <==> old(permitsInUse) < limit && old(waiters) == []
      ensures admission.Refused? <==> !(old(permitsInUse) < limit && old(waiters) == []) && |old(waiters)| >= maxQueued
      ensures permitsInUse == old(permitsInUse) + (if admission.Granted? then 1 else 0)
      ensures waiters == if admission.Pending? then old(waiters) + [id] else old(waiters)
    {
      if permitsInUse < limit && waiters == [] {
        permitsInUse := permitsInUse + 1;
        return Granted;
      }
      if |waiters| >= maxQueued { return Refused; }
      waiters := waiters + [id];
      admission := Pending;
    }

    /** `create` up to its first await. */
    method Create(key: Key) returns (id: nat)
      requires Valid()
      modifies this
      ensures Valid() && (State(), id) == SandboxGate.Create(old(State()), key)
      ensures active == old(active)[key := id]
      ensures key in old(active) ==> State() == old(State())
      ensures key !in old(active) ==>
                && id == |old(sessions)| && |sessions| == id + 1 && sessions[..id] == old(sessions)
                && sessions[id].key == key && sessions[id].references == 0
                && (sessions[id].admission.Granted? <==> Free(old(State())))
                && (sessions[id].admission.Pending? <==> !Free(old(State())) && |old(waiters)| < maxQueued)
                && permitsInUse == old(permitsInUse) + (if sessions[id].admission.Granted? then 1 else 0)
                && waiters == old(waiters) + (if sessions[id].admission.Pending? then [id] else [])
    {
      CreateKeeps(State(), key);
      if key in active { return active[key]; }
      id := |sessions|;
      var admission := Acquire(id);
      sessions := sessions + [Session(key, admission, false, 0)];
      active := active[key := id];
    }

    /** `create` once its admission settled. */
    method Resume(id: nat) returns (admitted: bool)
      requires Valid()
      modifies this
      ensures Valid() && State() == SandboxGate.Resume(old(State()), id)
      ensures admitted <==> id < |old(sessions)| && old(sessions)[id].admission.Granted?
      ensures admitted ==> |sessions| == |old(sessions)| && sessions[id].references == old(sessions)[id].references + 1
      ensures permitsInUse == old(permitsInUse) && waiters == old(waiters)
      ensures admitted ==> active == old(active)
      ensures !admitted ==> sessions == old(sessions) && forall key <- old(active) :: old(active)[key] != id ==> key in active && active[key] == old(active)[key]
    {
      ResumeKeeps(State(), id);
      if id >= |sessions| { return false; }
      var s := sessions[id];
      if s.admission.Granted? {
        sessions := sessions[id := s.(admitted := true, references := s.references + 1)];
        return true;
      }
      if s.admission.Refused? && s.key in active && active[s.key] == id {
        active := active - {s.key};
      }
      admitted := false;
    }

    method ReleaseStep(id: nat) returns (woken: Option<nat>)
      modifies this
      ensures State() == SandboxGate.Release(old(State()), id)
      ensures woken.Some? <==> |waiters| < |old(waiters)|
      ensures woken.Some? ==> woken.value == old(waiters)[0] && waiters == old(waiters)[1..]
      ensures woken.None? ==> waiters == old(waiters)
      ensures Releasable(old(State()), id) && old(sessions)[id].references == 1 ==> (woken.None? <==> old(waiters) == [])
      ensures !(Releasable(old(State()), id) && old(sessions)[id].references == 1) ==> woken.None?
    {
      woken := None;
      if !(id < |sessions| && sessions[id].references > 0 && sessions[id].key in active && active[sessions[id].key] == id) {
        return;
      }
      var s := sessions[id];
      sessions := sessions[id := s.(references := s.references - 1)];
      if s.references > 1 { return; }
      active := active - {s.key};
      if s.admitted && permitsInUse > 0 { permitsInUse := permitsInUse - 1; }
      if waiters != [] {
        var w := waiters[0];
        waiters := waiters[1..];
        permitsInUse := permitsInUse + 1;
        if w < |sessions| { sessions := sessions[w := sessions[w].(admission := Granted)]; }
        woken := Some(w);
      }
    }

    /** `release`: the last reference frees the permit and hands it to the first waiter, which is returned. */
    method Release(id: nat) returns (woken: Option<nat>)
      requires Valid()
      modifies this
      ensures Valid() && State() == SandboxGate.Release(old(State()), id)
      ensures woken.Some? <==> |waiters| < |old(waiters)|
      ensures woken.Some? ==>
                && woken.value == old(waiters)[0] && waiters == old(waiters)[1..] && permitsInUse == old(permitsInUse)
                && woken.value < |sessions| && sessions[woken.value].admission.Granted?
      ensures woken.None? ==> waiters == old(waiters)
      ensures Releasable(old(State()), id) && old(sessions)[id].references == 1 ==>
                && old(sessions)[id].key !in active
                && (woken.None? ==> old(waiters) == [] && permitsInUse == old(permitsInUse) - 1)
      ensures Releasable(old(State()), id) && old(sessions)[id].references > 1 ==>
                && woken.None? && active == old(active) && permitsInUse == old(permitsInUse)
      ensures !Releasable(old(State()), id) ==> State() == old(State())
    {
      ReleaseKeeps(State(), id);
      if Releasable(State(), id) { ReleaseAccounts(State(), id); }
      woken := ReleaseStep(id);
    }

    /** The timer of a queued acquire. */
    method TimeOut(id: nat)
      requires Valid()
      modifies this
      ensures Valid() && State() == SandboxGate.TimeOut(old(State()), id)
      ensures id in old(waiters) ==> id !in waiters && |sessions| == |old(sessions)| && id < |sessions| && sessions[id].admission.Refused?
      ensures id !in old(waiters) ==> State() == old(State())
      ensures forall w :: w in waiters <==> w in old(waiters) && w != id
      ensures active == old(active) && permitsInUse == old(permitsInUse)
    {
      TimeOutKeeps(State(), id);
      if id in waiters && id < |sessions| {
        waiters := Without(waiters, id);
        sessions := sessions[id := sessions[id].(admission := Refused)];
      }
    }
  }

  class IdleBackend {
    const gate: AdmissionGate
    var entries: map<Key, nat>
    var allEntries: seq<Entry>
    var creations: map<Key, Creation>
    var computes: seq<Compute>
    var reattaching: set<nat>

    constructor (gate: AdmissionGate)
      requires gate.State() == Empty(gate.limit, gate.maxQueued)
      ensures this.gate == gate && State() == Fresh(gate.limit, gate.maxQueued) && Valid()
    {
      this.gate := gate;
      entries, allEntries, creations, computes, reattaching := map[], [], map[], [], {};
    }

    function State(): Host
      reads this, gate
    {
      Host(gate.State(), entries, allEntries, creations, computes, reattaching)
    }

    /** Entries, creations, unstopped computes and registered sessions belong together, one of each for a key. */
    ghost predicate Valid()
      reads this, gate
    {
      HostInv(State())
    }

    method Admit(key: Key, session: nat)
      requires gate.Valid()
      modifies this, gate
      ensures gate.Valid() && State() == SandboxLifecycle.Admit(old(State()), key, session)
    {
      var admitted := gate.Resume(session);
      creations := creations[key := AwaitingBackend(session, |computes|)];
      computes := computes + [Compute(key, Starting)];
    }

    method Reject(key: Key, session: nat)
      requires gate.Valid()
      modifies this, gate
      ensures gate.Valid() && State() == SandboxLifecycle.Reject(old(State()), key, session)
    {
      var admitted := gate.Resume(session);
      creations := creations - {key};
    }

    method StartCreation(key: Key)
      requires gate.Valid()
      modifies this, gate
      ensures gate.Valid() && State() == SandboxLifecycle.StartCreation(old(State()), key)
    {
      if key in creations { return; }
      var session := gate.Create(key);
      if session >= |gate.sessions| { return; }
      match gate.sessions[session].admission {
        case Granted => Admit(key, session);
        case Pending => creations := creations[key := AwaitingAdmission(session)];
        case Refused => Reject(key, session);
      }
    }

    method ReleaseSession(session: nat)
      requires gate.Valid()
      modifies this, gate
      ensures gate.Valid() && State() == SandboxLifecycle.ReleaseSession(old(State()), session)
    {
      var woken := gate.Release(session);
      if woken.Some? && woken.value < |gate.sessions| {
        Admit(gate.sessions[woken.value].key, woken.value);
      }
    }

    method CreateStep(key: Key)
      requires gate.Valid()
      modifies this, gate
      ensures State() == CallCreate(old(State()), key)
    {
      if key in entries && entries[key] < |allEntries| {
        var e := entries[key];
        allEntries := allEntries[e := allEntries[e].(timer := false)];
        if !allEntries[e].operation.NotStopping? { reattaching := reattaching + {e}; }
      } else {
        StartCreation(key);
      }
    }

    /** `create`: reuses the live entry, waits for its stop, or joins or starts a creation. */
    method Create(key: Key)
      requires Valid()
      modifies this, gate
      ensures Valid() && State() == CallCreate(old(State()), key)
      ensures CreateEffect(old(State()), State(), key)
      ensures |Unstopped(State())| <= gate.limit
    {
      ghost var before := State();
      CreateStep(key);
      EventKeeps(before, State(), Creating(key));
      Creates(before, key);
    }

    method AdmissionTimeout(session: nat)
      requires Valid()
      modifies this, gate
      ensures Valid() && State() == AdmissionTimesOut(old(State()), session)
      ensures TimeoutEffect(old(State()), State(), session)
      ensures |Unstopped(State())| <= gate.limit
    {
      ghost var before := State();
      if session in gate.waiters && session < |gate.sessions| {
        gate.TimeOut(session);
        Reject(gate.sessions[session].key, session);
      }
      EventKeeps(before, State(), SandboxLifecycle.AdmissionTimeout(session));
      TimesOut(before, session);
    }

    method Created(key: Key)
      requires Valid()
      modifies this
      ensures Valid() && State() == BackendCreated(old(State()), key)
      ensures CreatedEffect(old(State()), State(), key)
      ensures |Unstopped(State())| <= gate.limit
    {
      ghost var before := State();
      if key in creations && creations[key].AwaitingBackend? && creations[key].compute < |computes| {
        var c := creations[key];
        entries := entries[key := |allEntries|];
        allEntries := allEntries + [Entry(key, c.session, c.compute, false, NotStopping)];
        creations := creations - {key};
        computes := computes[c.compute := computes[c.compute].(life := Live)];
      }
      EventKeeps(before, State(), SandboxLifecycle.Created(key));
      Becomes(before, key);
    }

    method CreateFailed(key: Key)
      requires Valid()
      modifies this, gate
      ensures Valid() && State() == BackendCreateFails(old(State()), key)
      ensures CreateFailedEffect(old(State()), State(), key)
      ensures |Unstopped(State())| <= gate.limit
    {
      ghost var before := State();
      if key in creations && creations[key].AwaitingBackend? && creations[key].compute < |computes| {
        var c := creations[key];
        computes := computes[c.compute := computes[c.compute].(life := Gone)];
        creations := creations - {key};
        ReleaseSession(c.session);
      }
      EventKeeps(before, State(), SandboxLifecycle.CreateFailed(key));
      Fails(before, key);
    }

    method CaptureState(e: nat)
      requires Valid()
      modifies this
      ensures Valid() && State() == StateCaptured(old(State()), e)
      ensures CapturedEffect(old(State()), State(), e)
      ensures |Unstopped(State())| <= gate.limit
    {
      ghost var before := State();
      if Current(State(), e) && allEntries[e].operation.NotStopping? {
        allEntries := allEntries[e := allEntries[e].(timer := true)];
      }
      EventKeeps(before, State(), Captured(e));
      Captures(before, e);
    }

    method StopStep(e: nat)
      modifies this`allEntries
      ensures State() == CallShutdown(old(State()), e)
    {
      if e < |allEntries| && allEntries[e].operation.NotStopping? {
        if Current(State(), e) && allEntries[e].timer { allEntries := allEntries[e := allEntries[e].(timer := false)]; }
        allEntries := allEntries[e := allEntries[e].(operation := Stopping)];
      }
    }

    method Stop(e: nat)
      requires Valid()
      modifies this
      ensures Valid() && State() == CallShutdown(old(State()), e)
      ensures StopEffect(old(State()), State(), e)
      ensures |Unstopped(State())| <= gate.limit
    {
      ghost var before := State();
      StopStep(e);
      EventKeeps(before, State(), ShuttingDown(e));
      Stops(before, e);
    }

    method IdleTimerFires(e: nat)
      requires Valid()
      modifies this
      ensures Valid() && State() == TimerFires(old(State()), e)
      ensures TimerEffect(old(State()), State(), e)
      ensures |Unstopped(State())| <= gate.limit
    {
      ghost var before := State();
      if e < |allEntries| && allEntries[e].timer && Current(State(), e) {
        allEntries := allEntries[e := allEntries[e].(timer := false)];
        StopStep(e);
      }
      EventKeeps(before, State(), IdleTimer(e));
      TimerStops(before, e);
    }

    /** Gives up the entry of a stopped compute and its permit; the first waiter goes on. */
    method Drop(e: nat)
      requires gate.Valid() && e < |allEntries| && allEntries[e].compute < |computes|
      modifies this, gate
      ensures gate.Valid() && State() == Dropped(old(State()), e)
    {
      var entry := allEntries[e];
      computes := computes[entry.compute := computes[entry.compute].(life := Gone)];
      ReleaseSession(entry.session);
      allEntries := allEntries[e := entry.(operation := Stopped)];
      if Current(State(), e) { entries := entries - {entry.key}; }
      reattaching := reattaching - {e};
    }

    method ShutDownStep(e: nat)
      requires gate.Valid()
      modifies this, gate
      ensures State() == ShutdownSucceeds(old(State()), e)
    {
      if e < |allEntries| && allEntries[e].operation.Stopping? && allEntries[e].compute < |computes| {
        var key, waited := allEntries[e].key, e in reattaching;
        Drop(e);
        if waited { StartCreation(key); }
      }
    }

    /** The backend stopped: entry and permit are given up, and a waiting `create` starts over. */
    method ShutDown(e: nat)
      requires Valid()
      modifies this, gate
      ensures Valid() && State() == ShutdownSucceeds(old(State()), e)
      ensures ShutDownEffect(old(State()), State(), e)
      ensures |Unstopped(State())| <= gate.limit
    {
      ghost var before := State();
      ShutDownStep(e);
      EventKeeps(before, State(), SandboxLifecycle.ShutDown(e));
      ShutsDown(before, e);
    }

    method ShutdownFailed(e: nat)
      requires Valid()
      modifies this
      ensures Valid() && State() == ShutdownFails(old(State()), e)
      ensures ShutdownFailedEffect(old(State()), State(), e)
      ensures |Unstopped(State())| <= gate.limit
    {
      ghost var before := State();
      if e < |allEntries| && allEntries[e].operation.Stopping? {
        allEntries := allEntries[e := allEntries[e].(operation := NotStopping)];
        reattaching := reattaching - {e};
      }
      EventKeeps(before, State(), SandboxLifecycle.ShutdownFailed(e));
      StopFails(before, e);
    }
  }

  /** An event keeps the invariant, and with it the bound on computes. */
  lemma EventKeeps(h: Host, h': Host, event: Event)
    requires HostInv(h) && h' == SandboxLifecycle.Step(h, event)
    ensures HostInv(h') && |Unstopped(h')| <= h'.gate.limit
  {
    SandboxLifecycle.StepKeeps(h, event);
    InvariantBounds(h');
  }
}
