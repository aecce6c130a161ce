/**
 The idle-shutdown layer in front of the admission gate.

 Each event runs to completion, together with the continuations of the promises it settles in registration
 order. Any client may hold handles to any entry and use them at any time, so captureState and shutdown events
 name an arbitrary entry, current or stale.
 */
module SandboxLifecycle {
  import opened Common
  import opened SandboxGate
  import opened Counting

  /** `entry.operation`: unset, in flight, or settled successfully. A failed operation is unset again. */
  datatype Operation = NotStopping | Stopping | Stopped

  datatype Entry = Entry(key: Key, session: nat, compute: nat, timer: bool, operation: Operation)

  /** A creation waits for its gate session or for the backend. */
  datatype Creation = AwaitingAdmission(session: nat) | AwaitingBackend(session: nat, compute: nat)

  datatype Life = Starting | Live | Gone

  /** One call of the real backend's `create`. */
  datatype Compute = Compute(key: Key, life: Life)

  /**
   `entries` and `creations` are the two maps; `allEntries` remembers entries that handles may still refer to.
   `reattaching` holds the entries whose stop some `create` call is waiting for.
   */
  datatype Host = Host(
    gate: Gate,
    entries: map<Key, nat>,
    allEntries: seq<Entry>,
    creations: map<Key, Creation>,
    computes: seq<Compute>,
    reattaching: set<nat>)

  function Fresh(limit: nat, maxQueued: nat): Host {
    Host(Empty(limit, maxQueued), map[], [], map[], [], {})
  }

  // ---- continuations ----

  /** The gate's caller resumes granted: it takes its reference and calls the backend. */
  function Admit(h: Host, key: Key, session: nat): Host {
    h.(gate := Resume(h.gate, session),
       creations := h.creations[key := AwaitingBackend(session, |h.computes|)],
       computes := h.computes + [Compute(key, Starting)])
  }

  /** The gate's caller resumes refused: its creation promise rejects and leaves the map. */
  function Reject(h: Host, key: Key, session: nat): Host {
    h.(gate := Resume(h.gate, session), creations := h.creations - {key})
  }

  /** Joins the creation under way for a key, or starts one. */
  function StartCreation(h: Host, key: Key): Host {
    if key in h.creations then h
    else
      var (gate, session) := Create(h.gate, key);
      var h' := h.(gate := gate);
      if session >= |gate.sessions| then h'
      else match gate.sessions[session].admission
        case Granted => Admit(h', key, session)
        case Pending => h'.(creations := h.creations[key := AwaitingAdmission(session)])
        case Refused => Reject(h', key, session)
  }

  /** Releases a gate session; if that wakes the first waiter, the creation waiting on it goes on to the backend. */
  function ReleaseSession(h: Host, session: nat): Host {
    var gate := Release(h.gate, session);
    var h' := h.(gate := gate);
    if |gate.waiters| < |h.gate.waiters| && h.gate.waiters[0] < |gate.sessions| then
      Admit(h', gate.sessions[h.gate.waiters[0]].key, h.gate.waiters[0])
    else h'
  }

  function SetEntry(h: Host, e: nat, entry: Entry): Host
    requires e < |h.allEntries|
  {
    h.(allEntries := h.allEntries[e := entry])
  }

  // ---- events ----

  predicate CurrentIn(entries: map<Key, nat>, all: seq<Entry>, e: nat) {
    e < |all| && all[e].key in entries && entries[all[e].key] == e
  }

  predicate Current(h: Host, e: nat) {
    CurrentIn(h.entries, h.allEntries, e)
  }

  function CallCreate(h: Host, key: Key): Host {
    if key in h.entries && h.entries[key] < |h.allEntries| then
      var e := h.entries[key];
      var h' := SetEntry(h, e, h.allEntries[e].(timer := false));
      if h.allEntries[e].operation.NotStopping? then h' else h'.(reattaching := h.reattaching + {e})
    else StartCreation(h, key)
  }

  /** The admission timer of a queued session fires and its creation fails. */
  function AdmissionTimesOut(h: Host, session: nat): Host {
    if session in h.gate.waiters && session < |h.gate.sessions| then
      Reject(h.(gate := TimeOut(h.gate, session)), h.gate.sessions[session].key, session)
    else h
  }

  function BackendCreated(h: Host, key: Key): Host {
    if key in h.creations && h.creations[key].AwaitingBackend? && h.creations[key].compute < |h.computes| then
      var c := h.creations[key];
      h.(entries := h.entries[key := |h.allEntries|],
         allEntries := h.allEntries + [Entry(key, c.session, c.compute, false, NotStopping)],
         creations := h.creations - {key},
         computes := h.computes[c.compute := h.computes[c.compute].(life := Live)])
    else h
  }

  function BackendCreateFails(h: Host, key: Key): Host {
    if key in h.creations && h.creations[key].AwaitingBackend? && h.creations[key].compute < |h.computes| then
      var c := h.creations[key];
      ReleaseSession(h.(creations := h.creations - {key},
                        computes := h.computes[c.compute := h.computes[c.compute].(life := Gone)]), c.session)
    else h
  }

  /** `captureState` resolved: the idle timer is armed unless the entry is stopping or no longer current. */
  function StateCaptured(h: Host, e: nat): Host {
    if Current(h, e) && h.allEntries[e].operation.NotStopping? then SetEntry(h, e, h.allEntries[e].(timer := true)) else h
  }

  /** `shutdown` on any handle of the entry; a second call joins the first. */
  function CallShutdown(h: Host, e: nat): Host {
    if e < |h.allEntries| && h.allEntries[e].operation.NotStopping? then
      SetEntry(h, e, h.allEntries[e].(operation := Stopping, timer := if Current(h, e) then false else h.allEntries[e].timer))
    else h
  }

  function TimerFires(h: Host, e: nat): Host {
    if e < |h.allEntries| && h.allEntries[e].timer && Current(h, e) then
      CallShutdown(SetEntry(h, e, h.allEntries[e].(timer := false)), e)
    else h
  }

  /** The entry of a stopped compute is given up. */
  function Forgotten(h: Host, e: nat): Host
    requires e < |h.allEntries|
  {
    var entry := h.allEntries[e];
    SetEntry(h, e, entry.(operation := Stopped)).(entries := if Current(h, e) then h.entries - {entry.key} else h.entries,
                                                  reattaching := h.reattaching - {e})
  }

  /** The state after a successful shutdown, before a waiting `create` starts over. */
  function Dropped(h: Host, e: nat): Host
    requires e < |h.allEntries| && h.allEntries[e].compute < |h.computes|
  {
    var entry := h.allEntries[e];
    Forgotten(ReleaseSession(h.(computes := h.computes[entry.compute := h.computes[entry.compute].(life := Gone)]), entry.session), e)
  }

  /** The backend stopped: the gate releases, the entry is dropped, and a waiting `create` starts over. */
  function ShutdownSucceeds(h: Host, e: nat): Host {
    if e < |h.allEntries| && h.allEntries[e].operation.Stopping? && h.allEntries[e].compute < |h.computes| then
      Restarted(Dropped(h, e), h.allEntries[e].key, e in h.reattaching)
    else h
  }

  /** A `create` that waited for the stop starts over. */
  function Restarted(h: Host, key: Key, waited: bool): Host {
    if waited then StartCreation(h, key) else h
  }

  /** The stop failed: the entry can be stopped again and waiting `create` calls reattach to it. */
  function ShutdownFails(h: Host, e: nat): Host {
    if e < |h.allEntries| && h.allEntries[e].operation.Stopping? then
      SetEntry(h, e, h.allEntries[e].(operation := NotStopping)).(reattaching := h.reattaching - {e})
    else h
  }

  datatype Event =
    | Creating(key: Key)
    | AdmissionTimeout(session: nat)
    | Created(key: Key)
    | CreateFailed(key: Key)
    | Captured(entry: nat)
    | ShuttingDown(entry: nat)
    | IdleTimer(entry: nat)
    | ShutDown(entry: nat)
    | ShutdownFailed(entry: nat)

  function Step(h: Host, e: Event): Host {
    match e
    case Creating(key) => CallCreate(h, key)
    case AdmissionTimeout(session) => AdmissionTimesOut(h, session)
    case Created(key) => BackendCreated(h, key)
    case CreateFailed(key) => BackendCreateFails(h, key)
    case Captured(entry) => StateCaptured(h, entry)
    case ShuttingDown(entry) => CallShutdown(h, entry)
    case IdleTimer(entry) => TimerFires(h, entry)
    case ShutDown(entry) => ShutdownSucceeds(h, entry)
    case ShutdownFailed(entry) => ShutdownFails(h, entry)
  }

  function Exec(limit: nat, maxQueued: nat, run: seq<Event>): Host {
    if run == [] then Fresh(limit, maxQueued) else Step(Exec(limit, maxQueued, run[..|run| - 1]), run[|run| - 1])
  }

  // ---- the invariant ----

  /** The gate registers this session for the key, granted, with exactly one reference. */
  predicate Holds(g: Gate, key: Key, session: nat) {
    && key in g.active && g.active[key] == session && session < |g.sessions|
    && g.sessions[session].admission.Granted? && g.sessions[session].references == 1
  }

  predicate CreationOk(g: Gate, computes: seq<Compute>, key: Key, c: Creation) {
    match c
    case AwaitingAdmission(session) =>
      session < |g.sessions| && g.sessions[session].key == key && g.sessions[session].admission.Pending?
    case AwaitingBackend(session, compute) =>
      Holds(g, key, session) && compute < |computes| && computes[compute] == Compute(key, Starting)
  }

  /** The creations of all keys but `but`. */
  ghost predicate CreationsOk(g: Gate, computes: seq<Compute>, creations: map<Key, Creation>, entries: map<Key, nat>, but: Option<Key>) {
    forall key <- creations :: but == Some(key) || (key !in entries && CreationOk(g, computes, key, creations[key]))
  }

  predicate EntryOk(g: Gate, computes: seq<Compute>, key: Key, entry: Entry) {
    && entry.key == key && !entry.operation.Stopped? && Holds(g, key, entry.session)
    && entry.compute < |computes| && computes[entry.compute] == Compute(key, Live)
  }

  ghost predicate EntriesOk(g: Gate, computes: seq<Compute>, entries: map<Key, nat>, all: seq<Entry>) {
    forall key <- entries :: entries[key] < |all| && EntryOk(g, computes, key, all[entries[key]])
  }

  ghost predicate OthersStopped(entries: map<Key, nat>, all: seq<Entry>) {
    forall e: nat {:trigger all[e]} :: e < |all| && !CurrentIn(entries, all, e) ==> all[e].operation.Stopped?
  }

  /** An unstopped compute belongs to the creation or to the entry of its key. */
  predicate ComputeOwned(compute: Compute, c: nat, creations: map<Key, Creation>, entries: map<Key, nat>, all: seq<Entry>) {
    var key := compute.key;
    match compute.life
    case Starting => key in creations && creations[key].AwaitingBackend? && creations[key].compute == c
    case Live => key in entries && entries[key] < |all| && all[entries[key]].compute == c
    case Gone => true
  }

  ghost predicate ComputesOwned(computes: seq<Compute>, creations: map<Key, Creation>, entries: map<Key, nat>, all: seq<Entry>) {
    forall c :: 0 <= c < |computes| ==> ComputeOwned(computes[c], c, creations, entries, all)
  }

  /** Only the key `orphan` may be registered at the gate without a creation or an entry. */
  ghost predicate ActiveOwned(g: Gate, creations: map<Key, Creation>, entries: map<Key, nat>, orphan: Option<Key>) {
    forall key <- g.active :: key in creations || key in entries || orphan == Some(key)
  }

  ghost predicate Linked(h: Host, orphan: Option<Key>) {
    && CreationsOk(h.gate, h.computes, h.creations, h.entries, None) && EntriesOk(h.gate, h.computes, h.entries, h.allEntries)
    && OthersStopped(h.entries, h.allEntries) && ComputesOwned(h.computes, h.creations, h.entries, h.allEntries)
    && ActiveOwned(h.gate, h.creations, h.entries, orphan)
  }

  ghost predicate HostInv(h: Host) {
    Inv(h.gate) && Linked(h, None)
  }

  lemma InvEntry(h: Host, key: Key)
    requires HostInv(h) && key in h.entries
    ensures h.entries[key] < |h.allEntries| && EntryOk(h.gate, h.computes, key, h.allEntries[h.entries[key]])
    ensures key !in h.creations
  {
    assert key in h.creations ==> key !in h.entries;
  }

  lemma InvCreation(h: Host, key: Key)
    requires HostInv(h) && key in h.creations
    ensures key !in h.entries && CreationOk(h.gate, h.computes, key, h.creations[key])
  {
  }

  /** A pending session is waited for by the creation of its key. */
  lemma PendingHasCreation(h: Host, orphan: Option<Key>, w: nat)
    requires Registered(h.gate) && Linked(h, orphan) && w < |h.gate.sessions| && h.gate.sessions[w].admission.Pending?
    requires orphan.Some? ==> orphan.value in h.gate.active && h.gate.sessions[h.gate.active[orphan.value]].admission.Granted?
    ensures var key := h.gate.sessions[w].key; key !in h.entries && key in h.creations && h.creations[key] == AwaitingAdmission(w)
  {
    var key := h.gate.sessions[w].key;
    assert key in h.gate.active && h.gate.active[key] == w;
    assert orphan != Some(key);
    assert key !in h.entries;
  }

  // ---- one key apart ----

  /** `g'` differs from `g` only in what belongs to `key`. */
  ghost predicate KeepsOthers(g: Gate, g': Gate, key: Key) {
    && (forall k <- g.active :: k != key ==> k in g'.active && g'.active[k] == g.active[k])
    && (forall k <- g'.active :: k != key ==> k in g.active)
    && |g.sessions| <= |g'.sessions|
    && (forall s :: 0 <= s < |g.sessions| && g.sessions[s].key != key ==> g'.sessions[s] == g.sessions[s])
  }

  lemma HeldKept(g: Gate, g': Gate, key: Key, k: Key, s: nat)
    requires Registered(g) && KeepsOthers(g, g', key) && k != key && Holds(g, k, s)
    ensures Holds(g', k, s)
  {
    assert g.sessions[s].key == k;
  }

  lemma MapsKept(g: Gate, g': Gate, computes: seq<Compute>, computes': seq<Compute>,
                 creations: map<Key, Creation>, entries: map<Key, nat>, all: seq<Entry>, key: Key)
    requires Registered(g) && KeepsOthers(g, g', key) && computes <= computes' && key !in entries
    requires CreationsOk(g, computes, creations, entries, Some(key)) && EntriesOk(g, computes, entries, all)
    ensures CreationsOk(g', computes', creations, entries, Some(key)) && EntriesOk(g', computes', entries, all)
  {
    forall k <- creations | k != key ensures k !in entries && CreationOk(g', computes', k, creations[k]) {
      assert CreationOk(g, computes, k, creations[k]);
      if creations[k].AwaitingBackend? { HeldKept(g, g', key, k, creations[k].session); }
    }
    forall k <- entries ensures entries[k] < |all| && EntryOk(g', computes', k, all[entries[k]]) {
      assert EntryOk(g, computes, k, all[entries[k]]);
      HeldKept(g, g', key, k, all[entries[k]].session);
    }
  }

  /** Everything is in order but `key`, which has no entry and at most waits for its admission. */
  ghost predicate AllBut(h: Host, key: Key) {
    && Registered(h.gate) && key !in h.entries && (key in h.creations ==> h.creations[key].AwaitingAdmission?)
    && CreationsOk(h.gate, h.computes, h.creations, h.entries, Some(key)) && EntriesOk(h.gate, h.computes, h.entries, h.allEntries)
    && OthersStopped(h.entries, h.allEntries) && ComputesOwned(h.computes, h.creations, h.entries, h.allEntries)
    && ActiveOwned(h.gate, h.creations, h.entries, Some(key))
  }

  /** A change of the gate alone that keeps what belongs to the other keys. */
  lemma GateChange(h: Host, gate: Gate, key: Key)
    requires AllBut(h, key) && KeepsOthers(h.gate, gate, key) && Registered(gate)
    ensures AllBut(h.(gate := gate), key)
  {
    MapsKept(h.gate, gate, h.computes, h.computes, h.creations, h.entries, h.allEntries, key);
  }

  lemma OwnersKept(computes: seq<Compute>, creations: map<Key, Creation>, entries: map<Key, nat>, all: seq<Entry>, key: Key, session: nat)
    requires ComputesOwned(computes, creations, entries, all) && (key in creations ==> creations[key].AwaitingAdmission?)
    ensures ComputesOwned(computes + [Compute(key, Starting)], creations[key := AwaitingBackend(session, |computes|)], entries, all)
    ensures ComputesOwned(computes, creations[key := AwaitingAdmission(session)], entries, all)
    ensures ComputesOwned(computes, creations - {key}, entries, all)
  {
  }

  lemma AdmitLinks(h: Host, key: Key, session: nat)
    requires AllBut(h, key)
    requires session < |h.gate.sessions| && h.gate.sessions[session].key == key && h.gate.sessions[session].admission.Granted?
    requires h.gate.sessions[session].references == 0 && key in h.gate.active && h.gate.active[key] == session
    ensures Linked(Admit(h, key, session), None)
  {
    var h' := Admit(h, key, session);
    MapsKept(h.gate, h'.gate, h.computes, h'.computes, h.creations, h.entries, h.allEntries, key);
    OwnersKept(h.computes, h.creations, h.entries, h.allEntries, key, session);
    assert CreationOk(h'.gate, h'.computes, key, h'.creations[key]);
  }

  /** A refused session whose creation is dropped leaves nothing behind for its key. */
  lemma RejectLinks(h: Host, key: Key, session: nat)
    requires AllBut(h, key)
    requires session < |h.gate.sessions| && h.gate.sessions[session].key == key && h.gate.sessions[session].admission.Refused?
    requires key in h.gate.active && h.gate.active[key] == session
    ensures Linked(Reject(h, key, session), None)
  {
    var h' := Reject(h, key, session);
    assert h'.gate == h.gate.(active := h.gate.active - {key});
    MapsKept(h.gate, h'.gate, h.computes, h.computes, h.creations, h.entries, h.allEntries, key);
    OwnersKept(h.computes, h.creations, h.entries, h.allEntries, key, session);
  }

  lemma CreateRegisters(g: Gate, key: Key)
    requires key !in g.active
    ensures var (g', session) := Create(g, key);
            && session == |g.sessions| && |g'.sessions| == |g.sessions| + 1
            && (forall s :: 0 <= s < |g.sessions| ==> g'.sessions[s] == g.sessions[s])
            && g'.sessions[session] == Session(key, g'.sessions[session].admission, false, 0)
            && g'.active == g.active[key := session]
  {
  }

  lemma PendingLinks(h: Host, key: Key, session: nat)
    requires AllBut(h, key)
    requires session < |h.gate.sessions| && h.gate.sessions[session].key == key && h.gate.sessions[session].admission.Pending?
    ensures Linked(h.(creations := h.creations[key := AwaitingAdmission(session)]), None)
  {
    OwnersKept(h.computes, h.creations, h.entries, h.allEntries, key, session);
    assert CreationOk(h.gate, h.computes, key, AwaitingAdmission(session));
  }

  lemma StartCreationLinks(h: Host, key: Key)
    requires Registered(h.gate) && Linked(h, None) && key !in h.entries && key !in h.creations
    requires Registered(Create(h.gate, key).0)
    ensures Linked(StartCreation(h, key), None)
  {
    assert key !in h.gate.active;
    var (gate, session) := Create(h.gate, key);
    CreateRegisters(h.gate, key);
    GateChange(h, gate, key);
    var h1 := h.(gate := gate);
    match gate.sessions[session].admission
    case Granted => AdmitLinks(h1, key, session);
    case Refused => RejectLinks(h1, key, session);
    case Pending => PendingLinks(h1, key, session);
  }

  lemma StartCreationKeeps(h: Host, key: Key)
    requires HostInv(h) && key !in h.entries
    ensures HostInv(StartCreation(h, key))
  {
    if key !in h.creations {
      CreateKeeps(h.gate, key);
      StartCreationLinks(h, key);
      ResumeKeeps(Create(h.gate, key).0, Create(h.gate, key).1);
    }
  }

  /** The gate just before it wakes a waiter. */
  function Freed(g: Gate, session: nat): Gate
    requires session < |g.sessions| && g.permitsInUse > 0
  {
    g.(sessions := g.sessions[session := g.sessions[session].(references := 0)], active := g.active - {g.sessions[session].key},
       permitsInUse := g.permitsInUse - 1)
  }

  lemma WakeRegisters(g: Gate)
    requires Registered(g) && g.waiters != [] && g.waiters[0] < |g.sessions| && g.sessions[g.waiters[0]].admission.Pending?
    ensures Registered(Wake(g)) && KeepsOthers(g, Wake(g), g.sessions[g.waiters[0]].key)
  {
  }

  lemma WakeLinks(h: Host, w: nat, other: Key)
    requires Registered(h.gate) && Linked(h, None) && h.gate.waiters != [] && h.gate.waiters[0] == w
    requires w < |h.gate.sessions| && h.gate.sessions[w].admission.Pending? && h.gate.sessions[w].key == other
    ensures Linked(Admit(h.(gate := Wake(h.gate)), other, w), None)
  {
    PendingHasCreation(h, None, w);
    WakeRegisters(h.gate);
    GateChange(h, Wake(h.gate), other);
    AdmitLinks(h.(gate := Wake(h.gate)), other, w);
  }

  lemma FreedRegisters(g: Gate, key: Key, session: nat)
    requires Registered(g) && g.permitsInUse > 0 && Holds(g, key, session)
    ensures Registered(Freed(g, session)) && KeepsOthers(g, Freed(g, session), key) && key !in Freed(g, session).active
  {
  }

  lemma FreedLinks(h: Host, key: Key, session: nat)
    requires Registered(h.gate) && h.gate.permitsInUse > 0
    requires Linked(h, Some(key)) && key !in h.creations && key !in h.entries && Holds(h.gate, key, session)
    ensures Registered(Freed(h.gate, session)) && Linked(h.(gate := Freed(h.gate, session)), None)
  {
    FreedRegisters(h.gate, key, session);
    GateChange(h, Freed(h.gate, session), key);
  }

  lemma ReleaseLinks(h: Host, key: Key, session: nat)
    requires Registered(h.gate) && Queued(h.gate) && h.gate.permitsInUse > 0
    requires Linked(h, Some(key)) && key !in h.creations && key !in h.entries && Holds(h.gate, key, session)
    ensures Linked(ReleaseSession(h, session), None)
  {
    var g1 := Freed(h.gate, session);
    assert Release(h.gate, session) == Wake(g1);
    FreedLinks(h, key, session);
    if g1.waiters != [] {
      var w := g1.waiters[0];
      assert w in h.gate.waiters;
      WakeLinks(h.(gate := g1), w, g1.sessions[w].key);
    }
  }

  lemma ReleaseRestores(h: Host, key: Key, session: nat)
    requires Inv(h.gate) && Linked(h, Some(key))
    requires key !in h.creations && key !in h.entries && Holds(h.gate, key, session)
    ensures HostInv(ReleaseSession(h, session))
  {
    assert key in GrantedKeys(h.gate);
    ReleaseLinks(h, key, session);
    ReleaseKeeps(h.gate, session);
    if h.gate.waiters != [] { ResumeKeeps(Release(h.gate, session), h.gate.waiters[0]); }
  }

  // ---- every event keeps the invariant ----

  lemma TimeOutLinks(h: Host, session: nat)
    requires HostInv(h)
    ensures HostInv(AdmissionTimesOut(h, session))
  {
    if session in h.gate.waiters {
      var key, gate := h.gate.sessions[session].key, TimeOut(h.gate, session);
      PendingHasCreation(h, None, session);
      TimeOutKeeps(h.gate, session);
      GateChange(h, gate, key);
      RejectLinks(h.(gate := gate), key, session);
      ResumeKeeps(gate, session);
    }
  }

  /** Touching the timer, or an operation that stays unsettled, of one entry. */
  lemma EntryTouched(h: Host, e: nat, entry: Entry)
    requires HostInv(h) && e < |h.allEntries|
    requires entry.key == h.allEntries[e].key && entry.session == h.allEntries[e].session && entry.compute == h.allEntries[e].compute
    requires entry.operation.Stopped? <==> h.allEntries[e].operation.Stopped?
    ensures HostInv(SetEntry(h, e, entry))
    ensures forall i: nat :: Current(SetEntry(h, e, entry), i) <==> Current(h, i)
  {
    var all := h.allEntries[e := entry];
    TouchedEntries(h.gate, h.computes, h.entries, h.allEntries, all, e);
    TouchedOwners(h.computes, h.creations, h.entries, h.allEntries, all);
  }

  /** Entries that agree on everything but timers and unsettled operations. */
  ghost predicate SameEntries(all: seq<Entry>, all': seq<Entry>) {
    |all'| == |all| && forall i :: 0 <= i < |all| ==>
      && all'[i].key == all[i].key && all'[i].session == all[i].session && all'[i].compute == all[i].compute
      && (all'[i].operation.Stopped? <==> all[i].operation.Stopped?)
  }

  lemma TouchedEntries(g: Gate, computes: seq<Compute>, entries: map<Key, nat>, all: seq<Entry>, all': seq<Entry>, e: nat)
    requires EntriesOk(g, computes, entries, all) && OthersStopped(entries, all) && SameEntries(all, all')
    ensures EntriesOk(g, computes, entries, all') && OthersStopped(entries, all')
    ensures forall i: nat :: CurrentIn(entries, all', i) <==> CurrentIn(entries, all, i)
  {
    forall k <- entries ensures entries[k] < |all'| && EntryOk(g, computes, k, all'[entries[k]]) {
      assert EntryOk(g, computes, k, all[entries[k]]);
    }
    forall i: nat | i < |all'| && !CurrentIn(entries, all', i) ensures all'[i].operation.Stopped? {
      assert !CurrentIn(entries, all, i);
    }
  }

  lemma TouchedOwners(computes: seq<Compute>, creations: map<Key, Creation>, entries: map<Key, nat>, all: seq<Entry>, all': seq<Entry>)
    requires ComputesOwned(computes, creations, entries, all) && SameEntries(all, all')
    ensures ComputesOwned(computes, creations, entries, all')
  {
    forall c | 0 <= c < |computes| ensures ComputeOwned(computes[c], c, creations, entries, all') {
      assert ComputeOwned(computes[c], c, creations, entries, all);
    }
  }

  lemma CreatedKeeps(h: Host, key: Key)
    requires HostInv(h)
    ensures HostInv(BackendCreated(h, key))
  {
    if key in h.creations && h.creations[key].AwaitingBackend? {
      InvCreation(h, key);
      CreatedCreations(h, key);
      CreatedEntries(h, key);
      EntryAdded(h.entries, h.allEntries, key, BackendCreated(h, key).allEntries[|h.allEntries|]);
      CreatedComputes(h, key);
    }
  }

  lemma CreatedCreations(h: Host, key: Key)
    requires HostInv(h) && key in h.creations && h.creations[key].AwaitingBackend?
    ensures var h' := BackendCreated(h, key); CreationsOk(h'.gate, h'.computes, h'.creations, h'.entries, None)
  {
    InvCreation(h, key);
    var h' := BackendCreated(h, key);
    forall k <- h'.creations ensures k !in h'.entries && CreationOk(h'.gate, h'.computes, k, h'.creations[k]) { InvCreation(h, k); }
  }

  lemma CreatedEntries(h: Host, key: Key)
    requires HostInv(h) && key in h.creations && h.creations[key].AwaitingBackend?
    ensures var h' := BackendCreated(h, key); EntriesOk(h'.gate, h'.computes, h'.entries, h'.allEntries)
  {
    InvCreation(h, key);
    var h' := BackendCreated(h, key);
    forall k <- h'.entries ensures h'.entries[k] < |h'.allEntries| && EntryOk(h'.gate, h'.computes, k, h'.allEntries[h'.entries[k]]) {
      if k != key { InvEntry(h, k); }
    }
  }

  lemma EntryAdded(entries: map<Key, nat>, all: seq<Entry>, key: Key, entry: Entry)
    requires OthersStopped(entries, all) && key !in entries && entry.key == key
    ensures OthersStopped(entries[key := |all|], all + [entry])
  {
    forall e: nat | e < |all| && !CurrentIn(entries[key := |all|], all + [entry], e) ensures all[e].operation.Stopped? {
      assert !CurrentIn(entries, all, e);
    }
  }

  lemma CreatedComputes(h: Host, key: Key)
    requires HostInv(h) && key in h.creations && h.creations[key].AwaitingBackend?
    ensures var h' := BackendCreated(h, key); ComputesOwned(h'.computes, h'.creations, h'.entries, h'.allEntries)
  {
    InvCreation(h, key);
    var h' := BackendCreated(h, key);
    forall c | 0 <= c < |h'.computes| ensures ComputeOwned(h'.computes[c], c, h'.creations, h'.entries, h'.allEntries) {
      assert ComputeOwned(h.computes[c], c, h.creations, h.entries, h.allEntries);
    }
  }

  /** `h'` drops the creation or entry of `key`, whose only unstopped compute is now gone. */
  ghost predicate Drops(h: Host, h': Host, key: Key, compute: nat) {
    && compute < |h.computes| && h.computes[compute].key == key
    && h'.gate == h.gate && h'.computes == h.computes[compute := h.computes[compute].(life := Gone)]
    && h'.creations == h.creations - {key} && h'.entries == h.entries - {key}
    && |h'.allEntries| == |h.allEntries|
    && (forall i :: 0 <= i < |h.allEntries| && h'.allEntries[i] != h.allEntries[i] ==>
          h.allEntries[i].key == key && h'.allEntries[i] == h.allEntries[i].(operation := Stopped))
    && (key in h.entries ==> h.entries[key] < |h.allEntries| && h'.allEntries[h.entries[key]].operation.Stopped?)
    && (forall c: nat :: c < |h.computes| && h.computes[c].key == key && !h.computes[c].life.Gone? ==> c == compute)
  }

  lemma DroppedCreations(h: Host, h': Host, key: Key, compute: nat)
    requires HostInv(h) && Drops(h, h', key, compute)
    ensures CreationsOk(h'.gate, h'.computes, h'.creations, h'.entries, None)
  {
    forall k <- h'.creations ensures k !in h'.entries && CreationOk(h'.gate, h'.computes, k, h'.creations[k]) { InvCreation(h, k); }
  }

  lemma DroppedEntries(h: Host, h': Host, key: Key, compute: nat)
    requires HostInv(h) && Drops(h, h', key, compute)
    ensures EntriesOk(h'.gate, h'.computes, h'.entries, h'.allEntries)
  {
    forall k <- h'.entries ensures h'.entries[k] < |h'.allEntries| && EntryOk(h'.gate, h'.computes, k, h'.allEntries[h'.entries[k]]) {
      InvEntry(h, k);
    }
  }

  lemma DroppedStopped(h: Host, h': Host, key: Key, compute: nat)
    requires OthersStopped(h.entries, h.allEntries) && Drops(h, h', key, compute)
    ensures OthersStopped(h'.entries, h'.allEntries)
  {
    forall i: nat | i < |h'.allEntries| && !Current(h', i) ensures h'.allEntries[i].operation.Stopped? {
      if Current(h, i) { assert h.entries[h.allEntries[i].key] == i; }
    }
  }

  lemma DroppedOwners(h: Host, h': Host, key: Key, compute: nat)
    requires HostInv(h) && Drops(h, h', key, compute)
    ensures ComputesOwned(h'.computes, h'.creations, h'.entries, h'.allEntries)
  {
    forall c | 0 <= c < |h'.computes| ensures ComputeOwned(h'.computes[c], c, h'.creations, h'.entries, h'.allEntries) {
      assert ComputeOwned(h.computes[c], c, h.creations, h.entries, h.allEntries);
      if c != compute && h.computes[c].key != key && h.computes[c].life.Live? { InvEntry(h, h.computes[c].key); }
    }
  }

  /** A key whose compute is gone and whose creation or entry is dropped is left registered at the gate only. */
  lemma DroppedLinks(h: Host, h': Host, key: Key, compute: nat)
    requires HostInv(h) && Drops(h, h', key, compute)
    ensures Linked(h', Some(key))
  {
    DroppedCreations(h, h', key, compute);
    DroppedEntries(h, h', key, compute);
    DroppedStopped(h, h', key, compute);
    DroppedOwners(h, h', key, compute);
  }

  /** The compute a key holds is its only unstopped one. */
  lemma UnstoppedUnique(h: Host, c: nat, d: nat)
    requires HostInv(h) && c < |h.computes| && d < |h.computes|
    requires h.computes[c].key == h.computes[d].key && !h.computes[c].life.Gone? && !h.computes[d].life.Gone?
    ensures c == d
  {
    assert ComputeOwned(h.computes[c], c, h.creations, h.entries, h.allEntries);
    assert ComputeOwned(h.computes[d], d, h.creations, h.entries, h.allEntries);
    var key := h.computes[c].key;
    assert key in h.creations ==> key !in h.entries;
  }

  /** The compute of a key is gone, before its permit is given back. */
  function WithoutCompute(h: Host, key: Key, c: nat): Host
    requires c < |h.computes|
  {
    h.(creations := h.creations - {key}, computes := h.computes[c := h.computes[c].(life := Gone)])
  }

  lemma CreateFailsKeeps(h: Host, key: Key)
    requires HostInv(h)
    ensures HostInv(BackendCreateFails(h, key))
  {
    if key in h.creations && h.creations[key].AwaitingBackend? {
      var c := h.creations[key];
      InvCreation(h, key);
      forall d: nat | d < |h.computes| && h.computes[d].key == key && !h.computes[d].life.Gone? ensures d == c.compute {
        UnstoppedUnique(h, d, c.compute);
      }
      assert h.entries == h.entries - {key};
      DroppedLinks(h, WithoutCompute(h, key, c.compute), key, c.compute);
      ReleaseRestores(WithoutCompute(h, key, c.compute), key, c.session);
    }
  }

  /** Releasing does not look at the entries. */
  lemma ReleaseForgets(h: Host, session: nat, e: nat)
    requires e < |h.allEntries|
    ensures ReleaseSession(h, session).entries == h.entries && ReleaseSession(h, session).allEntries == h.allEntries
    ensures ReleaseSession(h, session).reattaching == h.reattaching
    ensures ReleaseSession(Forgotten(h, e), session) == Forgotten(ReleaseSession(h, session), e)
  {
  }

  lemma DroppedKeeps(h: Host, e: nat)
    requires HostInv(h) && e < |h.allEntries| && h.allEntries[e].operation.Stopping?
    ensures Current(h, e) && h.allEntries[e].compute < |h.computes| && HostInv(Dropped(h, e)) && h.allEntries[e].key !in Dropped(h, e).entries
  {
    var entry := h.allEntries[e];
    assert Current(h, e);
    InvEntry(h, entry.key);
    forall d: nat | d < |h.computes| && h.computes[d].key == entry.key && !h.computes[d].life.Gone? ensures d == entry.compute {
      UnstoppedUnique(h, d, entry.compute);
    }
    var gone := WithoutCompute(h, entry.key, entry.compute);
    assert h.creations - {entry.key} == h.creations;
    DroppedLinks(h, Forgotten(gone, e), entry.key, entry.compute);
    ReleaseRestores(Forgotten(gone, e), entry.key, entry.session);
    ReleaseForgets(gone, entry.session, e);
  }

  lemma RestartedKeeps(h: Host, key: Key, waited: bool)
    requires HostInv(h) && key !in h.entries
    ensures HostInv(Restarted(h, key, waited))
  {
    if waited { StartCreationKeeps(h, key); }
  }

  lemma ShutdownKeeps(h: Host, e: nat)
    requires HostInv(h)
    ensures HostInv(ShutdownSucceeds(h, e))
  {
    if e < |h.allEntries| && h.allEntries[e].operation.Stopping? {
      DroppedKeeps(h, e);
      RestartedKeeps(Dropped(h, e), h.allEntries[e].key, e in h.reattaching);
    }
  }

  lemma CallShutdownKeeps(h: Host, e: nat)
    requires HostInv(h)
    ensures HostInv(CallShutdown(h, e))
  {
    if e < |h.allEntries| && h.allEntries[e].operation.NotStopping? {
      EntryTouched(h, e, CallShutdown(h, e).allEntries[e]);
    }
  }

  lemma CallCreateKeeps(h: Host, key: Key)
    requires HostInv(h)
    ensures HostInv(CallCreate(h, key))
  {
    if key in h.entries {
      InvEntry(h, key);
      EntryTouched(h, h.entries[key], h.allEntries[h.entries[key]].(timer := false));
    } else {
      StartCreationKeeps(h, key);
    }
  }

  lemma TimerKeeps(h: Host, e: nat)
    requires HostInv(h)
    ensures HostInv(TimerFires(h, e))
  {
    if e < |h.allEntries| && h.allEntries[e].timer && Current(h, e) {
      EntryTouched(h, e, h.allEntries[e].(timer := false));
      CallShutdownKeeps(SetEntry(h, e, h.allEntries[e].(timer := false)), e);
    }
  }

  lemma ShutdownFailsKeeps(h: Host, e: nat)
    requires HostInv(h)
    ensures HostInv(ShutdownFails(h, e))
  {
    if e < |h.allEntries| && h.allEntries[e].operation.Stopping? {
      EntryTouched(h, e, h.allEntries[e].(operation := NotStopping));
    }
  }

  lemma StateCapturedKeeps(h: Host, e: nat)
    requires HostInv(h)
    ensures HostInv(StateCaptured(h, e))
  {
    if Current(h, e) && h.allEntries[e].operation.NotStopping? { EntryTouched(h, e, h.allEntries[e].(timer := true)); }
  }

  lemma CreationKeeps(h: Host, event: Event)
    requires HostInv(h) && (event.Creating? || event.AdmissionTimeout? || event.Created? || event.CreateFailed?)
    ensures HostInv(Step(h, event))
  {
    match event
    case Creating(key) => CallCreateKeeps(h, key);
    case AdmissionTimeout(session) => TimeOutLinks(h, session);
    case Created(key) => CreatedKeeps(h, key);
    case CreateFailed(key) => CreateFailsKeeps(h, key);
  }

  lemma StepKeeps(h: Host, event: Event)
    requires HostInv(h)
    ensures HostInv(Step(h, event))
  {
    match event
    case Captured(e) => StateCapturedKeeps(h, e);
    case ShuttingDown(e) => CallShutdownKeeps(h, e);
    case IdleTimer(e) => TimerKeeps(h, e);
    case ShutDown(e) => ShutdownKeeps(h, e);
    case ShutdownFailed(e) => ShutdownFailsKeeps(h, e);
    case _ => CreationKeeps(h, event);
  }

  lemma {:induction false} Reachable(limit: nat, maxQueued: nat, run: seq<Event>)
    ensures HostInv(Exec(limit, maxQueued, run))
  {
    if run != [] {
      Reachable(limit, maxQueued, run[..|run| - 1]);
      StepKeeps(Exec(limit, maxQueued, run[..|run| - 1]), run[|run| - 1]);
    }
  }

  predicate SameBounds(g: Gate, g': Gate) {
    g'.limit == g.limit && g'.maxQueued == g.maxQueued
  }

  lemma GateKeepsLimit(g: Gate, key: Key, id: nat)
    ensures SameBounds(g, Create(g, key).0) && SameBounds(g, Resume(g, id))
    ensures SameBounds(g, Release(g, id)) && SameBounds(g, TimeOut(g, id))
  {
  }

  lemma StartCreationKeepsLimit(h: Host, key: Key)
    ensures SameBounds(h.gate, StartCreation(h, key).gate)
  {
    GateKeepsLimit(h.gate, key, 0);
    GateKeepsLimit(Create(h.gate, key).0, key, Create(h.gate, key).1);
  }

  lemma ReleaseSessionKeepsLimit(h: Host, session: nat)
    ensures SameBounds(h.gate, ReleaseSession(h, session).gate)
  {
    GateKeepsLimit(h.gate, "", session);
    if h.gate.waiters != [] { GateKeepsLimit(Release(h.gate, session), "", h.gate.waiters[0]); }
  }

  lemma LimitKept(h: Host, event: Event)
    ensures SameBounds(h.gate, Step(h, event).gate)
  {
    match event
    case Creating(key) => StartCreationKeepsLimit(h, key);
    case AdmissionTimeout(session) =>
      GateKeepsLimit(h.gate, "", session);
      GateKeepsLimit(TimeOut(h.gate, session), "", session);
    case CreateFailed(key) =>
      if key in h.creations && h.creations[key].AwaitingBackend? && h.creations[key].compute < |h.computes| {
        var c := h.creations[key];
        ReleaseSessionKeepsLimit(h.(creations := h.creations - {key},
                                    computes := h.computes[c.compute := h.computes[c.compute].(life := Gone)]), c.session);
      }
    case ShutDown(e) => ShutdownKeepsLimit(h, e);
    case _ =>
  }

  lemma ShutdownKeepsLimit(h: Host, e: nat)
    ensures SameBounds(h.gate, ShutdownSucceeds(h, e).gate)
  {
    if e < |h.allEntries| && h.allEntries[e].operation.Stopping? && h.allEntries[e].compute < |h.computes| {
      var entry := h.allEntries[e];
      ReleaseSessionKeepsLimit(h.(computes := h.computes[entry.compute := h.computes[entry.compute].(life := Gone)]), entry.session);
      StartCreationKeepsLimit(Dropped(h, e), entry.key);
    }
  }

  lemma {:induction false} LimitFixed(limit: nat, maxQueued: nat, run: seq<Event>)
    ensures Exec(limit, maxQueued, run).gate.limit == limit && Exec(limit, maxQueued, run).gate.maxQueued == maxQueued
  {
    if run != [] {
      LimitFixed(limit, maxQueued, run[..|run| - 1]);
      LimitKept(Exec(limit, maxQueued, run[..|run| - 1]), run[|run| - 1]);
    }
  }

  // ---- bounded live compute ----

  /** Computes the backend was asked to create and has not yet stopped or failed to create. */
  ghost function Unstopped(h: Host): set<nat> {
    set c: nat | c < |h.computes| && !h.computes[c].life.Gone?
  }

  /** The invariant bounds the unstopped computes: one for each key, and no more than the limit. */
  lemma InvariantBounds(h: Host)
    requires HostInv(h)
    ensures forall c, d :: c in Unstopped(h) && d in Unstopped(h) && h.computes[c].key == h.computes[d].key ==> c == d
    ensures |Unstopped(h)| <= h.gate.limit
  {
    forall c, d | c in Unstopped(h) && d in Unstopped(h) && h.computes[c].key == h.computes[d].key ensures c == d {
      UnstoppedUnique(h, c, d);
    }
    forall c <- Unstopped(h) ensures h.computes[c].key in GrantedKeys(h.gate) {
      assert ComputeOwned(h.computes[c], c, h.creations, h.entries, h.allEntries);
      var key := h.computes[c].key;
      if key in h.creations { InvCreation(h, key); } else { InvEntry(h, key); }
    }
    InjectionBound(Unstopped(h), (c: nat) => if c < |h.computes| then h.computes[c].key else "", GrantedKeys(h.gate));
  }

  /**
   In every run each session key has at most one compute that is starting or live, and all of them together
   never exceed the limit.
   */
  lemma BoundedCompute(limit: nat, maxQueued: nat, run: seq<Event>)
    ensures var h := Exec(limit, maxQueued, run);
            && (forall c, d :: c in Unstopped(h) && d in Unstopped(h) && h.computes[c].key == h.computes[d].key ==> c == d)
            && |Unstopped(h)| <= limit
  {
    Reachable(limit, maxQueued, run);
    LimitFixed(limit, maxQueued, run);
    InvariantBounds(Exec(limit, maxQueued, run));
  }
}
