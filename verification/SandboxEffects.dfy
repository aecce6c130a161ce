/** What each event of the composed sandbox layers does for its key, and what it leaves alone. */
module SandboxEffects {
  import opened Common
  import opened SandboxGate
  import opened SandboxLifecycle

  /** Entries, creations, computes, registrations and waiting creates of all keys but those of `keys` are as they were. */
  ghost predicate Untouched(h: Host, h': Host, keys: set<Key>) {
    && (forall key :: key !in keys ==> (key in h'.entries <==> key in h.entries) && (key in h'.creations <==> key in h.creations))
    && (forall key <- h.entries :: key !in keys ==> h'.entries[key] == h.entries[key])
    && (forall key <- h.creations :: key !in keys ==> h'.creations[key] == h.creations[key])
    && |h.allEntries| <= |h'.allEntries| && |h.computes| <= |h'.computes|
    && (forall e :: 0 <= e < |h.allEntries| && h.allEntries[e].key !in keys ==> h'.allEntries[e] == h.allEntries[e])
    && (forall c :: 0 <= c < |h.computes| && h.computes[c].key !in keys ==> h'.computes[c] == h.computes[c])
    && (forall c :: |h.computes| <= c < |h'.computes| ==> h'.computes[c].key in keys)
    && (forall key :: key !in keys ==> (key in h'.gate.active <==> key in h.gate.active))
    && (forall key <- h.gate.active :: key !in keys ==> h'.gate.active[key] == h.gate.active[key])
    && (forall e :: 0 <= e < |h.allEntries| && h.allEntries[e].key !in keys ==> (e in h'.reattaching <==> e in h.reattaching))
  }

  /** The key of the first waiter, which goes on when a permit is freed. */
  ghost function NextKey(h: Host): set<Key> {
    if h.gate.waiters != [] && h.gate.waiters[0] < |h.gate.sessions| then {h.gate.sessions[h.gate.waiters[0]].key} else {}
  }

  predicate Free(g: Gate) {
    g.permitsInUse < g.limit && g.waiters == []
  }

  // ---- create ----

  /** A key without entry and creation gets a new compute, a place in the queue, or is turned away. */
  ghost predicate Starts(h: Host, h': Host, key: Key) {
    if Free(h.gate) then
      && h'.computes == h.computes + [Compute(key, Starting)]
      && key in h'.creations && h'.creations[key].AwaitingBackend? && h'.creations[key].compute == |h.computes|
    else if |h.gate.waiters| < h.gate.maxQueued then
      && h'.computes == h.computes && key in h'.creations && h'.creations[key].AwaitingAdmission?
      && h'.gate.waiters == h.gate.waiters + [h'.creations[key].session]
    else
      && h'.computes == h.computes && key !in h'.creations && key !in h'.gate.active
      && h'.gate.waiters == h.gate.waiters && h'.gate.maxQueued == h.gate.maxQueued
  }

  ghost predicate CreateEffect(h: Host, h': Host, key: Key) {
    && (key in h.entries ==> h.entries[key] < |h.allEntries|)
    && Untouched(h, h', {key}) && h'.entries == h.entries
    && h'.reattaching == (if key in h.entries && h.allEntries[h.entries[key]].operation.Stopping? then h.reattaching + {h.entries[key]}
                          else h.reattaching)
    && (key in h.entries ==>
          && h'.computes == h.computes && h'.creations == h.creations && h'.gate == h.gate
          && |h'.allEntries| == |h.allEntries|
          && h'.allEntries[h.entries[key]] == h.allEntries[h.entries[key]].(timer := false))
    && (key !in h.entries && key in h.creations ==> h' == h)
    && (key !in h.entries && key !in h.creations ==> Starts(h, h', key))
  }

  /** `h'` starts a creation of `key` and changes nothing else. */
  ghost predicate StartEffect(h: Host, h': Host, key: Key) {
    && Starts(h, h', key) && Untouched(h, h', {key}) && h.computes <= h'.computes
    && h'.entries == h.entries && h'.allEntries == h.allEntries && h'.reattaching == h.reattaching
  }

  lemma NewCreation(h: Host, key: Key)
    requires Registered(h.gate) && key !in h.gate.active && key !in h.creations
    ensures StartEffect(h, StartCreation(h, key), key)
  {
  }

  lemma Reuses(h: Host, key: Key)
    requires key in h.entries && h.entries[key] < |h.allEntries| && h.allEntries[h.entries[key]].key == key
    requires !h.allEntries[h.entries[key]].operation.Stopped?
    ensures CreateEffect(h, CallCreate(h, key), key)
  {
  }

  lemma Creates(h: Host, key: Key)
    requires HostInv(h)
    ensures CreateEffect(h, CallCreate(h, key), key)
  {
    if key in h.entries {
      InvEntry(h, key);
      Reuses(h, key);
    } else if key !in h.creations {
      assert key !in h.gate.active;
      NewCreation(h, key);
    }
  }

  ghost predicate CreatedEffect(h: Host, h': Host, key: Key) {
    if key in h.creations && h.creations[key].AwaitingBackend? then
      var c := h.creations[key].compute;
      && c < |h.computes| && h'.computes == h.computes[c := Compute(key, Live)] && h'.gate == h.gate && h'.reattaching == h.reattaching
      && key in h'.entries && key !in h'.creations && h'.entries[key] < |h'.allEntries|
      && h'.allEntries[h'.entries[key]] == Entry(key, h.creations[key].session, c, false, NotStopping)
      && Untouched(h, h', {key})
    else h' == h
  }

  lemma Becomes(h: Host, key: Key)
    requires HostInv(h)
    ensures CreatedEffect(h, BackendCreated(h, key), key)
  {
    if key in h.creations { InvCreation(h, key); }
  }

  // ---- giving a permit back ----

  /** The last reference of a session gives its permit to the first waiter, or frees it when nobody waits. */
  lemma ReleaseAccounts(g: Gate, id: nat)
    requires Inv(g) && Releasable(g, id)
    ensures var g', s := Release(g, id), g.sessions[id];
            && (s.references > 1 ==> g'.waiters == g.waiters && g'.active == g.active && g'.permitsInUse == g.permitsInUse)
            && (s.references == 1 ==>
                  && s.key !in g'.active
                  && (if g.waiters == [] then g'.waiters == [] && g'.permitsInUse == g.permitsInUse - 1
                      else && g'.waiters == g.waiters[1..] && g'.permitsInUse == g.permitsInUse
                           && g.waiters[0] < |g'.sessions| && g'.sessions[g.waiters[0]].admission.Granted?))
  {
    assert g.sessions[id].key in GrantedKeys(g);
    if g.waiters != [] { assert g.waiters[0] in g.waiters; }
  }


  /** The creation of the first waiter's key, if there is one, goes on with a compute of its own. */
  ghost predicate NextGoesOn(h: Host, computes: nat, h': Host) {
    forall key <- NextKey(h) ::
      && computes < |h'.computes| && h'.computes[computes] == Compute(key, Starting)
      && key in h'.creations && h'.creations[key] == AwaitingBackend(h.gate.waiters[0], computes)
  }

  ghost predicate CreateFailedEffect(h: Host, h': Host, key: Key) {
    if key in h.creations && h.creations[key].AwaitingBackend? then
      var c := h.creations[key].compute;
      && Untouched(h, h', {key} + NextKey(h))
      && c < |h'.computes| && h'.computes[c] == Compute(key, Gone)
      && key !in h'.creations && key !in h'.entries && key !in h'.gate.active
      && |h'.computes| == |h.computes| + |NextKey(h)| && NextGoesOn(h, |h.computes|, h') && h'.reattaching == h.reattaching
    else h' == h
  }

  /** Releasing the one reference of a key: the key is no longer registered, and the first waiter goes on. */
  lemma Releases(h: Host, key: Key, session: nat)
    requires Registered(h.gate) && Queued(h.gate) && h.gate.permitsInUse > 0 && Holds(h.gate, key, session)
    ensures var h' := ReleaseSession(h, session);
            && Untouched(h, h', {key} + NextKey(h)) && key !in h'.gate.active && NextGoesOn(h, |h.computes|, h')
            && h'.entries == h.entries && h'.allEntries == h.allEntries && h'.reattaching == h.reattaching
            && |h'.computes| == |h.computes| + |NextKey(h)| && h.computes <= h'.computes
            && (key !in NextKey(h)) && (key in h'.creations <==> key in h.creations)
  {
    assert h.gate.sessions[session].key == key;
    if h.gate.waiters != [] {
      var w := h.gate.waiters[0];
      assert w in h.gate.waiters;
      assert w < |h.gate.sessions| && h.gate.sessions[w].admission.Pending?;
      assert NextKey(h) == {h.gate.sessions[w].key};
    }
  }

  lemma UntouchedThrough(h: Host, h1: Host, h': Host, key: Key, keys: set<Key>)
    requires Untouched(h, h1, {key}) && Untouched(h1, h', keys) && key in keys && |h1.computes| == |h.computes|
    ensures Untouched(h, h', keys)
  {
  }

  lemma Loses(h: Host, key: Key, c: nat)
    requires c < |h.computes| && h.computes[c].key == key
    ensures var h1 := WithoutCompute(h, key, c);
            && Untouched(h, h1, {key}) && |h1.computes| == |h.computes| && h1.computes[c] == Compute(key, Gone)
            && h1.gate == h.gate && NextKey(h1) == NextKey(h) && key !in h1.creations
            && h1.entries == h.entries && h1.allEntries == h.allEntries && h1.reattaching == h.reattaching
  {
  }

  lemma LosesAndReleases(h: Host, key: Key, session: nat, c: nat)
    requires Registered(h.gate) && Queued(h.gate) && h.gate.permitsInUse > 0 && Holds(h.gate, key, session)
    requires c < |h.computes| && h.computes[c].key == key
    ensures var h' := ReleaseSession(WithoutCompute(h, key, c), session);
            && Untouched(h, h', {key} + NextKey(h)) && key !in h'.gate.active && NextGoesOn(h, |h.computes|, h')
            && h'.entries == h.entries && h'.allEntries == h.allEntries && h'.reattaching == h.reattaching
            && |h'.computes| == |h.computes| + |NextKey(h)| && h'.computes[c] == Compute(key, Gone)
            && key !in NextKey(h) && key !in h'.creations
  {
    var h1 := WithoutCompute(h, key, c);
    Loses(h, key, c);
    Releases(h1, key, session);
    assert NextGoesOn(h, |h.computes|, ReleaseSession(h1, session)) by {
      assert NextGoesOn(h1, |h.computes|, ReleaseSession(h1, session));
    }
    UntouchedThrough(h, h1, ReleaseSession(h1, session), key, {key} + NextKey(h));
  }

  lemma PermitHeld(h: Host, key: Key, session: nat)
    requires HostInv(h) && Holds(h.gate, key, session)
    ensures h.gate.permitsInUse > 0
  {
    assert key in GrantedKeys(h.gate);
  }

  lemma Fails(h: Host, key: Key)
    requires HostInv(h)
    ensures CreateFailedEffect(h, BackendCreateFails(h, key), key)
  {
    if key in h.creations && h.creations[key].AwaitingBackend? {
      InvCreation(h, key);
      var c := h.creations[key];
      PermitHeld(h, key, c.session);
      LosesAndReleases(h, key, c.session, c.compute);
      assert BackendCreateFails(h, key) == ReleaseSession(WithoutCompute(h, key, c.compute), c.session);
    }
  }

  ghost predicate ShutDownEffect(h: Host, h': Host, e: nat) {
    if e < |h.allEntries| && h.allEntries[e].operation.Stopping? then
      var key, c := h.allEntries[e].key, h.allEntries[e].compute;
      && Untouched(h, h', {key} + NextKey(h)) && NextGoesOn(h, |h.computes|, h')
      && c < |h'.computes| && h'.computes[c] == Compute(key, Gone)
      && key !in h'.entries && e < |h'.allEntries| && h'.allEntries[e].operation.Stopped?
      && h'.reattaching == h.reattaching - {e}
      && (e !in h.reattaching ==> key !in h'.creations && key !in h'.gate.active && |h'.computes| == |h.computes| + |NextKey(h)|)
      && (e in h.reattaching ==> key in h'.creations || (key !in h'.gate.active && |h'.gate.waiters| >= h'.gate.maxQueued))
    else h' == h
  }

  /** `h'` gave up the stopping entry `e`, its compute and its permit, and the first waiter went on. */
  ghost predicate DropEffect(h: Host, h': Host, e: nat)
    requires e < |h.allEntries|
  {
    var key, c := h.allEntries[e].key, h.allEntries[e].compute;
    && Untouched(h, h', {key} + NextKey(h)) && NextGoesOn(h, |h.computes|, h') && key !in NextKey(h)
    && c < |h.computes| && c < |h'.computes| && h'.computes[c] == Compute(key, Gone)
    && key !in h'.entries && key !in h'.creations && key !in h'.gate.active
    && |h'.allEntries| == |h.allEntries| && h'.allEntries[e].operation.Stopped? && h'.reattaching == h.reattaching - {e}
    && |h'.computes| == |h.computes| + |NextKey(h)|
  }

  lemma Drops(h: Host, e: nat)
    requires HostInv(h) && e < |h.allEntries| && h.allEntries[e].operation.Stopping?
    ensures h.allEntries[e].compute < |h.computes| && DropEffect(h, Dropped(h, e), e)
  {
    var entry := h.allEntries[e];
    assert Current(h, e);
    InvEntry(h, entry.key);
    PermitHeld(h, entry.key, entry.session);
    assert h.creations - {entry.key} == h.creations;
    LosesAndReleases(h, entry.key, entry.session, entry.compute);
    Forgets(h, ReleaseSession(WithoutCompute(h, entry.key, entry.compute), entry.session), e);
  }

  /** Dropping an entry whose permit was given back touches its key only. */
  lemma Forgets(h: Host, h2: Host, e: nat)
    requires e < |h.allEntries| && Current(h, e) && h2.entries == h.entries && h2.allEntries == h.allEntries
    requires Untouched(h, h2, {h.allEntries[e].key} + NextKey(h))
    ensures var key := h.allEntries[e].key;
            var h3 := SetEntry(h2, e, h.allEntries[e].(operation := Stopped));
            && Current(h3, e)
            && Untouched(h, h3.(entries := h3.entries - {key}, reattaching := h3.reattaching - {e}), {key} + NextKey(h))
  {
  }

  lemma DropsThenStarts(h: Host, h4: Host, h': Host, e: nat)
    requires e < |h.allEntries| && h.allEntries[e].operation.Stopping? && e in h.reattaching
    requires DropEffect(h, h4, e) && StartEffect(h4, h', h.allEntries[e].key)
    ensures ShutDownEffect(h, h', e)
  {
    UntouchedOn(h, h4, h', h.allEntries[e].key, {h.allEntries[e].key} + NextKey(h));
  }

  lemma UntouchedOn(h: Host, h1: Host, h': Host, key: Key, keys: set<Key>)
    requires Untouched(h, h1, keys) && Untouched(h1, h', {key}) && key in keys && h1.computes <= h'.computes
    ensures Untouched(h, h', keys)
  {
  }

  lemma ShutsDown(h: Host, e: nat)
    requires HostInv(h)
    ensures ShutDownEffect(h, ShutdownSucceeds(h, e), e)
  {
    if e < |h.allEntries| && h.allEntries[e].operation.Stopping? {
      Drops(h, e);
      if e in h.reattaching {
        ReleaseKeepsRegistered(h, e);
        RestartStarts(h, Dropped(h, e), e);
      } else {
        assert ShutDownEffect(h, Dropped(h, e), e);
      }
    }
  }

  lemma RestartStarts(h: Host, h4: Host, e: nat)
    requires e < |h.allEntries| && h.allEntries[e].operation.Stopping? && e in h.reattaching
    requires DropEffect(h, h4, e) && Registered(h4.gate)
    ensures ShutDownEffect(h, Restarted(h4, h.allEntries[e].key, true), e)
  {
    NewCreation(h4, h.allEntries[e].key);
    DropsThenStarts(h, h4, Restarted(h4, h.allEntries[e].key, true), e);
  }

  lemma ResumedKeepsRegistered(g: Gate, session: nat)
    requires Inv(g)
    ensures Registered(Release(g, session))
    ensures g.waiters != [] ==> Registered(Resume(Release(g, session), g.waiters[0]))
  {
    ReleaseKeeps(g, session);
    if g.waiters != [] { ResumeKeeps(Release(g, session), g.waiters[0]); }
  }

  lemma ReleaseKeepsRegistered(h: Host, e: nat)
    requires HostInv(h) && e < |h.allEntries| && h.allEntries[e].operation.Stopping? && h.allEntries[e].compute < |h.computes|
    ensures Registered(Dropped(h, e).gate)
  {
    ResumedKeepsRegistered(h.gate, h.allEntries[e].session);
  }

  // ---- timers, stops and their failures ----

  /** The entry changes to `entry`; everything else but `reattaching` is as it was. */
  ghost predicate OnlyEntry(h: Host, h': Host, e: nat, entry: Entry) {
    e < |h.allEntries| && h' == h.(allEntries := h.allEntries[e := entry], reattaching := h'.reattaching)
  }

  ghost predicate CapturedEffect(h: Host, h': Host, e: nat) {
    if e < |h.allEntries| && Current(h, e) && h.allEntries[e].operation.NotStopping?
    then OnlyEntry(h, h', e, h.allEntries[e].(timer := true)) && h'.reattaching == h.reattaching
    else h' == h
  }

  ghost predicate StopEffect(h: Host, h': Host, e: nat) {
    if e < |h.allEntries| && h.allEntries[e].operation.NotStopping?
    then OnlyEntry(h, h', e, h.allEntries[e].(timer := false, operation := Stopping)) && h'.reattaching == h.reattaching
    else h' == h
  }

  ghost predicate TimerEffect(h: Host, h': Host, e: nat) {
    if e < |h.allEntries| && h.allEntries[e].timer && Current(h, e) && h.allEntries[e].operation.NotStopping?
    then StopEffect(h, h', e)
    else if e < |h.allEntries| && h.allEntries[e].timer && Current(h, e)
    then OnlyEntry(h, h', e, h.allEntries[e].(timer := false)) && h'.reattaching == h.reattaching
    else h' == h
  }

  /** A failed stop leaves the compute live and registered, for the next stop to retry. */
  ghost predicate ShutdownFailedEffect(h: Host, h': Host, e: nat) {
    if e < |h.allEntries| && h.allEntries[e].operation.Stopping? then
      && OnlyEntry(h, h', e, h.allEntries[e].(operation := NotStopping)) && h'.reattaching == h.reattaching - {e}
      && Current(h', e) && h'.allEntries[e].compute in Unstopped(h') && h'.allEntries[e].key in h'.gate.active
    else h' == h
  }

  lemma Captures(h: Host, e: nat)
    ensures CapturedEffect(h, StateCaptured(h, e), e)
  {
  }

  /** Only the current entry of a key can be unstopped. */
  lemma Stops(h: Host, e: nat)
    requires HostInv(h)
    ensures StopEffect(h, CallShutdown(h, e), e)
  {
    if e < |h.allEntries| && h.allEntries[e].operation.NotStopping? { assert Current(h, e); }
  }

  lemma TimerStops(h: Host, e: nat)
    requires HostInv(h)
    ensures TimerEffect(h, TimerFires(h, e), e)
  {
    if e < |h.allEntries| && h.allEntries[e].timer && Current(h, e) {
      var h1 := SetEntry(h, e, h.allEntries[e].(timer := false));
      assert Current(h1, e);
    }
  }

  lemma StopFails(h: Host, e: nat)
    requires HostInv(h)
    ensures ShutdownFailedEffect(h, ShutdownFails(h, e), e)
  {
    if e < |h.allEntries| && h.allEntries[e].operation.Stopping? {
      assert Current(h, e);
      InvEntry(h, h.allEntries[e].key);
    }
  }

  ghost predicate TimeoutEffect(h: Host, h': Host, session: nat) {
    if session in h.gate.waiters && session < |h.gate.sessions| then
      var key := h.gate.sessions[session].key;
      && Untouched(h, h', {key}) && h'.computes == h.computes && h'.entries == h.entries && h'.allEntries == h.allEntries
      && key !in h'.creations && key !in h'.gate.active && session !in h'.gate.waiters && h'.reattaching == h.reattaching
    else h' == h
  }

  lemma TimesOut(h: Host, session: nat)
    requires HostInv(h)
    ensures TimeoutEffect(h, AdmissionTimesOut(h, session), session)
  {
    if session in h.gate.waiters {
      PendingHasCreation(h, None, session);
    }
  }
}
