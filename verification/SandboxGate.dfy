/**
 The admission gate in front of a sandbox backend: a counting gate with FIFO waiters, timeouts and
 per-session reference counts.

 A step is the code between two awaits. The steps of different callers may interleave in any order.
 */
module SandboxGate {
  import opened Common
  import opened Counting

  type Key = string

  /** How the promise `session.admission` stands. */
  datatype Admission = Pending | Granted | Refused

  datatype Session = Session(key: Key, admission: Admission, admitted: bool, references: nat)

  /** A session is addressed by its arrival number; `waiters` holds the sessions whose acquire is queued. */
  datatype Gate = Gate(
    limit: nat,
    maxQueued: nat,
    permitsInUse: nat,
    waiters: seq<nat>,
    active: map<Key, nat>,
    sessions: seq<Session>)

  function Empty(limit: nat, maxQueued: nat): Gate {
    Gate(limit, maxQueued, 0, [], map[], [])
  }

  // ---- the steps ----

  /** `create` up to its first await: the session the caller waits on, registered if the key had none. */
  function Create(g: Gate, key: Key): (Gate, nat) {
    if key in g.active then (g, g.active[key])
    else
      var id := |g.sessions|;
      var registered := g.(active := g.active[key := id]);
      if g.permitsInUse < g.limit && g.waiters == [] then
        (registered.(permitsInUse := g.permitsInUse + 1, sessions := g.sessions + [Session(key, Granted, false, 0)]), id)
      else if |g.waiters| >= g.maxQueued then
        (registered.(sessions := g.sessions + [Session(key, Refused, false, 0)]), id)
      else
        (registered.(waiters := g.waiters + [id], sessions := g.sessions + [Session(key, Pending, false, 0)]), id)
  }

  function Unregister(g: Gate, key: Key, id: nat): Gate {
    if key in g.active && g.active[key] == id then g.(active := g.active - {key}) else g
  }

  /** `create` after its admission settled: a granted caller takes a reference, a refused one unregisters. */
  function Resume(g: Gate, id: nat): Gate {
    if id >= |g.sessions| then g
    else match g.sessions[id].admission
      case Pending => g
      case Granted => g.(sessions := g.sessions[id := g.sessions[id].(admitted := true, references := g.sessions[id].references + 1)])
      case Refused => Unregister(g, g.sessions[id].key, id)
  }

  /** Hands the freed permit to the first waiter. */
  function Wake(g: Gate): Gate {
    if g.waiters == [] then g
    else
      var w := g.waiters[0];
      g.(waiters := g.waiters[1..], permitsInUse := g.permitsInUse + 1,
         sessions := if w < |g.sessions| then g.sessions[w := g.sessions[w].(admission := Granted)] else g.sessions)
  }

  predicate Releasable(g: Gate, id: nat) {
    && id < |g.sessions| && g.sessions[id].references > 0
    && g.sessions[id].key in g.active && g.active[g.sessions[id].key] == id
  }

  function Release(g: Gate, id: nat): Gate {
    if !Releasable(g, id) then g
    else
      var s := g.sessions[id];
      var g1 := g.(sessions := g.sessions[id := s.(references := s.references - 1)]);
      if s.references > 1 then g1
      else
        var g2 := g1.(active := g1.active - {s.key},
                      permitsInUse := if s.admitted && g1.permitsInUse > 0 then g1.permitsInUse - 1 else g1.permitsInUse);
        Wake(g2)
  }

  ghost predicate Ascending(waiters: seq<nat>) {
    forall i, j :: 0 <= i < j < |waiters| ==> waiters[i] < waiters[j]
  }

  /** The waiters other than `id`. */
  function Without(waiters: seq<nat>, id: nat): (r: seq<nat>)
    ensures forall w :: w in r <==> w in waiters && w != id
    ensures |r| <= |waiters|
    ensures Ascending(waiters) ==> Ascending(r)
  {
    if waiters == [] then []
    else
      var rest := Without(waiters[1..], id);
      assert forall w :: w in waiters <==> w == waiters[0] || w in waiters[1..];
      assert Ascending(waiters) ==> Ascending(waiters[1..]) && forall w <- waiters[1..] :: waiters[0] < w;
      assert forall k :: 0 <= k < |rest| ==> rest[k] in rest;
      if waiters[0] == id then rest else [waiters[0]] + rest
  }

  /** A queued acquire times out; a timer of a session that is no longer queued was cleared. */
  function TimeOut(g: Gate, id: nat): Gate {
    if id in g.waiters && id < |g.sessions| then
      g.(waiters := Without(g.waiters, id), sessions := g.sessions[id := g.sessions[id].(admission := Refused)])
    else g
  }

  datatype Action = CreateCall(key: Key) | ResumeCall(id: nat) | ReleaseCall(id: nat) | Timer(id: nat)

  function Step(g: Gate, a: Action): Gate {
    match a
    case CreateCall(key) => Create(g, key).0
    case ResumeCall(id) => Resume(g, id)
    case ReleaseCall(id) => Release(g, id)
    case Timer(id) => TimeOut(g, id)
  }

  function Exec(limit: nat, maxQueued: nat, run: seq<Action>): Gate {
    if run == [] then Empty(limit, maxQueued) else Step(Exec(limit, maxQueued, run[..|run| - 1]), run[|run| - 1])
  }

  // ---- the accounting invariant ----

  /** The keys whose registered session was granted a permit. */
  ghost function GrantedKeys(g: Gate): set<Key> {
    set key | key in g.active && g.active[key] < |g.sessions| && g.sessions[g.active[key]].admission.Granted?
  }

  ghost predicate Registered(g: Gate) {
    && (forall key <- g.active :: g.active[key] < |g.sessions| && g.sessions[g.active[key]].key == key)
    && (forall id :: 0 <= id < |g.sessions| && g.sessions[id].admission.Pending? ==>
          g.sessions[id].key in g.active && g.active[g.sessions[id].key] == id)
    && (forall id :: 0 <= id < |g.sessions| && g.sessions[id].references > 0 ==>
          g.sessions[id].admission.Granted? && g.sessions[id].admitted)
    && (forall id :: 0 <= id < |g.sessions| && g.sessions[id].admitted ==> g.sessions[id].admission.Granted?)
  }

  /** The queue holds exactly the pending sessions, in arrival order. */
  ghost predicate Queued(g: Gate) {
    && Ascending(g.waiters)
    && (forall w: nat {:trigger w in g.waiters} :: w in g.waiters <==> w < |g.sessions| && g.sessions[w].admission.Pending?)
  }

  /** A session that is still waiting arrived after every session that was granted. */
  ghost predicate GrantsInOrder(g: Gate) {
    forall a, b ::
      (0 <= a < |g.sessions| && 0 <= b < |g.sessions| && g.sessions[a].admission.Granted? && g.sessions[b].admission.Pending?)
      ==> a < b
  }

  ghost predicate Accounted(g: Gate) {
    && g.permitsInUse == |GrantedKeys(g)|
    && g.permitsInUse <= g.limit
    && (g.waiters != [] ==> g.permitsInUse == g.limit)
    && |g.waiters| <= g.maxQueued
  }

  ghost predicate Inv(g: Gate) {
    Registered(g) && Queued(g) && GrantsInOrder(g) && Accounted(g)
  }

  predicate IsRegistered(g: Gate, id: nat) {
    id < |g.sessions| && g.sessions[id].key in g.active && g.active[g.sessions[id].key] == id
  }

  /** `g'` is `g` with the new session `s` registered. */
  ghost predicate Registers(g: Gate, g': Gate, s: Session) {
    && s.key !in g.active && !s.admitted && s.references == 0
    && g'.active == g.active[s.key := |g.sessions|] && g'.sessions == g.sessions + [s]
    && g'.waiters == (if s.admission.Pending? then g.waiters + [|g.sessions|] else g.waiters)
    && (s.admission.Granted? ==> g.waiters == [])
  }

  lemma RegisteredNext(g: Gate, g': Gate, s: Session)
    requires Registered(g) && Registers(g, g', s)
    ensures Registered(g')
  {
    assert forall id :: 0 <= id < |g.sessions| ==> g'.sessions[id] == g.sessions[id];
    assert forall key <- g'.active :: key != s.key ==> key in g.active && g'.active[key] == g.active[key];
  }

  lemma QueuedNext(g: Gate, g': Gate, s: Session)
    requires Queued(g) && Registers(g, g', s)
    ensures Queued(g')
  {
    var id := |g.sessions|;
    forall i | 0 <= i < |g.waiters| ensures g.waiters[i] < id { assert g.waiters[i] in g.waiters; }
    forall w: nat ensures w in g'.waiters <==> w < |g'.sessions| && g'.sessions[w].admission.Pending? {
      assert w in g'.waiters <==> w in g.waiters || (s.admission.Pending? && w == id);
      if w < id { assert g'.sessions[w] == g.sessions[w]; }
    }
  }

  lemma GrantsInOrderNext(g: Gate, g': Gate, s: Session)
    requires Queued(g) && GrantsInOrder(g) && Registers(g, g', s)
    ensures GrantsInOrder(g')
  {
    assert forall id :: 0 <= id < |g.sessions| ==> g'.sessions[id] == g.sessions[id];
    assert forall id: nat :: id < |g.sessions| && g.sessions[id].admission.Pending? ==> id in g.waiters;
  }

  lemma RegisterKeeps(g: Gate, g': Gate, s: Session)
    requires Registered(g) && Queued(g) && GrantsInOrder(g) && Registers(g, g', s)
    ensures Registered(g') && Queued(g') && GrantsInOrder(g')
  {
    RegisteredNext(g, g', s);
    QueuedNext(g, g', s);
    GrantsInOrderNext(g, g', s);
  }

  lemma RegisterGrants(g: Gate, g': Gate, s: Session)
    requires Registered(g) && Registers(g, g', s)
    ensures GrantedKeys(g') == if s.admission.Granted? then GrantedKeys(g) + {s.key} else GrantedKeys(g)
  {
  }

  lemma CreateRegistersSession(g: Gate, key: Key)
    requires key !in g.active
    ensures var g' := Create(g, key).0;
            && |g'.sessions| == |g.sessions| + 1 && Registers(g, g', g'.sessions[|g.sessions|])
            && g'.limit == g.limit && g'.maxQueued == g.maxQueued
            && (if g'.sessions[|g.sessions|].admission.Granted? then g.permitsInUse < g.limit && g'.permitsInUse == g.permitsInUse + 1
                else g'.permitsInUse == g.permitsInUse)
            && (g'.sessions[|g.sessions|].admission.Pending? ==>
                  |g.waiters| < g.maxQueued && !(g.permitsInUse < g.limit && g.waiters == []))
  {
  }

  lemma CreateKeeps(g: Gate, key: Key)
    requires Inv(g)
    ensures Inv(Create(g, key).0)
  {
    if key !in g.active {
      var g' := Create(g, key).0;
      CreateRegistersSession(g, key);
      RegisterKeeps(g, g', g'.sessions[|g.sessions|]);
      RegisterAccounts(g, g', g'.sessions[|g.sessions|]);
    }
  }

  lemma RegisterAccounts(g: Gate, g': Gate, s: Session)
    requires Registered(g) && Accounted(g) && Registers(g, g', s) && g'.limit == g.limit && g'.maxQueued == g.maxQueued
    requires if s.admission.Granted? then g.permitsInUse < g.limit && g'.permitsInUse == g.permitsInUse + 1 else g'.permitsInUse == g.permitsInUse
    requires s.admission.Pending? ==> |g.waiters| < g.maxQueued && !(g.permitsInUse < g.limit && g.waiters == [])
    ensures Accounted(g')
  {
    RegisterGrants(g, g', s);
    assert s.key !in GrantedKeys(g);
  }

  /** A step that leaves admissions, keys, registrations and the queue alone keeps everything but the reference rule. */
  lemma ReferencesOnly(g: Gate, g': Gate)
    requires Inv(g)
    requires g' == g.(sessions := g'.sessions) && |g'.sessions| == |g.sessions|
    requires forall id :: 0 <= id < |g.sessions| ==>
                            g'.sessions[id].key == g.sessions[id].key && g'.sessions[id].admission == g.sessions[id].admission
    requires forall id :: 0 <= id < |g.sessions| && g'.sessions[id] != g.sessions[id] ==>
                            g.sessions[id].admission.Granted? && g'.sessions[id].admitted
    ensures Inv(g') && GrantedKeys(g') == GrantedKeys(g)
  {
    assert GrantedKeys(g') == GrantedKeys(g);
    assert Registered(g');
    assert Queued(g');
    assert GrantsInOrder(g');
  }

  lemma UnregisterKeeps(g: Gate, id: nat)
    requires Inv(g) && id < |g.sessions| && g.sessions[id].admission.Refused?
    ensures Inv(Unregister(g, g.sessions[id].key, id))
    ensures GrantedKeys(Unregister(g, g.sessions[id].key, id)) == GrantedKeys(g)
  {
    var g' := Unregister(g, g.sessions[id].key, id);
    assert GrantedKeys(g') == GrantedKeys(g);
    assert Registered(g');
    assert Queued(g');
    assert GrantsInOrder(g');
  }

  lemma ResumeKeeps(g: Gate, id: nat)
    requires Inv(g)
    ensures Inv(Resume(g, id))
  {
    if id < |g.sessions| {
      match g.sessions[id].admission
      case Pending =>
      case Granted => ReferencesOnly(g, Resume(g, id));
      case Refused => UnregisterKeeps(g, id);
    }
  }

  lemma QueueHead(waiters: seq<nat>)
    requires waiters != [] && Ascending(waiters)
    ensures Ascending(waiters[1..])
    ensures forall v: nat :: v in waiters[1..] <==> v in waiters && waiters[0] < v
    ensures forall v: nat <- waiters :: v == waiters[0] || v in waiters[1..]
  {
  }

  lemma WakeKeeps(g: Gate)
    requires Registered(g) && Queued(g) && GrantsInOrder(g)
    requires g.permitsInUse == |GrantedKeys(g)| && |g.waiters| <= g.maxQueued
    requires g.permitsInUse < g.limit && (g.waiters != [] ==> g.permitsInUse == g.limit - 1)
    ensures Inv(Wake(g))
  {
    if g.waiters != [] {
      var w, g' := g.waiters[0], Wake(g);
      assert w in g.waiters;
      assert Registered(g');
      QueueHead(g.waiters);
      assert Queued(g');
      assert GrantsInOrder(g') by {
        assert forall b :: 0 <= b < |g'.sessions| && g'.sessions[b].admission.Pending? ==> b in g'.waiters;
      }
      assert GrantedKeys(g') == GrantedKeys(g) + {g.sessions[w].key};
    }
  }

  lemma ReleaseKeeps(g: Gate, id: nat)
    requires Inv(g)
    ensures Inv(Release(g, id))
  {
    if Releasable(g, id) {
      var s := g.sessions[id];
      var g1 := g.(sessions := g.sessions[id := s.(references := s.references - 1)]);
      ReferencesOnly(g, g1);
      if s.references == 1 { FreedKeeps(g1, id); }
    }
  }

  /** Giving up the permit of a registered session that nobody refers to any more. */
  lemma FreedKeeps(g: Gate, id: nat)
    requires Inv(g) && IsRegistered(g, id) && g.sessions[id].admission.Granted? && g.sessions[id].references == 0
    ensures g.permitsInUse > 0
    ensures Inv(Wake(g.(active := g.active - {g.sessions[id].key}, permitsInUse := g.permitsInUse - 1)))
  {
    var key := g.sessions[id].key;
    assert key in GrantedKeys(g);
    var g' := g.(active := g.active - {key}, permitsInUse := g.permitsInUse - 1);
    assert GrantedKeys(g') == GrantedKeys(g) - {key};
    assert Registered(g');
    assert Queued(g');
    WakeKeeps(g');
  }

  lemma TimeOutKeeps(g: Gate, id: nat)
    requires Inv(g)
    ensures Inv(TimeOut(g, id))
  {
    if id in g.waiters {
      var g' := TimeOut(g, id);
      assert GrantedKeys(g') == GrantedKeys(g);
      assert g'.waiters != [] ==> g.waiters != [];
      assert Registered(g');
      assert Queued(g');
      assert GrantsInOrder(g');
    }
  }

  /**
   In every reachable state `permitsInUse` counts the registered sessions that hold a permit and is at most the
   limit, a non-empty queue means every permit is in use, the queue is bounded and is served in arrival order.
   */
  lemma {:induction false} GateAccounting(limit: nat, maxQueued: nat, run: seq<Action>)
    ensures var g := Exec(limit, maxQueued, run); Inv(g) && g.limit == limit && g.maxQueued == maxQueued
  {
    if run != [] {
      var init, a := run[..|run| - 1], run[|run| - 1];
      GateAccounting(limit, maxQueued, init);
      var g := Exec(limit, maxQueued, init);
      match a
      case CreateCall(key) => CreateKeeps(g, key);
      case ResumeCall(id) => ResumeKeeps(g, id);
      case ReleaseCall(id) => ReleaseKeeps(g, id);
      case Timer(id) => TimeOutKeeps(g, id);
    }
  }

  // ---- when live compute is bounded ----

  /** The sessions with a backend handle that was created and not yet released. */
  ghost function LiveSessions(g: Gate): set<nat> {
    set id: nat | id < |g.sessions| && g.sessions[id].references > 0
  }

  ghost predicate LiveRegistered(g: Gate) {
    forall id: nat :: id in LiveSessions(g) ==> IsRegistered(g, id)
  }

  /** The step resumes a granted session that is no longer registered, and so takes a reference on it. */
  predicate Strays(g: Gate, a: Action) {
    a.ResumeCall? && a.id < |g.sessions| && g.sessions[a.id].admission.Granted? && !IsRegistered(g, a.id)
  }

  lemma StepStaysRegistered(g: Gate, a: Action)
    requires Inv(g) && LiveRegistered(g)
    ensures LiveRegistered(Step(g, a)) <==> !Strays(g, a)
  {
    var g' := Step(g, a);
    if Strays(g, a) {
      assert a.id in LiveSessions(g') && !IsRegistered(g', a.id);
    } else {
      forall id: nat | id in LiveSessions(g') ensures IsRegistered(g', id) {
        if a != ResumeCall(id) { assert id in LiveSessions(g); }
      }
    }
  }

  lemma {:induction false} LiveRegisteredSoFar(limit: nat, maxQueued: nat, run: seq<Action>, n: nat)
    requires n <= |run| && forall k :: 0 <= k < n ==> !Strays(Exec(limit, maxQueued, run[..k]), run[k])
    ensures LiveRegistered(Exec(limit, maxQueued, run[..n]))
  {
    if n > 0 {
      LiveRegisteredSoFar(limit, maxQueued, run, n - 1);
      GateAccounting(limit, maxQueued, run[..n - 1]);
      assert run[..n][..n - 1] == run[..n - 1];
      StepStaysRegistered(Exec(limit, maxQueued, run[..n - 1]), run[n - 1]);
    }
  }

  /**
   In every state of a run the live sessions are registered, if and only if no step of the run resumes a granted
   session that is no longer registered.
   */
  lemma LiveRegisteredExactly(limit: nat, maxQueued: nat, run: seq<Action>)
    ensures (forall n :: 0 <= n <= |run| ==> LiveRegistered(Exec(limit, maxQueued, run[..n])))
            <==> (forall n :: 0 <= n < |run| ==> !Strays(Exec(limit, maxQueued, run[..n]), run[n]))
  {
    if forall n :: 0 <= n < |run| ==> !Strays(Exec(limit, maxQueued, run[..n]), run[n]) {
      forall n | 0 <= n <= |run| ensures LiveRegistered(Exec(limit, maxQueued, run[..n])) {
        LiveRegisteredSoFar(limit, maxQueued, run, n);
      }
    }
    if forall n :: 0 <= n <= |run| ==> LiveRegistered(Exec(limit, maxQueued, run[..n])) {
      forall n | 0 <= n < |run| ensures !Strays(Exec(limit, maxQueued, run[..n]), run[n]) {
        assert LiveRegistered(Exec(limit, maxQueued, run[..n]));
        assert LiveRegistered(Exec(limit, maxQueued, run[..n + 1]));
        GateAccounting(limit, maxQueued, run[..n]);
        assert run[..n + 1][..n] == run[..n];
        StepStaysRegistered(Exec(limit, maxQueued, run[..n]), run[n]);
      }
    }
  }

  /** Registered live sessions have distinct keys and never exceed the limit. */
  lemma RegisteredLiveIsBounded(g: Gate)
    requires Inv(g) && LiveRegistered(g)
    ensures |LiveSessions(g)| <= g.limit
    ensures forall i, j :: i in LiveSessions(g) && j in LiveSessions(g) && g.sessions[i].key == g.sessions[j].key ==> i == j
  {
    forall id <- LiveSessions(g) ensures g.sessions[id].key in GrantedKeys(g) {
      assert IsRegistered(g, id);
    }
    InjectionBound(LiveSessions(g), (id: nat) => if id < |g.sessions| then g.sessions[id].key else "", GrantedKeys(g));
  }

  /** Without such a step the live sessions never exceed the limit. */
  lemma BoundedWithoutStrays(limit: nat, maxQueued: nat, run: seq<Action>, n: nat)
    requires n <= |run| && forall k :: 0 <= k < |run| ==> !Strays(Exec(limit, maxQueued, run[..k]), run[k])
    ensures |LiveSessions(Exec(limit, maxQueued, run[..n]))| <= limit
  {
    LiveRegisteredSoFar(limit, maxQueued, run, n);
    GateAccounting(limit, maxQueued, run[..n]);
    RegisteredLiveIsBounded(Exec(limit, maxQueued, run[..n]));
  }

  lemma Extend(limit: nat, maxQueued: nat, run: seq<Action>, a: Action)
    ensures Exec(limit, maxQueued, run + [a]) == Step(Exec(limit, maxQueued, run), a)
  {
    assert (run + [a])[..|run|] == run;
  }

  /** The first handle of `a` is released while a second `create` of `a` is suspended on its admission. */
  lemma ReleasedWhileSuspended(a: Key)
    ensures Exec(1, 1, [CreateCall(a), ResumeCall(0), CreateCall(a), ReleaseCall(0)]) ==
            Gate(1, 1, 0, [], map[], [Session(a, Granted, true, 0)])
  {
    Extend(1, 1, [], CreateCall(a));
    Extend(1, 1, [CreateCall(a)], ResumeCall(0));
    Extend(1, 1, [CreateCall(a), ResumeCall(0)], CreateCall(a));
    Extend(1, 1, [CreateCall(a), ResumeCall(0), CreateCall(a)], ReleaseCall(0));
    assert [] + [CreateCall(a)] == [CreateCall(a)];
    var g1 := Create(Empty(1, 1), a).0;
    assert g1 == Gate(1, 1, 1, [], map[a := 0], [Session(a, Granted, false, 0)]);
    var g2 := Resume(g1, 0);
    assert g2.sessions == [Session(a, Granted, true, 1)] && g2.active[a] == 0;
    assert Release(g2, 0) == Gate(1, 1, 0, [], map[], [Session(a, Granted, true, 0)]);
    assert [CreateCall(a)] + [ResumeCall(0)] == [CreateCall(a), ResumeCall(0)];
    assert [CreateCall(a), ResumeCall(0)] + [CreateCall(a)] == [CreateCall(a), ResumeCall(0), CreateCall(a)];
    assert [CreateCall(a), ResumeCall(0), CreateCall(a)] + [ReleaseCall(0)]
        == [CreateCall(a), ResumeCall(0), CreateCall(a), ReleaseCall(0)];
  }

  /**
   The gate alone does not bound live compute. A second `create` of a key that suspends on its admission just
   before the first handle is released takes its reference on a session that is no longer registered; then two
   sessions of different keys are live at limit one.
   */
  lemma GateAloneOversubscribes(a: Key, b: Key)
    requires a != b
    ensures var run := [CreateCall(a), ResumeCall(0), CreateCall(a), ReleaseCall(0), ResumeCall(0), CreateCall(b), ResumeCall(1)];
            var g := Exec(1, 1, run);
            && LiveSessions(g) == {0, 1} && |LiveSessions(g)| > g.limit
            && g.sessions[0].key == a && g.sessions[1].key == b
            && Strays(Exec(1, 1, run[..4]), run[4])
  {
    var run4 := [CreateCall(a), ResumeCall(0), CreateCall(a), ReleaseCall(0)];
    var run := [CreateCall(a), ResumeCall(0), CreateCall(a), ReleaseCall(0), ResumeCall(0), CreateCall(b), ResumeCall(1)];
    ReleasedWhileSuspended(a);
    assert run[..4] == run4;
    Extend(1, 1, run4, ResumeCall(0));
    Extend(1, 1, run4 + [ResumeCall(0)], CreateCall(b));
    Extend(1, 1, run4 + [ResumeCall(0)] + [CreateCall(b)], ResumeCall(1));
    var g5 := Resume(Gate(1, 1, 0, [], map[], [Session(a, Granted, true, 0)]), 0);
    assert g5 == Gate(1, 1, 0, [], map[], [Session(a, Granted, true, 1)]);
    var g7 := Resume(Create(g5, b).0, 1);
    assert g7.sessions == [Session(a, Granted, true, 1), Session(b, Granted, true, 1)];
    assert run4 + [ResumeCall(0)] + [CreateCall(b)] + [ResumeCall(1)] == run;
    assert Exec(1, 1, run) == g7;
    assert LiveSessions(g7) == {0, 1};
  }
}
