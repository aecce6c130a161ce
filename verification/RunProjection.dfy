/**
 The fold that projects a runtime event stream into the stored state of an AgentRun, one page at a time.
 Each page rebuilds three hidden flags from the stored status.
 */
module RunProjection {
  import opened Common

  datatype RunStatus = Submitting | Running | WaitingInput | WaitingAuthorization | Completed | Failed | Cancelled | SubmissionAmbiguous

  /** A JSON value stands for its normalized text. */
  datatype RunResult = JsonResult(value: string) | TextResult(text: string)

  datatype RunFailure = RunFailure(code: string, message: string)

  datatype Usage = Usage(cacheReadTokens: nat, cacheWriteTokens: nat, costUsd: real, inputTokens: nat, outputTokens: nat, steps: nat)

  datatype StepUsage = StepUsage(
    cacheReadTokens: Option<nat>, cacheWriteTokens: Option<nat>, costUsd: Option<real>,
    inputTokens: Option<nat>, outputTokens: Option<nat>)

  datatype Event =
    | TurnStarted
    | MessageReceived
    | InputRequested
    | AuthorizationRequired
    | AuthorizationCompleted
    | ResultCompleted(value: string)
    | MessageCompleted(message: string, toolCalls: bool)
    | StepCompleted(usage: Option<StepUsage>)
    | TurnCancelled
    | TurnFailed(code: string, message: string)
    | SessionFailed(code: string, message: string)
    | SessionCompleted
    | SessionWaiting
    | OtherEvent

  /** The stored columns the fold reads and writes. */
  datatype Projection = Projection(
    eventCount: nat, failure: Option<RunFailure>, result: Option<RunResult>, status: RunStatus, usage: Usage)

  const NO_USAGE: Usage := Usage(0, 0, 0.0, 0, 0, 0)

  /** The local variables of the fold. */
  datatype Fold = Fold(
    status: RunStatus, result: Option<RunResult>, failure: Option<RunFailure>,
    cancelled: bool, waitingInput: bool, waitingAuthorization: bool, usage: Usage)

  function Start(current: Projection): Fold {
    var status := if current.status.Submitting? then Running else current.status;
    Fold(status, current.result, current.failure, status.Cancelled?, status.WaitingInput?, status.WaitingAuthorization?, current.usage)
  }

  function Tokens(n: Option<nat>): nat {
    if n.Some? then n.value else 0
  }

  function AddUsage(u: Usage, step: Option<StepUsage>): Usage {
    if step.None? then u.(steps := u.steps + 1)
    else
      var d := step.value;
      Usage(u.cacheReadTokens + Tokens(d.cacheReadTokens), u.cacheWriteTokens + Tokens(d.cacheWriteTokens),
            u.costUsd + (if d.costUsd.Some? then d.costUsd.value else 0.0),
            u.inputTokens + Tokens(d.inputTokens), u.outputTokens + Tokens(d.outputTokens), u.steps + 1)
  }

  function Step(f: Fold, e: Event): Fold {
    match e
    case TurnStarted =>
      f.(waitingInput := false, waitingAuthorization := false,
         status := if !f.cancelled && f.failure.None? then Running else f.status)
    case MessageReceived =>
      f.(waitingInput := false, waitingAuthorization := false,
         status := if !f.cancelled && f.failure.None? then Running else f.status)
    case InputRequested => f.(waitingInput := true, status := WaitingInput)
    case AuthorizationRequired => f.(waitingAuthorization := true, status := WaitingAuthorization)
    case AuthorizationCompleted => f.(waitingAuthorization := false, status := Running)
    case ResultCompleted(value) => f.(result := Some(JsonResult(value)))
    case MessageCompleted(message, toolCalls) =>
      if message != "" && !toolCalls && f.result.None? then f.(result := Some(TextResult(message))) else f
    case StepCompleted(usage) => f.(usage := AddUsage(f.usage, usage))
    case TurnCancelled => f.(cancelled := true, status := Cancelled)
    case TurnFailed(code, message) => f.(status := Failed, failure := Some(RunFailure(code, message)))
    case SessionFailed(code, message) => f.(status := Failed, failure := Some(RunFailure(code, message)))
    case SessionCompleted => if !f.cancelled && f.failure.None? then f.(status := Completed) else f
    case SessionWaiting =>
      f.(status := if f.cancelled then Cancelled
                   else if f.failure.Some? then Failed
                   else if f.waitingInput then WaitingInput
                   else if f.waitingAuthorization then WaitingAuthorization
                   else Completed)
    case OtherEvent => f
  }

  function FoldAll(f: Fold, events: seq<Event>): Fold {
    if events == [] then f else Step(FoldAll(f, events[..|events| - 1]), events[|events| - 1])
  }

  function Finish(f: Fold, eventCount: nat): Projection {
    Projection(eventCount, f.failure, f.result, f.status, f.usage)
  }

  function Project(current: Projection, events: seq<Event>): Projection {
    Finish(FoldAll(Start(current), events), current.eventCount + |events|)
  }

  /** The source's loop over one page. */
  method ProjectFrom(current: Projection, events: seq<Event>) returns (p: Projection)
    ensures p == Project(current, events)
    ensures p.eventCount == current.eventCount + |events|
  {
    var f := Start(current);
    for i := 0 to |events|
      invariant f == FoldAll(Start(current), events[..i])
    {
      assert events[..i + 1][..i] == events[..i];
      f := Step(f, events[i]);
    }
    assert events[..|events|] == events;
    p := Finish(f, current.eventCount + |events|);
  }

  // ---- page boundaries ----

  lemma {:induction false} FoldSplit(f: Fold, a: seq<Event>, b: seq<Event>)
    ensures FoldAll(f, a + b) == FoldAll(FoldAll(f, a), b)
  {
    if b == [] {
      assert a + b == a;
    } else {
      assert (a + b)[..|a + b| - 1] == a + b[..|b| - 1];
      FoldSplit(f, a, b[..|b| - 1]);
    }
  }

  /** The variables that are stored and read back unchanged. */
  predicate SameCore(f: Fold, g: Fold) {
    f.result == g.result && f.failure == g.failure && f.usage == g.usage
  }

  /** What one event does to each stored variable, whatever the others are. */
  lemma UsageStep(f: Fold, e: Event)
    ensures Step(f, e).usage == if e.StepCompleted? then AddUsage(f.usage, e.usage) else f.usage
  {
  }

  lemma FailureStep(f: Fold, e: Event)
    ensures Step(f, e).failure == if e.TurnFailed? || e.SessionFailed? then Some(RunFailure(e.code, e.message)) else f.failure
  {
  }

  lemma ResultStep(f: Fold, e: Event)
    ensures Step(f, e).result ==
            if e.ResultCompleted? then Some(JsonResult(e.value))
            else if e.MessageCompleted? && e.message != "" && !e.toolCalls && f.result.None? then Some(TextResult(e.message))
            else f.result
  {
  }

  lemma CoreStep(f: Fold, g: Fold, e: Event)
    requires SameCore(f, g)
    ensures SameCore(Step(f, e), Step(g, e))
  {
    UsageStep(f, e);
    UsageStep(g, e);
    FailureStep(f, e);
    FailureStep(g, e);
    ResultStep(f, e);
    ResultStep(g, e);
  }

  lemma {:induction false} CoreIgnoresFlags(f: Fold, g: Fold, events: seq<Event>)
    requires SameCore(f, g)
    ensures SameCore(FoldAll(f, events), FoldAll(g, events))
  {
    if events != [] {
      var init := events[..|events| - 1];
      CoreIgnoresFlags(f, g, init);
      CoreStep(FoldAll(f, init), FoldAll(g, init), events[|events| - 1]);
    }
  }

  /** Usage, event count, result and failure never depend on where a stream is cut into pages. */
  lemma PagesAgreeOnCore(current: Projection, a: seq<Event>, b: seq<Event>)
    ensures var paged, whole := Project(Project(current, a), b), Project(current, a + b);
            && paged.usage == whole.usage && paged.eventCount == whole.eventCount
            && paged.result == whole.result && paged.failure == whole.failure
  {
    var f := FoldAll(Start(current), a);
    FoldSplit(Start(current), a, b);
    CoreIgnoresFlags(f, Start(Project(current, a)), b);
  }

  /** The stored status determines what the hidden flags can still make visible. */
  predicate FlagsStored(f: Fold) {
    && (f.cancelled <==> f.status.Cancelled?)
    && (f.cancelled || f.failure.Some?
        || ((f.waitingInput <==> f.status.WaitingInput?)
            && (f.waitingInput || (f.waitingAuthorization <==> f.status.WaitingAuthorization?))))
  }

  /** Two folds that no later event can tell apart by their status. */
  predicate Alike(f: Fold, g: Fold) {
    && SameCore(f, g) && f.status == g.status && f.cancelled == g.cancelled
    && (f.cancelled || f.failure.Some?
        || (f.waitingInput == g.waitingInput && (f.waitingInput || f.waitingAuthorization == g.waitingAuthorization)))
  }

  lemma AlikeStep(f: Fold, g: Fold, e: Event)
    requires Alike(f, g)
    ensures Alike(Step(f, e), Step(g, e))
  {
    CoreStep(f, g, e);
  }

  lemma {:induction false} AlikeStays(f: Fold, g: Fold, events: seq<Event>)
    requires Alike(f, g)
    ensures Alike(FoldAll(f, events), FoldAll(g, events))
  {
    if events != [] {
      var init := events[..|events| - 1];
      AlikeStays(f, g, init);
      AlikeStep(FoldAll(f, init), FoldAll(g, init), events[|events| - 1]);
    }
  }

  lemma {:induction false} NeverSubmitting(current: Projection, events: seq<Event>)
    ensures !FoldAll(Start(current), events).status.Submitting?
  {
    if events != [] { NeverSubmitting(current, events[..|events| - 1]); }
  }

  lemma {:induction false} NeverAmbiguous(current: Projection, events: seq<Event>)
    requires !current.status.SubmissionAmbiguous?
    ensures !FoldAll(Start(current), events).status.SubmissionAmbiguous?
  {
    if events != [] { NeverAmbiguous(current, events[..|events| - 1]); }
  }

  lemma FoldOne(f: Fold, e: Event)
    ensures FoldAll(f, [e]) == Step(f, e)
  {
    assert [e][..0] == [];
  }

  lemma FoldTwo(f: Fold, e: Event, next: Event)
    ensures FoldAll(f, [e, next]) == Step(Step(f, e), next)
  {
    FoldOne(f, e);
    assert [e, next][..1] == [e];
  }

  /** Folds that agree on everything stored but are not alike differ after at most two more events. */
  lemma Distinguishable(f: Fold, g: Fold)
    requires SameCore(f, g) && f.status == g.status && !Alike(f, g)
    ensures exists b: seq<Event> :: FoldAll(f, b).status != FoldAll(g, b).status
  {
    FoldOne(f, SessionWaiting);
    FoldOne(g, SessionWaiting);
    FoldTwo(f, AuthorizationCompleted, SessionWaiting);
    FoldTwo(g, AuthorizationCompleted, SessionWaiting);
    assert FoldAll(f, [SessionWaiting]).status != FoldAll(g, [SessionWaiting]).status
           || FoldAll(f, [AuthorizationCompleted, SessionWaiting]).status != FoldAll(g, [AuthorizationCompleted, SessionWaiting]).status;
  }

  /** A page boundary after `a` is invisible to the status, whatever follows, if and only if the flags are stored. */
  lemma PagesAgreeOnStatus(current: Projection, a: seq<Event>)
    ensures (forall b: seq<Event> :: Project(Project(current, a), b).status == Project(current, a + b).status)
            <==> FlagsStored(FoldAll(Start(current), a))
  {
    var f := FoldAll(Start(current), a);
    var g := Start(Project(current, a));
    NeverSubmitting(current, a);
    assert Alike(f, g) <==> FlagsStored(f);
    forall b: seq<Event> ensures Project(current, a + b).status == FoldAll(f, b).status { FoldSplit(Start(current), a, b); }
    if FlagsStored(f) {
      forall b: seq<Event> ensures FoldAll(f, b).status == FoldAll(g, b).status { AlikeStays(f, g, b); }
    } else {
      Distinguishable(f, g);
      var b :| FoldAll(f, b).status != FoldAll(g, b).status;
      assert Project(Project(current, a), b).status != Project(current, a + b).status;
    }
  }

  /** The events that keep the flags stored, decided from the fold just before the event. */
  predicate KeepsFlags(f: Fold, e: Event) {
    match e
    case InputRequested => !f.cancelled
    case AuthorizationRequired => !f.cancelled && (f.failure.Some? || !f.waitingInput)
    case AuthorizationCompleted => !f.cancelled && (f.failure.Some? || !f.waitingInput)
    case TurnFailed(_, _) => !f.cancelled
    case SessionFailed(_, _) => !f.cancelled
    case SessionCompleted => f.cancelled || f.failure.Some? || (!f.waitingInput && !f.waitingAuthorization)
    case _ => true
  }

  lemma KeepsFlagsExactly(f: Fold, e: Event)
    requires FlagsStored(f)
    ensures FlagsStored(Step(f, e)) <==> KeepsFlags(f, e)
  {
  }

  /** Each event of the stream finds the fold in a state it keeps stored. */
  ghost predicate Pageable(f: Fold, events: seq<Event>) {
    forall n :: 0 <= n < |events| ==> KeepsFlags(FoldAll(f, events[..n]), events[n])
  }

  lemma {:induction false} PageableStored(f: Fold, events: seq<Event>, n: nat)
    requires FlagsStored(f) && Pageable(f, events) && n <= |events|
    ensures FlagsStored(FoldAll(f, events[..n]))
  {
    if n > 0 {
      PageableStored(f, events, n - 1);
      assert events[..n][..n - 1] == events[..n - 1];
      KeepsFlagsExactly(FoldAll(f, events[..n - 1]), events[n - 1]);
    }
  }

  /**
   A stream may be cut into pages anywhere without changing any later status if and only if no request or
   authorization event follows a cancelled turn, no authorization event meets an outstanding input request, no
   failure follows a cancellation, and no session completes while a request is outstanding.
   */
  lemma StreamPageableExactly(current: Projection, events: seq<Event>)
    ensures (forall n, b: seq<Event> :: 0 <= n <= |events| ==>
               Project(Project(current, events[..n]), b).status == Project(current, events[..n] + b).status)
            <==> Pageable(Start(current), events)
  {
    var f := Start(current);
    assert FlagsStored(f);
    if Pageable(f, events) {
      forall n, b: seq<Event> | 0 <= n <= |events|
        ensures Project(Project(current, events[..n]), b).status == Project(current, events[..n] + b).status
      {
        PageableStored(f, events, n);
        PagesAgreeOnStatus(current, events[..n]);
      }
    }
    if forall n, b: seq<Event> :: 0 <= n <= |events| ==>
         Project(Project(current, events[..n]), b).status == Project(current, events[..n] + b).status
    {
      forall n | 0 <= n < |events| ensures KeepsFlags(FoldAll(f, events[..n]), events[n]) {
        PagesAgreeOnStatus(current, events[..n]);
        PagesAgreeOnStatus(current, events[..n + 1]);
        assert events[..n + 1][..n] == events[..n];
        KeepsFlagsExactly(FoldAll(f, events[..n]), events[n]);
      }
    }
  }

  // ---- many pages ----

  /** Folding one page after the other. */
  function FoldPages(current: Projection, pages: seq<seq<Event>>): Projection {
    if pages == [] then current else Project(FoldPages(current, pages[..|pages| - 1]), pages[|pages| - 1])
  }

  function Flat(pages: seq<seq<Event>>): seq<Event> {
    if pages == [] then [] else Flat(pages[..|pages| - 1]) + pages[|pages| - 1]
  }

  lemma OneCut(current: Projection, a: seq<Event>, b: seq<Event>)
    requires FlagsStored(FoldAll(Start(current), a))
    ensures Project(Project(current, a), b) == Project(current, a + b)
  {
    PagesAgreeOnCore(current, a, b);
    PagesAgreeOnStatus(current, a);
  }

  lemma {:induction false} PagesFold(current: Projection, events: seq<Event>, pages: seq<seq<Event>>, b: seq<Event>)
    requires Pageable(Start(current), events) && Flat(pages) <= events
    ensures FoldPages(current, pages + [b]) == Project(current, Flat(pages) + b)
    decreases |pages|
  {
    assert (pages + [b])[..|pages|] == pages;
    if pages == [] {
      assert Flat(pages) + b == b;
    } else {
      var init, last := pages[..|pages| - 1], pages[|pages| - 1];
      assert pages == init + [last];
      PagesFold(current, events, init, last);
      assert Flat(pages) == events[..|Flat(pages)|];
      PageableStored(Start(current), events, |Flat(pages)|);
      OneCut(current, Flat(pages), b);
    }
  }

  /** However a part of the stream was folded page by page, folding one page more gives what folding all at once does. */
  ghost predicate PagesInvisible(current: Projection, events: seq<Event>) {
    forall pages: seq<seq<Event>>, b: seq<Event> :: Flat(pages) <= events ==>
      FoldPages(current, pages + [b]) == Project(current, Flat(pages) + b)
  }

  /** Pages are invisible, however many there are, if and only if the stream is pageable. */
  lemma AnyPagesExactly(current: Projection, events: seq<Event>)
    ensures PagesInvisible(current, events) <==> Pageable(Start(current), events)
  {
    if Pageable(Start(current), events) {
      forall pages: seq<seq<Event>>, b: seq<Event> | Flat(pages) <= events
        ensures FoldPages(current, pages + [b]) == Project(current, Flat(pages) + b)
      {
        PagesFold(current, events, pages, b);
      }
    }
    if PagesInvisible(current, events) {
      forall n, b: seq<Event> | 0 <= n <= |events|
        ensures Project(Project(current, events[..n]), b).status == Project(current, events[..n] + b).status
      {
        InvisibleCut(current, events, n, b);
      }
      StreamPageableExactly(current, events);
    }
  }

  lemma InvisibleCut(current: Projection, events: seq<Event>, n: nat, b: seq<Event>)
    requires PagesInvisible(current, events) && n <= |events|
    ensures Project(Project(current, events[..n]), b) == Project(current, events[..n] + b)
  {
    var pages := [events[..n]];
    TwoPages(current, events[..n], b);
    assert Flat(pages) <= events;
    assert FoldPages(current, pages + [b]) == Project(current, Flat(pages) + b);
  }

  lemma TwoPages(current: Projection, a: seq<Event>, b: seq<Event>)
    ensures Flat([a]) == a && FoldPages(current, [a] + [b]) == Project(Project(current, a), b)
  {
    assert [a][..0] == [] && Flat([a]) == [] + a;
    assert ([a] + [b])[..1] == [a];
    assert FoldPages(current, [a]) == Project(current, a);
  }

  /**
   Keeping input and authorization requests apart is not enough: a session that completes under an outstanding
   input request and then waits reads as completed when the page ends between the two.
   */
  lemma CompletionHidesOutstandingInput(current: Projection)
    requires current.status.Running? && current.failure.None?
    ensures var a := [InputRequested] + [SessionCompleted];
            && Project(Project(current, a), [SessionWaiting]).status == Completed
            && Project(current, a + [SessionWaiting]).status == WaitingInput
  {
    var f := Start(current);
    FoldOne(f, InputRequested);
    FoldSplit(f, [InputRequested], [SessionCompleted]);
    FoldOne(Step(f, InputRequested), SessionCompleted);
    FoldSplit(f, [InputRequested] + [SessionCompleted], [SessionWaiting]);
    FoldOne(Step(Step(f, InputRequested), SessionCompleted), SessionWaiting);
    FoldOne(Start(Project(current, [InputRequested] + [SessionCompleted])), SessionWaiting);
  }
}
