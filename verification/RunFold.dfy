/** What the fold of an event stream holds, said of the stream itself. */
module RunFold {
  import opened Common
  import opened RunProjection

  // ---- sums ----

  /** The total over all completed steps that report usage. */
  function TokenSum(events: seq<Event>, tokens: StepUsage -> nat): nat {
    if events == [] then 0
    else
      var last := events[|events| - 1];
      TokenSum(events[..|events| - 1], tokens) + (if last.StepCompleted? && last.usage.Some? then tokens(last.usage.value) else 0)
  }

  function CostSum(events: seq<Event>): real {
    if events == [] then 0.0
    else
      var last := events[|events| - 1];
      CostSum(events[..|events| - 1])
      + (if last.StepCompleted? && last.usage.Some? && last.usage.value.costUsd.Some? then last.usage.value.costUsd.value else 0.0)
  }

  function StepCount(events: seq<Event>): nat {
    if events == [] then 0 else StepCount(events[..|events| - 1]) + (if events[|events| - 1].StepCompleted? then 1 else 0)
  }

  function InputOf(d: StepUsage): nat { if d.inputTokens.Some? then d.inputTokens.value else 0 }
  function OutputOf(d: StepUsage): nat { if d.outputTokens.Some? then d.outputTokens.value else 0 }
  function CacheReadOf(d: StepUsage): nat { if d.cacheReadTokens.Some? then d.cacheReadTokens.value else 0 }
  function CacheWriteOf(d: StepUsage): nat { if d.cacheWriteTokens.Some? then d.cacheWriteTokens.value else 0 }

  lemma UsageNext(f: Fold, e: Event)
    ensures var u, v := f.usage, Step(f, e).usage;
            if e.StepCompleted? then
              && v.steps == u.steps + 1
              && v.inputTokens == u.inputTokens + (if e.usage.Some? then InputOf(e.usage.value) else 0)
              && v.outputTokens == u.outputTokens + (if e.usage.Some? then OutputOf(e.usage.value) else 0)
              && v.cacheReadTokens == u.cacheReadTokens + (if e.usage.Some? then CacheReadOf(e.usage.value) else 0)
              && v.cacheWriteTokens == u.cacheWriteTokens + (if e.usage.Some? then CacheWriteOf(e.usage.value) else 0)
              && v.costUsd == u.costUsd + (if e.usage.Some? && e.usage.value.costUsd.Some? then e.usage.value.costUsd.value else 0.0)
            else v == u
  {
    UsageStep(f, e);
  }

  /** Every column of the usage is its start plus what the completed steps of the stream report for it. */
  lemma {:induction false} UsageIsSum(f: Fold, events: seq<Event>)
    ensures var u, v := f.usage, FoldAll(f, events).usage;
            && v.steps == u.steps + StepCount(events)
            && v.inputTokens == u.inputTokens + TokenSum(events, InputOf)
            && v.outputTokens == u.outputTokens + TokenSum(events, OutputOf)
            && v.cacheReadTokens == u.cacheReadTokens + TokenSum(events, CacheReadOf)
            && v.cacheWriteTokens == u.cacheWriteTokens + TokenSum(events, CacheWriteOf)
            && v.costUsd == u.costUsd + CostSum(events)
  {
    if events != [] {
      UsageIsSum(f, events[..|events| - 1]);
      UsageNext(FoldAll(f, events[..|events| - 1]), events[|events| - 1]);
    }
  }

  // ---- the last event of a kind ----

  predicate Failing(e: Event) {
    e.TurnFailed? || e.SessionFailed?
  }

  /** A turn starts, or its message arrives: nothing is outstanding any more. */
  predicate Resets(e: Event) {
    e.TurnStarted? || e.MessageReceived?
  }

  /** Some event of the first kind has none of the second behind it. */
  ghost predicate Outstanding(events: seq<Event>, asks: Event -> bool, answers: Event -> bool) {
    exists k :: 0 <= k < |events| && asks(events[k]) && forall j :: k < j < |events| ==> !answers(events[j])
  }

  ghost predicate NoneOf(events: seq<Event>, p: Event -> bool) {
    forall k :: 0 <= k < |events| ==> !p(events[k])
  }

  function AsksInput(e: Event): bool { e.InputRequested? }
  function AsksAuthorization(e: Event): bool { e.AuthorizationRequired? }
  function AnswersAuthorization(e: Event): bool { Resets(e) || e.AuthorizationCompleted? }
  function Cancels(e: Event): bool { e.TurnCancelled? }

  lemma OutstandingNext(init: seq<Event>, e: Event, asks: Event -> bool, answers: Event -> bool)
    requires !(asks(e) && answers(e))
    ensures Outstanding(init + [e], asks, answers) <==> asks(e) || (!answers(e) && Outstanding(init, asks, answers))
    ensures NoneOf(init + [e], answers) <==> NoneOf(init, answers) && !answers(e)
  {
    var all := init + [e];
    assert all[|init|] == e;
    if asks(e) { assert asks(all[|init|]); }
    if !answers(e) && Outstanding(init, asks, answers) {
      var k :| 0 <= k < |init| && asks(init[k]) && forall j :: k < j < |init| ==> !answers(init[j]);
      assert asks(all[k]) && forall j :: k < j < |all| ==> !answers(all[j]);
    }
    if Outstanding(all, asks, answers) && !asks(e) {
      var k :| 0 <= k < |all| && asks(all[k]) && forall j :: k < j < |all| ==> !answers(all[j]);
      assert asks(init[k]) && forall j :: k < j < |init| ==> !answers(init[j]) by { assert forall j :: 0 <= j < |init| ==> all[j] == init[j]; }
    }
    forall k | 0 <= k < |init| ensures all[k] == init[k] {
    }
  }

  lemma FlagsNext(f: Fold, e: Event)
    ensures Step(f, e).waitingInput == (AsksInput(e) || (!Resets(e) && f.waitingInput))
    ensures Step(f, e).waitingAuthorization == (AsksAuthorization(e) || (!AnswersAuthorization(e) && f.waitingAuthorization))
    ensures Step(f, e).cancelled == (Cancels(e) || f.cancelled)
  {
  }

  /**
   The hidden flags of the fold: input is outstanding from its last request until a turn starts or a message arrives,
   authorization also until it is completed, and a turn that was cancelled once stays so.
   */
  lemma {:induction false} FlagsMeaning(f: Fold, events: seq<Event>)
    ensures var g := FoldAll(f, events);
            && (g.waitingInput <==> Outstanding(events, AsksInput, Resets) || (f.waitingInput && NoneOf(events, Resets)))
            && (g.waitingAuthorization <==>
                  || Outstanding(events, AsksAuthorization, AnswersAuthorization)
                  || (f.waitingAuthorization && NoneOf(events, AnswersAuthorization)))
            && (g.cancelled <==> f.cancelled || !NoneOf(events, Cancels))
  {
    if events != [] {
      var init, last := events[..|events| - 1], events[|events| - 1];
      FrontAndLast(events);
      FlagsMeaning(f, init);
      FlagsNext(FoldAll(f, init), last);
      OutstandingNext(init, last, AsksInput, Resets);
      OutstandingNext(init, last, AsksAuthorization, AnswersAuthorization);
      OutstandingNext(init, last, (e: Event) => false, Cancels);
    }
  }

  // ---- result and failure ----

  /** Position `k` holds the last event that satisfies `p`. */
  ghost predicate LastOf(events: seq<Event>, p: Event -> bool, k: nat) {
    k < |events| && p(events[k]) && forall j :: k < j < |events| ==> !p(events[j])
  }

  ghost predicate FirstOf(events: seq<Event>, p: Event -> bool, k: nat) {
    k < |events| && p(events[k]) && forall j :: 0 <= j < k ==> !p(events[j])
  }

  function Fails(e: Event): bool { Failing(e) }
  function Results(e: Event): bool { e.ResultCompleted? }

  /** A final answer in words: a message that is not empty and calls no tools. */
  function Answers(e: Event): bool { e.MessageCompleted? && e.message != "" && !e.toolCalls }

  /** The failure is that of the last failing event. */
  lemma {:induction false} FailureMeaning(f: Fold, events: seq<Event>)
    ensures NoneOf(events, Fails) ==> FoldAll(f, events).failure == f.failure
    ensures forall k: nat :: LastOf(events, Fails, k) ==> FoldAll(f, events).failure == Some(RunFailure(events[k].code, events[k].message))
  {
    if events != [] {
      var init, last := events[..|events| - 1], events[|events| - 1];
      FailureMeaning(f, init);
      FailureStep(FoldAll(f, init), last);
      if Fails(last) {
        assert !NoneOf(events, Fails);
        assert forall k: nat :: LastOf(events, Fails, k) ==> k == |init|;
      } else {
        assert forall k: nat :: LastOf(events, Fails, k) ==> LastOf(init, Fails, k);
      }
    }
  }

  /** The result is that of the last result event. */
  lemma {:induction false} ResultMeaning(f: Fold, events: seq<Event>)
    ensures forall k: nat :: LastOf(events, Results, k) ==> FoldAll(f, events).result == Some(JsonResult(events[k].value))
  {
    if events != [] {
      var init, last := events[..|events| - 1], events[|events| - 1];
      ResultMeaning(f, init);
      ResultStep(FoldAll(f, init), last);
      if Results(last) {
        assert forall k: nat :: LastOf(events, Results, k) ==> k == |init|;
      } else {
        assert forall k: nat :: LastOf(events, Results, k) ==> LastOf(init, Results, k);
      }
    }
  }

  /** Without a result event, a result that was there stays, or else the first final answer counts. */
  lemma {:induction false} AnswerMeaning(f: Fold, events: seq<Event>)
    requires NoneOf(events, Results)
    ensures f.result.Some? ==> FoldAll(f, events).result == f.result
    ensures f.result.None? && NoneOf(events, Answers) ==> FoldAll(f, events).result == None
    ensures f.result.None? ==> forall k: nat :: FirstOf(events, Answers, k) ==> FoldAll(f, events).result == Some(TextResult(events[k].message))
  {
    if events != [] {
      var init, last := events[..|events| - 1], events[|events| - 1];
      assert forall k :: 0 <= k < |init| ==> events[k] == init[k];
      AnswerMeaning(f, init);
      ResultStep(FoldAll(f, init), last);
      assert !Results(events[|init|]);
      assert forall k: nat :: FirstOf(events, Answers, k) && k < |init| ==> FirstOf(init, Answers, k);
      assert FirstOf(events, Answers, |init|) ==> NoneOf(init, Answers);
    }
  }

  // ---- status ----

  /** What the last event makes of the status, given what is outstanding, cancelled or failed before it. */
  lemma StatusAfter(f: Fold, e: Event)
    ensures var status, dead := Step(f, e).status, f.cancelled || f.failure.Some?;
            && (e.TurnStarted? || e.MessageReceived? ==> status == if dead then f.status else Running)
            && (e.InputRequested? ==> status == WaitingInput) && (e.AuthorizationRequired? ==> status == WaitingAuthorization)
            && (e.AuthorizationCompleted? ==> status == Running) && (e.TurnCancelled? ==> status == Cancelled)
            && (Failing(e) ==> status == Failed)
            && (e.SessionCompleted? ==> status == if dead then f.status else Completed)
            && (e.SessionWaiting? && dead ==> status == if f.cancelled then Cancelled else Failed)
            && (e.SessionWaiting? && !dead ==>
                  status == if f.waitingInput then WaitingInput else if f.waitingAuthorization then WaitingAuthorization else Completed)
            && (e.ResultCompleted? || e.MessageCompleted? || e.StepCompleted? || e.OtherEvent? ==> status == f.status)
  {
  }

  /**
   What a run that just began shows once its session waits, said of the stream alone: cancelled if a turn was cancelled,
   else failed if anything failed, else what is outstanding, else completed.
   */
  lemma WaitingSessionMeaning(usage: Usage, events: seq<Event>)
    ensures var status := FoldAll(Start(Projection(0, None, None, Running, usage)), events + [SessionWaiting]).status;
            status ==
            if exists k :: 0 <= k < |events| && events[k].TurnCancelled? then Cancelled
            else if exists k :: 0 <= k < |events| && (events[k].TurnFailed? || events[k].SessionFailed?) then Failed
            else if Outstanding(events, AsksInput, Resets) then WaitingInput
            else if Outstanding(events, AsksAuthorization, AnswersAuthorization) then WaitingAuthorization
            else Completed
  {
    var f := Start(Projection(0, None, None, Running, usage));
    var g := FoldAll(f, events);
    assert (events + [SessionWaiting])[..|events|] == events;
    FlagsMeaning(f, events);
    FailureMeaning(f, events);
    StatusAfter(g, SessionWaiting);
    assert NoneOf(events, Cancels) <==> !exists k :: 0 <= k < |events| && events[k].TurnCancelled?;
    if !NoneOf(events, Fails) { var k := LastFailing(events); }
  }

  lemma {:induction false} LastFailing(events: seq<Event>) returns (k: nat)
    requires !NoneOf(events, Fails)
    ensures LastOf(events, Fails, k)
  {
    var n := |events| - 1;
    if Fails(events[n]) {
      k := n;
    } else {
      k := LastFailing(events[..n]);
    }
  }
}
