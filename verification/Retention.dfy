/** Selecting old, complete run trees for archiving. */
module Retention {
  import opened Common
  import opened Sorting
  import opened Counting

  /** No completion time, an invalid date, or a date. */
  datatype Completion = Missing | Invalid | At(time: Time)

  datatype Run = Run(id: string, rootRunId: string, status: string, completedAt: Completion)

  datatype Policy = Policy(maxRuns: int, olderThanMs: int, protectedIds: set<string>)

  datatype PolicyError = BadMaxRuns | BadAge

  function Root(run: Run): string {
    if run.rootRunId != "" then run.rootRunId else run.id
  }

  predicate Terminal(run: Run) {
    run.status == "completed" || run.status == "failed" || run.status == "cancelled"
  }

  // ---- trees ----

  /** The runs of a root, in their given order. */
  function Tree(runs: seq<Run>, root: string): seq<Run> {
    if runs == [] then []
    else
      var last := runs[|runs| - 1];
      Tree(runs[..|runs| - 1], root) + (if Root(last) == root then [last] else [])
  }

  /** The roots, in the order of their first runs. */
  function Roots(runs: seq<Run>): seq<string> {
    if runs == [] then []
    else
      var before, root := Roots(runs[..|runs| - 1]), Root(runs[|runs| - 1]);
      if root in before then before else before + [root]
  }

  predicate Active(tree: seq<Run>) {
    exists i :: 0 <= i < |tree| && !Terminal(tree[i])
  }

  predicate Protected(root: string, tree: seq<Run>, ids: set<string>) {
    root in ids || exists i :: 0 <= i < |tree| && tree[i].id in ids
  }

  /** The later of two completions: never is later than any date, and an invalid date makes the result invalid. */
  function Later(a: Completion, b: Completion): Completion {
    if a.Invalid? || b.Invalid? then Invalid
    else if a.Missing? || b.Missing? then Missing
    else if a.time >= b.time then a else b
  }

  function Newest(tree: seq<Run>): Completion
    requires tree != []
  {
    if |tree| == 1 then tree[0].completedAt else Later(Newest(tree[..|tree| - 1]), tree[|tree| - 1].completedAt)
  }

  /** The cutoff is an invalid date when it lies outside the range of dates. */
  function Cutoff(now: Time, policy: Policy): Option<Time> {
    var t := now - policy.olderThanMs;
    if InDateRange(t) then Some(t) else None
  }

  /** A comparison with an invalid date is never true. */
  predicate TooRecent(newest: Completion, cutoff: Option<Time>) {
    cutoff.Some? && (newest.Missing? || (newest.At? && newest.time > cutoff.value))
  }

  predicate Eligible(root: string, tree: seq<Run>, ids: set<string>, cutoff: Option<Time>)
    requires tree != []
  {
    !Active(tree) && !Protected(root, tree, ids) && !TooRecent(Newest(tree), cutoff)
  }

  // ---- the selection ----

  datatype Entry = Entry(completedAt: Completion, root: string, runs: seq<Run>)

  /**
   Earlier completion first, then the root ids' own order. The difference of two completions is not a number if one of
   them is invalid, and then the root ids alone decide.
   */
  predicate Before(a: Entry, b: Entry, le: (string, string) -> bool) {
    if a.completedAt == b.completedAt || a.completedAt.Invalid? || b.completedAt.Invalid? then le(a.root, b.root)
    else b.completedAt.Missing? || (a.completedAt.At? && a.completedAt.time < b.completedAt.time)
  }

  function ByCompletion(le: (string, string) -> bool): (Entry, Entry) -> bool {
    (a, b) => Before(a, b, le)
  }

  lemma {:induction false} RootsMeaning(runs: seq<Run>)
    ensures NoDuplicates(Roots(runs))
    ensures forall root :: root in Roots(runs) <==> Tree(runs, root) != []
    ensures forall run :: run in runs ==> Root(run) in Roots(runs)
  {
    if runs != [] {
      RootsMeaning(runs[..|runs| - 1]);
      assert runs == runs[..|runs| - 1] + [runs[|runs| - 1]];
    }
  }

  /** The eligible trees among the given roots. */
  function Entries(runs: seq<Run>, roots: seq<string>, ids: set<string>, cutoff: Option<Time>): seq<Entry>
    requires forall i :: 0 <= i < |roots| ==> Tree(runs, roots[i]) != []
  {
    if roots == [] then []
    else
      var root := roots[|roots| - 1];
      var tree := Tree(runs, root);
      Entries(runs, roots[..|roots| - 1], ids, cutoff)
      + (if Eligible(root, tree, ids, cutoff) then [Entry(Newest(tree), root, tree)] else [])
  }

  function EligibleTrees(runs: seq<Run>, ids: set<string>, cutoff: Option<Time>): seq<Entry> {
    RootsMeaning(runs);
    Entries(runs, Roots(runs), ids, cutoff)
  }

  function Picked(runs: seq<Run>, now: Time, policy: Policy, le: (string, string) -> bool): seq<Entry>
    requires policy.maxRuns >= 0
  {
    var sorted := SortBy(EligibleTrees(runs, policy.protectedIds, Cutoff(now, policy)), ByCompletion(le));
    if |sorted| <= policy.maxRuns then sorted else sorted[..policy.maxRuns]
  }

  function AllRuns(entries: seq<Entry>): seq<Run> {
    if entries == [] then [] else AllRuns(entries[..|entries| - 1]) + entries[|entries| - 1].runs
  }

  function RootIds(entries: seq<Entry>): seq<string> {
    seq(|entries|, i requires 0 <= i < |entries| => entries[i].root)
  }

  datatype Selection = Selection(cutoff: Option<Time>, candidates: seq<Run>, candidateRoots: seq<string>,
                                 activeRoots: seq<string>, protectedRoots: seq<string>)

  predicate GoodPolicy(policy: Policy) {
    1 <= policy.maxRuns <= 10_000 && 60_000 <= policy.olderThanMs <= HIGHEST_SAFE_INTEGER
  }

  /** The roots of `roots` whose trees are active, or complete but protected. */
  function Skipped(runs: seq<Run>, roots: seq<string>, ids: set<string>, active: bool): seq<string> {
    if roots == [] then []
    else
      var root := roots[|roots| - 1];
      var tree := Tree(runs, root);
      Skipped(runs, roots[..|roots| - 1], ids, active)
      + (if Active(tree) == active && (active || Protected(root, tree, ids)) then [root] else [])
  }

  // ---- the source's loops ----

  /** The map holds the trees of the roots seen so far. */
  ghost predicate Grouped(runs: seq<Run>, order: seq<string>, byRoot: map<string, seq<Run>>) {
    && order == Roots(runs)
    && (forall root :: root in order <==> root in byRoot)
    && (forall root :: root in byRoot ==> byRoot[root] == Tree(runs, root) && byRoot[root] != [])
  }

  lemma GroupedNext(runs: seq<Run>, order: seq<string>, byRoot: map<string, seq<Run>>, run: Run)
    requires Grouped(runs, order, byRoot)
    ensures Grouped(runs + [run], if Root(run) in byRoot then order else order + [Root(run)],
                    byRoot[Root(run) := (if Root(run) in byRoot then byRoot[Root(run)] else []) + [run]])
  {
    var root, group := Root(run), if Root(run) in byRoot then byRoot[Root(run)] else [];
    var next := byRoot[root := group + [run]];
    RootsMeaning(runs);
    RootsNext(runs, run);
    assert group == Tree(runs, root);
    forall other | other in next ensures next[other] == Tree(runs + [run], other) && next[other] != [] {
      TreeNext(runs, run, other);
    }
  }

  lemma TreeNext(runs: seq<Run>, run: Run, root: string)
    ensures Tree(runs + [run], root) == if Root(run) == root then Tree(runs, root) + [run] else Tree(runs, root)
  {
    assert (runs + [run])[..|runs|] == runs;
  }

  lemma RootsNext(runs: seq<Run>, run: Run)
    ensures Roots(runs + [run]) == if Root(run) in Roots(runs) then Roots(runs) else Roots(runs) + [Root(run)]
  {
    assert (runs + [run])[..|runs|] == runs;
  }

  method GroupByRoot(runs: seq<Run>) returns (order: seq<string>, byRoot: map<string, seq<Run>>)
    ensures Grouped(runs, order, byRoot)
  {
    order, byRoot := [], map[];
    for i := 0 to |runs|
      invariant Grouped(runs[..i], order, byRoot)
    {
      var run := runs[i];
      GroupedNext(runs[..i], order, byRoot, run);
      Longer(runs, i);
      var root := Root(run);
      order, byRoot := if root in byRoot then order else order + [root],
                       byRoot[root := (if root in byRoot then byRoot[root] else []) + [run]];
    }
    assert runs[..|runs|] == runs;
  }

  lemma Longer(runs: seq<Run>, i: nat)
    requires i < |runs|
    ensures runs[..i + 1] == runs[..i] + [runs[i]]
  {
  }

  method NewestOf(tree: seq<Run>) returns (newest: Completion)
    requires tree != []
    ensures newest == Newest(tree)
  {
    newest := tree[0].completedAt;
    for i := 1 to |tree|
      invariant newest == Newest(tree[..i])
    {
      assert tree[..i + 1][..i] == tree[..i];
      newest := Later(newest, tree[i].completedAt);
    }
    assert tree[..|tree|] == tree;
  }

  lemma StandingNext(runs: seq<Run>, order: seq<string>, k: nat, ids: set<string>, cutoff: Option<Time>)
    requires k < |order| && forall i :: 0 <= i < |order| ==> Tree(runs, order[i]) != []
    ensures var root, tree := order[k], Tree(runs, order[k]);
            && Skipped(runs, order[..k + 1], ids, true) == Skipped(runs, order[..k], ids, true) + (if Active(tree) then [root] else [])
            && Skipped(runs, order[..k + 1], ids, false)
               == Skipped(runs, order[..k], ids, false) + (if !Active(tree) && Protected(root, tree, ids) then [root] else [])
            && Entries(runs, order[..k + 1], ids, cutoff)
               == Entries(runs, order[..k], ids, cutoff) + (if Eligible(root, tree, ids, cutoff) then [Entry(Newest(tree), root, tree)] else [])
  {
    assert order[..k + 1][..k] == order[..k];
  }

  /** Sorts the trees into active, protected and eligible ones; the others are too recent. */
  method SortOut(runs: seq<Run>, order: seq<string>, byRoot: map<string, seq<Run>>, ids: set<string>, cutoff: Option<Time>)
    returns (active: seq<string>, guarded: seq<string>, eligible: seq<Entry>)
    requires Grouped(runs, order, byRoot)
    ensures forall i :: 0 <= i < |order| ==> Tree(runs, order[i]) != []
    ensures active == Skipped(runs, order, ids, true) && guarded == Skipped(runs, order, ids, false)
    ensures eligible == Entries(runs, order, ids, cutoff)
  {
    active, guarded, eligible := [], [], [];
    assert forall i :: 0 <= i < |order| ==> order[i] in byRoot;
    for k := 0 to |order|
      invariant eligible == Entries(runs, order[..k], ids, cutoff)
      invariant active == Skipped(runs, order[..k], ids, true) && guarded == Skipped(runs, order[..k], ids, false)
    {
      StandingNext(runs, order, k, ids, cutoff);
      var root, tree := order[k], byRoot[order[k]];
      if Active(tree) {
        active := active + [root];
      } else if Protected(root, tree, ids) {
        guarded := guarded + [root];
      } else {
        var newest := NewestOf(tree);
        if !TooRecent(newest, cutoff) { eligible := eligible + [Entry(newest, root, tree)]; }
      }
    }
    assert order[..|order|] == order;
  }

  method SelectWorkflowRetentionCandidates(runs: seq<Run>, now: Time, policy: Policy, le: (string, string) -> bool)
    returns (r: Result<Selection, PolicyError>)
    ensures r.Ok? <==> GoodPolicy(policy)
    ensures r.Ok? <==> 1 <= policy.maxRuns <= 10_000 && 60_000 <= policy.olderThanMs <= 9_007_199_254_740_991
    ensures r.Ok? ==> SelectionByColumn(runs, now, policy, le, r.value)
    ensures r.Ok? ==>
              var picked := Picked(runs, now, policy, le);
              r.value == Selection(Cutoff(now, policy), AllRuns(picked), RootIds(picked),
                                   SortBy(Skipped(runs, Roots(runs), policy.protectedIds, true), le),
                                   SortBy(Skipped(runs, Roots(runs), policy.protectedIds, false), le))
  {
    if !(1 <= policy.maxRuns <= 10_000) { return Err(BadMaxRuns); }
    if !(60_000 <= policy.olderThanMs <= HIGHEST_SAFE_INTEGER) { return Err(BadAge); }
    SelectionMeaning(runs, now, policy, le);
    var cutoff := Cutoff(now, policy);
    var order, byRoot := GroupByRoot(runs);
    var active, guarded, eligible := SortOut(runs, order, byRoot, policy.protectedIds, cutoff);
    var sorted := SortBy(eligible, ByCompletion(le));
    var selected := if |sorted| <= policy.maxRuns then sorted else sorted[..policy.maxRuns];
    r := Ok(Selection(cutoff, AllRuns(selected), RootIds(selected), SortBy(active, le), SortBy(guarded, le)));
  }

  // ---- the selection, column by column ----

  /** The run is in the tree of this root: the root it names, or without a name itself. */
  predicate InTree(run: Run, root: string) {
    if run.rootRunId == "" then run.id == root else run.rootRunId == root
  }

  ghost predicate HasActive(runs: seq<Run>, root: string) {
    exists run <- runs :: InTree(run, root) && run.status != "completed" && run.status != "failed" && run.status != "cancelled"
  }

  ghost predicate HasProtected(runs: seq<Run>, root: string, ids: set<string>) {
    root in ids || exists run <- runs :: InTree(run, root) && run.id in ids
  }

  /** All runs of the tree were completed by the limit; a limit or a completion that is no date keeps nothing. */
  ghost predicate OldEnough(runs: seq<Run>, root: string, limit: int) {
    || !(-8_640_000_000_000_000 <= limit <= 8_640_000_000_000_000)
    || (exists run <- runs :: InTree(run, root) && run.completedAt.Invalid?)
    || (forall run <- runs :: InTree(run, root) ==> run.completedAt.At? && run.completedAt.time <= limit)
  }

  ghost predicate IsRoot(runs: seq<Run>, root: string) {
    exists run <- runs :: InTree(run, root)
  }

  ghost predicate Ripe(runs: seq<Run>, root: string, now: Time, policy: Policy) {
    && IsRoot(runs, root) && !HasActive(runs, root) && !HasProtected(runs, root, policy.protectedIds)
    && OldEnough(runs, root, now - policy.olderThanMs)
  }

  /** The selected roots are ripe, each once, as many as allowed; the candidates are all runs of their trees. */
  ghost predicate SelectsByColumn(runs: seq<Run>, now: Time, policy: Policy, roots: seq<string>, candidates: seq<Run>) {
    && NoDuplicates(roots) && |roots| <= policy.maxRuns
    && (forall root <- roots :: Ripe(runs, root, now, policy))
    && (|roots| < policy.maxRuns ==> forall root :: Ripe(runs, root, now, policy) ==> root in roots)
    && (forall run :: multiset(candidates)[run] == if exists root <- roots :: InTree(run, root) then multiset(runs)[run] else 0)
  }

  ghost predicate SkipsByColumn(runs: seq<Run>, ids: set<string>, active: seq<string>, guarded: seq<string>) {
    && (forall root :: root in active <==> HasActive(runs, root))
    && (forall root :: root in guarded <==> IsRoot(runs, root) && !HasActive(runs, root) && HasProtected(runs, root, ids))
  }

  /** What the selection reports, in terms of the columns of the runs. */
  ghost predicate SelectionByColumn(runs: seq<Run>, now: Time, policy: Policy, le: (string, string) -> bool, s: Selection) {
    && (if InDateRange(now - policy.olderThanMs) then s.cutoff.Some? && s.cutoff.value == now - policy.olderThanMs else s.cutoff.None?)
    && SelectsByColumn(runs, now, policy, s.candidateRoots, s.candidates)
    && SkipsByColumn(runs, policy.protectedIds, s.activeRoots, s.protectedRoots)
    && (TotalPreorder(le) ==> Sorted(s.activeRoots, le) && Sorted(s.protectedRoots, le))
  }

  lemma InTreeMeaning(runs: seq<Run>, root: string, run: Run)
    ensures Root(run) == root <==> InTree(run, root)
    ensures run in Tree(runs, root) <==> run in runs && InTree(run, root)
  {
    TreeMember(runs, root, run);
  }

  lemma StandingByColumn(runs: seq<Run>, root: string, ids: set<string>)
    ensures Tree(runs, root) != [] <==> IsRoot(runs, root)
    ensures Active(Tree(runs, root)) <==> HasActive(runs, root)
    ensures Protected(root, Tree(runs, root), ids) <==> HasProtected(runs, root, ids)
  {
    var tree := Tree(runs, root);
    forall run ensures run in tree <==> run in runs && InTree(run, root) { InTreeMeaning(runs, root, run); }
    assert tree != [] <==> exists run :: run in tree by { if tree != [] { assert tree[0] in tree; } }
    assert Active(tree) <==> exists run <- tree :: !Terminal(run);
    assert Protected(root, tree, ids) <==> root in ids || exists run <- tree :: run.id in ids;
  }

  lemma AgeByColumn(runs: seq<Run>, root: string, now: Time, policy: Policy)
    requires Tree(runs, root) != []
    ensures !TooRecent(Newest(Tree(runs, root)), Cutoff(now, policy)) <==> OldEnough(runs, root, now - policy.olderThanMs)
  {
    var tree, limit := Tree(runs, root), now - policy.olderThanMs;
    NewestMeaning(tree);
    forall run ensures run in tree <==> run in runs && InTree(run, root) { InTreeMeaning(runs, root, run); }
    assert ValidTree(tree) <==> !exists run <- tree :: run.completedAt.Invalid?;
    AgeOfTree(tree, limit);
  }

  lemma AgeOfTree(tree: seq<Run>, limit: int)
    requires tree != []
    ensures (forall run <- tree :: run.completedAt.At? && run.completedAt.time <= limit) <==> Newest(tree).At? && Newest(tree).time <= limit
  {
    NewestMeaning(tree);
    forall run <- tree ensures Newest(tree).At? ==> run.completedAt.At? && run.completedAt.time <= Newest(tree).time {
      var i :| 0 <= i < |tree| && tree[i] == run;
    }
    var i :| 0 <= i < |tree| && tree[i].completedAt == Newest(tree);
    assert tree[i] in tree;
  }

  lemma RipeMeaning(runs: seq<Run>, root: string, now: Time, policy: Policy)
    ensures EligibleRoot(runs, root, policy.protectedIds, Cutoff(now, policy)) <==> Ripe(runs, root, now, policy)
  {
    StandingByColumn(runs, root, policy.protectedIds);
    if Tree(runs, root) != [] { AgeByColumn(runs, root, now, policy); }
  }

  lemma SkippedByColumn(runs: seq<Run>, ids: set<string>, root: string)
    ensures root in Skipped(runs, Roots(runs), ids, true) <==> HasActive(runs, root)
    ensures root in Skipped(runs, Roots(runs), ids, false) <==> IsRoot(runs, root) && !HasActive(runs, root) && HasProtected(runs, root, ids)
  {
    RootsMeaning(runs);
    SkippedMeaning(runs, Roots(runs), ids, true);
    SkippedMeaning(runs, Roots(runs), ids, false);
    StandingByColumn(runs, root, ids);
  }

  lemma RootOfPicked(entries: seq<Entry>, root: string)
    ensures root in RootIds(entries) <==> exists e :: e in entries && e.root == root
  {
    if root in RootIds(entries) {
      var k :| 0 <= k < |entries| && RootIds(entries)[k] == root;
      assert entries[k] in entries;
    }
    if e :| e in entries && e.root == root {
      var k :| 0 <= k < |entries| && entries[k] == e;
      assert RootIds(entries)[k] == root;
    }
  }

  /** Picked roots are ripe, and all ripe ones are picked if there is room left. */
  lemma PickedRoots(runs: seq<Run>, now: Time, policy: Policy, le: (string, string) -> bool, root: string)
    requires policy.maxRuns >= 0
    ensures var picked := Picked(runs, now, policy, le);
            && (root in RootIds(picked) ==> Ripe(runs, root, now, policy))
            && (|picked| < policy.maxRuns && Ripe(runs, root, now, policy) ==> root in RootIds(picked))
  {
    var picked := Picked(runs, now, policy, le);
    PickedTrees(runs, now, policy, le);
    SortedTreesMeaning(runs, now, policy, le);
    RipeMeaning(runs, root, now, policy);
    RootOfPicked(picked, root);
    if Ripe(runs, root, now, policy) && |picked| < policy.maxRuns {
      assert picked == SortedTrees(runs, now, policy, le);
      assert Entry(Newest(Tree(runs, root)), root, Tree(runs, root)) in picked;
    }
  }

  lemma CandidateCounts(runs: seq<Run>, now: Time, policy: Policy, le: (string, string) -> bool, run: Run)
    requires policy.maxRuns >= 0
    ensures var picked := Picked(runs, now, policy, le);
            multiset(AllRuns(picked))[run] == if exists root <- RootIds(picked) :: InTree(run, root) then multiset(runs)[run] else 0
  {
    WholeTrees(runs, now, policy, le, run);
    InTreeMeaning(runs, Root(run), run);
  }

  lemma SelectsMeaning(runs: seq<Run>, now: Time, policy: Policy, le: (string, string) -> bool)
    requires policy.maxRuns >= 0
    ensures var picked := Picked(runs, now, policy, le); SelectsByColumn(runs, now, policy, RootIds(picked), AllRuns(picked))
  {
    var picked := Picked(runs, now, policy, le);
    PickedTrees(runs, now, policy, le);
    forall root
      ensures root in RootIds(picked) ==> Ripe(runs, root, now, policy)
      ensures |picked| < policy.maxRuns && Ripe(runs, root, now, policy) ==> root in RootIds(picked)
    {
      PickedRoots(runs, now, policy, le, root);
    }
    forall run ensures multiset(AllRuns(picked))[run] == if exists root <- RootIds(picked) :: InTree(run, root) then multiset(runs)[run] else 0 {
      CandidateCounts(runs, now, policy, le, run);
    }
  }

  lemma SkipsMeaning(runs: seq<Run>, ids: set<string>, le: (string, string) -> bool)
    ensures SkipsByColumn(runs, ids, SortBy(Skipped(runs, Roots(runs), ids, true), le), SortBy(Skipped(runs, Roots(runs), ids, false), le))
  {
    SortPermutes(Skipped(runs, Roots(runs), ids, true), le);
    SortPermutes(Skipped(runs, Roots(runs), ids, false), le);
    forall root
      ensures root in Skipped(runs, Roots(runs), ids, true) <==> HasActive(runs, root)
      ensures root in Skipped(runs, Roots(runs), ids, false) <==> IsRoot(runs, root) && !HasActive(runs, root) && HasProtected(runs, root, ids)
    {
      SkippedByColumn(runs, ids, root);
    }
  }

  lemma SelectionMeaning(runs: seq<Run>, now: Time, policy: Policy, le: (string, string) -> bool)
    requires policy.maxRuns >= 0
    ensures var picked, ids := Picked(runs, now, policy, le), policy.protectedIds;
            SelectionByColumn(runs, now, policy, le, Selection(Cutoff(now, policy), AllRuns(picked), RootIds(picked),
              SortBy(Skipped(runs, Roots(runs), ids, true), le), SortBy(Skipped(runs, Roots(runs), ids, false), le)))
  {
    SelectsMeaning(runs, now, policy, le);
    SkipsMeaning(runs, policy.protectedIds, le);
    if TotalPreorder(le) {
      SortSorts(Skipped(runs, Roots(runs), policy.protectedIds, true), le);
      SortSorts(Skipped(runs, Roots(runs), policy.protectedIds, false), le);
    }
  }

  // ---- what is selected ----

  ghost predicate EligibleRoot(runs: seq<Run>, root: string, ids: set<string>, cutoff: Option<Time>) {
    Tree(runs, root) != [] && Eligible(root, Tree(runs, root), ids, cutoff)
  }

  ghost predicate IsTree(e: Entry, runs: seq<Run>) {
    e.runs == Tree(runs, e.root) && e.runs != [] && e.completedAt == Newest(e.runs)
  }

  lemma {:induction false} EntriesMeaning(runs: seq<Run>, roots: seq<string>, ids: set<string>, cutoff: Option<Time>)
    requires NoDuplicates(roots) && forall i :: 0 <= i < |roots| ==> Tree(runs, roots[i]) != []
    ensures var entries := Entries(runs, roots, ids, cutoff);
            && (forall e :: e in entries ==> IsTree(e, runs) && e.root in roots && EligibleRoot(runs, e.root, ids, cutoff))
            && (forall root :: root in roots && EligibleRoot(runs, root, ids, cutoff) ==>
                  Entry(Newest(Tree(runs, root)), root, Tree(runs, root)) in entries)
            && NoDuplicates(RootIds(entries))
  {
    if roots != [] {
      var init, root := roots[..|roots| - 1], roots[|roots| - 1];
      EntriesMeaning(runs, init, ids, cutoff);
      assert roots == init + [root];
      var before, entries := Entries(runs, init, ids, cutoff), Entries(runs, roots, ids, cutoff);
      forall i, j | 0 <= i < j < |entries| ensures RootIds(entries)[i] != RootIds(entries)[j] {
        if j < |before| {
          assert RootIds(before)[i] != RootIds(before)[j];
        } else {
          assert before[i] in before && before[i].root in init;
        }
      }
    }
  }

  /** Earlier completion first, missing ones last, the rest by root; an invalid completion leaves just the roots to compare. */
  lemma BeforeMeaning(a: Entry, b: Entry, le: (string, string) -> bool)
    ensures a.completedAt.Invalid? || b.completedAt.Invalid? ==> (Before(a, b, le) <==> le(a.root, b.root))
    ensures !a.completedAt.Invalid? && !b.completedAt.Invalid? ==> (Before(a, b, le) <==> BeforeValid(a, b, le))
  {
  }

  /** Where no completion is invalid, entries are compared as if an invalid one were missing. */
  predicate BeforeValid(a: Entry, b: Entry, le: (string, string) -> bool) {
    if a.completedAt.At? && b.completedAt.At? && a.completedAt != b.completedAt then a.completedAt.time < b.completedAt.time
    else if a.completedAt.At? != b.completedAt.At? then a.completedAt.At?
    else le(a.root, b.root)
  }

  lemma ByValidIsPreorder(le: (string, string) -> bool)
    requires TotalPreorder(le)
    ensures TotalPreorder((a, b) => BeforeValid(a, b, le))
  {
  }

  function SortedTrees(runs: seq<Run>, now: Time, policy: Policy, le: (string, string) -> bool): seq<Entry> {
    SortBy(EligibleTrees(runs, policy.protectedIds, Cutoff(now, policy)), ByCompletion(le))
  }

  lemma EligibleTreesMeaning(runs: seq<Run>, ids: set<string>, cutoff: Option<Time>)
    ensures var all := EligibleTrees(runs, ids, cutoff);
            && (forall e :: e in all <==> IsTree(e, runs) && EligibleRoot(runs, e.root, ids, cutoff))
            && NoDuplicates(RootIds(all))
  {
    var all := EligibleTrees(runs, ids, cutoff);
    RootsMeaning(runs);
    EntriesMeaning(runs, Roots(runs), ids, cutoff);
    forall e ensures e in all <==> IsTree(e, runs) && EligibleRoot(runs, e.root, ids, cutoff) {
      if IsTree(e, runs) && EligibleRoot(runs, e.root, ids, cutoff) {
        assert e == Entry(Newest(Tree(runs, e.root)), e.root, Tree(runs, e.root));
      }
    }
  }

  lemma SortedTreesMeaning(runs: seq<Run>, now: Time, policy: Policy, le: (string, string) -> bool)
    ensures var sorted, ids, cutoff := SortedTrees(runs, now, policy, le), policy.protectedIds, Cutoff(now, policy);
            && (forall e :: e in sorted <==> IsTree(e, runs) && EligibleRoot(runs, e.root, ids, cutoff))
            && |sorted| == |EligibleTrees(runs, ids, cutoff)|
            && NoDuplicates(RootIds(sorted))
  {
    var ids, cutoff := policy.protectedIds, Cutoff(now, policy);
    var all := EligibleTrees(runs, ids, cutoff);
    EligibleTreesMeaning(runs, ids, cutoff);
    SortPermutes(all, ByCompletion(le));
    RootsStayDistinct(all, SortedTrees(runs, now, policy, le));
  }

  /** A tree whose runs are all done and unprotected. */
  ghost predicate DoneTree(runs: seq<Run>, root: string, ids: set<string>) {
    Tree(runs, root) != [] && !Active(Tree(runs, root)) && !Protected(root, Tree(runs, root), ids)
  }

  ghost predicate ValidTree(tree: seq<Run>) {
    forall i :: 0 <= i < |tree| ==> !tree[i].completedAt.Invalid?
  }

  /** No run of a done, unprotected tree has an invalid completion date. */
  ghost predicate DatesValid(runs: seq<Run>, ids: set<string>) {
    forall root :: DoneTree(runs, root, ids) ==> ValidTree(Tree(runs, root))
  }

  lemma ValidTreesSorted(runs: seq<Run>, now: Time, policy: Policy, le: (string, string) -> bool)
    requires TotalPreorder(le) && DatesValid(runs, policy.protectedIds)
    ensures Sorted(SortedTrees(runs, now, policy, le), (a, b) => BeforeValid(a, b, le))
    ensures forall e :: e in SortedTrees(runs, now, policy, le) ==> !e.completedAt.Invalid?
  {
    var ids, cutoff := policy.protectedIds, Cutoff(now, policy);
    var all := EligibleTrees(runs, ids, cutoff);
    var valid := (a, b) => BeforeValid(a, b, le);
    EligibleTreesMeaning(runs, ids, cutoff);
    forall e | e in all ensures !e.completedAt.Invalid? {
      assert DoneTree(runs, e.root, ids);
      NewestMeaning(e.runs);
    }
    SortAlike(all, ByCompletion(le), valid);
    ByValidIsPreorder(le);
    SortSorts(all, valid);
  }

  lemma PickedIsPrefix(runs: seq<Run>, now: Time, policy: Policy, le: (string, string) -> bool)
    requires policy.maxRuns >= 0
    ensures var picked, sorted := Picked(runs, now, policy, le), SortedTrees(runs, now, policy, le);
            && |picked| == (if |sorted| <= policy.maxRuns then |sorted| else policy.maxRuns)
            && forall i :: 0 <= i < |picked| ==> picked[i] == sorted[i]
  {
  }

  /** Which trees were picked: eligible ones, as many as allowed, each once. */
  lemma PickedTrees(runs: seq<Run>, now: Time, policy: Policy, le: (string, string) -> bool)
    requires policy.maxRuns >= 0
    ensures var picked, all := Picked(runs, now, policy, le), EligibleTrees(runs, policy.protectedIds, Cutoff(now, policy));
            && (forall e :: e in picked ==> IsTree(e, runs) && EligibleRoot(runs, e.root, policy.protectedIds, Cutoff(now, policy)))
            && |picked| == (if |all| <= policy.maxRuns then |all| else policy.maxRuns)
            && NoDuplicates(RootIds(picked))
  {
    var picked, sorted := Picked(runs, now, policy, le), SortedTrees(runs, now, policy, le);
    SortedTreesMeaning(runs, now, policy, le);
    PickedIsPrefix(runs, now, policy, le);
    forall e | e in picked ensures e in sorted {
      var i :| 0 <= i < |picked| && picked[i] == e;
      assert sorted[i] == e;
    }
    assert forall i :: 0 <= i < |picked| ==> RootIds(picked)[i] == RootIds(sorted)[i];
  }

  lemma RootsStayDistinct(a: seq<Entry>, b: seq<Entry>)
    requires multiset(a) == multiset(b) && NoDuplicates(RootIds(a))
    ensures NoDuplicates(RootIds(b))
  {
    forall i, j | 0 <= i < j < |a| ensures a[i] != a[j] {
      assert RootIds(a)[i] != RootIds(a)[j];
    }
    DistinctPermuted(a, b);
    forall i, j | 0 <= i < j < |b| ensures RootIds(b)[i] != RootIds(b)[j] {
      PermutationsShareElements(a, b, b[i]);
      PermutationsShareElements(a, b, b[j]);
      var x :| 0 <= x < |a| && a[x] == b[i];
      var y :| 0 <= y < |a| && a[y] == b[j];
      assert RootIds(a)[x] != RootIds(a)[y];
    }
  }

  /** No eligible tree left out comes strictly before a selected one, as long as done trees have valid dates. */
  lemma OldestFirst(runs: seq<Run>, now: Time, policy: Policy, le: (string, string) -> bool, e: Entry, left: Entry)
    requires TotalPreorder(le) && policy.maxRuns >= 0 && DatesValid(runs, policy.protectedIds)
    requires e in Picked(runs, now, policy, le)
    requires IsTree(left, runs) && EligibleRoot(runs, left.root, policy.protectedIds, Cutoff(now, policy))
    requires left !in Picked(runs, now, policy, le)
    ensures left.completedAt.At? ==> e.completedAt.At? && e.completedAt.time <= left.completedAt.time
    ensures left.completedAt == e.completedAt ==> le(e.root, left.root)
    ensures !left.completedAt.Invalid? && !e.completedAt.Invalid?
  {
    var picked, sorted := Picked(runs, now, policy, le), SortedTrees(runs, now, policy, le);
    SortedTreesMeaning(runs, now, policy, le);
    ValidTreesSorted(runs, now, policy, le);
    PickedIsPrefix(runs, now, policy, le);
    assert left in sorted;
    var i :| 0 <= i < |sorted| && sorted[i] == left;
    var k :| 0 <= k < |picked| && picked[k] == e;
    assert BeforeValid(sorted[k], sorted[i], le);
  }

  // ---- trees are never split ----

  lemma {:induction false} TreeCounts(runs: seq<Run>, root: string, run: Run)
    ensures multiset(Tree(runs, root))[run] == if Root(run) == root then multiset(runs)[run] else 0
  {
    if runs != [] {
      TreeCounts(runs[..|runs| - 1], root, run);
      assert runs == runs[..|runs| - 1] + [runs[|runs| - 1]];
    }
  }

  lemma {:induction false} AllRunsCounts(runs: seq<Run>, entries: seq<Entry>, run: Run)
    requires NoDuplicates(RootIds(entries)) && forall e :: e in entries ==> e.runs == Tree(runs, e.root)
    ensures multiset(AllRuns(entries))[run] == if Root(run) in RootIds(entries) then multiset(runs)[run] else 0
  {
    if entries != [] {
      var init, last := entries[..|entries| - 1], entries[|entries| - 1];
      RootIdsSnoc(entries);
      AllRunsCounts(runs, init, run);
      TreeCounts(runs, last.root, run);
      assert last in entries;
      assert multiset(AllRuns(entries))[run] == multiset(AllRuns(init))[run] + multiset(last.runs)[run];
    }
  }

  lemma RootIdsSnoc(entries: seq<Entry>)
    requires entries != []
    ensures var init, last := entries[..|entries| - 1], entries[|entries| - 1];
            && RootIds(entries) == RootIds(init) + [last.root]
            && (NoDuplicates(RootIds(entries)) ==> NoDuplicates(RootIds(init)) && last.root !in RootIds(init))
  {
    var init, last := entries[..|entries| - 1], entries[|entries| - 1];
    assert RootIds(entries) == RootIds(init) + [last.root];
    assert forall i :: 0 <= i < |init| ==> RootIds(init)[i] == RootIds(entries)[i];
    assert RootIds(entries)[|init|] == last.root;
  }

  /** The candidates are exactly the runs of the selected trees, none of them missing and none twice. */
  lemma WholeTrees(runs: seq<Run>, now: Time, policy: Policy, le: (string, string) -> bool, run: Run)
    requires policy.maxRuns >= 0
    ensures var picked := Picked(runs, now, policy, le);
            multiset(AllRuns(picked))[run] == if Root(run) in RootIds(picked) then multiset(runs)[run] else 0
  {
    PickedTrees(runs, now, policy, le);
    AllRunsCounts(runs, Picked(runs, now, policy, le), run);
  }

  // ---- what a selected run is ----

  lemma {:induction false} NewestMeaning(tree: seq<Run>)
    requires tree != []
    ensures Newest(tree).Invalid? <==> !ValidTree(tree)
    ensures Newest(tree).Missing? <==> ValidTree(tree) && exists i :: 0 <= i < |tree| && tree[i].completedAt.Missing?
    ensures Newest(tree).At? ==> forall i :: 0 <= i < |tree| ==> tree[i].completedAt.At? && tree[i].completedAt.time <= Newest(tree).time
    ensures exists i :: 0 <= i < |tree| && tree[i].completedAt == Newest(tree)
  {
    if |tree| > 1 {
      var init, last := tree[..|tree| - 1], tree[|tree| - 1];
      NewestMeaning(init);
      assert forall i :: 0 <= i < |init| ==> init[i] == tree[i];
      var i :| 0 <= i < |init| && init[i].completedAt == Newest(init);
      assert tree[i].completedAt == Newest(init) && tree[|tree| - 1] == last;
      assert ValidTree(tree) <==> ValidTree(init) && !last.completedAt.Invalid?;
    }
  }

  /** A done, unprotected tree is eligible if the cutoff is no date, a completion is invalid, or all are old enough. */
  lemma EligibleExactly(root: string, tree: seq<Run>, ids: set<string>, cutoff: Option<Time>)
    requires tree != []
    ensures Eligible(root, tree, ids, cutoff) <==>
            && root !in ids && (forall i :: 0 <= i < |tree| ==> Terminal(tree[i]) && tree[i].id !in ids)
            && (|| cutoff.None?
                || (exists i :: 0 <= i < |tree| && tree[i].completedAt.Invalid?)
                || (forall i :: 0 <= i < |tree| ==> tree[i].completedAt.At? && tree[i].completedAt.time <= cutoff.value))
  {
    NewestMeaning(tree);
  }

  ghost predicate OldAndDone(run: Run, policy: Policy, cutoff: int) {
    Terminal(run) && run.id !in policy.protectedIds && Root(run) !in policy.protectedIds
    && run.completedAt.At? && run.completedAt.time <= cutoff
  }

  lemma {:induction false} TreeMember(runs: seq<Run>, root: string, run: Run)
    ensures run in Tree(runs, root) <==> run in runs && Root(run) == root
  {
    TreeCounts(runs, root, run);
    assert run in Tree(runs, root) <==> run in multiset(Tree(runs, root));
    assert run in runs <==> run in multiset(runs);
  }

  /** The tree that a candidate was selected with. */
  lemma CandidateTree(runs: seq<Run>, now: Time, policy: Policy, le: (string, string) -> bool, run: Run)
    requires policy.maxRuns >= 0 && run in AllRuns(Picked(runs, now, policy, le))
    ensures run in Tree(runs, Root(run)) && EligibleRoot(runs, Root(run), policy.protectedIds, Cutoff(now, policy))
  {
    var picked := Picked(runs, now, policy, le);
    PickedTrees(runs, now, policy, le);
    WholeTrees(runs, now, policy, le, run);
    assert run in multiset(AllRuns(picked));
    var k :| 0 <= k < |picked| && RootIds(picked)[k] == Root(run);
    assert picked[k] in picked;
    assert run in multiset(runs);
    TreeMember(runs, Root(run), run);
  }

  /** With a valid cutoff and valid dates every candidate is terminal, unprotected and completed by the cutoff. */
  lemma CandidatesAreOld(runs: seq<Run>, now: Time, policy: Policy, le: (string, string) -> bool, run: Run)
    requires policy.maxRuns >= 0 && InDateRange(now - policy.olderThanMs) && DatesValid(runs, policy.protectedIds)
    requires run in AllRuns(Picked(runs, now, policy, le))
    ensures OldAndDone(run, policy, now - policy.olderThanMs)
  {
    var tree := Tree(runs, Root(run));
    CandidateTree(runs, now, policy, le, run);
    assert DoneTree(runs, Root(run), policy.protectedIds);
    EligibleExactly(Root(run), tree, policy.protectedIds, Cutoff(now, policy));
    var i :| 0 <= i < |tree| && tree[i] == run;
  }

  /** When all eligible trees fit, every run of one is a candidate. */
  lemma EligibleIsCandidate(runs: seq<Run>, now: Time, policy: Policy, le: (string, string) -> bool, run: Run)
    requires |EligibleTrees(runs, policy.protectedIds, Cutoff(now, policy))| <= policy.maxRuns
    requires run in Tree(runs, Root(run)) && EligibleRoot(runs, Root(run), policy.protectedIds, Cutoff(now, policy))
    ensures run in AllRuns(Picked(runs, now, policy, le))
  {
    var picked, sorted := Picked(runs, now, policy, le), SortedTrees(runs, now, policy, le);
    SortedTreesMeaning(runs, now, policy, le);
    var tree := Tree(runs, Root(run));
    var e := Entry(Newest(tree), Root(run), tree);
    assert e in sorted && picked == sorted;
    var k :| 0 <= k < |picked| && picked[k] == e;
    assert RootIds(picked)[k] == Root(run);
    WholeTrees(runs, now, policy, le, run);
    TreeMember(runs, Root(run), run);
    assert run in multiset(runs);
    assert run in multiset(AllRuns(picked));
  }

  /** All candidates are old and done, however many trees may be selected. */
  ghost predicate AgeRespected(runs: seq<Run>, now: Time, policy: Policy, le: (string, string) -> bool) {
    forall n: nat, run: Run :: run in AllRuns(Picked(runs, now, policy.(maxRuns := n), le)) ==> OldAndDone(run, policy, now - policy.olderThanMs)
  }

  /**
   The age is respected exactly when, if there is a done, unprotected tree at all, the cutoff is a date and no such tree
   has an invalid completion date. Ages the policy admits can reach further back than dates do.
   */
  lemma AgeRespectedExactly(runs: seq<Run>, now: Time, policy: Policy, le: (string, string) -> bool)
    requires GoodPolicy(policy)
    ensures AgeRespected(runs, now, policy, le)
            <==> forall root :: DoneTree(runs, root, policy.protectedIds) ==> InDateRange(now - policy.olderThanMs) && ValidTree(Tree(runs, root))
  {
    var ids := policy.protectedIds;
    if forall root :: DoneTree(runs, root, ids) ==> InDateRange(now - policy.olderThanMs) && ValidTree(Tree(runs, root)) {
      forall n: nat, run: Run | run in AllRuns(Picked(runs, now, policy.(maxRuns := n), le)) ensures OldAndDone(run, policy, now - policy.olderThanMs) {
        CandidateTree(runs, now, policy.(maxRuns := n), le, run);
        assert DoneTree(runs, Root(run), ids);
        CandidatesAreOld(runs, now, policy.(maxRuns := n), le, run);
      }
    }
    if AgeRespected(runs, now, policy, le) {
      forall root | DoneTree(runs, root, ids) ensures InDateRange(now - policy.olderThanMs) && ValidTree(Tree(runs, root)) {
        RespectedTree(runs, now, policy, le, root);
      }
    }
  }

  lemma RespectedTree(runs: seq<Run>, now: Time, policy: Policy, le: (string, string) -> bool, root: string)
    requires GoodPolicy(policy) && AgeRespected(runs, now, policy, le) && DoneTree(runs, root, policy.protectedIds)
    ensures InDateRange(now - policy.olderThanMs) && ValidTree(Tree(runs, root))
  {
    var tree, cutoff := Tree(runs, root), Cutoff(now, policy);
    NewestMeaning(tree);
    if cutoff.None? || Newest(tree).Invalid? {
      var i :| 0 <= i < |tree| && tree[i].completedAt == Newest(tree);
      TreeMember(runs, root, tree[i]);
      EligibleIsOld(runs, now, policy, le, tree[i]);
      OldMeansInRange(tree[i], now, policy);
    }
  }

  lemma OldMeansInRange(run: Run, now: Time, policy: Policy)
    requires GoodPolicy(policy) && OldAndDone(run, policy, now - policy.olderThanMs)
    ensures InDateRange(now - policy.olderThanMs)
  {
    assert InDateRange(run.completedAt.time) && InDateRange(now);
  }

  lemma EligibleIsOld(runs: seq<Run>, now: Time, policy: Policy, le: (string, string) -> bool, run: Run)
    requires AgeRespected(runs, now, policy, le)
    requires run in Tree(runs, Root(run)) && EligibleRoot(runs, Root(run), policy.protectedIds, Cutoff(now, policy))
    ensures OldAndDone(run, policy, now - policy.olderThanMs)
  {
    var n := |EligibleTrees(runs, policy.protectedIds, Cutoff(now, policy))|;
    EligibleIsSelected(runs, now, policy, policy.(maxRuns := n), le, run);
  }

  /** How many trees may be selected does not matter for which are eligible. */
  lemma EligibleIsSelected(runs: seq<Run>, now: Time, policy: Policy, wide: Policy, le: (string, string) -> bool, run: Run)
    requires wide == policy.(maxRuns := |EligibleTrees(runs, policy.protectedIds, Cutoff(now, policy))|)
    requires run in Tree(runs, Root(run)) && EligibleRoot(runs, Root(run), policy.protectedIds, Cutoff(now, policy))
    ensures run in AllRuns(Picked(runs, now, wide, le))
  {
    assert Cutoff(now, wide) == Cutoff(now, policy);
    EligibleIsCandidate(runs, now, wide, le, run);
  }

  /** A run with an invalid completion date is selected whatever the age. */
  lemma InvalidDateSelected(now: Time, policy: Policy, le: (string, string) -> bool, id: string)
    requires GoodPolicy(policy) && id !in policy.protectedIds && id != ""
    ensures AllRuns(Picked([Run(id, "", "completed", Invalid)], now, policy, le)) == [Run(id, "", "completed", Invalid)]
  {
    var run := Run(id, "", "completed", Invalid);
    var e := Entry(Invalid, id, [run]);
    LoneTree(run, policy.protectedIds, Cutoff(now, policy));
    LoneSorted(e, ByCompletion(le));
    assert Picked([run], now, policy, le) == [e];
    assert AllRuns([e]) == AllRuns([]) + [run] by { assert [e][..0] == []; }
  }

  lemma LoneSorted(e: Entry, le: (Entry, Entry) -> bool)
    ensures SortBy([e], le) == [e]
  {
    assert [e][..0] == [];
  }

  lemma LoneRoot(run: Run)
    requires run.rootRunId == ""
    ensures Tree([run], run.id) == [run] && Roots([run]) == [run.id]
  {
    assert [run][..0] == [];
  }

  lemma LoneTree(run: Run, ids: set<string>, cutoff: Option<Time>)
    requires run.rootRunId == "" && Terminal(run) && run.id !in ids && run.completedAt.Invalid?
    ensures EligibleTrees([run], ids, cutoff) == [Entry(run.completedAt, run.id, [run])]
  {
    LoneRoot(run);
    assert [run][..0] == [] && [run.id][..0] == [];
    assert Entries([run], [], ids, cutoff) == [];
  }

  // ---- what is skipped ----

  lemma {:induction false} SkippedMeaning(runs: seq<Run>, roots: seq<string>, ids: set<string>, active: bool)
    ensures forall root :: root in Skipped(runs, roots, ids, active) <==>
              root in roots && Active(Tree(runs, root)) == active && (active || Protected(root, Tree(runs, root), ids))
  {
    if roots != [] {
      SkippedMeaning(runs, roots[..|roots| - 1], ids, active);
      assert roots == roots[..|roots| - 1] + [roots[|roots| - 1]];
    }
  }

  /** Every root is active, protected, eligible or too recent, and the reported lists hold just the first two kinds. */
  lemma EveryRootAccounted(runs: seq<Run>, now: Time, policy: Policy, root: string)
    requires root in Roots(runs)
    ensures Tree(runs, root) != []
    ensures var tree, ids, cutoff := Tree(runs, root), policy.protectedIds, Cutoff(now, policy);
            && (root in Skipped(runs, Roots(runs), ids, true) <==> Active(tree))
            && (root in Skipped(runs, Roots(runs), ids, false) <==> !Active(tree) && Protected(root, tree, ids))
            && (root in RootIds(EligibleTrees(runs, ids, cutoff)) <==>
                  && root !in Skipped(runs, Roots(runs), ids, true) && root !in Skipped(runs, Roots(runs), ids, false)
                  && !TooRecent(Newest(tree), cutoff))
  {
    var ids, cutoff := policy.protectedIds, Cutoff(now, policy);
    RootsMeaning(runs);
    SkippedMeaning(runs, Roots(runs), ids, true);
    SkippedMeaning(runs, Roots(runs), ids, false);
    EntriesMeaning(runs, Roots(runs), ids, cutoff);
    var all := EligibleTrees(runs, ids, cutoff);
    if EligibleRoot(runs, root, ids, cutoff) {
      var e := Entry(Newest(Tree(runs, root)), root, Tree(runs, root));
      assert e in all;
      var k :| 0 <= k < |all| && all[k] == e;
      assert RootIds(all)[k] == root;
    }
    if root in RootIds(all) {
      var k :| 0 <= k < |all| && RootIds(all)[k] == root;
      assert all[k] in all;
    }
  }
}
