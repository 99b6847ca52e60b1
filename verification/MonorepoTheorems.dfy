/** Properties of every run of the monorepo machine. */
module MonorepoTheorems {
  import opened Common
  import opened MonorepoMachine

  // ---------- phases and counters: every run, retries and lost writes included ----------

  ghost predicate NoneIs(repos: seq<Repo>, p: Repo -> bool) {
    forall i | 0 <= i < |repos| :: !p(repos[i])
  }

  predicate IsDone(r: Repo) { IsCompleted(r) || IsFailed(r) }

  ghost predicate CountersExact(st: Status) {
    st.completed == Count(st.repos, IsCompleted) && st.failed == Count(st.repos, IsFailed) &&
    st.skipped == Count(st.repos, IsSkipped)
  }

  /** Phases in which a repo failure has not been reported as a failure of the migration. */
  predicate Healthy(p: Phase) {
    !p.Failed? && !p.Cancelled? && !p.Paused?
  }

  ghost predicate Inv(spec: Spec, st: Status) {
    (st.phase.Unset? ==> st == BLANK) &&
    (forall i | 0 <= i < |st.repos| :: !st.repos[i].phase.RepoCloning? && !st.repos[i].phase.RepoSkipped?) &&
    (st.phase.Rewriting? ==> NoneIs(st.repos, IsPending)) &&
    (st.phase.Merging? ==> NoneIs(st.repos, IsPending) && NoneIs(st.repos, IsRewriting)) &&
    (st.phase.Pushing? || st.phase.Completed? ==> forall i | 0 <= i < |st.repos| :: IsDone(st.repos[i])) &&
    (st.phase.Completed? ==> exists i | 0 <= i < |st.repos| :: IsCompleted(st.repos[i])) &&
    (NoneIs(st.repos, IsPending) ==> CountersExact(st)) &&
    (!spec.ContinueOnError() && Healthy(st.phase) ==> NoneIs(st.repos, IsFailed))
  }

  // ---------- a batch of clones ----------

  /** Results for distinct repos, all of which still need their clone. */
  ghost predicate Fresh(repos: seq<Repo>, results: seq<CloneResult>) {
    InRange(results, |repos|) && Distinct(Indices(results)) &&
    forall k | 0 <= k < |results| :: NeedsClone(repos[results[k].index])
  }

  lemma {:induction false} SameMultiset<T>(a: seq<T>, b: seq<T>)
    requires multiset(a) == multiset(b)
    ensures |a| == |b|
    ensures forall k | 0 <= k < |a| :: a[k] in b
    ensures Distinct(b) ==> Distinct(a)
  {
    assert |a| == |multiset(a)| == |multiset(b)| == |b|;
    forall k | 0 <= k < |a| ensures a[k] in b {
      assert a[k] in multiset(a);
    }
    if Distinct(b) {
      forall i, j | 0 <= i < j < |a| ensures a[i] != a[j] {
        if a[i] == a[j] {
          TwiceInMultiset(a, i, j);
          OnceInMultiset(b, a[i]);
        }
      }
    }
  }

  lemma {:induction false} TwiceInMultiset<T>(s: seq<T>, i: nat, j: nat)
    requires i < j < |s| && s[i] == s[j]
    ensures multiset(s)[s[i]] >= 2
  {
    assert s == s[..j] + [s[j]] + s[j + 1..];
    assert s[i] in s[..j];
  }

  lemma {:induction false} OnceInMultiset<T>(s: seq<T>, x: T)
    requires Distinct(s)
    ensures multiset(s)[x] <= 1
  {
    if s != [] {
      var init := s[..|s| - 1];
      OnceInMultiset(init, x);
      assert s == init + [Last(s)];
      assert Last(s) !in init;
    }
  }

  lemma {:induction false} PossibleIsFresh(spec: Spec, repos: seq<Repo>, results: seq<CloneResult>)
    requires multiset(Indices(results)) == multiset(CloneBatch(spec, repos))
    ensures Fresh(repos, results) && |results| == |CloneBatch(spec, repos)|
  {
    var batch := CloneBatch(spec, repos);
    SameMultiset(Indices(results), batch);
    forall k | 0 <= k < |results| ensures results[k].index < |repos| && NeedsClone(repos[results[k].index]) {
      assert Indices(results)[k] in batch;
    }
  }

  lemma {:induction false} FreshTail(st: Status, results: seq<CloneResult>)
    requires results != [] && Fresh(st.repos, results)
    ensures Fresh(WithClone(st, results[0]).repos, results[1..])
  {
    var rest := results[1..];
    forall i, j | 0 <= i < j < |rest| ensures Indices(rest)[i] != Indices(rest)[j] {
      assert Indices(results)[i + 1] != Indices(results)[j + 1];
    }
    forall k | 0 <= k < |rest| ensures rest[k].index != results[0].index {
      assert Indices(results)[0] != Indices(results)[k + 1];
    }
  }

  /** The result for a repo, if it has one. */
  function ResultFor(results: seq<CloneResult>, i: nat): Option<CloneResult> {
    if results == [] then None
    else if results[0].index == i then Some(results[0])
    else ResultFor(results[1..], i)
  }

  function Cloned(r: Repo, result: Option<CloneResult>): Repo {
    if result.None? then r
    else if result.value.error.Some? then r.(phase := RepoFailed, error := result.value.error.value)
    else r.(phase := RepoRewriting)
  }

  /** Whether collection runs to the end of the batch. */
  predicate CollectsAll(spec: Spec, results: seq<CloneResult>) {
    spec.ContinueOnError() || forall k | 0 <= k < |results| :: results[k].error.None?
  }

  lemma {:induction false} CollectedRepos(spec: Spec, st: Status, results: seq<CloneResult>)
    requires Fresh(st.repos, results) && CollectsAll(spec, results)
    ensures var st' := Collect(spec, st, results);
      |st'.repos| == |st.repos| && st'.phase == st.phase && st'.total == st.total &&
      st'.errorMessage == st.errorMessage &&
      (forall i | 0 <= i < |st.repos| :: st'.repos[i] == Cloned(st.repos[i], ResultFor(results, i))) &&
      st' == Recounted(st'.(percentage := st.percentage))
    decreases |results|
  {
    if results != [] {
      var st1 := WithClone(st, results[0]);
      FreshTail(st, results);
      assert results[0] in results;
      CollectedRepos(spec, st1, results[1..]);
      forall i | 0 <= i < |st.repos|
        ensures Collect(spec, st, results).repos[i] == Cloned(st.repos[i], ResultFor(results, i))
      {
        if results[0].index == i { NoSecondResult(results, i); }
      }
    }
  }

  lemma {:induction false} NoSecondResult(results: seq<CloneResult>, i: nat)
    requires results != [] && Distinct(Indices(results)) && results[0].index == i
    ensures ResultFor(results[1..], i) == None
  {
    forall k | 0 <= k < |results[1..]| ensures results[1..][k].index != i {
      assert Indices(results)[0] != Indices(results)[k + 1];
    }
    AbsentHasNoResult(results[1..], i);
  }

  lemma {:induction false} AbsentHasNoResult(results: seq<CloneResult>, i: nat)
    requires forall k | 0 <= k < |results| :: results[k].index != i
    ensures ResultFor(results, i) == None
  {
    if results != [] {
      AbsentHasNoResult(results[1..], i);
    }
  }

  lemma {:induction false} ResultForIs(results: seq<CloneResult>, k: nat)
    requires k < |results| && Distinct(Indices(results))
    ensures ResultFor(results, results[k].index) == Some(results[k])
  {
    if k > 0 {
      assert Indices(results)[0] != Indices(results)[k];
      var rest := results[1..];
      forall i, j | 0 <= i < j < |rest| ensures Indices(rest)[i] != Indices(rest)[j] {
        assert Indices(results)[i + 1] != Indices(results)[j + 1];
      }
      ResultForIs(rest, k - 1);
    }
  }

  lemma {:induction false} ResultForPermuted(a: seq<CloneResult>, b: seq<CloneResult>, i: nat)
    requires multiset(a) == multiset(b) && Distinct(Indices(a)) && Distinct(Indices(b))
    ensures ResultFor(a, i) == ResultFor(b, i)
  {
    SameMultiset(a, b);
    SameMultiset(b, a);
    if k :| 0 <= k < |a| && a[k].index == i {
      ResultForIs(a, k);
      var j :| 0 <= j < |b| && b[j] == a[k];
      ResultForIs(b, j);
    } else {
      forall k | 0 <= k < |b| ensures b[k].index != i {
        assert b[k] in a;
      }
      AbsentHasNoResult(a, i);
      AbsentHasNoResult(b, i);
    }
  }

  /** With continueOnError on, or with no failed clone, every arrival order of a batch's results leaves the same
      status. */
  lemma {:induction false} ArrivalOrderIsIrrelevant(spec: Spec, st: Status, a: seq<CloneResult>, b: seq<CloneResult>)
    requires Fresh(st.repos, a) && Fresh(st.repos, b) && multiset(a) == multiset(b) && CollectsAll(spec, a)
    ensures Collect(spec, st, a) == Collect(spec, st, b)
  {
    SameMultiset(b, a);
    CollectedRepos(spec, st, a);
    CollectedRepos(spec, st, b);
    var sa, sb := Collect(spec, st, a), Collect(spec, st, b);
    forall i | 0 <= i < |st.repos| ensures sa.repos[i] == sb.repos[i] {
      ResultForPermuted(a, b, i);
    }
    assert sa.repos == sb.repos;
  }

  /** With continueOnError off, a batch fails the migration exactly when one of its clones failed. */
  lemma {:induction false} StrictBatchFailsIff(spec: Spec, st: Status, results: seq<CloneResult>)
    requires Fresh(st.repos, results) && !spec.ContinueOnError() && st.phase.Cloning?
    ensures Collect(spec, st, results).phase.Failed? <==> exists k | 0 <= k < |results| :: results[k].error.Some?
    ensures Collect(spec, st, results).phase.Failed? || Collect(spec, st, results).phase.Cloning?
    decreases |results|
  {
    if results != [] && results[0].error.None? {
      FreshTail(st, results);
      StrictBatchFailsIff(spec, WithClone(st, results[0]), results[1..]);
      assert forall k | 0 < k < |results| :: results[k] == results[1..][k - 1];
    }
  }

  // ---------- the invariant is kept by every step ----------

  lemma {:induction false} CollectKeeps(spec: Spec, st: Status, results: seq<CloneResult>)
    requires InRange(results, |st.repos|)
    requires forall i | 0 <= i < |st.repos| :: !st.repos[i].phase.RepoCloning? && !st.repos[i].phase.RepoSkipped?
    ensures var st' := Collect(spec, st, results);
      CountersExact(st') && (st'.phase.Failed? || st'.phase == st.phase) && |st'.repos| == |st.repos| &&
      (forall i | 0 <= i < |st'.repos| :: !st'.repos[i].phase.RepoCloning? && !st'.repos[i].phase.RepoSkipped?) &&
      (!spec.ContinueOnError() && NoneIs(st.repos, IsFailed) && !st'.phase.Failed? ==> NoneIs(st'.repos, IsFailed))
    decreases |results|
  {
    if results != [] {
      CollectKeeps(spec, WithClone(st, results[0]), results[1..]);
    }
  }

  lemma {:induction false} RepoErrorCounted(st: Status, i: nat, error: string)
    requires i < |st.repos| && CountersExact(st)
    requires !IsFailed(st.repos[i]) && !IsCompleted(st.repos[i]) && !IsSkipped(st.repos[i])
    ensures CountersExact(WithError(st, i, error))
  {
    var r := st.repos[i].(phase := RepoFailed, error := error);
    CountUpdate(st.repos, i, r, IsCompleted);
    CountUpdate(st.repos, i, r, IsFailed);
    CountUpdate(st.repos, i, r, IsSkipped);
  }

  lemma {:induction false} RepoErrorKeeps(spec: Spec, st: Status, i: nat, error: string)
    requires Inv(spec, st) && i < |st.repos| && (st.phase.Rewriting? || st.phase.Merging?)
    requires IsRewriting(st.repos[i]) || IsMerging(st.repos[i])
    ensures Inv(spec, RepoError(spec, st, i, error))
  {
    RepoErrorCounted(st, i, error);
  }

  lemma {:induction false} CloneKeeps(spec: Spec, st: Status, d: Disk, i: Input)
    requires Inv(spec, st) && st.phase.Cloning? && multiset(Indices(i.results)) == multiset(CloneBatch(spec, st.repos))
    ensures Inv(spec, CloneStep(spec, st, d, i).st)
  {
    PossibleIsFresh(spec, st.repos, i.results);
    CollectKeeps(spec, st, i.results);
    if CloneBatch(spec, st.repos) == [] {
      ToCloneIsAll(st.repos, 0);
      assert forall k: nat | k < |st.repos| :: k !in ToClone(st.repos, 0);
    }
  }

  lemma {:induction false} ToCloneInOrder(repos: seq<Repo>, from: nat, i: nat, j: nat)
    requires from <= |repos| && i < j < |ToClone(repos, from)|
    ensures ToClone(repos, from)[i] < ToClone(repos, from)[j]
    decreases |repos| - from
  {
    if NeedsClone(repos[from]) {
      if i > 0 {
        ToCloneInOrder(repos, from + 1, i - 1, j - 1);
      }
    } else {
      ToCloneInOrder(repos, from + 1, i, j);
    }
  }

  lemma {:induction false} ToCloneHas(repos: seq<Repo>, from: nat, k: nat)
    requires from <= k < |repos| && NeedsClone(repos[k])
    ensures k in ToClone(repos, from)
    decreases |repos| - from
  {
    if from < k {
      ToCloneHas(repos, from + 1, k);
      var rest := ToClone(repos, from + 1);
      assert k in [from] + rest;
    }
  }

  /** The repos picked for cloning are all those that need it, in their stored order. */
  lemma {:induction false} ToCloneIsAll(repos: seq<Repo>, from: nat)
    requires from <= |repos|
    ensures var indices := ToClone(repos, from);
      (forall k: nat :: k in indices <==> from <= k < |repos| && NeedsClone(repos[k])) &&
      forall i, j | 0 <= i < j < |indices| :: indices[i] < indices[j]
  {
    hide ToClone;
    forall k: nat | from <= k < |repos| && NeedsClone(repos[k]) ensures k in ToClone(repos, from) {
      ToCloneHas(repos, from, k);
    }
    forall i, j | 0 <= i < j < |ToClone(repos, from)| ensures ToClone(repos, from)[i] < ToClone(repos, from)[j] {
      ToCloneInOrder(repos, from, i, j);
    }
  }

  lemma {:induction false} RewriteKeeps(spec: Spec, st: Status, d: Disk, i: Input)
    requires Inv(spec, st) && st.phase.Rewriting?
    ensures Inv(spec, RewriteStep(spec, st, d, i).st)
  {
    var k := FirstFrom(st.repos, IsRewriting, 0);
    if k < |st.repos| {
      RepoErrorKeeps(spec, st, k, i.error);
    }
  }

  /** A recount touches nothing but counters and percentage, and makes the counters exact. */
  lemma {:induction false} RecountedIs(st: Status)
    ensures var st' := Recounted(st); st'.repos == st.repos && st'.phase == st.phase && CountersExact(st')
  {
    hide Count;
  }

  lemma {:induction false} OneMergedKeeps(spec: Spec, st: Status, k: nat, completed: int)
    requires Inv(spec, st) && st.phase.Merging? && k < |st.repos|
    ensures Inv(spec, Recounted(WithRepo(st, k, RepoCompleted).(completed := completed)))
  {
    RecountedIs(WithRepo(st, k, RepoCompleted).(completed := completed));
    hide Recounted, CountersExact;
  }

  lemma {:induction false} AllMergedKeeps(spec: Spec, st: Status)
    requires Inv(spec, st) && st.phase.Merging? && NoneIs(st.repos, IsMerging)
    ensures Inv(spec, st.(phase := Pushing))
  {
    hide Count;
    forall i | 0 <= i < |st.repos| ensures IsDone(st.repos[i]) {
      assert !IsMerging(st.repos[i]) && !IsPending(st.repos[i]) && !IsRewriting(st.repos[i]);
    }
  }

  lemma {:induction false} FailedKeeps(spec: Spec, st: Status, message: string)
    requires Inv(spec, st) && !st.phase.Unset?
    ensures Inv(spec, FailedWith(st, message))
  {
    hide Count;
  }

  lemma {:induction false} MergeKeeps(spec: Spec, st: Status, d: Disk, i: Input)
    requires Inv(spec, st) && st.phase.Merging?
    ensures Inv(spec, MergeStep(spec, st, d, i).st)
  {
    hide Inv, Recounted, RepoError;
    FailedKeeps(spec, st, "no monorepo");
    var k := FirstFrom(st.repos, IsMerging, 0);
    if k == |st.repos| {
      AllMergedKeeps(spec, st);
    } else {
      RepoErrorKeeps(spec, st, k, i.error);
      OneMergedKeeps(spec, st, k, st.completed + 1);
    }
  }

  lemma {:induction false} PushKeeps(spec: Spec, st: Status, d: Disk, i: Input)
    requires Inv(spec, st) && st.phase.Pushing?
    ensures Inv(spec, PushStep(spec, st, d, i).st)
  {
    if r :| r in st.repos && IsCompleted(r) {
      var j :| 0 <= j < |st.repos| && st.repos[j] == r;
    }
  }

  lemma {:induction false} RetryKeeps(spec: Spec, st: Status)
    requires Inv(spec, st) && !st.phase.Unset?
    ensures Inv(spec, Retried(st))
  {
    var st' := Retried(st);
    if NoneIs(st'.repos, IsPending) {
      forall i | 0 <= i < |st.repos| ensures st'.repos[i] == st.repos[i] {
        assert !IsPending(st'.repos[i]);
      }
      assert st'.repos == st.repos;
    }
  }

  lemma {:induction false} InitialKeeps(spec: Spec, order: seq<SourceRepo>)
    ensures Inv(spec, Initialized(order))
  {
    var repos := InitialRepos(order);
    CountAtMost(repos, IsCompleted);
    CountAtMost(repos, IsFailed);
    CountAtMost(repos, IsSkipped);
  }

  lemma {:induction false} StepKeeps(spec: Spec, st: Status, d: Disk, i: Input)
    requires Inv(spec, st)
    requires st.phase.Cloning? ==> multiset(Indices(i.results)) == multiset(CloneBatch(spec, st.repos))
    ensures Inv(spec, PhaseStep(spec, st, d, i).st)
  {
    hide CloneStep, RewriteStep, MergeStep, PushStep;
    match st.phase
    case Unset => InitialKeeps(spec, i.order);
    case Cloning => CloneKeeps(spec, st, d, i);
    case Rewriting => RewriteKeeps(spec, st, d, i);
    case Merging => MergeKeeps(spec, st, d, i);
    case Pushing => PushKeeps(spec, st, d, i);
    case _ =>
  }

  lemma {:induction false} ComputeKeeps(spec: Spec, w: World, i: Input)
    requires Inv(spec, w.stored) && Possible(spec, w, i)
    ensures Inv(spec, Compute(spec, w.stored, w.disk, i).st)
  {
    var st, d := w.stored, w.disk;
    hide PhaseStep, Retried, Count;
    if i.annotation.Trigger? || i.annotation.RetryRequest? {
      if Terminal(st.phase) { RetryKeeps(spec, st); }
    }
    StepKeeps(spec, st, d, i);
  }

  lemma {:induction false} AlwaysInv(spec: Spec, steps: seq<Step>)
    requires Feasible(spec, steps)
    ensures Inv(spec, Run(spec, steps).stored)
  {
    if steps != [] {
      var w := Run(spec, steps[..|steps| - 1]);
      AlwaysInv(spec, steps[..|steps| - 1]);
      if Last(steps).Reconcile? {
        ComputeKeeps(spec, w, Last(steps).input);
      }
    }
  }

  // ---------- what that says ----------

  /** On every run, retries included: the overall phase bounds the phases of the repos. */
  lemma {:induction false} PhaseBoundsRepos(spec: Spec, steps: seq<Step>)
    requires Feasible(spec, steps)
    ensures var st := Run(spec, steps).stored;
      (st.phase.Rewriting? ==> NoneIs(st.repos, NeedsClone)) &&
      (st.phase.Merging? ==> NoneIs(st.repos, NeedsClone) && NoneIs(st.repos, IsRewriting)) &&
      (st.phase.Pushing? || st.phase.Completed? ==> forall r | r in st.repos :: IsCompleted(r) || IsFailed(r)) &&
      (st.phase.Completed? ==> exists r :: r in st.repos && IsCompleted(r)) &&
      (st.phase.Completed? && !spec.ContinueOnError() ==> forall r | r in st.repos :: IsCompleted(r))
  {
    AlwaysInv(spec, steps);
    var st := Run(spec, steps).stored;
    if st.phase.Completed? {
      var j :| 0 <= j < |st.repos| && IsCompleted(st.repos[j]);
      assert st.repos[j] in st.repos;
    }
  }

  /** Whenever no repo is Pending, the stored counters are those of a recount. */
  lemma {:induction false} CountersAreExact(spec: Spec, steps: seq<Step>)
    requires Feasible(spec, steps)
    ensures var st := Run(spec, steps).stored;
      NoneIs(st.repos, IsPending) ==>
        st.completed == Count(st.repos, IsCompleted) && st.failed == Count(st.repos, IsFailed) &&
        st.skipped == Count(st.repos, IsSkipped)
  {
    AlwaysInv(spec, steps);
  }
}
