/** A monorepo migration in which nothing fails. */
module MonorepoSuccess {
  import opened Common
  import opened MonorepoMachine
  import opened MonorepoTheorems
  import opened MonorepoLiveness
  import opened MonorepoAssembly
  import opened MonorepoOutcomes

  predicate Succeeds(i: Input) {
    i.ready && i.ok && i.initialised && forall k | 0 <= k < |i.results| :: i.results[k].error.None?
  }

  /** Nothing disturbs the run, and every operation in it succeeds. */
  predicate Smooth(steps: seq<Step>) {
    Undisturbed(steps) && forall k | 0 <= k < |steps| :: Succeeds(steps[k].input)
  }

  ghost predicate SmoothInv(w: World) {
    var st := w.stored;
    !st.phase.Failed? && !st.phase.Cancelled? && !st.phase.Paused? &&
    (!st.phase.Unset? ==> st.repos != []) && Nobody(st.repos, RepoFailed) &&
    (st.phase.Merging? || st.phase.Pushing? ==> Nobody(st.repos, RepoCompleted) || w.disk.mono.Some?)
  }

  lemma {:induction false} CollectSmooth(spec: Spec, st: Status, results: seq<CloneResult>)
    requires InRange(results, |st.repos|) && Nobody(st.repos, RepoFailed)
    requires forall k | 0 <= k < |results| :: results[k].error.None?
    ensures var st' := Collect(spec, st, results);
      Nobody(st'.repos, RepoFailed) && st'.phase == st.phase && |st'.repos| == |st.repos|
    decreases |results|
  {
    hide Count;
    if results != [] {
      CollectSmooth(spec, WithClone(st, results[0]), results[1..]);
    }
  }

  lemma {:induction false} CloneIsSmooth(spec: Spec, w: World, i: Input)
    requires SmoothInv(w) && w.stored.phase.Cloning? && Succeeds(i)
    ensures var e := CloneStep(spec, w.stored, w.disk, i); SmoothInv(World(e.st, w.order, e.disk))
  {
    if InRange(i.results, |w.stored.repos|) {
      CollectSmooth(spec, w.stored, i.results);
    }
    hide Collect, CloneBatch;
  }

  lemma {:induction false} RewriteIsSmooth(spec: Spec, w: World, i: Input)
    requires SmoothInv(w) && Inv(spec, w.stored) && w.stored.phase.Rewriting? && Succeeds(i)
    requires Nobody(w.stored.repos, RepoCompleted)
    ensures var e := RewriteStep(spec, w.stored, w.disk, i); SmoothInv(World(e.st, w.order, e.disk))
  {
    hide Count, Inv;
  }

  lemma {:induction false} MergeIsSmooth(spec: Spec, w: World, i: Input)
    requires SmoothInv(w) && w.stored.phase.Merging? && Succeeds(i)
    ensures var e := MergeStep(spec, w.stored, w.disk, i); SmoothInv(World(e.st, w.order, e.disk))
  {
    hide Count;
    Completion(w.stored.repos);
  }

  lemma {:induction false} PushIsSmooth(spec: Spec, w: World, i: Input)
    requires SmoothInv(w) && Inv(spec, w.stored) && w.stored.phase.Pushing? && Succeeds(i)
    ensures var e := PushStep(spec, w.stored, w.disk, i); SmoothInv(World(e.st, w.order, e.disk))
  {
    hide Count;
    assert IsDone(w.stored.repos[0]);
    Completion(w.stored.repos);
  }

  lemma {:induction false} StepIsSmooth(spec: Spec, w: World, i: Input)
    requires SmoothInv(w) && Inv(spec, w.stored) && Possible(spec, w, i) && Succeeds(i)
    requires i.annotation.NoAnnotation? && i.delivered && spec.sourceRepos != []
    requires w.stored.phase.Rewriting? ==> Nobody(w.stored.repos, RepoCompleted)
    ensures SmoothInv(Next(spec, w, Reconcile(i)))
  {
    hide CloneStep, RewriteStep, MergeStep, PushStep, Inv;
    match w.stored.phase
    case Cloning => CloneIsSmooth(spec, w, i);
    case Rewriting => RewriteIsSmooth(spec, w, i);
    case Merging => MergeIsSmooth(spec, w, i);
    case Pushing => PushIsSmooth(spec, w, i);
    case _ =>
  }

  lemma {:induction false} SmoothBefore(steps: seq<Step>)
    requires Smooth(steps) && steps != []
    ensures Smooth(steps[..|steps| - 1]) && NoRetry(steps) && AllDelivered(steps)
  {
    hide Succeeds;
  }

  lemma {:induction false} AlwaysSmooth(spec: Spec, steps: seq<Step>)
    requires Feasible(spec, steps) && Smooth(steps) && spec.sourceRepos != []
    ensures SmoothInv(Run(spec, steps))
  {
    if steps != [] {
      var before := steps[..|steps| - 1];
      SmoothBefore(steps);
      AlwaysSmooth(spec, before);
      AlwaysInv(spec, before);
      NoneMergedYet(spec, before);
      hide Inv, SmoothInv, Next;
      StepIsSmooth(spec, Run(spec, before), Last(steps).input);
    }
  }

  lemma {:induction false} NoneMergedYet(spec: Spec, steps: seq<Step>)
    requires Feasible(spec, steps) && Smooth(steps)
    ensures var st := Run(spec, steps).stored; st.phase.Rewriting? ==> Nobody(st.repos, RepoCompleted)
  {
    if steps != [] {
      SmoothBefore(steps);
      AlwaysAssembled(spec, steps, false);
    }
    hide Run;
  }

  /** If nothing disturbs a migration of at least one repo and no operation of it fails, it is Completed after at most
      ceil(n / p) + 2n + 7 reconciles, every repo is Completed, and what has been pushed holds exactly the repos of the
      spec. */
  lemma {:induction false} SuccessCompletes(spec: Spec, steps: seq<Step>)
    requires Feasible(spec, steps) && Smooth(steps) && spec.sourceRepos != []
    requires var n := |spec.sourceRepos|; |steps| >= CeilDiv(n, spec.ParallelClones()) + 2 * n + 7
    ensures var w := Run(spec, steps);
      w.stored.phase.Completed? && |w.stored.repos| == |spec.sourceRepos| &&
      (forall k | 0 <= k < |w.stored.repos| :: w.stored.repos[k].phase.RepoCompleted?) &&
      w.disk.pushed == Some(set r | r in spec.sourceRepos :: r.name)
  {
    Terminates(spec, steps);
    AlwaysSmooth(spec, steps);
    AlwaysInv(spec, steps);
    SmoothBefore(steps);
    AlwaysAssembled(spec, steps, false);
    var w := Run(spec, steps);
    hide Run, CeilDiv;
    forall k | 0 <= k < |w.stored.repos| ensures w.stored.repos[k].phase.RepoCompleted? {
      assert IsDone(w.stored.repos[k]);
    }
    PushedExactly(spec, steps);
    SameNamesAsSpec(w.stored.repos, w.order, spec.sourceRepos);
  }

  lemma {:induction false} SameNamesAsSpec(repos: seq<Repo>, order: seq<SourceRepo>, sources: seq<SourceRepo>)
    requires InOrder(repos, order) && SortedPermutation(order, sources)
    requires forall k | 0 <= k < |repos| :: IsCompleted(repos[k])
    ensures |repos| == |sources|
    ensures (set r | r in repos && IsCompleted(r) :: r.name) == (set r | r in sources :: r.name)
  {
    var names, sourceNames := set r | r in repos && IsCompleted(r) :: r.name, set r | r in sources :: r.name;
    forall n | n in names ensures n in sourceNames {
      var r :| r in repos && r.name == n;
      var k :| 0 <= k < |repos| && repos[k] == r;
      assert order[k] in multiset(order);
    }
    forall n | n in sourceNames ensures n in names {
      var s :| s in sources && s.name == n;
      assert s in multiset(sources) && s in order;
      var k :| 0 <= k < |order| && order[k] == s;
      assert repos[k] in repos && IsCompleted(repos[k]);
    }
  }

  // ---------- the percentage ----------

  /** The share of repos that are done, rounded down. */
  ghost predicate PercentExact(st: Status) {
    st.repos != [] ==>
      st.percentage ==
        ((Count(st.repos, IsCompleted) + Count(st.repos, IsFailed) + Count(st.repos, IsSkipped)) * 100) / |st.repos|
  }

  ghost predicate PercentInv(st: Status) {
    PercentExact(st) || !Nobody(st.repos, RepoPending) || (!Healthy(st.phase) && !Nobody(st.repos, RepoFailed))
  }

  lemma {:induction false} RecountIsExact(st: Status)
    ensures PercentExact(Recounted(st))
  {
    hide Count;
  }

  lemma {:induction false} CollectIsExact(spec: Spec, st: Status, results: seq<CloneResult>)
    requires InRange(results, |st.repos|)
    ensures PercentExact(Collect(spec, st, results))
    decreases |results|
  {
    hide Recounted, PercentExact;
    if results == [] {
      RecountIsExact(st);
    } else {
      RecountIsExact(WithClone(st, results[0]));
      CollectIsExact(spec, WithClone(st, results[0]), results[1..]);
      FailingKeepsPercent(Recounted(WithClone(st, results[0])), results[0]);
    }
  }

  lemma {:induction false} FailingKeepsPercent(st: Status, r: CloneResult)
    requires PercentExact(st)
    ensures forall message :: PercentExact(FailedWith(st, message))
  {
    hide Count;
  }

  lemma {:induction false} RepoErrorPercent(spec: Spec, st: Status, k: nat, error: string)
    requires k < |st.repos|
    ensures PercentInv(RepoError(spec, st, k, error))
  {
    RecountIsExact(WithError(st, k, error));
    var st' := RepoError(spec, st, k, error);
    hide Recounted, PercentExact;
    assert spec.ContinueOnError() || (st'.repos[k].phase.RepoFailed? && st'.phase.Failed?);
  }

  lemma {:induction false} SameReposPercent(st: Status, st': Status)
    requires PercentInv(st) && Healthy(st.phase) && st'.repos == st.repos && st'.percentage == st.percentage
    ensures PercentInv(st')
  {
    hide Count;
  }

  lemma {:induction false} WorkPercent(spec: Spec, st: Status, d: Disk, i: Input)
    requires PercentInv(st) && (st.phase.Cloning? || st.phase.Rewriting?)
    ensures PercentInv(PhaseStep(spec, st, d, i).st)
  {
    hide Count, Recounted, Collect, CloneBatch, RepoError, PercentInv, PercentExact;
    if InRange(i.results, |st.repos|) {
      CollectIsExact(spec, st, i.results);
      ExactIsEnough(Collect(spec, st, i.results));
    }
    var k := FirstFrom(st.repos, IsRewriting, 0);
    if k < |st.repos| {
      RepoErrorPercent(spec, st, k, i.error);
      RecountIsExact(WithRepo(st, k, RepoMerging));
      ExactIsEnough(Recounted(WithRepo(st, k, RepoMerging)));
    }
    SameReposPercent(st, st.(phase := Rewriting));
    SameReposPercent(st, st.(phase := Merging));
    SameReposPercent(st, FailedWith(st, "no token"));
  }

  lemma {:induction false} ExactIsEnough(st: Status)
    requires PercentExact(st)
    ensures PercentInv(st)
  {
  }

  lemma {:induction false} AssemblyPercent(spec: Spec, st: Status, d: Disk, i: Input)
    requires PercentInv(st) && (st.phase.Merging? || st.phase.Pushing?)
    ensures PercentInv(PhaseStep(spec, st, d, i).st)
  {
    hide Count, Recounted, RepoError, InitMono, PercentInv, PercentExact;
    var k := FirstFrom(st.repos, IsMerging, 0);
    if k < |st.repos| {
      RepoErrorPercent(spec, st, k, i.error);
      var merged := WithRepo(st, k, RepoCompleted);
      RecountIsExact(merged.(completed := merged.completed + 1));
      ExactIsEnough(Recounted(merged.(completed := merged.completed + 1)));
    }
    RecountIsExact(st.(phase := Completed, percentage := 100));
    ExactIsEnough(Recounted(st.(phase := Completed, percentage := 100)));
    SameReposPercent(st, st.(phase := Pushing));
    SameReposPercent(st, FailedWith(st, "no monorepo"));
    SameReposPercent(st, FailedWith(st, "nothing was merged"));
    SameReposPercent(st, FailedWith(st, "no target repository"));
    SameReposPercent(st, FailedWith(st, "push failed"));
  }

  lemma {:induction false} StepPercent(spec: Spec, st: Status, d: Disk, i: Input)
    requires PercentInv(st)
    ensures PercentInv(PhaseStep(spec, st, d, i).st)
  {
    if st.phase.Cloning? || st.phase.Rewriting? {
      WorkPercent(spec, st, d, i);
    } else if st.phase.Merging? || st.phase.Pushing? {
      AssemblyPercent(spec, st, d, i);
    } else if st.phase.Unset? {
      if i.order != [] {
        assert InitialRepos(i.order)[0].phase.RepoPending?;
      }
    }
    hide Count, CloneStep, RewriteStep, MergeStep, PushStep;
  }

  lemma {:induction false} RetryPercent(st: Status)
    requires PercentInv(st) && Terminal(st.phase)
    ensures PercentInv(Retried(st))
  {
    hide Count;
    if k :| 0 <= k < |st.repos| && (st.repos[k].phase.RepoPending? || IsFailed(st.repos[k]) || IsSkipped(st.repos[k])) {
      assert Retried(st).repos[k].phase.RepoPending?;
    } else {
      assert Retried(st).repos == st.repos;
    }
  }

  lemma {:induction false} AlwaysPercent(spec: Spec, steps: seq<Step>)
    ensures PercentInv(Run(spec, steps).stored)
  {
    if steps != [] {
      var w := Run(spec, steps[..|steps| - 1]);
      AlwaysPercent(spec, steps[..|steps| - 1]);
      assert Run(spec, steps) == Next(spec, w, Last(steps));
      hide Run, PhaseStep, Retried, PercentInv;
      if Last(steps).Reconcile? {
        StepPercent(spec, w.stored, w.disk, Last(steps).input);
        if Terminal(w.stored.phase) {
          RetryPercent(w.stored);
        }
      }
      PausedPercent(w.stored);
    }
  }

  lemma {:induction false} PausedPercent(st: Status)
    requires PercentInv(st)
    ensures PercentInv(st.(phase := Paused)) && PercentInv(st.(phase := Cancelled))
  {
  }

  /** From Rewriting on, the percentage stored is the share of repos that are done, rounded down; a Completed migration
      says 100. */
  lemma {:induction false} PercentageIsExact(spec: Spec, steps: seq<Step>)
    requires Feasible(spec, steps)
    ensures var st := Run(spec, steps).stored; var n := |st.repos|;
      n > 0 && (st.phase.Rewriting? || st.phase.Merging? || st.phase.Pushing? || st.phase.Completed?) ==>
        var done := Count(st.repos, IsCompleted) + Count(st.repos, IsFailed);
        st.percentage * n <= 100 * done < (st.percentage + 1) * n && (st.phase.Completed? ==> st.percentage == 100)
  {
    AlwaysPercent(spec, steps);
    AlwaysInv(spec, steps);
    var st := Run(spec, steps).stored;
    hide Run, Count;
    if st.repos != [] {
      CountAtMost(st.repos, IsSkipped);
      CountDisjoint(st.repos, IsCompleted, IsFailed);
      Percentage((Count(st.repos, IsCompleted) + Count(st.repos, IsFailed)) * 100, |st.repos|);
    }
  }

  lemma {:induction false} Percentage(x: int, n: int)
    requires n > 0
    ensures (x / n) * n <= x < (x / n + 1) * n
    ensures x == n * 100 ==> x / n == 100
  {
    assert x == (x / n) * n + x % n;
    if x == n * 100 {
      DivIs(x, n, 100);
    }
  }
}
