/** How many reconciles a monorepo migration takes when nothing interferes. */
module MonorepoLiveness {
  import opened Common
  import opened MonorepoMachine
  import opened MonorepoTheorems

  function CeilDiv(n: nat, p: int): nat
    requires p >= 1
  {
    (n + p - 1) / p
  }

  lemma {:induction false} CeilDivDrops(n: nat, b: nat, p: int)
    requires p >= 1 && n >= 1 && b == Min(n, p)
    ensures CeilDiv(n - b, p) + 1 == CeilDiv(n, p)
  {
    if n <= p {
      DivIs(n + p - 1, p, 1);
      DivIs(p - 1, p, 0);
    } else {
      DivShifts(n - p + p - 1, p);
    }
  }

  lemma {:induction false} DivIs(x: nat, p: int, q: nat)
    requires p >= 1 && q * p <= x < q * p + p
    ensures x / p == q
  {
    var d := x / p;
    assert x == d * p + x % p;
    if d < q {
      TimesMonotone(d + 1, q, p);
    } else if d > q {
      TimesMonotone(q + 1, d, p);
    }
  }

  lemma {:induction false} DivShifts(x: nat, p: int)
    requires p >= 1
    ensures (x + p) / p == x / p + 1
  {
    var q := x / p;
    assert (q + 1) * p == q * p + p;
    DivIs(x + p, p, q + 1);
  }

  /** Reconciles that the repos still need after cloning: two for a clone or a rewritten-to-be repo, one for a merge. */
  function Work(repos: seq<Repo>): nat {
    2 * Count(repos, NeedsClone) + 2 * Count(repos, IsRewriting) + Count(repos, IsMerging)
  }

  /** The number of reconciles left at most. */
  function Measure(spec: Spec, st: Status): nat {
    var p, n := spec.ParallelClones(), |spec.sourceRepos|;
    var clones := CeilDiv(Count(st.repos, NeedsClone), p);
    match st.phase
    case Unset => CeilDiv(n, p) + 2 * n + 7
    case Pending => clones + Work(st.repos) + 6
    case Validating => clones + Work(st.repos) + 5
    case Cloning => clones + Work(st.repos) + 4
    case Rewriting => 2 * Count(st.repos, IsRewriting) + Count(st.repos, IsMerging) + 3
    case Merging => Count(st.repos, IsMerging) + 2
    case Pushing => 1
    case Completed => 0
    case Failed => 0
    case Cancelled => 0
    case Paused => 0
  }

  lemma {:induction false} PhaseSet(repos: seq<Repo>, i: nat, r: Repo)
    requires i < |repos|
    ensures var repos' := repos[i := r];
      Count(repos', NeedsClone) == CountAfter(repos, i, r, NeedsClone) &&
      Count(repos', IsRewriting) == CountAfter(repos, i, r, IsRewriting) &&
      Count(repos', IsMerging) == CountAfter(repos, i, r, IsMerging)
  {
    CountUpdate(repos, i, r, NeedsClone);
    CountUpdate(repos, i, r, IsRewriting);
    CountUpdate(repos, i, r, IsMerging);
  }

  lemma {:induction false} ToCloneCounts(repos: seq<Repo>, from: nat)
    requires from <= |repos|
    ensures |ToClone(repos, from)| + Count(repos[..from], NeedsClone) == Count(repos, NeedsClone)
    decreases |repos| - from
  {
    if from == |repos| {
      assert repos[..from] == repos;
    } else {
      ToCloneCounts(repos, from + 1);
      assert repos[..from + 1][..from] == repos[..from];
    }
  }

  /** A batch takes all its repos out of cloning, and none of them needs more work than before. */
  lemma {:induction false} CollectWorks(spec: Spec, st: Status, results: seq<CloneResult>)
    requires Fresh(st.repos, results) && st.phase.Cloning?
    ensures var st' := Collect(spec, st, results);
      !st'.phase.Failed? ==>
        st'.phase.Cloning? && Count(st'.repos, NeedsClone) == Count(st.repos, NeedsClone) - |results| &&
        Work(st'.repos) <= Work(st.repos)
    decreases |results|
  {
    if results != [] {
      var r := results[0];
      var st1 := WithClone(st, r);
      PhaseSet(st.repos, r.index, st1.repos[r.index]);
      FreshTail(st, results);
      CollectWorks(spec, st1, results[1..]);
    }
  }

  lemma {:induction false} BatchSize(spec: Spec, repos: seq<Repo>)
    ensures |CloneBatch(spec, repos)| == Min(Count(repos, NeedsClone), spec.ParallelClones())
  {
    ToCloneCounts(repos, 0);
  }

  lemma {:induction false} CloneProgresses(spec: Spec, st: Status, d: Disk, i: Input)
    requires Inv(spec, st) && st.phase.Cloning? && multiset(Indices(i.results)) == multiset(CloneBatch(spec, st.repos))
    ensures Measure(spec, CloneStep(spec, st, d, i).st) < Measure(spec, st)
  {
    hide CeilDiv, Collect, Count, ToClone, Fresh;
    PossibleIsFresh(spec, st.repos, i.results);
    BatchSize(spec, st.repos);
    if CloneBatch(spec, st.repos) != [] && i.ready {
      CollectWorks(spec, st, i.results);
      CeilDivDrops(Count(st.repos, NeedsClone), |i.results|, spec.ParallelClones());
    }
  }

  lemma {:induction false} RewriteProgresses(spec: Spec, st: Status, d: Disk, i: Input)
    requires st.phase.Rewriting?
    ensures Measure(spec, RewriteStep(spec, st, d, i).st) < Measure(spec, st)
  {
    hide CeilDiv, Count, Inv;
    var k := FirstFrom(st.repos, IsRewriting, 0);
    if k < |st.repos| {
      PhaseSet(st.repos, k, st.repos[k].(phase := RepoMerging));
      PhaseSet(st.repos, k, st.repos[k].(phase := RepoFailed, error := i.error));
    }
  }

  lemma {:induction false} MergeProgresses(spec: Spec, st: Status, d: Disk, i: Input)
    requires st.phase.Merging?
    ensures Measure(spec, MergeStep(spec, st, d, i).st) < Measure(spec, st)
  {
    hide CeilDiv, Count, Inv;
    var k := FirstFrom(st.repos, IsMerging, 0);
    if k < |st.repos| {
      PhaseSet(st.repos, k, st.repos[k].(phase := RepoCompleted));
      PhaseSet(st.repos, k, st.repos[k].(phase := RepoFailed, error := i.error));
    }
  }

  lemma {:induction false} InitialMeasure(spec: Spec, order: seq<SourceRepo>)
    requires |order| == |spec.sourceRepos|
    ensures Measure(spec, Initialized(order)) < Measure(spec, BLANK)
  {
    var repos := InitialRepos(order);
    CountAtMost(repos, NeedsClone);
    CountAtMost(repos, IsRewriting);
    CountAtMost(repos, IsMerging);
  }

  /** Every undisturbed reconcile before a terminal phase brings the end closer. */
  lemma {:induction false} StepProgresses(spec: Spec, w: World, i: Input)
    requires Inv(spec, w.stored) && Possible(spec, w, i) && i.annotation.NoAnnotation? && i.delivered
    requires !Terminal(w.stored.phase) && !w.stored.phase.Paused?
    ensures var st' := Next(spec, w, Reconcile(i)).stored;
      Measure(spec, st') < Measure(spec, w.stored) && !st'.phase.Paused?
  {
    var st, d := w.stored, w.disk;
    assert !PhaseStep(spec, st, d, i).st.phase.Paused? by {
      if st.phase.Cloning? { PossibleIsFresh(spec, st.repos, i.results); CollectKeeps(spec, st, i.results); }
    }
    match st.phase
    case Unset => InitialMeasure(spec, i.order);
    case Cloning => CloneProgresses(spec, st, d, i);
    case Rewriting => RewriteProgresses(spec, st, d, i);
    case Merging => MergeProgresses(spec, st, d, i);
    case _ =>
  }

  predicate Undisturbed(steps: seq<Step>) {
    forall k | 0 <= k < |steps| ::
      steps[k].Reconcile? && steps[k].input.annotation.NoAnnotation? && steps[k].input.delivered
  }

  lemma {:induction false} UndisturbedMeasure(spec: Spec, steps: seq<Step>)
    requires Feasible(spec, steps) && Undisturbed(steps)
    ensures var st := Run(spec, steps).stored;
      !st.phase.Paused? && (Terminal(st.phase) || Measure(spec, st) + |steps| <= Measure(spec, BLANK))
  {
    if steps != [] {
      var before := steps[..|steps| - 1];
      UndisturbedMeasure(spec, before);
      AlwaysInv(spec, before);
      var w := Run(spec, before);
      if !Terminal(w.stored.phase) {
        StepProgresses(spec, w, Last(steps).input);
      }
    }
  }

  /** Without annotations and lost writes, n repos with p parallel clones reach a terminal phase
      in at most ceil(n / p) + 2n + 7 reconciles. */
  lemma {:induction false} Terminates(spec: Spec, steps: seq<Step>)
    requires Feasible(spec, steps) && Undisturbed(steps)
    requires var n := |spec.sourceRepos|; |steps| >= CeilDiv(n, spec.ParallelClones()) + 2 * n + 7
    ensures Terminal(Run(spec, steps).stored.phase)
  {
    UndisturbedMeasure(spec, steps);
  }
}
