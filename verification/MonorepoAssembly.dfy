/** What the monorepo holds and in which order repos are merged, on runs without retry; status writes may be lost. */
module MonorepoAssembly {
  import opened Common
  import opened MonorepoMachine
  import opened MonorepoTheorems

  predicate Retries(s: Step) {
    s.Reconcile? && (s.input.annotation.Trigger? || s.input.annotation.RetryRequest?)
  }

  predicate NoRetry(steps: seq<Step>) {
    forall k | 0 <= k < |steps| :: !Retries(steps[k])
  }

  predicate AllDelivered(steps: seq<Step>) {
    forall k | 0 <= k < |steps| :: steps[k].Reconcile? ==> steps[k].input.delivered
  }

  /** The repos are those of the order, each under its own name and subdirectory. */
  predicate InOrder(repos: seq<Repo>, order: seq<SourceRepo>) {
    |repos| == |order| &&
    forall i | 0 <= i < |repos| ::
      repos[i].name == InitialRepo(order[i]).name && repos[i].subdirectory == InitialRepo(order[i]).subdirectory
  }

  /** The monorepo holds every Completed repo, and nothing else if `exact`. */
  ghost predicate Holds(repos: seq<Repo>, mono: set<string>, exact: bool) {
    (forall i | 0 <= i < |repos| && IsCompleted(repos[i]) :: repos[i].name in mono) &&
    (exact ==> forall n | n in mono :: exists i | 0 <= i < |repos| :: IsCompleted(repos[i]) && repos[i].name == n)
  }

  /** No repo that is still to be merged comes before one that has been merged. */
  predicate MergedInOrder(repos: seq<Repo>) {
    forall i, j | 0 <= i < j < |repos| :: !(IsMerging(repos[i]) && IsCompleted(repos[j]))
  }

  predicate BeforeMerging(p: Phase) {
    p.Unset? || p.Pending? || p.Validating? || p.Cloning? || p.Rewriting?
  }

  ghost predicate AssemblyInv(spec: Spec, w: World, exact: bool) {
    var st, d := w.stored, w.disk;
    InOrder(st.repos, w.order) && (w.order == [] || SortedPermutation(w.order, spec.sourceRepos)) &&
    (st.phase.Unset? ==> st == BLANK) &&
    (BeforeMerging(st.phase) ==> NoneIs(st.repos, IsCompleted) && (exact ==> d.mono.None?)) &&
    (st.phase.Merging? || st.phase.Pushing? ==> MergedInOrder(st.repos)) &&
    (st.phase.Merging? && !NoneIs(st.repos, IsCompleted) ==> d.mono.Some?) &&
    ((st.phase.Merging? || st.phase.Pushing?) && d.mono.Some? ==> Holds(st.repos, d.mono.value, exact)) &&
    (st.phase.Completed? ==> d.pushed.Some? && Holds(st.repos, d.pushed.value, exact))
  }

  lemma {:induction false} InitialInOrder(order: seq<SourceRepo>)
    ensures InOrder(InitialRepos(order), order) && NoneIs(InitialRepos(order), IsCompleted)
  {
  }

  lemma {:induction false} NoneCompleted(repos: seq<Repo>)
    ensures NoneIs(repos, IsCompleted) <==> forall r | r in repos :: !IsCompleted(r)
  {
    forall r | r in repos && NoneIs(repos, IsCompleted) ensures !IsCompleted(r) {
      var j :| 0 <= j < |repos| && repos[j] == r;
    }
  }

  lemma {:induction false} CollectKeepsOrder(spec: Spec, st: Status, results: seq<CloneResult>, order: seq<SourceRepo>)
    requires InRange(results, |st.repos|) && InOrder(st.repos, order)
    requires NoneIs(st.repos, IsCompleted) && st.phase.Cloning?
    ensures var st' := Collect(spec, st, results);
      InOrder(st'.repos, order) && NoneIs(st'.repos, IsCompleted) && (st'.phase.Cloning? || st'.phase.Failed?)
    decreases |results|
  {
    if results != [] {
      CollectKeepsOrder(spec, WithClone(st, results[0]), results[1..], order);
    }
  }

  lemma {:induction false} CloneAssembles(spec: Spec, w: World, i: Input, exact: bool)
    requires AssemblyInv(spec, w, exact) && w.stored.phase.Cloning?
    ensures var e := CloneStep(spec, w.stored, w.disk, i);
      AssemblyInv(spec, World(e.st, w.order, e.disk), exact) &&
      (!exact ==> AssemblyInv(spec, w.(disk := e.disk), exact))
  {
    if InRange(i.results, |w.stored.repos|) {
      CollectKeepsOrder(spec, w.stored, i.results, w.order);
    }
    hide Collect;
  }

  lemma {:induction false} RewriteAssembles(spec: Spec, w: World, i: Input, exact: bool)
    requires AssemblyInv(spec, w, exact) && w.stored.phase.Rewriting?
    ensures var e := RewriteStep(spec, w.stored, w.disk, i);
      AssemblyInv(spec, World(e.st, w.order, e.disk), exact) &&
      (!exact ==> AssemblyInv(spec, w.(disk := e.disk), exact))
  {
    hide Count;
  }

  /** The disk of a merging reconcile, before its status is stored. */
  lemma {:induction false} MergeDisk(spec: Spec, w: World, i: Input, exact: bool)
    requires AssemblyInv(spec, w, exact) && w.stored.phase.Merging?
    ensures !exact ==> AssemblyInv(spec, w.(disk := MergeStep(spec, w.stored, w.disk, i).disk), exact)
  {
    hide Count, Recounted, RepoError;
    NoneCompleted(w.stored.repos);
  }

  lemma {:induction false} MergeHolds(repos: seq<Repo>, k: nat, mono: set<string>, exact: bool)
    requires k < |repos| && k == FirstFrom(repos, IsMerging, 0) && MergedInOrder(repos) && Holds(repos, mono, exact)
    ensures var repos' := repos[k := repos[k].(phase := RepoCompleted)];
      Holds(repos', mono + {repos[k].name}, exact) && MergedInOrder(repos') && !NoneIs(repos', IsCompleted)
  {
    var repos' := repos[k := repos[k].(phase := RepoCompleted)];
    assert IsCompleted(repos'[k]);
    forall n | exact && n in mono + {repos[k].name}
      ensures exists j | 0 <= j < |repos'| :: IsCompleted(repos'[j]) && repos'[j].name == n
    {
      if n == repos[k].name {
        assert IsCompleted(repos'[k]);
      } else {
        var j :| 0 <= j < |repos| && IsCompleted(repos[j]) && repos[j].name == n;
        assert repos'[j] == repos[j];
      }
    }
  }

  lemma {:induction false} FailHolds(repos: seq<Repo>, k: nat, error: string, mono: set<string>, exact: bool)
    requires k < |repos| && IsMerging(repos[k]) && MergedInOrder(repos) && Holds(repos, mono, exact)
    ensures var repos' := repos[k := repos[k].(phase := RepoFailed, error := error)];
      Holds(repos', mono, exact) && MergedInOrder(repos') &&
      (NoneIs(repos, IsCompleted) ==> NoneIs(repos', IsCompleted))
  {
    var repos' := repos[k := repos[k].(phase := RepoFailed, error := error)];
    forall n | exact && n in mono
      ensures exists j | 0 <= j < |repos'| :: IsCompleted(repos'[j]) && repos'[j].name == n
    {
      var j :| 0 <= j < |repos| && IsCompleted(repos[j]) && repos[j].name == n;
      assert repos'[j] == repos[j];
    }
  }

  lemma {:induction false} MergeAssembles(spec: Spec, w: World, i: Input, exact: bool)
    requires AssemblyInv(spec, w, exact) && w.stored.phase.Merging?
    ensures var e := MergeStep(spec, w.stored, w.disk, i);
      AssemblyInv(spec, World(e.st, w.order, e.disk), exact)
  {
    hide Count, Holds, MergedInOrder, SortedPermutation, InOrder, NoneIs;
    MonoAtMerge(spec, w, i, exact);
    var repos := w.stored.repos;
    var k := FirstFrom(repos, IsMerging, 0);
    var mono := MonoBefore(repos, w.disk, i);
    if k < |repos| {
      MergeHolds(repos, k, mono, exact);
      FailHolds(repos, k, i.error, mono, exact);
      SameNames(repos, k, repos[k].(phase := RepoCompleted), w.order);
      SameNames(repos, k, repos[k].(phase := RepoFailed, error := i.error), w.order);
    }
  }

  lemma {:induction false} SameNames(repos: seq<Repo>, k: nat, r: Repo, order: seq<SourceRepo>)
    requires InOrder(repos, order) && k < |repos| && r.name == repos[k].name && r.subdirectory == repos[k].subdirectory
    ensures InOrder(repos[k := r], order)
  {
  }

  /** The monorepo that the next merge goes into. */
  ghost function MonoBefore(repos: seq<Repo>, d: Disk, i: Input): set<string> {
    if NoneIs(repos, IsCompleted) || d.mono.None? then InitMono(d, i.emptied).mono.value else d.mono.value
  }

  lemma {:induction false} MonoAtMerge(spec: Spec, w: World, i: Input, exact: bool)
    requires AssemblyInv(spec, w, exact) && w.stored.phase.Merging?
    ensures Holds(w.stored.repos, MonoBefore(w.stored.repos, w.disk, i), exact)
    ensures NoneIs(w.stored.repos, IsCompleted) <==> forall r | r in w.stored.repos :: !IsCompleted(r)
    ensures !NoneIs(w.stored.repos, IsCompleted) ==> w.disk.mono.Some?
  {
    NoneCompleted(w.stored.repos);
  }

  lemma {:induction false} PushAssembles(spec: Spec, w: World, i: Input, exact: bool)
    requires AssemblyInv(spec, w, exact) && w.stored.phase.Pushing?
    ensures var e := PushStep(spec, w.stored, w.disk, i);
      AssemblyInv(spec, World(e.st, w.order, e.disk), exact) && AssemblyInv(spec, w.(disk := e.disk), exact)
  {
    hide Count;
  }

  lemma {:induction false} StepAssembles(spec: Spec, w: World, i: Input, exact: bool)
    requires AssemblyInv(spec, w, exact) && Possible(spec, w, i) && (exact ==> i.delivered)
    requires !Retries(Reconcile(i))
    ensures AssemblyInv(spec, Next(spec, w, Reconcile(i)), exact)
  {
    hide Holds, MergedInOrder, SortedPermutation, CloneStep, RewriteStep, MergeStep, PushStep, InOrder;
    if i.annotation.NoAnnotation? {
      match w.stored.phase
      case Unset => InitialInOrder(i.order);
      case Cloning => CloneAssembles(spec, w, i, exact);
      case Rewriting => RewriteAssembles(spec, w, i, exact);
      case Merging => MergeAssembles(spec, w, i, exact); MergeDisk(spec, w, i, exact);
      case Pushing => PushAssembles(spec, w, i, exact);
      case _ =>
    }
  }

  lemma {:induction false} AlwaysAssembled(spec: Spec, steps: seq<Step>, exact: bool)
    requires Feasible(spec, steps) && NoRetry(steps) && (exact ==> AllDelivered(steps))
    ensures AssemblyInv(spec, Run(spec, steps), exact)
  {
    if steps != [] {
      var before := steps[..|steps| - 1];
      AlwaysAssembled(spec, before, exact);
      if Last(steps).Reconcile? {
        assert !Retries(Last(steps));
        StepAssembles(spec, Run(spec, before), Last(steps).input, exact);
      }
    }
  }

  // ---------- what that says ----------

  /** A push sends every repo whose status is Completed, even when earlier status writes were lost;
      and a Completed migration has pushed them. */
  lemma {:induction false} PushHoldsCompleted(spec: Spec, steps: seq<Step>, i: Input)
    requires Feasible(spec, steps) && NoRetry(steps) && Possible(spec, Run(spec, steps), i)
    requires i.annotation.NoAnnotation?
    ensures var w := Run(spec, steps); var e := Compute(spec, w.stored, w.disk, i);
      forall r | r in w.stored.repos && IsCompleted(r) ::
        (w.stored.phase.Pushing? && e.st.phase.Completed? ==> e.disk.pushed.Some? && r.name in e.disk.pushed.value) &&
        (w.stored.phase.Completed? ==> w.disk.pushed.Some? && r.name in w.disk.pushed.value)
  {
    AlwaysAssembled(spec, steps, false);
    var w := Run(spec, steps);
    forall r | r in w.stored.repos && IsCompleted(r)
      ensures w.stored.phase.Completed? ==> r.name in w.disk.pushed.value
    {
      var j :| 0 <= j < |w.stored.repos| && w.stored.repos[j] == r;
    }
    hide Count;
  }

  /** When no status write is lost, a Completed migration has pushed the Completed repos and no other. */
  lemma {:induction false} PushedExactly(spec: Spec, steps: seq<Step>)
    requires Feasible(spec, steps) && NoRetry(steps) && AllDelivered(steps)
    requires Run(spec, steps).stored.phase.Completed?
    ensures var w := Run(spec, steps);
      w.disk.pushed == Some(set r | r in w.stored.repos && IsCompleted(r) :: r.name)
  {
    AlwaysAssembled(spec, steps, true);
    var w := Run(spec, steps);
    var names := set r | r in w.stored.repos && IsCompleted(r) :: r.name;
    forall n | n in names ensures n in w.disk.pushed.value {
      var r :| r in w.stored.repos && IsCompleted(r) && r.name == n;
      var j :| 0 <= j < |w.stored.repos| && w.stored.repos[j] == r;
    }
    forall n | n in w.disk.pushed.value ensures n in names {
      var j :| 0 <= j < |w.stored.repos| && IsCompleted(w.stored.repos[j]) && w.stored.repos[j].name == n;
      assert w.stored.repos[j] in w.stored.repos;
    }
    assert w.disk.pushed.value == names;
  }

  /** The repos are the spec's, sorted by priority, and the next repo to be merged has no lower priority value
      than any repo merged before it. */
  lemma {:induction false} MergesFollowPriority(spec: Spec, steps: seq<Step>, j: nat)
    requires Feasible(spec, steps) && NoRetry(steps) && Run(spec, steps).stored.phase.Merging?
    requires var repos := Run(spec, steps).stored.repos;
      j < |repos| && IsCompleted(repos[j]) && FirstFrom(repos, IsMerging, 0) < |repos|
    ensures var w := Run(spec, steps); var k := FirstFrom(w.stored.repos, IsMerging, 0);
      SortedPermutation(w.order, spec.sourceRepos) && InOrder(w.stored.repos, w.order) &&
      j < k && w.order[j].priority <= w.order[k].priority
  {
    AlwaysAssembled(spec, steps, false);
    var w := Run(spec, steps);
    var k := FirstFrom(w.stored.repos, IsMerging, 0);
    assert IsMerging(w.stored.repos[k]);
  }
}
