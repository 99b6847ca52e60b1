/** The monorepo reconciler as the imperative program it is: each method carries out the machine's own step. */
module MonorepoController {
  import opened Common
  import opened MonorepoMachine

  /** Insertion of one repo behind those of no greater priority. */
  method InsertByPriority(sorted: seq<SourceRepo>, repo: SourceRepo) returns (r: seq<SourceRepo>)
    requires SortedPermutation(sorted, sorted)
    ensures SortedPermutation(r, sorted + [repo])
  {
    var k := |sorted|;
    while k > 0 && sorted[k - 1].priority > repo.priority
      invariant 0 <= k <= |sorted|
      invariant forall j | k <= j < |sorted| :: sorted[j].priority > repo.priority
    {
      k := k - 1;
    }
    r := sorted[..k] + [repo] + sorted[k..];
    InsertedSorted(sorted, k, repo);
  }

  lemma {:induction false} InsertedElements(sorted: seq<SourceRepo>, k: nat, repo: SourceRepo)
    requires k <= |sorted|
    ensures multiset(sorted[..k] + [repo] + sorted[k..]) == multiset(sorted + [repo])
  {
    assert multiset(sorted[..k] + sorted[k..]) == multiset(sorted) by { assert sorted[..k] + sorted[k..] == sorted; }
  }

  lemma {:induction false} InsertedOrder(sorted: seq<SourceRepo>, k: nat, repo: SourceRepo, i: nat, j: nat)
    requires SortedPermutation(sorted, sorted) && k <= |sorted| && i < j <= |sorted|
    requires k == 0 || sorted[k - 1].priority <= repo.priority
    requires forall j | k <= j < |sorted| :: sorted[j].priority > repo.priority
    ensures var r := sorted[..k] + [repo] + sorted[k..]; r[i].priority <= r[j].priority
  {
    if i < k && j == k {
      assert i < k - 1 ==> sorted[i].priority <= sorted[k - 1].priority;
    } else if i != k {
      assert sorted[if i < k then i else i - 1].priority <= sorted[if j < k then j else j - 1].priority;
    }
  }

  lemma {:induction false} InsertedSorted(sorted: seq<SourceRepo>, k: nat, repo: SourceRepo)
    requires SortedPermutation(sorted, sorted) && k <= |sorted|
    requires k == 0 || sorted[k - 1].priority <= repo.priority
    requires forall j | k <= j < |sorted| :: sorted[j].priority > repo.priority
    ensures SortedPermutation(sorted[..k] + [repo] + sorted[k..], sorted + [repo])
  {
    InsertedElements(sorted, k, repo);
    var r := sorted[..k] + [repo] + sorted[k..];
    forall i, j | 0 <= i < j < |r| ensures r[i].priority <= r[j].priority {
      InsertedOrder(sorted, k, repo, i, j);
    }
  }

  method SortByPriority(repos: seq<SourceRepo>) returns (order: seq<SourceRepo>)
    ensures SortedPermutation(order, repos)
  {
    order := [];
    var n := 0;
    while n < |repos|
      invariant 0 <= n <= |repos| && SortedPermutation(order, repos[..n])
    {
      order := InsertByPriority(order, repos[n]);
      assert repos[..n + 1] == repos[..n] + [repos[n]];
      n := n + 1;
    }
    assert repos[..n] == repos;
  }

  /** A migration in memory, with the workspace that its reconcile works in. */
  class MonoRepoMigration {
    const spec: Spec
    var phase: Phase
    var repos: seq<Repo>
    var total: int
    var completed: int
    var failed: int
    var skipped: int
    var percentage: int
    var errorMessage: string
    var disk: Disk

    function Snapshot(): Status
      reads this
    {
      Status(phase, repos, total, completed, failed, skipped, percentage, errorMessage)
    }

    function State(): Effect
      reads this
    {
      Effect(Snapshot(), disk)
    }

    constructor Fetched(spec: Spec, st: Status, disk: Disk)
      ensures this.spec == spec && State() == Effect(st, disk)
    {
      this.spec, this.disk := spec, disk;
      phase, repos, errorMessage := st.phase, st.repos, st.errorMessage;
      total, completed, failed, skipped, percentage := st.total, st.completed, st.failed, st.skipped, st.percentage;
    }

    method UpdateProgressSummary()
      modifies this`completed, this`failed, this`skipped, this`percentage
      ensures Snapshot() == Recounted(old(Snapshot()))
    {
      var c, f, s, k := 0, 0, 0, 0;
      while k < |repos|
        invariant 0 <= k <= |repos|
        invariant c == Count(repos[..k], IsCompleted) && f == Count(repos[..k], IsFailed)
        invariant s == Count(repos[..k], IsSkipped)
      {
        assert repos[..k + 1][..k] == repos[..k];
        match repos[k].phase {
          case RepoCompleted => c := c + 1;
          case RepoFailed => f := f + 1;
          case RepoSkipped => s := s + 1;
          case _ =>
        }
        k := k + 1;
      }
      assert repos[..k] == repos;
      completed, failed, skipped := c, f, s;
      if |repos| > 0 {
        percentage := ((c + f + s) * 100) / |repos|;
      }
    }

    /** findNextRepoInPhase; no such repo is reported as the number of repos. */
    method FindNextRepo(p: Repo -> bool) returns (k: nat)
      ensures k == FirstFrom(repos, p, 0)
    {
      k := 0;
      while k < |repos| && !p(repos[k])
        invariant 0 <= k <= |repos| && FirstFrom(repos, p, 0) == FirstFrom(repos, p, k)
      {
        k := k + 1;
      }
    }

    method FailMigration(message: string)
      modifies this`phase, this`errorMessage
      ensures Snapshot() == FailedWith(old(Snapshot()), message)
    {
      phase := Failed;
      errorMessage := message;
    }

    method HandleRepoError(k: nat, error: string)
      requires k < |repos|
      modifies this
      ensures Snapshot() == RepoError(spec, old(Snapshot()), k, error) && disk == old(disk)
    {
      repos := repos[k := repos[k].(phase := RepoFailed, error := error)];
      failed := failed + 1;
      if !spec.ContinueOnError() {
        FailMigration("repo failed: " + error);
        return;
      }
      UpdateProgressSummary();
    }

    method RetryMigration()
      modifies this
      ensures State() == Effect(Retried(old(Snapshot())), Cleaned(old(disk)))
    {
      CleanupWorkspace();
      phase := Pending;
      errorMessage := "";
      var k := 0;
      while k < |repos|
        modifies this`repos
        invariant 0 <= k <= |repos| == |old(repos)|
        invariant forall j | 0 <= j < |repos| :: repos[j] == if j < k then ResetRepo(old(repos)[j]) else old(repos)[j]
      {
        if repos[k].phase.RepoFailed? || repos[k].phase.RepoSkipped? {
          repos := repos[k := repos[k].(phase := RepoPending, error := "")];
        }
        k := k + 1;
      }
      assert repos == ResetRepos(old(repos));
    }

    method CleanupWorkspace()
      modifies this`disk
      ensures disk == Cleaned(old(disk))
    {
      if disk.known {
        disk := Removed(disk).(known := false);
      }
    }

    method InitializeStatus() returns (order: seq<SourceRepo>)
      modifies this
      ensures SortedPermutation(order, spec.sourceRepos) && State() == Effect(Initialized(order), old(disk))
    {
      order := SortByPriority(spec.sourceRepos);
      phase, errorMessage := Pending, "";
      repos := [];
      var k := 0;
      while k < |order|
        modifies this`repos
        invariant 0 <= k <= |order| && |repos| == k
        invariant forall j | 0 <= j < k :: repos[j] == InitialRepo(order[j])
      {
        repos := repos + [InitialRepo(order[k])];
        k := k + 1;
      }
      assert repos == InitialRepos(order);
      total, completed, failed, skipped, percentage := |order|, 0, 0, 0, 0;
    }

    /** The batch of repos that one reconcile clones. */
    method PendingBatch() returns (batch: seq<nat>)
      ensures batch == CloneBatch(spec, repos)
    {
      batch := [];
      var k := 0;
      while k < |repos|
        invariant 0 <= k <= |repos| && ToClone(repos, 0) == batch + ToClone(repos, k)
      {
        if repos[k].phase.RepoPending? || repos[k].phase.RepoCloning? {
          Associate(batch, [k], ToClone(repos, k + 1));
          batch := batch + [k];
        }
        k := k + 1;
      }
      if |batch| > spec.ParallelClones() {
        batch := batch[..spec.ParallelClones()];
      }
    }

    /** The loop that drains the results channel of one batch. */
    method CollectResults(results: seq<CloneResult>)
      requires InRange(results, |repos|)
      modifies this
      ensures State() == Effect(Collect(spec, old(Snapshot()), results), old(disk))
    {
      hide Recounted;
      var k := 0;
      while k < |results|
        invariant 0 <= k <= |results| && InRange(results, |repos|) && disk == old(disk)
        invariant Collect(spec, old(Snapshot()), results) == Collect(spec, Snapshot(), results[k..])
      {
        var r := results[k];
        assert results[k..][0] == r && results[k..][1..] == results[k + 1..];
        if r.error.Some? {
          repos := repos[r.index := repos[r.index].(phase := RepoFailed, error := r.error.value)];
          failed := failed + 1;
          if !spec.ContinueOnError() {
            UpdateProgressSummary();
            FailMigration("clone failed: " + r.error.value);
            return;
          }
        } else {
          repos := repos[r.index := repos[r.index].(phase := RepoRewriting)];
        }
        k := k + 1;
      }
      UpdateProgressSummary();
    }

    method ProcessCloning(i: Input)
      requires InRange(i.results, |repos|)
      modifies this
      ensures State() == CloneStep(spec, old(Snapshot()), old(disk), i)
    {
      hide Collect, CloneBatch;
      disk := disk.(known := true);
      if disk.present {
        var waiting := FindNextRepo(r => !IsPending(r));
        if waiting == |repos| {
          AllAre(repos, IsPending);
          disk := Removed(disk);
        } else {
          assert repos[waiting] in repos;
        }
      }
      var batch := PendingBatch();
      if batch == [] {
        phase := Rewriting;
        return;
      }
      if !i.ready {
        FailMigration("no token");
        return;
      }
      CollectResults(i.results);
      disk := disk.(present := true);
    }

    method ProcessRewriting(i: Input)
      modifies this
      ensures State() == RewriteStep(spec, old(Snapshot()), old(disk), i)
    {
      var k := FindNextRepo(IsRewriting);
      if k == |repos| {
        phase := Merging;
        return;
      }
      disk := disk.(known := true);
      if !i.ok {
        HandleRepoError(k, i.error);
        return;
      }
      repos := repos[k := repos[k].(phase := RepoMerging)];
      UpdateProgressSummary();
    }

    method NoRepoCompleted() returns (none: bool)
      ensures none == (forall r | r in repos :: !IsCompleted(r))
    {
      var k := FindNextRepo(IsCompleted);
      none := k == |repos|;
      if !none {
        assert repos[k] in repos;
      }
    }

    method ProcessMerging(i: Input)
      modifies this
      ensures State() == MergeStep(spec, old(Snapshot()), old(disk), i)
    {
      hide Recounted, RepoError, InitMono;
      disk := disk.(known := true);
      var needsInit := NoRepoCompleted();
      if needsInit {
        disk := InitMono(disk, i.emptied);
        if !i.initialised {
          FailMigration("no monorepo");
          return;
        }
      }
      var k := FindNextRepo(IsMerging);
      if k == |repos| {
        phase := Pushing;
        return;
      }
      if !i.ok || disk.mono.None? {
        HandleRepoError(k, i.error);
        return;
      }
      disk := disk.(mono := Some(disk.mono.value + {repos[k].name}));
      repos := repos[k := repos[k].(phase := RepoCompleted)];
      completed := completed + 1;
      UpdateProgressSummary();
    }

    method ProcessPushing(i: Input)
      modifies this
      ensures State() == PushStep(spec, old(Snapshot()), old(disk), i)
    {
      var nothing := NoRepoCompleted();
      if nothing {
        FailMigration("nothing was merged");
        return;
      }
      if !i.ready {
        FailMigration("no target repository");
        return;
      }
      disk := disk.(known := true);
      if !i.ok || disk.mono.None? {
        FailMigration("push failed");
        return;
      }
      disk := disk.(pushed := disk.mono);
      phase := Completed;
      percentage := 100;
      UpdateProgressSummary();
      CleanupWorkspace();
    }

    method ProcessPhase(i: Input) returns (order: seq<SourceRepo>)
      requires phase.Cloning? ==> InRange(i.results, |repos|)
      modifies this
      ensures old(phase).Unset? ==> SortedPermutation(order, spec.sourceRepos)
      ensures State() == PhaseStep(spec, old(Snapshot()), old(disk), i.(order := order))
    {
      hide SortedPermutation, CloneStep, RewriteStep, MergeStep, PushStep;
      order := i.order;
      match phase {
        case Unset => order := InitializeStatus();
        case Pending => phase := Validating;
        case Validating => if i.ok { phase := Cloning; } else { FailMigration(i.error); }
        case Cloning => ProcessCloning(i);
        case Rewriting => ProcessRewriting(i);
        case Merging => ProcessMerging(i);
        case Pushing => ProcessPushing(i);
        case _ =>
      }
    }

    /** One reconcile after the finalizer is in place: annotations first, then the phase. */
    method Reconcile(i: Input) returns (order: seq<SourceRepo>)
      requires phase.Cloning? ==> InRange(i.results, |repos|)
      modifies this
      ensures old(phase).Unset? && phase.Pending? ==> SortedPermutation(order, spec.sourceRepos)
      ensures State() == Compute(spec, old(Snapshot()), old(disk), i.(order := order))
    {
      hide SortedPermutation, PhaseStep;
      order := i.order;
      match i.annotation {
        case NoAnnotation => order := ProcessPhase(i);
        case Trigger => if Terminal(phase) { RetryMigration(); }
        case Pause => phase := Paused;
        case Cancel => phase := Cancelled;
        case RetryRequest => if phase.Failed? { RetryMigration(); } else { order := ProcessPhase(i); }
      }
    }
  }

  /** The controller: it works on a copy of the stored status, and its status write may be lost. */
  class MonoRepoMigrationReconciler {
    const spec: Spec
    var stored: Status
    ghost var order: seq<SourceRepo>
    var disk: Disk

    ghost function Contents(): World
      reads this
    {
      World(stored, order, disk)
    }

    constructor (spec: Spec)
      ensures this.spec == spec && Contents() == START
    {
      this.spec, stored, order, disk := spec, BLANK, [], START.disk;
    }

    method ReconcileOnce(i: Input) returns (ghost taken: Input)
      requires stored.phase.Cloning? ==> InRange(i.results, |stored.repos|)
      modifies this
      ensures taken == i.(order := taken.order)
      ensures old(stored.phase).Unset? && stored.phase.Pending? ==> SortedPermutation(taken.order, spec.sourceRepos)
      ensures Contents() == Next(spec, old(Contents()), Step.Reconcile(taken))
    {
      var migration := new MonoRepoMigration.Fetched(spec, stored, disk);
      var sorted := migration.Reconcile(i);
      taken := i.(order := sorted);
      disk := migration.disk;
      if i.delivered {
        order := if stored.phase.Unset? && migration.phase.Pending? then sorted else order;
        stored := migration.Snapshot();
      }
    }

    method Restart()
      modifies this
      ensures Contents() == Next(spec, old(Contents()), ProcessRestart)
    {
      disk := disk.(known := false);
    }
  }

  lemma {:induction false} AllAre(repos: seq<Repo>, p: Repo -> bool)
    requires forall j | 0 <= j < |repos| :: p(repos[j])
    ensures forall r | r in repos :: p(r)
  {
  }
}
