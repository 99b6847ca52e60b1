/** What the outcome of each operation does to the repo it was about, in one reconcile and over whole runs. */
module MonorepoOutcomes {
  import opened Common
  import opened MonorepoMachine
  import opened MonorepoTheorems

  /** The repo that the phase works on next. */
  ghost predicate NextUp(repos: seq<Repo>, k: nat, p: RepoPhase) {
    k < |repos| && repos[k].phase == p && forall j | 0 <= j < k :: repos[j].phase != p
  }

  ghost predicate Nobody(repos: seq<Repo>, p: RepoPhase) {
    forall j | 0 <= j < |repos| :: repos[j].phase != p
  }

  /** A failure of one repo is a failure of the migration only where errors are not to be tolerated. */
  predicate Tolerated(spec: Spec) {
    spec.continueOnError != Some(false)
  }

  /** The k-th repo has become r, and nothing else has changed among the repos. */
  predicate Replaced(repos: seq<Repo>, repos': seq<Repo>, k: nat, r: Repo)
    requires k < |repos|
  {
    repos' == repos[k := r]
  }

  // ---------- one reconcile ----------

  /** Validation decides whether cloning begins. */
  lemma {:induction false} ValidationDecides(spec: Spec, st: Status, d: Disk, i: Input)
    requires st.phase.Validating?
    ensures var e := PhaseStep(spec, st, d, i);
      (e.st.phase.Cloning? <==> i.ok) && (e.st.phase.Failed? <==> !i.ok) && e.disk == d && e.st.repos == st.repos &&
      (!i.ok ==> e.st.errorMessage == i.error)
  {
  }

  /** A rewrite that succeeds makes its repo ready to be merged; one that fails fails it. */
  lemma {:induction false} RewriteDecides(spec: Spec, st: Status, d: Disk, i: Input, k: nat)
    requires st.phase.Rewriting? && NextUp(st.repos, k, RepoRewriting)
    ensures var e := PhaseStep(spec, st, d, i); var r := st.repos[k];
      Replaced(st.repos, e.st.repos, k,
        if i.ok then r.(phase := RepoMerging) else r.(phase := RepoFailed, error := i.error)) &&
      e.st.phase == (if i.ok || Tolerated(spec) then Rewriting else Failed) &&
      e.disk.mono == d.mono && e.disk.pushed == d.pushed
  {
    hide Count;
  }

  /** A merge that succeeds completes its repo, and the monorepo holds it then; one that fails fails it. */
  lemma {:induction false} MergeDecides(spec: Spec, st: Status, d: Disk, i: Input, k: nat)
    requires st.phase.Merging? && NextUp(st.repos, k, RepoMerging)
    requires Nobody(st.repos, RepoCompleted) || d.mono.Some?
    requires Nobody(st.repos, RepoCompleted) ==> i.initialised
    ensures var e := PhaseStep(spec, st, d, i); var r := st.repos[k];
      Replaced(st.repos, e.st.repos, k,
        if i.ok then r.(phase := RepoCompleted) else r.(phase := RepoFailed, error := i.error)) &&
      e.st.phase == (if i.ok || Tolerated(spec) then Merging else Failed) &&
      e.disk.mono.Some? && (i.ok ==> r.name in e.disk.mono.value) && e.disk.pushed == d.pushed
  {
    hide Count;
    Completion(st.repos);
  }

  /** The first merge needs a monorepo. */
  lemma {:induction false} MergeNeedsMonorepo(spec: Spec, st: Status, d: Disk, i: Input)
    requires st.phase.Merging? && Nobody(st.repos, RepoCompleted) && !i.initialised
    ensures PhaseStep(spec, st, d, i).st.phase.Failed? && PhaseStep(spec, st, d, i).st.repos == st.repos
  {
    Completion(st.repos);
  }

  lemma {:induction false} Completion(repos: seq<Repo>)
    ensures Nobody(repos, RepoCompleted) <==> forall r | r in repos :: !IsCompleted(r)
  {
    if Nobody(repos, RepoCompleted) {
      forall r | r in repos ensures !IsCompleted(r) {
        var j :| 0 <= j < |repos| && repos[j] == r;
      }
    } else {
      var j :| 0 <= j < |repos| && repos[j].phase == RepoCompleted;
      assert repos[j] in repos;
    }
  }

  lemma {:induction false} NoneToClone(repos: seq<Repo>, from: nat)
    requires from <= |repos| && Nobody(repos, RepoPending) && Nobody(repos, RepoCloning)
    ensures ToClone(repos, from) == []
    decreases |repos| - from
  {
    if from < |repos| {
      NoneToClone(repos, from + 1);
    }
  }

  /** Cloning needs a token. It begins in a fresh workspace: what an earlier attempt has left there is removed as long
      as every repo is still pending, and kept once one is not. */
  lemma {:induction false} CloningDecides(spec: Spec, st: Status, d: Disk, i: Input)
    requires st.phase.Cloning? && InRange(i.results, |st.repos|)
    ensures var e := PhaseStep(spec, st, d, i);
      var starts := forall k | 0 <= k < |st.repos| :: st.repos[k].phase.RepoPending?;
      var clones := !(Nobody(st.repos, RepoPending) && Nobody(st.repos, RepoCloning));
      (clones && !i.ready ==> e.st.phase.Failed? && e.st.repos == st.repos) && e.disk.known &&
      (e.disk.present <==> (clones && i.ready) || (d.present && !starts)) &&
      e.disk.mono == (if d.present && starts then None else d.mono) && e.disk.pushed == d.pushed
  {
    hide Collect;
    if Nobody(st.repos, RepoPending) && Nobody(st.repos, RepoCloning) {
      NoneToClone(st.repos, 0);
    } else {
      var k :| 0 <= k < |st.repos| && NeedsClone(st.repos[k]);
      ToCloneHas(st.repos, 0, k);
      assert k in ToClone(st.repos, 0);
    }
    Waiting(st.repos);
  }

  lemma {:induction false} Waiting(repos: seq<Repo>)
    ensures (forall k | 0 <= k < |repos| :: repos[k].phase.RepoPending?) <==> forall r | r in repos :: IsPending(r)
  {
    if k :| 0 <= k < |repos| && !repos[k].phase.RepoPending? {
      assert repos[k] in repos;
    }
  }

  /** When no repo is left to a phase, the next phase begins. */
  lemma {:induction false} PhasesFollow(spec: Spec, st: Status, d: Disk, i: Input)
    requires (st.phase.Rewriting? && Nobody(st.repos, RepoRewriting)) ||
      (st.phase.Cloning? && Nobody(st.repos, RepoPending) && Nobody(st.repos, RepoCloning)) ||
      (st.phase.Merging? && Nobody(st.repos, RepoMerging) && !Nobody(st.repos, RepoCompleted))
    ensures PhaseStep(spec, st, d, i).st == st.(phase :=
      if st.phase.Cloning? then Rewriting else if st.phase.Rewriting? then Merging else Pushing)
  {
    if st.phase.Cloning? {
      NoneToClone(st.repos, 0);
    }
    Completion(st.repos);
  }

  /** The migration is completed by a push that succeeds, and what is pushed is the monorepo. */
  lemma {:induction false} PushDecides(spec: Spec, st: Status, d: Disk, i: Input)
    requires st.phase.Pushing?
    ensures var e := PhaseStep(spec, st, d, i);
      (e.st.phase.Completed? <==> !Nobody(st.repos, RepoCompleted) && i.ready && i.ok && d.mono.Some?) &&
      (e.st.phase.Completed? || e.st.phase.Failed?) && e.st.repos == st.repos &&
      (if e.st.phase.Completed? then e.disk.pushed == d.mono && e.disk.mono.None? && !e.disk.present
       else e.disk.pushed == d.pushed && e.disk.mono == d.mono)
  {
    hide Count;
    Completion(st.repos);
  }

  /** What annotations ask for: a retry of what has ended, which resets the repos that failed or were skipped and no
      others and removes the workspace that this process has used; a pause; or a cancellation. */
  lemma {:induction false} AnnotationsDecide(spec: Spec, st: Status, d: Disk, i: Input)
    requires !i.annotation.NoAnnotation?
    ensures var e := Compute(spec, st, d, i);
      if i.annotation.Pause? then e == Effect(st.(phase := Paused), d)
      else if i.annotation.Cancel? then e == Effect(st.(phase := Cancelled), d)
      else if st.phase.Failed? || (i.annotation.Trigger? && (st.phase.Completed? || st.phase.Cancelled?)) then
        e.st.phase.Pending? && e.st.errorMessage == "" && |e.st.repos| == |st.repos| &&
        (forall k | 0 <= k < |st.repos| ::
          var r := st.repos[k];
          e.st.repos[k] ==
            if r.phase.RepoFailed? || r.phase.RepoSkipped? then r.(phase := RepoPending, error := "") else r) &&
        e.disk.pushed == d.pushed &&
        (if d.known then !e.disk.present && e.disk.mono.None? && !e.disk.known else e.disk == d)
      else if i.annotation.Trigger? then e == Effect(st, d)
      else e == PhaseStep(spec, st, d, i)
  {
    hide PhaseStep;
  }

  /** A new migration has one pending repo for each repo of the spec, in the order of priorities, under its own
      subdirectory or else its own name. */
  lemma {:induction false} StartIs(spec: Spec, d: Disk, i: Input)
    ensures var st := PhaseStep(spec, BLANK, d, i).st;
      st.phase.Pending? && |st.repos| == |i.order| == st.total && forall k | 0 <= k < |i.order| ::
        st.repos[k].name == i.order[k].name && st.repos[k].phase.RepoPending? && st.repos[k].error == "" &&
        (i.order[k].subdirectory != "" ==> st.repos[k].subdirectory == i.order[k].subdirectory) &&
        (i.order[k].subdirectory == "" ==> st.repos[k].subdirectory == i.order[k].name)
  {
  }

  /** A reconcile clones every repo that needs it, or as many as the spec allows: three if it does not say, ten at
      most. */
  lemma {:induction false} ClonesAtOnce(spec: Spec, repos: seq<Repo>)
    ensures var n, p := |CloneBatch(spec, repos)|, spec.parallelClones;
      n <= 10 && (p <= 0 ==> n <= 3) && (p > 0 ==> n <= p) &&
      (n < 10 && n < (if p <= 0 then 3 else p) ==>
        forall k: nat | k < |repos| && (repos[k].phase.RepoPending? || repos[k].phase.RepoCloning?) ::
          k in CloneBatch(spec, repos))
  {
    ToCloneIsAll(repos, 0);
  }

  // ---------- whole runs ----------

  /** Step n has been told of a clone of repo k that succeeded. */
  ghost predicate ClonedAt(spec: Spec, steps: seq<Step>, n: nat, k: nat)
    requires n < |steps|
  {
    steps[n].Reconcile? && Run(spec, steps[..n]).stored.phase.Cloning? &&
    CloneResult(k, None) in steps[n].input.results
  }

  /** Step n has rewritten repo k, and that has succeeded. */
  ghost predicate RewrittenAt(spec: Spec, steps: seq<Step>, n: nat, k: nat)
    requires n < |steps|
  {
    var st := Run(spec, steps[..n]).stored;
    steps[n].Reconcile? && st.phase.Rewriting? && NextUp(st.repos, k, RepoRewriting) && steps[n].input.ok
  }

  ghost predicate MergedAt(spec: Spec, steps: seq<Step>, n: nat, k: nat)
    requires n < |steps|
  {
    var st := Run(spec, steps[..n]).stored;
    steps[n].Reconcile? && st.phase.Merging? && NextUp(st.repos, k, RepoMerging) && steps[n].input.ok
  }

  /** Step n has been told with this error that the clone, the rewrite or the merge of repo k has failed; a merge
      fails as well if the monorepo is lost that held the repos merged before. */
  ghost predicate FailedAt(spec: Spec, steps: seq<Step>, n: nat, k: nat, error: string)
    requires n < |steps|
  {
    var w := Run(spec, steps[..n]);
    steps[n].Reconcile? &&
    match w.stored.phase
    case Cloning => CloneResult(k, Some(error)) in steps[n].input.results
    case Rewriting => NextUp(w.stored.repos, k, RepoRewriting) && !steps[n].input.ok && error == steps[n].input.error
    case Merging =>
      NextUp(w.stored.repos, k, RepoMerging) && error == steps[n].input.error &&
      (!steps[n].input.ok || (w.disk.mono.None? && !Nobody(w.stored.repos, RepoCompleted)))
    case _ => false
  }

  ghost predicate Cloned(spec: Spec, steps: seq<Step>, k: nat) {
    exists n | 0 <= n < |steps| :: ClonedAt(spec, steps, n, k)
  }

  ghost predicate Rewritten(spec: Spec, steps: seq<Step>, k: nat) {
    exists n | 0 <= n < |steps| :: RewrittenAt(spec, steps, n, k)
  }

  ghost predicate Merged(spec: Spec, steps: seq<Step>, k: nat) {
    exists n | 0 <= n < |steps| :: MergedAt(spec, steps, n, k)
  }

  ghost predicate FailedBefore(spec: Spec, steps: seq<Step>, k: nat, error: string) {
    exists n | 0 <= n < |steps| :: FailedAt(spec, steps, n, k, error)
  }

  /** The repo has come as far as it has because each operation on the way has succeeded, or failed. */
  ghost predicate Earned(spec: Spec, steps: seq<Step>, k: nat, r: Repo) {
    match r.phase
    case RepoPending => true
    case RepoCloning => false
    case RepoRewriting => Cloned(spec, steps, k)
    case RepoMerging => Cloned(spec, steps, k) && Rewritten(spec, steps, k)
    case RepoCompleted => Cloned(spec, steps, k) && Rewritten(spec, steps, k) && Merged(spec, steps, k)
    case RepoFailed => FailedBefore(spec, steps, k, r.error)
    case RepoSkipped => false
  }

  lemma {:induction false} EarnedStays(spec: Spec, steps: seq<Step>, s: Step, k: nat, r: Repo)
    requires Earned(spec, steps, k, r)
    ensures Earned(spec, steps + [s], k, r)
  {
    var more := steps + [s];
    hide Run, NextUp;
    assert forall n: nat | n <= |steps| :: more[..n] == steps[..n];
    assert forall n: nat | n < |steps| && ClonedAt(spec, steps, n, k) :: ClonedAt(spec, more, n, k);
    assert forall n: nat | n < |steps| && RewrittenAt(spec, steps, n, k) :: RewrittenAt(spec, more, n, k);
    assert forall n: nat | n < |steps| && MergedAt(spec, steps, n, k) :: MergedAt(spec, more, n, k);
    assert forall n: nat | n < |steps| && FailedAt(spec, steps, n, k, r.error) :: FailedAt(spec, more, n, k, r.error);
  }

  /** What one reconcile may do to one repo. */
  ghost predicate Moves(w: World, i: Input, k: nat, r: Repo, r': Repo) {
    var st := w.stored;
    r' == r || r'.phase.RepoPending? ||
    match st.phase
    case Cloning =>
      (r'.phase.RepoRewriting? && CloneResult(k, None) in i.results) ||
      (r'.phase.RepoFailed? && CloneResult(k, Some(r'.error)) in i.results)
    case Rewriting =>
      NextUp(st.repos, k, RepoRewriting) &&
      if i.ok then r'.phase.RepoMerging? else r'.phase.RepoFailed? && r'.error == i.error
    case Merging =>
      NextUp(st.repos, k, RepoMerging) &&
      if i.ok && (w.disk.mono.Some? || Nobody(st.repos, RepoCompleted)) then r'.phase.RepoCompleted?
      else r'.phase.RepoFailed? && r'.error == i.error
    case _ => false
  }

  lemma {:induction false} CollectMoves(
    spec: Spec, st: Status, results: seq<CloneResult>, all: seq<CloneResult>, k: nat)
    requires InRange(results, |st.repos|) && k < |st.repos| && forall x | x in results :: x in all
    ensures var st' := Collect(spec, st, results);
      |st'.repos| == |st.repos| &&
      (st'.repos[k] == st.repos[k] ||
       (st'.repos[k].phase.RepoRewriting? && CloneResult(k, None) in all) ||
       (st'.repos[k].phase.RepoFailed? && CloneResult(k, Some(st'.repos[k].error)) in all))
    decreases |results|
  {
    hide Count;
    if results != [] {
      CollectMoves(spec, WithClone(st, results[0]), results[1..], all, k);
      assert results[0] in all;
    }
  }

  lemma {:induction false} StepMoves(spec: Spec, w: World, i: Input, k: nat)
    requires !w.stored.phase.Unset? && k < |w.stored.repos|
    ensures var st' := PhaseStep(spec, w.stored, w.disk, i).st;
      |st'.repos| == |w.stored.repos| && Moves(w, i, k, w.stored.repos[k], st'.repos[k])
  {
    hide CloneStep, RewriteStep, MergeStep, PushStep, Moves;
    match w.stored.phase
    case Cloning => CloneMoves(spec, w, i, k);
    case Rewriting => RewriteMoves(spec, w, i, k);
    case Merging => MergeMoves(spec, w, i, k);
    case Pushing => PushMoves(spec, w, i, k);
    case _ => StillMoves(w, i, k);
  }

  lemma {:induction false} StillMoves(w: World, i: Input, k: nat)
    requires k < |w.stored.repos|
    ensures Moves(w, i, k, w.stored.repos[k], w.stored.repos[k])
  {
  }

  lemma {:induction false} CloneMoves(spec: Spec, w: World, i: Input, k: nat)
    requires w.stored.phase.Cloning? && k < |w.stored.repos|
    ensures var st' := CloneStep(spec, w.stored, w.disk, i).st;
      |st'.repos| == |w.stored.repos| && Moves(w, i, k, w.stored.repos[k], st'.repos[k])
  {
    hide Count;
    if InRange(i.results, |w.stored.repos|) {
      CollectMoves(spec, w.stored, i.results, i.results, k);
    }
    hide Collect;
  }

  lemma {:induction false} RewriteMoves(spec: Spec, w: World, i: Input, k: nat)
    requires w.stored.phase.Rewriting? && k < |w.stored.repos|
    ensures var st' := RewriteStep(spec, w.stored, w.disk, i).st;
      |st'.repos| == |w.stored.repos| && Moves(w, i, k, w.stored.repos[k], st'.repos[k])
  {
    hide Count;
  }

  lemma {:induction false} MergeMoves(spec: Spec, w: World, i: Input, k: nat)
    requires w.stored.phase.Merging? && k < |w.stored.repos|
    ensures var st' := MergeStep(spec, w.stored, w.disk, i).st;
      |st'.repos| == |w.stored.repos| && Moves(w, i, k, w.stored.repos[k], st'.repos[k])
  {
    Completion(w.stored.repos);
    hide Count;
  }

  lemma {:induction false} PushMoves(spec: Spec, w: World, i: Input, k: nat)
    requires w.stored.phase.Pushing? && k < |w.stored.repos|
    ensures var st' := PushStep(spec, w.stored, w.disk, i).st;
      |st'.repos| == |w.stored.repos| && Moves(w, i, k, w.stored.repos[k], st'.repos[k])
  {
    hide Count;
  }

  lemma {:induction false} ReconcileMoves(spec: Spec, w: World, i: Input, k: nat)
    requires !w.stored.phase.Unset? && k < |w.stored.repos|
    ensures var st' := Next(spec, w, Reconcile(i)).stored;
      |st'.repos| == |w.stored.repos| && Moves(w, i, k, w.stored.repos[k], st'.repos[k])
  {
    StepMoves(spec, w, i, k);
    hide PhaseStep, NextUp;
  }

  lemma {:induction false} EarnedNext(spec: Spec, steps: seq<Step>, s: Step, k: nat)
    requires var w := Run(spec, steps);
      s.Reconcile? && !w.stored.phase.Unset? && k < |w.stored.repos| && Earned(spec, steps, k, w.stored.repos[k])
    ensures var w' := Next(spec, Run(spec, steps), s);
      k < |w'.stored.repos| && Earned(spec, steps + [s], k, w'.stored.repos[k])
  {
    var w := Run(spec, steps);
    var more := steps + [s];
    hide Run;
    ReconcileMoves(spec, w, s.input, k);
    var r, r' := w.stored.repos[k], Next(spec, w, s).stored.repos[k];
    EarnedStays(spec, steps, s, k, r);
    assert more[..|steps|] == steps && more[|steps|] == s;
    assert r' != r && r'.phase.RepoRewriting? ==> ClonedAt(spec, more, |steps|, k);
    assert r' != r && r'.phase.RepoMerging? ==> RewrittenAt(spec, more, |steps|, k);
    assert r' != r && r'.phase.RepoCompleted? ==> MergedAt(spec, more, |steps|, k);
    assert r' != r && r'.phase.RepoFailed? ==> FailedAt(spec, more, |steps|, k, r'.error);
    hide Next, ClonedAt, RewrittenAt, MergedAt, FailedAt;
  }

  lemma {:induction false} SameLength(spec: Spec, w: World, i: Input)
    requires !w.stored.phase.Unset?
    ensures |Next(spec, w, Reconcile(i)).stored.repos| == |w.stored.repos|
  {
    hide PhaseStep;
    StepLength(spec, w.stored, w.disk, i);
  }

  lemma {:induction false} StepLength(spec: Spec, st: Status, d: Disk, i: Input)
    requires !st.phase.Unset?
    ensures |PhaseStep(spec, st, d, i).st.repos| == |st.repos|
  {
    hide Count, Collect, CloneBatch, FirstFrom, InRange, InitMono;
    if st.phase.Cloning? && InRange(i.results, |st.repos|) {
      CollectLength(spec, st, i.results);
    }
  }

  lemma {:induction false} CollectLength(spec: Spec, st: Status, results: seq<CloneResult>)
    requires InRange(results, |st.repos|)
    ensures |Collect(spec, st, results).repos| == |st.repos|
    decreases |results|
  {
    if results != [] {
      CollectLength(spec, WithClone(st, results[0]), results[1..]);
    }
  }

  lemma {:induction false} NewReposWait(spec: Spec, w: World, s: Step)
    requires w.stored.phase.Unset? || s.ProcessRestart?
    ensures var repos := Next(spec, w, s).stored.repos;
      repos == w.stored.repos || forall k | 0 <= k < |repos| :: repos[k].phase.RepoPending?
  {
  }

  lemma {:induction false} WaitingIsEarned(spec: Spec, steps: seq<Step>, k: nat, r: Repo)
    requires r.phase.RepoPending?
    ensures Earned(spec, steps, k, r)
  {
  }

  ghost predicate AllEarned(spec: Spec, steps: seq<Step>, repos: seq<Repo>) {
    forall k | 0 <= k < |repos| :: Earned(spec, steps, k, repos[k])
  }

  lemma {:induction false} AlwaysEarned(spec: Spec, steps: seq<Step>)
    ensures AllEarned(spec, steps, Run(spec, steps).stored.repos)
  {
    if steps != [] {
      var before, s := steps[..|steps| - 1], Last(steps);
      var w := Run(spec, before);
      AlwaysEarned(spec, before);
      assert steps == before + [s];
      if w.stored.phase.Unset? || s.ProcessRestart? {
        NewReposWait(spec, w, s);
      }
      hide Next, Earned;
      forall k | 0 <= k < |Run(spec, steps).stored.repos|
        ensures Earned(spec, steps, k, Run(spec, steps).stored.repos[k])
      {
        if s.Reconcile? && !w.stored.phase.Unset? {
          SameLength(spec, w, s.input);
          EarnedNext(spec, before, s, k);
        } else if Run(spec, steps).stored.repos == w.stored.repos {
          EarnedStays(spec, before, s, k, w.stored.repos[k]);
        } else {
          WaitingIsEarned(spec, steps, k, Run(spec, steps).stored.repos[k]);
        }
      }
    }
  }

  /** On every run, retries and lost writes included: a repo is Completed only if its clone, its rewrite and its merge
      have each succeeded, and Failed only if one of them has failed, with the error that its status holds. */
  lemma {:induction false} StatusIsEarned(spec: Spec, steps: seq<Step>, k: nat)
    requires k < |Run(spec, steps).stored.repos|
    ensures var r := Run(spec, steps).stored.repos[k];
      (r.phase.RepoCompleted? ==>
        (exists n | 0 <= n < |steps| :: ClonedAt(spec, steps, n, k)) &&
        (exists n | 0 <= n < |steps| :: RewrittenAt(spec, steps, n, k)) &&
        exists n | 0 <= n < |steps| :: MergedAt(spec, steps, n, k)) &&
      (r.phase.RepoFailed? ==> exists n | 0 <= n < |steps| :: FailedAt(spec, steps, n, k, r.error))
  {
    AlwaysEarned(spec, steps);
    hide Run, ClonedAt, RewrittenAt, MergedAt, FailedAt;
  }

  // ---------- the migration as a whole ----------

  /** Step n has pushed the monorepo. */
  ghost predicate PushedAt(spec: Spec, steps: seq<Step>, n: nat)
    requires n < |steps|
  {
    var w := Run(spec, steps[..n]);
    steps[n].Reconcile? && steps[n].input.ok && steps[n].input.ready && w.stored.phase.Pushing? && w.disk.mono.Some?
  }

  /** What an operation of this phase reports, or finds on disk, fails the migration. */
  ghost predicate Trouble(w: World, i: Input) {
    match w.stored.phase
    case Validating => !i.ok
    case Cloning => !i.ready || exists x | x in i.results :: x.error.Some?
    case Rewriting => !i.ok
    case Merging => !i.ok || !i.initialised || (w.disk.mono.None? && !Nobody(w.stored.repos, RepoCompleted))
    case Pushing => !i.ok || !i.ready || w.disk.mono.None? || Nobody(w.stored.repos, RepoCompleted)
    case _ => false
  }

  ghost predicate TroubleAt(spec: Spec, steps: seq<Step>, n: nat)
    requires n < |steps|
  {
    steps[n].Reconcile? && Trouble(Run(spec, steps[..n]), steps[n].input)
  }

  ghost predicate EndEarned(spec: Spec, steps: seq<Step>, p: Phase) {
    (p.Completed? ==> exists n | 0 <= n < |steps| :: PushedAt(spec, steps, n)) &&
    (p.Failed? ==> exists n | 0 <= n < |steps| :: TroubleAt(spec, steps, n))
  }

  lemma {:induction false} CollectFails(spec: Spec, st: Status, results: seq<CloneResult>, all: seq<CloneResult>)
    requires InRange(results, |st.repos|) && forall x | x in results :: x in all
    ensures var st' := Collect(spec, st, results);
      st'.phase == st.phase || (st'.phase.Failed? && exists x | x in all :: x.error.Some?)
    decreases |results|
  {
    hide Count;
    if results != [] {
      assert results[0] in all;
      CollectFails(spec, WithClone(st, results[0]), results[1..], all);
    }
  }

  lemma {:induction false} StepEnds(spec: Spec, w: World, i: Input)
    ensures var p, p' := w.stored.phase, PhaseStep(spec, w.stored, w.disk, i).st.phase;
      (p'.Completed? && !p.Completed? ==> p.Pushing? && i.ok && i.ready && w.disk.mono.Some?) &&
      (p'.Failed? && !p.Failed? ==> Trouble(w, i))
  {
    if w.stored.phase.Cloning? && InRange(i.results, |w.stored.repos|) {
      CollectFails(spec, w.stored, i.results, i.results);
    }
    Completion(w.stored.repos);
    hide Collect, Count, CloneBatch;
  }

  lemma {:induction false} EndStays(spec: Spec, steps: seq<Step>, s: Step, p: Phase)
    requires EndEarned(spec, steps, p)
    ensures EndEarned(spec, steps + [s], p)
  {
    var more := steps + [s];
    hide Run, Trouble;
    assert forall n: nat | n <= |steps| :: more[..n] == steps[..n];
    assert forall n: nat | n < |steps| && PushedAt(spec, steps, n) :: PushedAt(spec, more, n);
    assert forall n: nat | n < |steps| && TroubleAt(spec, steps, n) :: TroubleAt(spec, more, n);
  }

  /** On every run: a migration is Completed only because a push has succeeded, and Failed only because something in it
      has. */
  lemma {:induction false} EndIsEarned(spec: Spec, steps: seq<Step>)
    ensures var p := Run(spec, steps).stored.phase;
      (p.Completed? ==> exists n | 0 <= n < |steps| :: PushedAt(spec, steps, n)) &&
      (p.Failed? ==> exists n | 0 <= n < |steps| :: TroubleAt(spec, steps, n))
  {
    if steps != [] {
      var before, s := steps[..|steps| - 1], Last(steps);
      var w := Run(spec, before);
      EndIsEarned(spec, before);
      assert steps == before + [s];
      EndStays(spec, before, s, w.stored.phase);
      if s.Reconcile? {
        StepEnds(spec, w, s.input);
        hide PhaseStep, Trouble;
        var p' := Run(spec, steps).stored.phase;
        assert p' != w.stored.phase && p'.Completed? ==> PushedAt(spec, steps, |before|);
        assert p' != w.stored.phase && p'.Failed? ==> TroubleAt(spec, steps, |before|);
      }
    }
  }
}
