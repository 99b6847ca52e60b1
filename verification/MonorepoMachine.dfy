/** The monorepo migration: its status record, the workspace on disk, and one reconcile. */
module MonorepoMachine {
  import opened Common

  datatype Phase =
    | Unset | Pending | Validating | Cloning | Rewriting | Merging | Pushing
    | Completed | Failed | Cancelled | Paused

  datatype RepoPhase =
    RepoPending | RepoCloning | RepoRewriting | RepoMerging | RepoCompleted | RepoFailed | RepoSkipped

  datatype SourceRepo = SourceRepo(name: string, subdirectory: string, priority: int)

  datatype Spec = Spec(sourceRepos: seq<SourceRepo>, continueOnError: Option<bool>, parallelClones: int) {
    function ContinueOnError(): bool {
      if continueOnError.None? then true else continueOnError.value
    }

    /** How many repos one reconcile clones. */
    function ParallelClones(): (p: int)
      ensures 1 <= p <= 10
    {
      if parallelClones <= 0 then 3 else if parallelClones > 10 then 10 else parallelClones
    }
  }

  datatype Repo = Repo(name: string, subdirectory: string, phase: RepoPhase, error: string)

  datatype Status = Status(
    phase: Phase, repos: seq<Repo>, total: int, completed: int, failed: int, skipped: int,
    percentage: int, errorMessage: string)

  const BLANK := Status(Unset, [], 0, 0, 0, 0, 0, "")

  predicate IsPending(r: Repo) { r.phase.RepoPending? }
  predicate IsRewriting(r: Repo) { r.phase.RepoRewriting? }
  predicate IsMerging(r: Repo) { r.phase.RepoMerging? }
  predicate IsCompleted(r: Repo) { r.phase.RepoCompleted? }
  predicate IsFailed(r: Repo) { r.phase.RepoFailed? }
  predicate IsSkipped(r: Repo) { r.phase.RepoSkipped? }
  predicate NeedsClone(r: Repo) { r.phase.RepoPending? || r.phase.RepoCloning? }

  predicate Terminal(p: Phase) {
    p.Completed? || p.Failed? || p.Cancelled?
  }

  // ---------- edits of the status record ----------

  function InitialRepo(s: SourceRepo): Repo {
    Repo(s.name, if s.subdirectory == "" then s.name else s.subdirectory, RepoPending, "")
  }

  function InitialRepos(order: seq<SourceRepo>): (repos: seq<Repo>)
    ensures |repos| == |order|
    ensures forall i | 0 <= i < |order| :: repos[i] == InitialRepo(order[i])
  {
    seq(|order|, i requires 0 <= i < |order| => InitialRepo(order[i]))
  }

  function Initialized(order: seq<SourceRepo>): Status {
    Status(Pending, InitialRepos(order), |order|, 0, 0, 0, 0, "")
  }

  /** updateProgressSummary: count the repos afresh. */
  function Recounted(st: Status): Status {
    var c, f, s := Count(st.repos, IsCompleted), Count(st.repos, IsFailed), Count(st.repos, IsSkipped);
    st.(completed := c, failed := f, skipped := s,
        percentage := if |st.repos| > 0 then ((c + f + s) * 100) / |st.repos| else st.percentage)
  }

  function FailedWith(st: Status, message: string): Status {
    st.(phase := Failed, errorMessage := message)
  }

  function WithRepo(st: Status, i: nat, phase: RepoPhase): Status
    requires i < |st.repos|
  {
    st.(repos := st.repos[i := st.repos[i].(phase := phase)])
  }

  function WithError(st: Status, i: nat, error: string): Status
    requires i < |st.repos|
  {
    st.(repos := st.repos[i := st.repos[i].(phase := RepoFailed, error := error)], failed := st.failed + 1)
  }

  /** handleRepoError: without tolerance the migration fails, and the counters are not recounted. */
  function RepoError(spec: Spec, st: Status, i: nat, error: string): Status
    requires i < |st.repos|
  {
    var st' := WithError(st, i, error);
    if spec.ContinueOnError() then Recounted(st') else FailedWith(st', "repo failed: " + error)
  }

  function ResetRepo(r: Repo): Repo {
    if IsFailed(r) || IsSkipped(r) then r.(phase := RepoPending, error := "") else r
  }

  function ResetRepos(repos: seq<Repo>): (r: seq<Repo>)
    ensures |r| == |repos|
    ensures forall i | 0 <= i < |repos| :: r[i] == ResetRepo(repos[i])
  {
    seq(|repos|, i requires 0 <= i < |repos| => ResetRepo(repos[i]))
  }

  function Retried(st: Status): Status {
    st.(phase := Pending, errorMessage := "", repos := ResetRepos(st.repos))
  }

  // ---------- one batch of parallel clones ----------

  /** One clone's result, in the order in which results arrive: the repo's index, and an error if it failed. */
  datatype CloneResult = CloneResult(index: nat, error: Option<string>)

  function WithClone(st: Status, r: CloneResult): Status
    requires r.index < |st.repos|
  {
    if r.error.Some? then WithError(st, r.index, r.error.value) else WithRepo(st, r.index, RepoRewriting)
  }

  predicate InRange(results: seq<CloneResult>, n: nat) {
    forall k | 0 <= k < |results| :: results[k].index < n
  }

  /** The loop over the results channel: without tolerance it stops at the first failure. */
  function Collect(spec: Spec, st: Status, results: seq<CloneResult>): Status
    requires InRange(results, |st.repos|)
    decreases |results|
  {
    if results == [] then Recounted(st)
    else
      var st' := WithClone(st, results[0]);
      if results[0].error.Some? && !spec.ContinueOnError() then
        FailedWith(Recounted(st'), "clone failed: " + results[0].error.value)
      else
        Collect(spec, st', results[1..])
  }

  /** The indices of the repos that need a clone, from index `from` on. */
  function ToClone(repos: seq<Repo>, from: nat): (indices: seq<nat>)
    requires from <= |repos|
    ensures forall k | 0 <= k < |indices| :: from <= indices[k] < |repos| && NeedsClone(repos[indices[k]])
    ensures Distinct(indices)
    decreases |repos| - from
  {
    if from == |repos| then []
    else if NeedsClone(repos[from]) then [from] + ToClone(repos, from + 1)
    else ToClone(repos, from + 1)
  }

  function CloneBatch(spec: Spec, repos: seq<Repo>): seq<nat> {
    var indices := ToClone(repos, 0);
    if |indices| > spec.ParallelClones() then indices[..spec.ParallelClones()] else indices
  }

  function Indices(results: seq<CloneResult>): (s: seq<nat>)
    ensures |s| == |results|
    ensures forall k | 0 <= k < |results| :: s[k] == results[k].index
  {
    seq(|results|, k requires 0 <= k < |results| => results[k].index)
  }

  // ---------- the workspace ----------

  /** The workspace directory of the migration: whether this process knows of it and would remove it, whether it
      exists, and which repos the monorepo in it holds, if there is one; and what has been pushed to GitHub. */
  datatype Disk = Disk(known: bool, present: bool, mono: Option<set<string>>, pushed: Option<set<string>>)

  function Removed(d: Disk): Disk {
    d.(present := false, mono := None)
  }

  /** cleanupWorkspace removes only a workspace that this process has used. */
  function Cleaned(d: Disk): Disk {
    if d.known then Removed(d).(known := false) else d
  }

  // ---------- one reconcile ----------

  datatype Annotation = NoAnnotation | Trigger | Pause | Cancel | RetryRequest

  /** Everything the environment decides in one reconcile. `ok` is the outcome of the phase's external operation,
      `ready` that of the checks before it, `initialised` and `emptied` that of creating the monorepo. */
  datatype Input = Input(
    annotation: Annotation, order: seq<SourceRepo>, ready: bool, ok: bool, error: string,
    results: seq<CloneResult>, initialised: bool, emptied: bool, delivered: bool)

  datatype World = World(stored: Status, order: seq<SourceRepo>, disk: Disk)

  const START := World(BLANK, [], Disk(false, false, None, None))

  ghost predicate SortedPermutation(order: seq<SourceRepo>, repos: seq<SourceRepo>) {
    multiset(order) == multiset(repos) && |order| == |repos| &&
    forall i, j | 0 <= i < j < |order| :: order[i].priority <= order[j].priority
  }

  /** The environment sorts by priority, and gives exactly one clone result for every repo of the batch. */
  ghost predicate Possible(spec: Spec, w: World, i: Input) {
    (w.stored.phase.Unset? ==> SortedPermutation(i.order, spec.sourceRepos)) &&
    (w.stored.phase.Cloning? ==> multiset(Indices(i.results)) == multiset(CloneBatch(spec, w.stored.repos)))
  }

  /** What a reconcile computes: the status it tries to store, and the effects it has on disk in any case. */
  datatype Effect = Effect(st: Status, disk: Disk)

  function CloneStep(spec: Spec, st: Status, d: Disk, i: Input): Effect {
    var d := d.(known := true);
    var d := if d.present && (forall r | r in st.repos :: IsPending(r)) then Removed(d) else d;
    if CloneBatch(spec, st.repos) == [] then Effect(st.(phase := Rewriting), d)
    else if !i.ready then Effect(FailedWith(st, "no token"), d)
    else if InRange(i.results, |st.repos|) then Effect(Collect(spec, st, i.results), d.(present := true))
    else Effect(st, d)
  }

  function RewriteStep(spec: Spec, st: Status, d: Disk, i: Input): Effect {
    var k := FirstFrom(st.repos, IsRewriting, 0);
    if k == |st.repos| then Effect(st.(phase := Merging), d)
    else
      var d := d.(known := true);
      if !i.ok then Effect(RepoError(spec, st, k, i.error), d)
      else Effect(Recounted(WithRepo(st, k, RepoMerging)), d)
  }

  /** InitMonoRepo creates the directory; on one that exists already it may keep or lose what was merged. */
  function InitMono(d: Disk, emptied: bool): Disk {
    d.(present := true, mono := if d.mono.Some? && !emptied then d.mono else Some({}))
  }

  function MergeStep(spec: Spec, st: Status, d: Disk, i: Input): Effect {
    var d := d.(known := true);
    var needsInit := forall r | r in st.repos :: !IsCompleted(r);
    var d := if needsInit then InitMono(d, i.emptied) else d;
    if needsInit && !i.initialised then Effect(FailedWith(st, "no monorepo"), d)
    else
      var k := FirstFrom(st.repos, IsMerging, 0);
      if k == |st.repos| then Effect(st.(phase := Pushing), d)
      else if !i.ok || d.mono.None? then Effect(RepoError(spec, st, k, i.error), d)
      else
        var st' := WithRepo(st, k, RepoCompleted);
        Effect(Recounted(st'.(completed := st'.completed + 1)), d.(mono := Some(d.mono.value + {st.repos[k].name})))
  }

  function PushStep(spec: Spec, st: Status, d: Disk, i: Input): Effect {
    if forall r | r in st.repos :: !IsCompleted(r) then Effect(FailedWith(st, "nothing was merged"), d)
    else if !i.ready then Effect(FailedWith(st, "no target repository"), d)
    else
      var d := d.(known := true);
      if !i.ok || d.mono.None? then Effect(FailedWith(st, "push failed"), d)
      else Effect(Recounted(st.(phase := Completed, percentage := 100)), Cleaned(d.(pushed := d.mono)))
  }

  function PhaseStep(spec: Spec, st: Status, d: Disk, i: Input): Effect {
    match st.phase
    case Unset => Effect(Initialized(i.order), d)
    case Pending => Effect(st.(phase := Validating), d)
    case Validating => Effect(if i.ok then st.(phase := Cloning) else FailedWith(st, i.error), d)
    case Cloning => CloneStep(spec, st, d, i)
    case Rewriting => RewriteStep(spec, st, d, i)
    case Merging => MergeStep(spec, st, d, i)
    case Pushing => PushStep(spec, st, d, i)
    case Completed => Effect(st, d)
    case Failed => Effect(st, d)
    case Cancelled => Effect(st, d)
    case Paused => Effect(st, d)
  }

  function Compute(spec: Spec, st: Status, d: Disk, i: Input): Effect {
    match i.annotation
    case NoAnnotation => PhaseStep(spec, st, d, i)
    case Trigger => if Terminal(st.phase) then Effect(Retried(st), Cleaned(d)) else Effect(st, d)
    case Pause => Effect(st.(phase := Paused), d)
    case Cancel => Effect(st.(phase := Cancelled), d)
    case RetryRequest => if st.phase.Failed? then Effect(Retried(st), Cleaned(d)) else PhaseStep(spec, st, d, i)
  }

  datatype Step = Reconcile(input: Input) | ProcessRestart

  /** A status write that is not delivered leaves the stored status as it was; the disk has changed all the same. */
  function Next(spec: Spec, w: World, s: Step): World {
    match s
    case ProcessRestart => w.(disk := w.disk.(known := false))
    case Reconcile(i) =>
      var e := Compute(spec, w.stored, w.disk, i);
      if i.delivered then
        World(e.st, if w.stored.phase.Unset? && e.st.phase.Pending? then i.order else w.order, e.disk)
      else w.(disk := e.disk)
  }

  function Run(spec: Spec, steps: seq<Step>): World {
    if steps == [] then START else Next(spec, Run(spec, steps[..|steps| - 1]), Last(steps))
  }

  ghost predicate Feasible(spec: Spec, steps: seq<Step>) {
    steps == [] ||
    (Feasible(spec, steps[..|steps| - 1]) &&
     (Last(steps).Reconcile? ==> Possible(spec, Run(spec, steps[..|steps| - 1]), Last(steps).input)))
  }
}
