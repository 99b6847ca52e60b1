/** What the outcome of a resource's migration does to its entry and to the migration, in one reconcile and over runs.
    */
module AdoToGitOutcomes {
  import opened Common
  import opened Resources
  import opened AdoToGitMachine
  import opened AdoToGitTheorems

  /** The place of the first entry of that name, or the place after the last entry. */
  ghost predicate PlaceOf(entries: seq<Entry>, name: string, j: nat) {
    j <= |entries| && (j < |entries| ==> entries[j].source == name) &&
    forall i | 0 <= i < j :: entries[i].source != name
  }

  predicate IsOver(e: Entry) {
    e.state.ResCompleted? || e.state.ResFailed?
  }

  ghost predicate IsDone(entries: seq<Entry>, name: string) {
    exists j: nat | PlaceOf(entries, name, j) :: j < |entries| && IsOver(entries[j])
  }

  /** Resource k is the first that is not done. */
  ghost predicate NextUp(spec: seq<Resource>, entries: seq<Entry>, k: nat) {
    k < |spec| && !IsDone(entries, spec[k].source) && forall j | 0 <= j < k :: IsDone(entries, spec[j].source)
  }

  /** The entry says how the migration of this resource ended at that time. */
  predicate TellsOf(e: Entry, r: Resource, i: Input) {
    e.id == r.id && e.kind == r.kind && e.source == r.source && e.target == r.target &&
    e.completionTime == Some(i.now) &&
    if i.ok then e.state.ResCompleted? && e.progress == 100
    else e.state.ResFailed? && e.progress == 0 && e.error == i.error
  }

  lemma {:induction false} DoneIs(entries: seq<Entry>, name: string)
    ensures IsDone(entries, name) <==> SettledByName(entries, name)
    ensures PlaceOf(entries, name, FirstBySource(entries, name))
  {
    var j := FirstBySource(entries, name);
    assert forall i: nat | PlaceOf(entries, name, i) :: i == j;
    hide FirstBySource;
  }

  lemma {:induction false} NextUpIs(spec: seq<Resource>, entries: seq<Entry>, k: nat)
    requires k <= |spec|
    ensures NextUp(spec, entries, k) ==> NextResource(spec, entries) == k
    ensures (forall j | 0 <= j < |spec| :: IsDone(entries, spec[j].source)) <==> NextResource(spec, entries) == |spec|
    ensures NextResource(spec, entries) < |spec| ==> NextUp(spec, entries, NextResource(spec, entries))
  {
    forall j | 0 <= j < |spec| ensures IsDone(entries, spec[j].source) <==> SettledByName(entries, spec[j].source) {
      DoneIs(entries, spec[j].source);
    }
    hide IsDone, SettledByName;
  }

  // ---------- one reconcile ----------

  /** The outcome of the resource's migration is put in its place, and counted. */
  ghost predicate Settles(st: Status, st': Status, r: Resource, i: Input) {
    (exists j: nat | PlaceOf(st.entries, r.source, j) ::
      |st'.entries| == (if j < |st.entries| then |st.entries| else j + 1) && TellsOf(st'.entries[j], r, i) &&
      forall m | 0 <= m < |st.entries| && m != j :: st'.entries[m] == st.entries[m]) &&
    st'.completed == st.completed + (if i.ok then 1 else 0) && st'.failed == st.failed + (if i.ok then 0 else 1) &&
    st'.processing == 0 && st'.total == st.total && st'.skipped == st.skipped && PercentageIsExact(st')
  }

  /** The percentage is that of the resources that are over, rounded down. */
  predicate PercentageIsExact(st: Status) {
    st.total > 0 ==>
      st.percentage * st.total <= 100 * (st.completed + st.failed) < (st.percentage + 1) * st.total
  }

  lemma {:induction false} WithPercentageIsExact(st: Status)
    ensures PercentageIsExact(WithPercentage(st))
  {
  }

  /** A running reconcile announces the first resource that is not done, and stores how its migration ended. A failure
      ends the migration; so does the success of the last resource, which leads to continuous sync if that is wanted. */
  lemma {:induction false} OutcomeDecides(spec: seq<Resource>, st: Status, i: Input, k: nat)
    requires i.token && NextUp(spec, st.entries, k)
    ensures var writes := RunningWrites(spec, st, i);
      |writes| == (if i.ok && k == |spec| - 1 then 3 else 2) && writes[0] == st.(processing := 1) &&
      Settles(st, writes[1], spec[k], i) && writes[1].phase == (if i.ok then st.phase else Failed) &&
      (|writes| == 3 ==>
        writes[2] == writes[1].(phase := if i.sync then Syncing else Completed, percentage := 100))
  {
    NextUpIs(spec, st.entries, k);
    DoneIs(st.entries, spec[k].source);
    hide NextResource, FirstBySource, NextUp, IsDone;
    var writes := RunningWrites(spec, st, i);
    ProcessedIs(st.(processing := 1), spec[k], i);
    hide Processed, PutEntry, PercentageIsExact;
    var j := FirstBySource(st.entries, spec[k].source);
    assert TellsOf(writes[1].entries[j], spec[k], i);
  }

  lemma {:induction false} ProcessedIs(st: Status, r: Resource, i: Input)
    ensures var st' := Processed(st, r, i.ok, i.error, i.now);
      st'.entries == PutEntry(st.entries, Outcome(r, i.ok, i.error, i.now)) && PercentageIsExact(st') &&
      st'.completed == st.completed + (if i.ok then 1 else 0) && st'.failed == st.failed + (if i.ok then 0 else 1) &&
      st'.processing == 0 && st'.total == st.total && st'.skipped == st.skipped && st'.phase == st.phase
  {
    hide PercentageIsExact, PutEntry;
    WithPercentageIsExact(st.(entries := PutEntry(st.entries, Outcome(r, i.ok, i.error, i.now)), processing := 0,
      completed := st.completed + (if i.ok then 1 else 0), failed := st.failed + (if i.ok then 0 else 1)));
  }

  /** Without a token the migration fails, and with nothing left to do it is over. */
  lemma {:induction false} NothingIsMigrated(spec: seq<Resource>, st: Status, i: Input)
    requires !i.token || forall j | 0 <= j < |spec| :: IsDone(st.entries, spec[j].source)
    ensures RunningWrites(spec, st, i) ==
      [if !i.token then st.(phase := Failed, processing := 0)
       else st.(phase := if i.sync then Syncing else Completed, percentage := 100, processing := 0)]
  {
    NextUpIs(spec, st.entries, |spec|);
  }

  // ---------- whole runs ----------

  /** Step n has migrated resource k of its spec, and the entry says how that ended. */
  ghost predicate MigratedAt(steps: seq<Step>, n: nat, e: Entry)
    requires n < |steps|
  {
    steps[n].Work? && steps[n].input.token && Run(steps[..n]).st.phase.Running? &&
    exists k: nat | NextUp(steps[n].spec, Run(steps[..n]).st.entries, k) :: TellsOf(e, steps[n].spec[k], steps[n].input)
  }

  ghost predicate Reported(steps: seq<Step>, e: Entry) {
    exists n | 0 <= n < |steps| :: MigratedAt(steps, n, e)
  }

  ghost predicate AllReported(steps: seq<Step>, entries: seq<Entry>) {
    forall e | e in entries && IsOver(e) :: Reported(steps, e)
  }

  lemma {:induction false} ReportsStay(steps: seq<Step>, s: Step, entries: seq<Entry>)
    requires AllReported(steps, entries)
    ensures AllReported(steps + [s], entries)
  {
    var more := steps + [s];
    hide Run, NextUp;
    assert forall n: nat | n <= |steps| :: more[..n] == steps[..n];
    forall e | e in entries && IsOver(e) ensures Reported(more, e) {
      var n :| 0 <= n < |steps| && MigratedAt(steps, n, e);
      assert MigratedAt(more, n, e);
    }
  }

  lemma {:induction false} WorkReports(steps: seq<Step>, spec: seq<Resource>, i: Input)
    requires AllReported(steps, Run(steps).st.entries) && Run(steps).st.phase.Running?
    ensures var st := Run(steps).st;
      AllReported(steps + [Work(spec, i)], StoredOf(st, RunningWrites(spec, st, i), i.stored).entries)
  {
    var st := Run(steps).st;
    var more := steps + [Work(spec, i)];
    ReportsStay(steps, Work(spec, i), st.entries);
    NextUpIs(spec, st.entries, 0);
    var k := NextResource(spec, st.entries);
    hide Run, NextResource, NextUp, PutEntry;
    if i.token && k < |spec| {
      var e := Outcome(spec[k], i.ok, i.error, i.now);
      ReportedNow(steps, spec, i, k);
      WorkPuts(spec, st, i, k);
      hide Reported, StoredOf, RunningWrites, Outcome;
      PutIsReported(more, st.entries, e);
    } else {
      hide AllReported;
    }
  }

  lemma {:induction false} PutIsReported(steps: seq<Step>, entries: seq<Entry>, e: Entry)
    requires AllReported(steps, entries) && Reported(steps, e)
    ensures AllReported(steps, PutEntry(entries, e))
  {
    PutIn(entries, e);
    hide Reported, PutEntry;
  }

  lemma {:induction false} ReportedNow(steps: seq<Step>, spec: seq<Resource>, i: Input, k: nat)
    requires Run(steps).st.phase.Running? && i.token && NextUp(spec, Run(steps).st.entries, k)
    ensures Reported(steps + [Work(spec, i)], Outcome(spec[k], i.ok, i.error, i.now))
  {
    var more, e := steps + [Work(spec, i)], Outcome(spec[k], i.ok, i.error, i.now);
    hide Run, NextUp;
    assert more[..|steps|] == steps && more[|steps|] == Work(spec, i) && TellsOf(e, spec[k], i);
    assert MigratedAt(more, |steps|, e);
  }

  lemma {:induction false} WorkPuts(spec: seq<Resource>, st: Status, i: Input, k: nat)
    requires i.token && k < |spec| && NextResource(spec, st.entries) == k
    ensures var es := StoredOf(st, RunningWrites(spec, st, i), i.stored).entries;
      es == st.entries || es == PutEntry(st.entries, Outcome(spec[k], i.ok, i.error, i.now))
  {
    hide NextResource, PutEntry;
    ProcessedIs(st.(processing := 1), spec[k], i);
    hide Processed;
  }

  lemma {:induction false} PutIn(entries: seq<Entry>, e: Entry)
    ensures forall x | x in PutEntry(entries, e) :: x == e || x in entries
  {
    hide FirstBySource;
  }

  /** Every entry that is over was in the first list already. */
  ghost predicate NoneSettled(entries: seq<Entry>, entries': seq<Entry>) {
    forall e | e in entries' && IsOver(e) :: e in entries
  }

  lemma {:induction false} RestartSettlesNone(st: Status, spec: seq<Resource>, removed: seq<string>)
    ensures NoneSettled(st.entries, Restarted(st, spec, removed).entries)
  {
    var modified := ModifiedResources(Existing(st.entries), spec);
    SkipSettlesNone(st, removed);
    ResetSettlesNone(SkipIds(st, removed), modified);
    hide SkipIds, ResetAll, Existing, NewResources, ModifiedResources;
  }

  lemma {:induction false} SkipSettlesNone(st: Status, ids: seq<string>)
    ensures NoneSettled(st.entries, SkipIds(st, ids).entries)
  {
    if ids != [] {
      SkipSettlesNone(st, ids[..|ids| - 1]);
      hide FirstById;
    }
  }

  lemma {:induction false} ResetSettlesNone(st: Status, rs: seq<Resource>)
    ensures NoneSettled(st.entries, ResetAll(st, rs).entries)
  {
    if rs != [] {
      ResetSettlesNone(st, rs[..|rs| - 1]);
      hide FirstById;
    }
  }

  /** On every run: an entry is Completed or Failed because a step has migrated the resource that it names, and that has
      succeeded, or failed with the error that the entry holds. */
  lemma {:induction false} EntriesAreReported(steps: seq<Step>)
    ensures forall e | e in Run(steps).st.entries && (e.state.ResCompleted? || e.state.ResFailed?) ::
      exists n | 0 <= n < |steps| :: MigratedAt(steps, n, e)
  {
    AlwaysReported(steps);
    hide Run, MigratedAt;
  }

  lemma {:induction false} AlwaysReported(steps: seq<Step>)
    ensures AllReported(steps, Run(steps).st.entries)
  {
    if steps != [] {
      var before, s := steps[..|steps| - 1], Last(steps);
      var st := Run(before).st;
      AlwaysReported(before);
      assert steps == before + [s];
      ReportsStay(before, s, st.entries);
      if s.Work? && st.phase.Running? {
        WorkReports(before, s.spec, s.input);
      } else if s.SpecChange? && Terminal(st.phase) {
        RestartSettlesNone(st, s.spec, s.removed);
        NoneNew(steps, st.entries, Restarted(st, s.spec, s.removed).entries);
      }
      assert Run(steps) == Next(Run(before), s);
      hide StoredOf, RunningWrites, Restarted, Run, NoChanges, AllReported;
    }
  }

  lemma {:induction false} NoneNew(steps: seq<Step>, entries: seq<Entry>, entries': seq<Entry>)
    requires AllReported(steps, entries) && NoneSettled(entries, entries')
    ensures AllReported(steps, entries')
  {
    hide Reported;
  }

  // ---------- phases and progress, over whole runs ----------

  /** Step n has brought the migration into that phase, and what it reports is the reason. */
  ghost predicate BringsTo(steps: seq<Step>, n: nat, p: Phase)
    requires n < |steps|
  {
    var w := Run(steps[..n]);
    match steps[n]
    case Validated(passed) => w.st.phase.Validating? && p == (if passed then Running else Failed)
    case Work(spec, i) =>
      w.st.phase.Running? &&
      if !i.token then p.Failed?
      else if !i.ok && exists k: nat :: NextUp(spec, w.st.entries, k) then p.Failed?
      else p == (if i.sync then Syncing else Completed)
    case LeaveSync => w.st.phase.Syncing? && p.Completed?
    case SpecChange(_, _) => (w.st.phase.Completed? || w.st.phase.Failed? || w.st.phase.Cancelled?) && p.Running?
    case _ => false
  }

  /** On every run: a migration is Failed because its validation, its token or the migration of a resource has failed;
      Syncing or Completed because a reconcile with a token has found nothing left to do or has done the last of it, and
      continuous sync was wanted or not; and Completed, too, when continuous sync has been left. */
  lemma {:induction false} PhasesAreEarned(steps: seq<Step>)
    ensures var p := Run(steps).st.phase;
      p.Running? || p.Failed? || p.Syncing? || p.Completed? ==>
        exists n | 0 <= n < |steps| :: BringsTo(steps, n, p)
  {
    AlwaysEarned(steps);
    hide Run, BringsTo;
  }

  ghost predicate Earned(steps: seq<Step>, p: Phase) {
    p.Running? || p.Failed? || p.Syncing? || p.Completed? ==>
      exists n | 0 <= n < |steps| :: BringsTo(steps, n, p)
  }

  lemma {:induction false} AlwaysEarned(steps: seq<Step>)
    ensures Earned(steps, Run(steps).st.phase)
  {
    if steps != [] {
      var before, s, p := steps[..|steps| - 1], Last(steps), Run(steps).st.phase;
      assert before <= steps && steps == before + [s];
      hide Run, BringsTo, Earned;
      if p == Run(before).st.phase {
        AlwaysEarned(before);
        EarnedStill(before, steps, p);
      } else {
        StepBrings(before, s, steps);
        EarnedNow(steps, |before|, p);
      }
    }
  }

  lemma {:induction false} EarnedNow(steps: seq<Step>, n: nat, p: Phase)
    requires n < |steps| && (p.Running? || p.Failed? || p.Syncing? || p.Completed? ==> BringsTo(steps, n, p))
    ensures Earned(steps, p)
  {
    hide BringsTo;
  }

  lemma {:induction false} EarnedStill(before: seq<Step>, steps: seq<Step>, p: Phase)
    requires before <= steps && Earned(before, p)
    ensures Earned(steps, p)
  {
    hide BringsTo;
    if n: nat :| n < |before| && BringsTo(before, n, p) {
      BringsStill(before, steps, n, p);
    }
  }

  lemma {:induction false} BringsStill(before: seq<Step>, steps: seq<Step>, n: nat, p: Phase)
    requires before <= steps && n < |before| && BringsTo(before, n, p)
    ensures BringsTo(steps, n, p)
  {
    assert before[..n] == steps[..n] && before[n] == steps[n];
    hide Run, NextUp;
  }

  lemma {:induction false} StepBrings(before: seq<Step>, s: Step, steps: seq<Step>)
    requires steps == before + [s] && Run(steps).st.phase != Run(before).st.phase
    ensures var p := Run(steps).st.phase;
      p.Running? || p.Failed? || p.Syncing? || p.Completed? ==> BringsTo(steps, |before|, p)
  {
    var w := Run(before);
    assert steps[..|before|] == before && steps[|before|] == s;
    assert Run(steps) == Next(w, s);
    hide Run, Restarted, RunningWrites, StoredOf, NextUp;
    if s.Work? && w.st.phase.Running? {
      WorkBrings(s.spec, w.st, s.input);
    } else if s.SpecChange? && Terminal(w.st.phase) {
      RestartPhase(w.st, s.spec, s.removed);
    }
  }

  lemma {:induction false} WorkBrings(spec: seq<Resource>, st: Status, i: Input)
    requires st.phase.Running?
    ensures var p := StoredOf(st, RunningWrites(spec, st, i), i.stored).phase;
      p.Running? ||
      if !i.token then p.Failed?
      else if !i.ok && exists k: nat :: NextUp(spec, st.entries, k) then p.Failed?
      else p == (if i.sync then Syncing else Completed)
  {
    NextUpIs(spec, st.entries, 0);
    hide NextResource, NextUp, IsDone;
    var k := NextResource(spec, st.entries);
    if k < |spec| { ProcessedIs(st.(processing := 1), spec[k], i); }
    hide Processed;
  }

  /** A request to pause is obeyed, and nothing but a request to cancel ends the pause; a request to cancel is obeyed,
      and nothing but a changed spec or a request to pause revives the migration. */
  lemma {:induction false} RequestsHold(steps: seq<Step>, n: nat)
    requires n < |steps|
    ensures steps[n].PauseRequest? && (forall m | n < m < |steps| :: !steps[m].CancelRequest?) ==>
      Run(steps).st == Run(steps[..n]).st.(phase := Paused)
    ensures steps[n].CancelRequest? ==>
      (forall m | n < m < |steps| :: !steps[m].SpecChange? && !steps[m].PauseRequest?) ==>
      Run(steps).st == Run(steps[..n]).st.(phase := Cancelled)
  {
    hide RunningWrites, StoredOf, Restarted;
    if n < |steps| - 1 {
      var before := steps[..|steps| - 1];
      RequestsHold(before, n);
      assert before[..n] == steps[..n] && forall m | n < m < |before| :: before[m] == steps[m];
    }
  }

  predicate ProgressInv(st: Status) {
    (st.phase.Unset? ==> st == BLANK) && (st.processing == 0 || st.processing == 1) &&
    match st.phase
    case Pending => PercentageIsExact(st)
    case Validating => PercentageIsExact(st)
    case Running => PercentageIsExact(st)
    case Failed => PercentageIsExact(st) && st.processing == 0
    case Syncing => st.percentage == 100 && st.processing == 0
    case Completed => st.percentage == 100 && st.processing == 0
    case _ => true
  }

  lemma {:induction false} WorkProgresses(spec: seq<Resource>, st: Status, i: Input)
    requires st.phase.Running? && ProgressInv(st)
    ensures ProgressInv(StoredOf(st, RunningWrites(spec, st, i), i.stored))
  {
    var k := NextResource(spec, st.entries);
    hide NextResource;
    var begun := st.(processing := 1);
    if k < |spec| { ProcessedIs(begun, spec[k], i); }
    hide Processed;
  }

  lemma {:induction false} RestartProgresses(st: Status, spec: seq<Resource>, removed: seq<string>)
    requires Terminal(st.phase) && ProgressInv(st)
    ensures ProgressInv(Restarted(st, spec, removed))
  {
    SkipsLeave(st, removed);
    ResetsLeave(SkipIds(st, removed), ModifiedResources(Existing(st.entries), spec));
    hide SkipIds, ResetAll, Existing, ModifiedResources, NewResources, NoChanges;
    var st1 := ResetAll(SkipIds(st, removed), ModifiedResources(Existing(st.entries), spec));
    var st2 := st1.(total := |spec|, entries := st1.entries + FreshAll(NewResources(Existing(st.entries), spec)));
    WithPercentageIsExact(st2);
    assert WithPercentage(st2).processing == st.processing;
    hide WithPercentage;
  }

  lemma {:induction false} SkipsLeave(st: Status, ids: seq<string>)
    ensures SkipIds(st, ids).processing == st.processing
  {
    if ids != [] { SkipsLeave(st, ids[..|ids| - 1]); }
  }

  lemma {:induction false} ResetsLeave(st: Status, rs: seq<Resource>)
    ensures ResetAll(st, rs).processing == st.processing
  {
    if rs != [] { ResetsLeave(st, rs[..|rs| - 1]); }
  }

  /** On every run: until a migration completes, its percentage is exact, and once it has completed it is 100. Nothing
      is being processed in a migration that has failed or completed. */
  lemma {:induction false} ProgressIsExact(steps: seq<Step>)
    ensures var st := Run(steps).st;
      (st.total > 0 && (st.phase.Pending? || st.phase.Validating? || st.phase.Running? || st.phase.Failed?) ==>
        st.percentage * st.total <= 100 * (st.completed + st.failed) < (st.percentage + 1) * st.total) &&
      (st.phase.Syncing? || st.phase.Completed? ==> st.percentage == 100) &&
      (st.phase.Failed? || st.phase.Syncing? || st.phase.Completed? ==> st.processing == 0) &&
      0 <= st.processing <= 1
  {
    AlwaysProgress(steps);
    hide Run;
  }

  lemma {:induction false} AlwaysProgress(steps: seq<Step>)
    ensures ProgressInv(Run(steps).st)
  {
    if steps != [] {
      var st, s := Run(steps[..|steps| - 1]).st, Last(steps);
      AlwaysProgress(steps[..|steps| - 1]);
      hide StoredOf, RunningWrites, Restarted;
      match s
      case Work(spec, i) => if st.phase.Running? { WorkProgresses(spec, st, i); }
      case SpecChange(spec, removed) => if Terminal(st.phase) { RestartProgresses(st, spec, removed); }
      case _ =>
    }
  }

  // ---------- a migration in which nothing fails ----------

  /** One reconcile with a token, in which the migration of its resource succeeds and every status write is stored. */
  predicate Smooth(s: Step, spec: seq<Resource>, sync: bool) {
    s.Work? && s.spec == spec && s.input.token && s.input.ok && s.input.sync == sync && s.input.stored >= 3
  }

  function Opening(spec: seq<Resource>): seq<Step> {
    [Initialise(spec), Validate, Validated(true)]
  }

  /** Whatever is over has succeeded, and resources before m are done. */
  ghost predicate SmoothInv(spec: seq<Resource>, st: Status, sync: bool, m: nat) {
    st.total == |spec| && st.failed == 0 &&
    (forall e | e in st.entries :: e.state.ResCompleted? && e.progress == 100) &&
    if st.phase.Running? then m <= NextResource(spec, st.entries)
    else st.phase == (if sync then Syncing else Completed) && NextResource(spec, st.entries) == |spec|
  }

  lemma {:induction false} NextAtLeast(spec: seq<Resource>, entries: seq<Entry>, m: nat)
    requires m <= |spec| && forall j | 0 <= j < m :: SettledByName(entries, spec[j].source)
    ensures NextResource(spec, entries) >= m
  {
    hide SettledByName;
  }

  lemma {:induction false} WorkIsSmooth(spec: seq<Resource>, w: World, s: Step, sync: bool, m: nat)
    requires SmoothInv(spec, w.st, sync, m) && Smooth(s, spec, sync)
    ensures SmoothInv(spec, Next(w, s).st, sync, m + 1)
    ensures m + 1 >= |spec| ==> !Next(w, s).st.phase.Running?
  {
    hide Processed, NextResource, PutEntry;
    var st, k, i := w.st, NextResource(spec, w.st.entries), s.input;
    if st.phase.Running? && k < |spec| {
      var done := Processed(st.(processing := 1), spec[k], true, i.error, i.now);
      assert Next(w, s).st == if k < |spec| - 1 then done else Complete(done, sync);
      DoneIsSmooth(spec, st, i, k);
    }
  }

  lemma {:induction false} DoneIsSmooth(spec: seq<Resource>, st: Status, i: Input, k: nat)
    requires k < |spec| && NextResource(spec, st.entries) == k && i.ok
    requires forall e | e in st.entries :: e.state.ResCompleted? && e.progress == 100
    ensures var done := Processed(st.(processing := 1), spec[k], true, i.error, i.now);
      NextResource(spec, done.entries) > k && done.total == st.total && done.failed == st.failed &&
      done.phase == st.phase && forall e | e in done.entries :: e.state.ResCompleted? && e.progress == 100
  {
    hide Processed, NextResource, PutEntry, FirstBySource;
    var e := Outcome(spec[k], true, i.error, i.now);
    ProcessedIs(st.(processing := 1), spec[k], i);
    PutIn(st.entries, e);
    forall j | 0 <= j < k + 1 ensures SettledByName(PutEntry(st.entries, e), spec[j].source) {
      PutKeepsSettled(st.entries, e, spec[j].source);
    }
    NextAtLeast(spec, PutEntry(st.entries, e), k + 1);
  }

  lemma {:induction false} OpeningRuns(spec: seq<Resource>)
    ensures Run(Opening(spec)).st == Status(Running, [], |spec|, 0, 0, 0, 0, 0)
  {
    var run := Opening(spec);
    assert run[..2] == [Initialise(spec), Validate] && run[..2][..1] == [Initialise(spec)];
    assert run[..2][..1][..0] == [];
    assert Run([Initialise(spec)]).st == Status(Pending, [], |spec|, 0, 0, 0, 0, 0);
    assert Run(run[..2]).st == Status(Validating, [], |spec|, 0, 0, 0, 0, 0);
  }

  lemma {:induction false} RunGoesOn(first: seq<Step>, steps: seq<Step>)
    requires steps != []
    ensures Run(first + steps) == Next(Run(first + steps[..|steps| - 1]), Last(steps))
  {
    hide Next;
    var all := first + steps;
    assert all[..|all| - 1] == first + steps[..|steps| - 1] && Last(all) == Last(steps);
  }

  lemma {:induction false} RunIsSmooth(spec: seq<Resource>, steps: seq<Step>, sync: bool)
    requires forall n | 0 <= n < |steps| :: Smooth(steps[n], spec, sync)
    ensures SmoothInv(spec, Run(Opening(spec) + steps).st, sync, |steps|)
    ensures |steps| >= 1 && |steps| >= |spec| ==> !Run(Opening(spec) + steps).st.phase.Running?
  {
    var run := Opening(spec) + steps;
    if steps == [] {
      assert run == Opening(spec);
      OpeningRuns(spec);
      hide Run, NextResource;
    } else {
      var before := steps[..|steps| - 1];
      RunGoesOn(Opening(spec), steps);
      hide SmoothInv, Next, Run, Opening, Smooth;
      RunIsSmooth(spec, before, sync);
      WorkIsSmooth(spec, Run(Opening(spec) + before), Last(steps), sync, |before|);
    }
  }

  /** If validation passes and n reconciles follow in which nothing fails, at least one for each of the resources and
      one at any rate, the migration is over: every resource has an entry of its name, all entries are Completed, and
      the migration is Completed, or Syncing if continuous sync is wanted. */
  lemma {:induction false} SuccessCompletes(spec: seq<Resource>, steps: seq<Step>, sync: bool)
    requires forall n | 0 <= n < |steps| :: Smooth(steps[n], spec, sync)
    requires |steps| >= 1 && |steps| >= |spec|
    ensures var st := Run([Initialise(spec), Validate, Validated(true)] + steps).st;
      st.phase == (if sync then Syncing else Completed) && st.total == |spec| && st.failed == 0 &&
      st.completed == |st.entries| && (forall e | e in st.entries :: e.state.ResCompleted? && e.progress == 100) &&
      forall k | 0 <= k < |spec| :: exists e | e in st.entries :: e.source == spec[k].source
  {
    RunIsSmooth(spec, steps, sync);
    var run := Opening(spec) + steps;
    AlwaysCounted(run);
    var st := Run(run).st;
    hide Run, FirstBySource;
    CountAtMost(st.entries, IsCompleted);
    forall k | 0 <= k < |spec| ensures exists e | e in st.entries :: e.source == spec[k].source {
      assert SettledByName(st.entries, spec[k].source);
    }
  }
}
