/** What a reconcile stores that nobody disturbs and whose updates are all acknowledged. */
module BatchProgress {
  import opened Common
  import opened Resources
  import opened BatchMachine
  import opened BatchProtocol
  import opened BatchSafety
  import opened BatchTheorems
  import opened BatchFailure
  import opened BatchLease

  predicate Unhindered(r: Reconcile) {
    forall n | 0 <= n < |r.inputs| :: r.inputs[n].delivery.Acknowledged?
  }

  /** The reconcile after its first n steps. */
  function Begun(spec: Spec, k: nat, first: Stored, r: Reconcile, n: nat): Run
    requires n <= |r.inputs|
  {
    Perform(spec, k, first, r.(inputs := r.inputs[..n]))
  }

  lemma {:induction false} BegunStep(spec: Spec, k: nat, first: Stored, r: Reconcile, n: nat)
    requires n < |r.inputs|
    ensures Begun(spec, k, first, r, n + 1) ==
            PerformStep(spec, k, first, Begun(spec, k, first, r, n), r.inputs[n])
    ensures Begun(spec, k, first, r, 0) == Run(Begin(r.worker, k, first.st, r.start), [])
    ensures Begun(spec, k, first, r, |r.inputs|) == Perform(spec, k, first, r)
  {
    assert r.inputs[..n + 1][..n] == r.inputs[..n];
    assert r.(inputs := r.inputs[..|r.inputs|]) == r by { assert r.inputs[..|r.inputs|] == r.inputs; }
    hide PerformStep;
  }

  lemma {:induction false} BegunWorks(spec: Spec, k: nat, first: Stored, r: Reconcile, n: nat)
    requires n < |r.inputs| && Local(Begun(spec, k, first, r, n).session.control)
    ensures var run := Begun(spec, k, first, r, n);
      Begun(spec, k, first, r, n + 1) == Run(LocalStep(spec, run.session, r.inputs[n]), run.writes)
    ensures Begun(spec, k, first, r, n + 1).session.version == Begun(spec, k, first, r, n).session.version
  {
    BegunStep(spec, k, first, r, n);
    LocalTimes(spec, Begun(spec, k, first, r, n).session, r.inputs[n]);
    hide Begun, LocalStep;
  }

  lemma {:induction false} BegunStores(spec: Spec, k: nat, first: Stored, r: Reconcile, n: nat)
    requires n < |r.inputs| && Unhindered(r)
    requires var run := Begun(spec, k, first, r, n);
      run.session.control.AtUpdate? && run.session.version == k + |run.writes|
    ensures var run, run' := Begun(spec, k, first, r, n), Begun(spec, k, first, r, n + 1);
      run'.session == Answered(run.session, true) && run'.session.version == k + |run'.writes| &&
      |run'.writes| == |run.writes| + 1 && run'.writes[..|run.writes|] == run.writes &&
      Last(run'.writes).st == run.session.obj
  {
    BegunStep(spec, k, first, r, n);
    hide Begun;
  }

  /** A reconcile that is done stays done. */
  lemma {:induction false} DoneStays(spec: Spec, k: nat, first: Stored, r: Reconcile, n: nat)
    requires n <= |r.inputs| && Begun(spec, k, first, r, n).session.control.Done?
    ensures Perform(spec, k, first, r) == Begun(spec, k, first, r, n)
    decreases |r.inputs| - n
  {
    hide Begun, LocalStep, Answered;
    if n < |r.inputs| {
      BegunStep(spec, k, first, r, n);
      DoneStays(spec, k, first, r, n + 1);
    } else if n > 0 {
      BegunStep(spec, k, first, r, n - 1);
    } else {
      assert Perform(spec, k, first, r).session.control.Dispatch?;
      EmptyIsBegun(spec, k, first, r);
    }
  }

  lemma {:induction false} EmptyIsBegun(spec: Spec, k: nat, first: Stored, r: Reconcile)
    requires r.inputs == []
    ensures Begun(spec, k, first, r, 0) == Perform(spec, k, first, r)
  {
    assert r.(inputs := r.inputs[..0]) == r;
  }

  // ---------- reconciles of one update ----------

  /** The first step makes an edit, the second stores it. */
  lemma {:induction false} EditIsStored(spec: Spec, k: nat, first: Stored, r: Reconcile)
    requires |r.inputs| >= 2 && Unhindered(r)
    requires Look(spec, k, first, r).control == AtUpdate(LastUpdate)
    ensures var run := Perform(spec, k, first, r);
      |run.writes| == 1 && run.writes[0].st == Look(spec, k, first, r).obj && run.session.control.Done?
  {
    hide Begun, DispatchStep;
    BegunStep(spec, k, first, r, 0);
    BegunWorks(spec, k, first, r, 0);
    assert Begun(spec, k, first, r, 1) == Run(Look(spec, k, first, r), []);
    hide Look;
    BegunStores(spec, k, first, r, 1);
    DoneStays(spec, k, first, r, 2);
  }

  lemma {:induction false} NothingIsStored(spec: Spec, k: nat, first: Stored, r: Reconcile)
    requires |r.inputs| >= 1 && Look(spec, k, first, r).control.Done?
    ensures Perform(spec, k, first, r).writes == []
  {
    BegunStep(spec, k, first, r, 0);
    hide Begun, DispatchStep;
    DoneStays(spec, k, first, r, 1);
  }

  /** Whoever gets to it first initialises a new batch and claims a pending one; a batch that waits for its retry is
      made pending if and only if that is due. */
  lemma {:induction false} AnyoneMovesFreeBatches(spec: Spec, k: nat, first: Stored, r: Reconcile)
    requires |r.inputs| >= 2 && Unhindered(r)
    requires first.st.phase.Unset? || first.st.phase.Pending? || first.st.phase.Retrying?
    ensures var writes, st, d := Perform(spec, k, first, r).writes, first.st, r.inputs[0].now;
      var waits := st.phase.Retrying? && st.nextRetryTime.Some? && d < st.nextRetryTime.value;
      |writes| == (if waits then 0 else 1) && (!waits ==>
        var st' := writes[0].st;
        match st.phase
        case Unset =>
          st'.phase.Pending? && st'.total == |spec.resources| && st'.entries == st.entries &&
          st'.completed == st'.failed == st'.percentage == st'.retryCount == 0
        case Pending =>
          st' == st.(phase := Claimed, claimedBy := r.worker, claimedAt := Some(d),
                     leaseExpiresAt := Some(d + 600_000_000_000))
        case _ => st' == st.(phase := Pending, claimedBy := "", claimedAt := None, leaseExpiresAt := None))
  {
    if Look(spec, k, first, r).control.Done? {
      NothingIsStored(spec, k, first, r);
    } else {
      EditIsStored(spec, k, first, r);
    }
    hide Perform;
  }

  /** Nobody stores anything of a batch that is over or that another worker holds. */
  lemma {:induction false} NobodyElseInterferes(spec: Spec, k: nat, first: Stored, r: Reconcile)
    requires |r.inputs| >= 1
    requires first.st.phase.Completed? || first.st.phase.Failed? ||
      ((first.st.phase.Claimed? || first.st.phase.Processing?) && first.st.claimedBy != r.worker)
    ensures Perform(spec, k, first, r).writes == []
  {
    NothingIsStored(spec, k, first, r);
  }

  /** The owner starts a batch whose lease is good. */
  lemma {:induction false} OwnerStarts(spec: Spec, k: nat, first: Stored, r: Reconcile, t: Time)
    requires |r.inputs| >= 2 && Unhindered(r) && first.st.phase.Claimed? && first.st.claimedBy == r.worker
    requires first.st.leaseExpiresAt == Some(t) && r.inputs[0].now <= t
    ensures var writes := Perform(spec, k, first, r).writes;
      |writes| == 1 && writes[0].st == first.st.(phase := Processing, startTime := Some(r.inputs[0].now))
  {
    EditIsStored(spec, k, first, r);
    hide Perform;
  }

  // ---------- stale batches ----------

  /** The version is scheduled for another attempt if there is one left, and given up otherwise. */
  predicate RetriedOrFailed(spec: Spec, st: Status, o: Status) {
    if st.retryCount < spec.Policy().maxRetries then
      o.phase.Retrying? && o.retryCount == st.retryCount + 1 && Free(o) && o.nextRetryTime.Some?
    else o.phase.Failed? && o.retryCount == st.retryCount && o.completionTime.Some?
  }

  lemma {:induction false} RetryDecides(spec: Spec, st: Status, now: Time, u: real)
    ensures RetriedOrFailed(spec, st, Retried(spec, st, now, u)) && Retried(spec, st, now, u).entries == st.entries
  {
  }

  /** A batch found stale gets its retry, or is given up, from whoever finds it. */
  lemma {:induction false} AnyoneRetriesStale(spec: Spec, k: nat, first: Stored, r: Reconcile)
    requires |r.inputs| >= 3 && Unhindered(r) && first.st.phase.Stale?
    ensures var writes := Perform(spec, k, first, r).writes;
      |writes| == 1 && RetriedOrFailed(spec, first.st, writes[0].st) && writes[0].st.entries == first.st.entries
  {
    hide Begun, Retried, RetriedOrFailed;
    BegunStep(spec, k, first, r, 0);
    BegunWorks(spec, k, first, r, 0);
    BegunWorks(spec, k, first, r, 1);
    RetryDecides(spec, first.st, r.inputs[1].now, r.inputs[1].draw);
    BegunStores(spec, k, first, r, 2);
    hide LocalStep, Answered;
    DoneStays(spec, k, first, r, 3);
  }

  /** An owner that comes too late stores that the batch is stale, and then its retry or its end. */
  lemma {:induction false} LateOwnerRetries(spec: Spec, k: nat, first: Stored, r: Reconcile, t: Time)
    requires |r.inputs| >= 4 && Unhindered(r) && (first.st.phase.Claimed? || first.st.phase.Processing?)
    requires first.st.claimedBy == r.worker && first.st.leaseExpiresAt == Some(t) && r.inputs[0].now > t
    ensures var writes := Perform(spec, k, first, r).writes;
      |writes| == 2 && writes[0].st == first.st.(phase := Stale) &&
      RetriedOrFailed(spec, first.st, writes[1].st) && writes[1].st.entries == first.st.entries
  {
    hide Begun, Retried;
    BegunStep(spec, k, first, r, 0);
    BegunWorks(spec, k, first, r, 0);
    BegunStores(spec, k, first, r, 1);
    BegunWorks(spec, k, first, r, 2);
    RetryDecides(spec, first.st.(phase := Stale), r.inputs[2].now, r.inputs[2].draw);
    BegunStores(spec, k, first, r, 3);
    DoneStays(spec, k, first, r, 4);
  }

  // ---------- the owner's work ----------

  /** How many more steps a reconcile takes from here. */
  function StepsLeft(spec: Spec, c: Control): int {
    var n := |spec.resources|;
    match c
    case Loop(j) => 2 * (n - j) + 2
    case AtUpdate(ResourceUpdate(j)) => 2 * (n - j) + 1
    case AtUpdate(RenewUpdate) => 2 * n + 3
    case AtUpdate(LastUpdate) => 1
    case _ => 0
  }

  ghost predicate AllSucceed(r: Reconcile) {
    forall n | 0 <= n < |r.inputs| :: r.inputs[n].succeeded
  }

  /** Every resource is settled, and the batch completed if no entry is Failed; otherwise it is retried or given up. */
  ghost predicate Ended(spec: Spec, first: Status, st: Status) {
    SettledUpTo(spec, st, |spec.resources|) && st.completionTime.Some? &&
    if forall j | 0 <= j < |st.entries| :: !IsFailed(st.entries[j]) then st.phase.Completed? && st.percentage == 100
    else RetriedOrFailed(spec, first, st)
  }

  /** The reconcile is on schedule after n steps. */
  ghost predicate OnSchedule(spec: Spec, k: nat, first: Stored, r: Reconcile, n: nat, run: Run) {
    var s := run.session;
    s.version == k + |run.writes| && n + StepsLeft(spec, s.control) <= 2 * |spec.resources| + 4 &&
    (AllSucceed(r) ==> s.obj.failed == first.st.failed) &&
    match s.control
    case Loop(j) => j <= |spec.resources| && s.obj.retryCount == first.st.retryCount
    case AtUpdate(RenewUpdate) => s.obj.retryCount == first.st.retryCount
    case AtUpdate(ResourceUpdate(j)) => j < |spec.resources| && s.obj.retryCount == first.st.retryCount
    case AtUpdate(LastUpdate) => Ended(spec, first.st, s.obj)
    case Done => run.writes != [] && Ended(spec, first.st, Last(run.writes).st) && Last(run.writes).st == s.obj
    case _ => false
  }

  lemma {:induction false} FinishedIsEnd(spec: Spec, first: Status, o: Status, now: Time, u: real)
    requires Tallied(spec, o) && SettledUpTo(spec, o, |spec.resources|) && o.retryCount == first.retryCount
    ensures Ended(spec, first, Finished(spec, o, now, u)) && Finished(spec, o, now, u).failed == o.failed
  {
    CompletesIffNoneFailed(spec, o, now, u);
    RetryDecides(spec, o.(completionTime := Some(now)), now, u);
    CountNatural(spec, o);
    hide Tallied, RetriedOrFailed;
    assert Finished(spec, o, now, u).entries == o.entries;
    if o.failed > 0 {
      FinishedFailure(spec, first, o, now, u);
    }
    hide Finished;
  }

  lemma {:induction false} FinishedFailure(spec: Spec, first: Status, o: Status, now: Time, u: real)
    requires o.retryCount == first.retryCount && o.failed > 0
    ensures RetriedOrFailed(spec, first, Finished(spec, o, now, u))
  {
  }

  /** The newest version and the session of a reconcile that has been disturbed by nobody. */
  lemma {:induction false} BegunGood(spec: Spec, k: nat, first: Stored, r: Reconcile, n: nat)
    requires Inv(spec, first) && Ordered(r) && first.at <= r.start && n <= |r.inputs|
    ensures var run := Begun(spec, k, first, r, n);
      Good(spec, [first] + run.writes) && run.session.worker == r.worker &&
      (run.session.version == k + |run.writes| ==> SessionInv(spec, Newest(first, run.writes), run.session))
    decreases |r.inputs| - n
  {
    OrderedUpTo(r, n);
    PerformGood(spec, k, first, r.(inputs := r.inputs[..n]));
    hide Perform, Good, SessionInv;
  }

  lemma {:induction false} OrderedUpTo(r: Reconcile, n: nat)
    requires Ordered(r) && n <= |r.inputs|
    ensures Ordered(r.(inputs := r.inputs[..n]))
    decreases |r.inputs|
  {
    if n < |r.inputs| {
      var before := r.(inputs := r.inputs[..|r.inputs| - 1]);
      OrderedUpTo(before, n);
      assert before.inputs[..n] == r.inputs[..n];
    } else {
      assert r.(inputs := r.inputs[..n]) == r;
    }
  }

  lemma {:induction false} LoopOnSchedule(spec: Spec, k: nat, first: Stored, r: Reconcile, n: nat, run: Run, j: nat)
    requires n < |r.inputs| && OnSchedule(spec, k, first, r, n, run) && run.session.control == Loop(j)
    requires SessionInv(spec, Newest(first, run.writes), run.session)
    ensures OnSchedule(spec, k, first, r, n + 1, Run(LocalStep(spec, run.session, r.inputs[n]), run.writes))
  {
    var s, i := run.session, r.inputs[n];
    hide SettledByName, WithProgress, Ended, PutEntry, LocalStep, Finished;
    if j == |spec.resources| {
      EndOnSchedule(spec, first.st, run, i);
    } else {
      hide SessionInv;
      NextOnSchedule(spec, k, first, r, n, run, j);
    }
  }

  lemma {:induction false} NextOnSchedule(spec: Spec, k: nat, first: Stored, r: Reconcile, n: nat, run: Run, j: nat)
    requires n < |r.inputs| && OnSchedule(spec, k, first, r, n, run)
    requires run.session.control == Loop(j) && j < |spec.resources|
    ensures OnSchedule(spec, k, first, r, n + 1, Run(LocalStep(spec, run.session, r.inputs[n]), run.writes))
  {
    hide SettledByName, WithProgress, Ended, PutEntry, LocalStep;
    LoopAt(spec, run.session, j, r.inputs[n]);
    ProgressOnly(Marked(run.session.obj, spec.resources[j], r.inputs[n].succeeded, r.inputs[n].now));
  }

  lemma {:induction false} ProgressOnly(st: Status)
    ensures WithProgress(st).(percentage := st.percentage) == st
  {
  }

  lemma {:induction false} EndOnSchedule(spec: Spec, first: Status, run: Run, i: Input)
    requires run.session.control == Loop(|spec.resources|) && run.session.obj.retryCount == first.retryCount
    requires Tallied(spec, run.session.obj) && SettledUpTo(spec, run.session.obj, |spec.resources|)
    ensures var s, s' := run.session, LocalStep(spec, run.session, i);
      s'.control == AtUpdate(LastUpdate) && s'.version == s.version && Ended(spec, first, s'.obj) &&
      s'.obj.failed == s.obj.failed
  {
    hide LocalStep, Ended, Finished, Tallied, SettledUpTo;
    FinishedIsEnd(spec, first, run.session.obj, i.now, i.draw);
    LoopAtEnd(spec, run.session, i);
  }

  lemma {:induction false} StoreOnSchedule(spec: Spec, k: nat, first: Stored, r: Reconcile, n: nat, run: Run, run': Run)
    requires OnSchedule(spec, k, first, r, n, run) && run.session.control.AtUpdate?
    requires run'.session == Answered(run.session, true) && run'.session.version == k + |run'.writes|
    requires run'.writes != [] && Last(run'.writes).st == run.session.obj
    ensures OnSchedule(spec, k, first, r, n + 1, run')
  {
    hide Ended;
  }

  lemma {:induction false} LooksOnSchedule(spec: Spec, k: nat, first: Stored, r: Reconcile, t: Time)
    requires |r.inputs| >= 1 && first.st.phase.Processing? && first.st.claimedBy == r.worker
    requires first.st.leaseExpiresAt == Some(t) && r.inputs[0].now <= t
    ensures OnSchedule(spec, k, first, r, 1, Begun(spec, k, first, r, 1))
  {
    BegunStep(spec, k, first, r, 0);
    hide Begun, Ended;
  }

  lemma {:induction false} StaysOnSchedule(spec: Spec, k: nat, first: Stored, r: Reconcile, n: nat, t: Time)
    requires 1 <= n <= |r.inputs| && Unhindered(r) && Inv(spec, first) && Ordered(r) && first.at <= r.start
    requires first.st.phase.Processing? && first.st.claimedBy == r.worker
    requires first.st.leaseExpiresAt == Some(t) && r.inputs[0].now <= t
    ensures var run := Begun(spec, k, first, r, n);
      OnSchedule(spec, k, first, r, n, run) || (run.session.control.Done? && OnSchedule(spec, k, first, r, 0, run))
  {
    hide Begun, OnSchedule, SessionInv, LocalStep, Answered, Good, Inv;
    if n == 1 {
      LooksOnSchedule(spec, k, first, r, t);
    } else {
      StaysOnSchedule(spec, k, first, r, n - 1, t);
      ScheduledStep(spec, k, first, r, n - 1);
    }
  }

  lemma {:induction false} ScheduledStep(spec: Spec, k: nat, first: Stored, r: Reconcile, n: nat)
    requires n < |r.inputs| && Unhindered(r) && Inv(spec, first) && Ordered(r) && first.at <= r.start
    requires var run := Begun(spec, k, first, r, n);
      OnSchedule(spec, k, first, r, n, run) || (run.session.control.Done? && OnSchedule(spec, k, first, r, 0, run))
    ensures var run := Begun(spec, k, first, r, n + 1);
      OnSchedule(spec, k, first, r, n + 1, run) || (run.session.control.Done? && OnSchedule(spec, k, first, r, 0, run))
  {
    hide Begun, SessionInv, LocalStep, Answered, Good, Inv, Ended;
    var run := Begun(spec, k, first, r, n);
    match run.session.control
    case Loop(j) =>
      BegunWorks(spec, k, first, r, n);
      BegunGood(spec, k, first, r, n);
      LoopOnSchedule(spec, k, first, r, n, run, j);
    case AtUpdate(_) =>
      BegunStores(spec, k, first, r, n);
      StoreOnSchedule(spec, k, first, r, n, run, Begun(spec, k, first, r, n + 1));
    case _ => BegunStep(spec, k, first, r, n);
  }

  /** Some entry of that name is Completed or Failed. */
  ghost predicate HasResult(entries: seq<Entry>, name: string) {
    exists e | e in entries :: e.source == name && (e.state.ResCompleted? || e.state.ResFailed?)
  }

  /** An owner whose lease is good settles every resource in one reconcile of at most 2 * |resources| + 4 steps, and
      ends the attempt: the batch is completed if no entry is Failed, retried if there is an attempt left, and given
      up otherwise. If all its work succeeds and nothing had failed before, the batch is completed. */
  lemma {:induction false} OwnerEndsTheAttempt(spec: Spec, k: nat, first: Stored, r: Reconcile, t: Time)
    requires Inv(spec, first) && Ordered(r) && first.at <= r.start && Unhindered(r)
    requires |r.inputs| >= 2 * |spec.resources| + 4
    requires first.st.phase.Processing? && first.st.claimedBy == r.worker
    requires first.st.leaseExpiresAt == Some(t) && r.inputs[0].now <= t
    ensures Perform(spec, k, first, r).writes != []
    ensures var st := Last(Perform(spec, k, first, r).writes).st;
      first.st.entries <= st.entries && st.completionTime.Some? &&
      (forall i | 0 <= i < |spec.resources| :: HasResult(st.entries, spec.resources[i].source)) &&
      (st.phase.Completed? <==> forall j | 0 <= j < |st.entries| :: !st.entries[j].state.ResFailed?) &&
      (st.phase.Completed? || RetriedOrFailed(spec, first.st, st)) &&
      (AllSucceed(r) && first.st.failed == 0 ==> st.phase.Completed?)
  {
    var n := |r.inputs|;
    StaysOnSchedule(spec, k, first, r, n, t);
    BegunStep(spec, k, first, r, n - 1);
    BegunGood(spec, k, first, r, n);
    hide Perform, Begun, SettledUpTo, Good, SessionInv, Inv;
    ScheduleIsOver(spec, k, first, r, n, Perform(spec, k, first, r));
    hide OnSchedule;
    var h := [first] + Perform(spec, k, first, r).writes;
    assert Last(h) == Last(Perform(spec, k, first, r).writes);
    EntriesGrow(spec, h, 0, |h| - 1);
    FailedMeansEntry(spec, h, |h| - 1);
    EndedSays(spec, first.st, Last(h).st);
    hide HasResult, RetriedOrFailed, Ended, AllSucceed;
  }

  lemma {:induction false} EndedSays(spec: Spec, first: Status, st: Status)
    requires Ended(spec, first, st)
    ensures st.completionTime.Some? && (st.phase.Completed? || RetriedOrFailed(spec, first, st)) &&
      (forall i | 0 <= i < |spec.resources| :: HasResult(st.entries, spec.resources[i].source)) &&
      (st.phase.Completed? <==> forall j | 0 <= j < |st.entries| :: !st.entries[j].state.ResFailed?)
  {
    SettledHasEntry(spec, st);
    hide HasResult, SettledUpTo;
  }

  /** After so many steps the reconcile is done. */
  lemma {:induction false} ScheduleIsOver(spec: Spec, k: nat, first: Stored, r: Reconcile, n: nat, run: Run)
    requires n >= 2 * |spec.resources| + 4
    requires OnSchedule(spec, k, first, r, n, run) ||
      (run.session.control.Done? && OnSchedule(spec, k, first, r, 0, run))
    ensures run.writes != [] && Ended(spec, first.st, Last(run.writes).st)
    ensures AllSucceed(r) ==> Last(run.writes).st.failed == first.st.failed
  {
    hide Ended;
  }

  lemma {:induction false} SettledHasEntry(spec: Spec, st: Status)
    requires SettledUpTo(spec, st, |spec.resources|)
    ensures forall i | 0 <= i < |spec.resources| :: HasResult(st.entries, spec.resources[i].source)
  {
    forall i | 0 <= i < |spec.resources| ensures HasResult(st.entries, spec.resources[i].source) {
      assert SettledByName(st.entries, spec.resources[i].source);
      assert st.entries[FirstBySource(st.entries, spec.resources[i].source)] in st.entries;
    }
  }

  lemma {:induction false} FailedMeansEntry(spec: Spec, h: seq<Stored>, i: nat)
    requires Good(spec, h) && i < |h|
    ensures h[i].st.failed == 0 ==> forall j | 0 <= j < |h[i].st.entries| :: !IsFailed(h[i].st.entries[j])
  {
    assert Inv(spec, h[i]);
    CountAtMost(h[i].st.entries, IsFailed);
  }
}
