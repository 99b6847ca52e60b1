/** When a reconcile finds the lease of a batch expired, when it renews it, and what it stores in each phase. */
module BatchLease {
  import opened Common
  import opened BatchMachine
  import opened BatchProtocol
  import opened BatchSafety
  import opened BatchTheorems

  const TEN_MINUTES: int := 600_000_000_000
  const TWO_MINUTES: int := 120_000_000_000

  // ---------- one reconcile ----------

  /** The lease is the one that the owner leaves behind who looks at a lease until t at time d. */
  predicate LeasedFrom(st: Status, t: Time, d: Time) {
    st.leaseExpiresAt == Some(if t - d < TWO_MINUTES then d + TEN_MINUTES else t)
  }

  /** What an owner has stored who found at time d that the lease had run out. */
  predicate StoredStale(first: Status, d: Time, writes: seq<Stored>) {
    |writes| <= 2 &&
    (|writes| > 0 ==> writes[0].st == first.(phase := Stale) && d <= writes[0].at) &&
    (|writes| > 1 ==> writes[1].st.phase.Retrying? || writes[1].st.phase.Failed?)
  }

  predicate StoredStart(first: Status, d: Time, writes: seq<Stored>) {
    |writes| <= 1 &&
    (|writes| > 0 ==> writes[0].st == first.(phase := Processing, startTime := Some(d)) && d <= writes[0].at)
  }

  /** What an owner has stored who found at time d that the lease was still good until t. */
  predicate StoredWork(t: Time, d: Time, writes: seq<Stored>) {
    forall j | 0 <= j < |writes| ::
      !writes[j].st.phase.Stale? && !writes[j].st.phase.Claimed? && d <= writes[j].at &&
      (writes[j].st.leaseExpiresAt.Some? ==> LeasedFrom(writes[j].st, t, d))
  }

  ghost predicate StaleAccount(first: Status, d: Time, run: Run) {
    StoredStale(first, d, run.writes) &&
    var s, n := run.session, |run.writes|;
    match s.control
    case AtUpdate(MarkStaleUpdate) => n == 0 && s.obj == first.(phase := Stale) && d <= s.edited
    case Retry => n == 1 && s.obj == first.(phase := Stale)
    case AtUpdate(LastUpdate) => n == 1 && (s.obj.phase.Retrying? || s.obj.phase.Failed?)
    case Done => true
    case _ => false
  }

  ghost predicate StartAccount(first: Status, d: Time, run: Run) {
    StoredStart(first, d, run.writes) &&
    var s := run.session;
    match s.control
    case AtUpdate(LastUpdate) => run.writes == [] && s.obj == first.(phase := Processing, startTime := Some(d)) &&
                                 d <= s.edited
    case Done => true
    case _ => false
  }

  ghost predicate WorkAccount(t: Time, d: Time, run: Run) {
    StoredWork(t, d, run.writes) &&
    var s := run.session;
    match s.control
    case AtUpdate(MarkStaleUpdate) => false
    case AtUpdate(LastUpdate) =>
      !s.obj.phase.Stale? && !s.obj.phase.Claimed? && (s.obj.leaseExpiresAt.Some? ==> LeasedFrom(s.obj, t, d)) &&
      d <= s.edited
    case AtUpdate(_) => s.obj.phase.Processing? && LeasedFrom(s.obj, t, d) && d <= s.edited
    case Loop(_) => s.obj.phase.Processing? && LeasedFrom(s.obj, t, d)
    case Done => true
    case _ => false
  }

  ghost predicate OwnerAccount(first: Status, t: Time, d: Time, run: Run) {
    if d > t then StaleAccount(first, d, run)
    else if first.phase.Claimed? then StartAccount(first, d, run)
    else WorkAccount(t, d, run)
  }

  /** What the account presupposes: the owner of a held batch, which looks at it at time d. */
  predicate Owned(first: Status, worker: string, t: Time) {
    (first.phase.Claimed? || first.phase.Processing?) && first.claimedBy == worker && first.leaseExpiresAt == Some(t)
  }

  lemma {:induction false} AccountBegins(
    spec: Spec, k: nat, first: Stored, worker: string, start: Time, t: Time, i: Input)
    requires Owned(first.st, worker, t)
    ensures OwnerAccount(first.st, t, i.now, PerformStep(spec, k, first, Run(Begin(worker, k, first.st, start), []), i))
  {
  }

  lemma {:induction false} AccountGoesOn(spec: Spec, k: nat, first: Stored, t: Time, d: Time, run: Run, i: Input)
    requires OwnerAccount(first.st, t, d, run) && d <= i.now
    requires first.st.phase.Claimed? || first.st.phase.Processing?
    ensures OwnerAccount(first.st, t, d, PerformStep(spec, k, first, run, i))
  {
  }

  lemma {:induction false} OrderedFrom(r: Reconcile, n: nat)
    requires Ordered(r) && n < |r.inputs|
    ensures r.start <= r.inputs[0].now <= r.inputs[n].now <= Latest(r)
    ensures Ordered(r.(inputs := r.inputs[..|r.inputs| - 1]))
    decreases |r.inputs|
  {
    var before := r.(inputs := r.inputs[..|r.inputs| - 1]);
    if before.inputs != [] {
      OrderedFrom(before, if n < |before.inputs| then n else 0);
      OrderedFrom(before, |before.inputs| - 1);
    }
  }

  lemma {:induction false} AccountOf(spec: Spec, k: nat, first: Stored, r: Reconcile, t: Time)
    requires Owned(first.st, r.worker, t) && Ordered(r) && r.inputs != []
    ensures OwnerAccount(first.st, t, r.inputs[0].now, Perform(spec, k, first, r))
    decreases |r.inputs|
  {
    var n := |r.inputs| - 1;
    var before := r.(inputs := r.inputs[..n]);
    OrderedFrom(r, n);
    hide PerformStep, OwnerAccount;
    if n == 0 {
      assert Perform(spec, k, first, before) == Run(Begin(r.worker, k, first.st, r.start), []);
      AccountBegins(spec, k, first, r.worker, r.start, t, r.inputs[0]);
    } else {
      AccountOf(spec, k, first, before, t);
      AccountGoesOn(spec, k, first, t, r.inputs[0].now, Perform(spec, k, first, before), r.inputs[n]);
    }
  }

  /** An owner whose first update is stored has marked the batch Stale if and only if the lease had run out when it
      looked. Otherwise it has started a claimed batch, or worked on one and left the lease as it was, or renewed it for
      ten minutes if less than two were left. */
  lemma {:induction false} LeaseDecides(spec: Spec, k: nat, first: Stored, r: Reconcile, t: Time)
    requires (first.st.phase.Claimed? || first.st.phase.Processing?) && first.st.claimedBy == r.worker
    requires first.st.leaseExpiresAt == Some(t) && Ordered(r) && Perform(spec, k, first, r).writes != []
    ensures r.inputs != []
    ensures var writes, d := Perform(spec, k, first, r).writes, r.inputs[0].now;
      (writes[0].st.phase.Stale? <==> d > t) &&
      (d > t ==> writes[0].st == first.st.(phase := Stale)) &&
      (d <= t && first.st.phase.Claimed? ==> writes[0].st == first.st.(phase := Processing, startTime := Some(d))) &&
      (d <= t && first.st.phase.Processing? ==>
        forall j | 0 <= j < |writes| && writes[j].st.leaseExpiresAt.Some? ::
          writes[j].st.leaseExpiresAt == Some(if t - d < 120_000_000_000 then d + 600_000_000_000 else t))
  {
    AccountOf(spec, k, first, r, t);
    hide Perform, Ordered;
  }

  // ---------- reconciles that store one version at most ----------

  /** The first step of a reconcile. */
  function Look(spec: Spec, k: nat, first: Stored, r: Reconcile): Session
    requires r.inputs != []
  {
    DispatchStep(spec, Begin(r.worker, k, first.st, r.start), r.inputs[0])
  }

  /** The version is the one that the first step has edited, or that version scheduled for a retry. */
  ghost predicate EditedBy(spec: Spec, look: Session, o: Status) {
    if look.control.Retry? then exists d: Time, u: Draw :: o == Retried(spec, look.obj, d, u)
    else look.control.AtUpdate? && o == look.obj
  }

  ghost predicate OnceAccount(spec: Spec, look: Session, run: Run) {
    |run.writes| <= 1 && (run.writes != [] ==> EditedBy(spec, look, run.writes[0].st)) &&
    match run.session.control
    case Retry => look.control.Retry? && run.session.obj == look.obj && run.writes == []
    case AtUpdate(LastUpdate) => run.writes == [] && EditedBy(spec, look, run.session.obj)
    case Done => true
    case _ => false
  }

  predicate Bystander(first: Status, worker: string) {
    first.phase.Claimed? || first.phase.Processing? ==> first.claimedBy != worker
  }

  lemma {:induction false} OnceBegins(spec: Spec, k: nat, first: Stored, r: Reconcile)
    requires r.inputs != [] && Bystander(first.st, r.worker)
    ensures OnceAccount(spec, Look(spec, k, first, r), Run(Look(spec, k, first, r), []))
  {
  }

  lemma {:induction false} OnceGoesOn(spec: Spec, k: nat, first: Stored, look: Session, run: Run, i: Input)
    requires OnceAccount(spec, look, run)
    ensures OnceAccount(spec, look, PerformStep(spec, k, first, run, i))
  {
    hide Retried;
  }

  lemma {:induction false} OnceOf(spec: Spec, k: nat, first: Stored, r: Reconcile)
    requires r.inputs != [] && Bystander(first.st, r.worker)
    ensures OnceAccount(spec, Look(spec, k, first, r), Perform(spec, k, first, r))
    decreases |r.inputs|
  {
    var n := |r.inputs| - 1;
    var before := r.(inputs := r.inputs[..n]);
    if n == 0 {
      assert Perform(spec, k, first, before) == Run(Begin(r.worker, k, first.st, r.start), []);
      OnceBegins(spec, k, first, r);
    } else {
      hide OnceAccount, PerformStep;
      OnceOf(spec, k, first, before);
      assert Look(spec, k, first, before) == Look(spec, k, first, r);
      OnceGoesOn(spec, k, first, Look(spec, k, first, r), Perform(spec, k, first, before), r.inputs[n]);
    }
  }

  // ---------- every version of every run was written by some reconcile ----------

  /** Version i is the last that reconcile r has written, which started from version k. */
  ghost predicate StoredBy(spec: Spec, h: seq<Stored>, k: nat, r: Reconcile, i: nat) {
    k < i < |h| && Ordered(r) && h[k].at <= r.start && r.inputs != [] && Latest(r) == h[i].at &&
    Perform(spec, k, h[k], r).writes == h[k + 1..i + 1]
  }

  /** A reconcile up to the moment at which it had written n versions. */
  lemma {:induction false} UpToWrite(spec: Spec, k: nat, first: Stored, r: Reconcile, n: nat) returns (r': Reconcile)
    requires Ordered(r) && 0 < n <= |Perform(spec, k, first, r).writes|
    ensures Ordered(r') && r'.start == r.start && r'.inputs != []
    ensures var writes := Perform(spec, k, first, r).writes;
      Perform(spec, k, first, r').writes == writes[..n] && Latest(r') == writes[n - 1].at
    decreases |r.inputs|
  {
    var before := r.(inputs := r.inputs[..|r.inputs| - 1]);
    var writes, writes' := Perform(spec, k, first, before).writes, Perform(spec, k, first, r).writes;
    WritesGrow(spec, k, first, r);
    if n <= |writes| {
      r' := UpToWrite(spec, k, first, before, n);
      assert writes[..n] == writes'[..n];
    } else {
      r' := r;
      assert writes'[..n] == writes';
    }
  }

  lemma {:induction false} WritesGrow(spec: Spec, k: nat, first: Stored, r: Reconcile)
    requires r.inputs != []
    ensures var before := r.(inputs := r.inputs[..|r.inputs| - 1]);
      var writes, writes' := Perform(spec, k, first, before).writes, Perform(spec, k, first, r).writes;
      writes == writes' || (|writes'| == |writes| + 1 && writes == writes'[..|writes|] && Last(writes').at == Latest(r))
  {
    hide LocalStep, Answered;
  }

  lemma {:induction false} SerialOrigin(spec: Spec, rs: seq<Reconcile>, i: nat) returns (k: nat, r: Reconcile)
    requires WellTimed(spec, rs) && 0 < i < |Serial(spec, rs)|
    ensures StoredBy(spec, Serial(spec, rs), k, r, i)
  {
    hide Perform, Ordered;
    var h := Serial(spec, rs[..|rs| - 1]);
    var h' := Serial(spec, rs);
    if i < |h| {
      k, r := SerialOrigin(spec, rs[..|rs| - 1], i);
      assert h'[k + 1..i + 1] == h[k + 1..i + 1];
    } else {
      k := |h| - 1;
      var writes := Perform(spec, k, Last(h), Last(rs)).writes;
      r := UpToWrite(spec, k, Last(h), Last(rs), i - k);
      assert h'[k + 1..i + 1] == writes[..i - k];
    }
  }

  lemma {:induction false} Origin(spec: Spec, events: seq<Event>, i: nat) returns (k: nat, r: Reconcile)
    requires 0 < i < |History(spec, events)|
    ensures StoredBy(spec, History(spec, events), k, r, i)
  {
    hide Execute, WellTimed, Serial, StoredBy;
    SerialEquivalent(spec, events);
    var rs :| WellTimed(spec, rs) && Serial(spec, rs) == Execute(spec, events).history;
    k, r := SerialOrigin(spec, rs, i);
  }

  // ---------- leases over whole histories ----------

  /** A version that is Stale, or that follows a held one, was written by the owner. */
  lemma {:induction false} OwnersWork(spec: Spec, events: seq<Event>, i: nat) returns (k: nat, r: Reconcile, t: Time)
    requires 0 < i < |History(spec, events)|
    requires var h := History(spec, events);
      h[i].st.phase.Stale? || h[i - 1].st.phase.Claimed? || h[i - 1].st.phase.Processing?
    ensures var h := History(spec, events);
      k < i && r.inputs != [] && h[k].at <= r.inputs[0].now && Owned(h[k].st, r.worker, t) &&
      OwnerAccount(h[k].st, t, r.inputs[0].now, Perform(spec, k, h[k], r)) &&
      Perform(spec, k, h[k], r).writes == h[k + 1..i + 1]
  {
    AlwaysGood(spec, events);
    var h := History(spec, events);
    k, r := Origin(spec, events, i);
    assert Inv(spec, h[k]);
    hide History, Perform, Follows, Tallied, AllCompleted, BackedOff, DispatchStep, OwnerAccount;
    NoBystander(spec, h, k, r, i);
    t := h[k].st.leaseExpiresAt.value;
    AccountOf(spec, k, h[k], r, t);
    OrderedFrom(r, 0);
  }

  lemma {:induction false} NoBystander(spec: Spec, h: seq<Stored>, k: nat, r: Reconcile, i: nat)
    requires StoredBy(spec, h, k, r, i)
    requires h[i].st.phase.Stale? || h[i - 1].st.phase.Claimed? || h[i - 1].st.phase.Processing?
    ensures !Bystander(h[k].st, r.worker)
  {
    hide Perform, DispatchStep, EditedBy, Ordered, Bystander;
    assert Last(h[k + 1..i + 1]) == h[i];
    if Bystander(h[k].st, r.worker) {
      OnceOf(spec, k, h[k], r);
      OnceIsNoOwner(spec, k, h[k], r, h[i].st);
    }
  }

  lemma {:induction false} OnceIsNoOwner(spec: Spec, k: nat, first: Stored, r: Reconcile, o: Status)
    requires r.inputs != [] && Bystander(first.st, r.worker)
    requires EditedBy(spec, Look(spec, k, first, r), o)
    ensures !o.phase.Stale? && !first.st.phase.Claimed? && !first.st.phase.Processing?
    ensures o.phase.Claimed? ==> o == ClaimedFor(first.st, r.worker, r.inputs[0].now)
  {
  }

  /** A version is marked Stale only by the batch's owner, after the lease has run out. */
  lemma {:induction false} StaleMeansExpired(spec: Spec, events: seq<Event>, i: nat)
    requires 0 < i < |History(spec, events)| && History(spec, events)[i].st.phase.Stale?
    ensures var a, b := History(spec, events)[i - 1], History(spec, events)[i];
      a.st.leaseExpiresAt.Some? && a.st.leaseExpiresAt.value < b.at && b.writer == a.st.claimedBy &&
      b.st == a.st.(phase := Stale)
  {
    AlwaysGood(spec, events);
    var h := History(spec, events);
    assert Follows(h[i - 1], h[i]) && Inv(spec, h[i - 1]);
    hide Execute, History, Follows, Inv;
    var k, r, t := OwnersWork(spec, events, i);
    hide Perform;
    assert h[k + 1..i + 1][i - k - 1] == h[i];
  }

  /** A claimed batch is started only while its lease is good, and by its owner. */
  lemma {:induction false} StartedWhileLeased(spec: Spec, events: seq<Event>, i: nat)
    requires 0 < i < |History(spec, events)|
    requires History(spec, events)[i - 1].st.phase.Claimed? && History(spec, events)[i].st.phase.Processing?
    ensures var a, b := History(spec, events)[i - 1], History(spec, events)[i];
      b.writer == a.st.claimedBy && a.st.leaseExpiresAt.Some? && b.st.startTime.Some? &&
      a.at <= b.st.startTime.value <= a.st.leaseExpiresAt.value &&
      b.st == a.st.(phase := Processing, startTime := b.st.startTime)
  {
    AlwaysGood(spec, events);
    var h := History(spec, events);
    assert Follows(h[i - 1], h[i]) && Inv(spec, h[i - 1]);
    hide Execute, History, Follows, Inv;
    var k, r, t := OwnersWork(spec, events, i);
    hide Perform;
    assert h[k + 1..i + 1][i - k - 1] == h[i];
  }

  /** The lease of version i is what its owner made of that of version k when it looked at it at time d. */
  predicate KeptOrRenewed(h: seq<Stored>, i: nat, k: nat, d: Time)
    requires k < i < |h|
  {
    h[k].st.phase.Processing? && h[k].st.leaseExpiresAt.Some? && h[k].at <= d <= h[i].at &&
    var t := h[k].st.leaseExpiresAt.value;
    d <= t && h[i].st.leaseExpiresAt == Some(if t - d < 120_000_000_000 then d + 600_000_000_000 else t)
  }

  /** An owner at work leaves the lease as it found it, or renews it for ten minutes from the time d of its look if less
      than two minutes were left by then; and it has looked while the lease was good. */
  lemma {:induction false} WorkKeepsLease(spec: Spec, events: seq<Event>, i: nat)
    requires 0 < i < |History(spec, events)| && History(spec, events)[i - 1].st.phase.Processing?
    requires var b := History(spec, events)[i].st; b.leaseExpiresAt.Some? && !b.phase.Stale?
    ensures var h := History(spec, events);
      exists k, d | 0 <= k < i :: KeptOrRenewed(h, i, k, d)
  {
    AlwaysGood(spec, events);
    var h := History(spec, events);
    assert Follows(h[i - 1], h[i]) && Inv(spec, h[i]);
    hide Execute, History, Follows, Inv;
    var k, r, t := OwnersWork(spec, events, i);
    hide Perform;
    assert h[k + 1..i + 1][i - k - 1] == h[i];
    if k < i - 1 { assert h[k + 1..i + 1][i - k - 2] == h[i - 1]; }
    assert KeptOrRenewed(h, i, k, r.inputs[0].now);
  }

  /** A claim is for ten minutes from the time at which it was decided. */
  lemma {:induction false} ClaimsAreForTenMinutes(spec: Spec, events: seq<Event>, i: nat)
    requires 0 < i < |History(spec, events)| && History(spec, events)[i].st.phase.Claimed?
    ensures var a, b := History(spec, events)[i - 1], History(spec, events)[i];
      a.st.phase.Pending? && b.st.claimedAt.Some? && a.at <= b.st.claimedAt.value <= b.at &&
      b.st.leaseExpiresAt == Some(b.st.claimedAt.value + 600_000_000_000) && b.st.claimedBy == b.writer != "" &&
      b.st == a.st.(phase := Claimed, claimedBy := b.writer, claimedAt := b.st.claimedAt,
                    leaseExpiresAt := b.st.leaseExpiresAt)
  {
    AlwaysGood(spec, events);
    var h := History(spec, events);
    assert Follows(h[i - 1], h[i]) && Inv(spec, h[i - 1]);
    var k, r := Origin(spec, events, i);
    assert Inv(spec, h[k]);
    hide History, Perform, Inv, DispatchStep, EditedBy, Bystander;
    ClaimIsOnce(spec, h, k, r, i);
    OnceIsNoOwner(spec, k, h[k], r, h[i].st);
  }

  /** A claim is all that its reconcile stores. */
  lemma {:induction false} ClaimIsOnce(spec: Spec, h: seq<Stored>, k: nat, r: Reconcile, i: nat)
    requires StoredBy(spec, h, k, r, i) && Inv(spec, h[k]) && h[i].st.phase.Claimed?
    ensures k == i - 1 && Bystander(h[k].st, r.worker) && EditedBy(spec, Look(spec, k, h[k], r), h[i].st)
  {
    hide Perform, Tallied, AllCompleted, BackedOff, DispatchStep, EditedBy, Ordered;
    assert Last(h[k + 1..i + 1]) == h[i];
    if Bystander(h[k].st, r.worker) {
      OnceOf(spec, k, h[k], r);
    } else {
      AccountOf(spec, k, h[k], r, h[k].st.leaseExpiresAt.value);
    }
  }
}
