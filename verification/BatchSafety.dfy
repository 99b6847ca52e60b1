/** What every stored version of a batch satisfies, and how one stored version can follow another. */
module BatchSafety {
  import opened Common
  import opened Resources
  import opened BatchBackoff
  import opened BatchMachine
  import opened BatchProtocol

  // ---------- the invariant of a stored version ----------

  function SourceNames(entries: seq<Entry>): (names: seq<string>)
    ensures |names| == |entries|
    ensures forall i | 0 <= i < |entries| :: names[i] == entries[i].source
  {
    seq(|entries|, i requires 0 <= i < |entries| => entries[i].source)
  }

  ghost predicate InSpec(spec: Spec, e: Entry) {
    exists i | 0 <= i < |spec.resources| :: spec.resources[i].source == e.source
  }

  /** Entries have distinct source names taken from the spec, are all settled, and agree with the counters. */
  ghost predicate Tallied(spec: Spec, st: Status) {
    st.total == |spec.resources| && Distinct(SourceNames(st.entries)) &&
    (forall i | 0 <= i < |st.entries| :: InSpec(spec, st.entries[i]) && IsSettled(st.entries[i])) &&
    st.completed == Count(st.entries, IsCompleted) && st.failed == Count(st.entries, IsFailed) &&
    0 <= st.percentage <= 100
  }

  ghost predicate AllCompleted(spec: Spec, st: Status) {
    forall i | 0 <= i < |spec.resources| ::
      exists j | 0 <= j < |st.entries| ::
        st.entries[j].source == spec.resources[i].source && IsCompleted(st.entries[j])
  }

  predicate Free(st: Status) {
    st.claimedBy == "" && st.claimedAt.None? && st.leaseExpiresAt.None?
  }

  predicate Held(st: Status) {
    st.claimedBy != "" && st.claimedAt.Some? && st.leaseExpiresAt.Some?
  }

  predicate Unclaimed(p: Phase) {
    p.Unset? || p.Pending? || p.Retrying?
  }

  /** The attempt after a retry waits for the retry's base delay. */
  predicate BackedOff(spec: Spec, x: Stored) {
    var st := x.st;
    st.retryCount > 0 && Fits(spec.Policy(), st.retryCount - 1) ==>
      var ready := x.retryDecided + Base(spec.Policy(), st.retryCount - 1);
      st.nextRetryTime.Some? && ready <= st.nextRetryTime.value &&
      (st.phase.Pending? ==> ready <= x.at) &&
      (st.phase.Claimed? ==> st.claimedAt.Some? && ready <= st.claimedAt.value)
  }

  ghost predicate Inv(spec: Spec, x: Stored) {
    var st := x.st;
    (st.phase.Unset? ==> x.st == BLANK) &&
    (if Unclaimed(st.phase) then Free(st) else Held(st)) &&
    (st.phase.Processing? ==> st.startTime.Some?) &&
    st.retryCount <= spec.Policy().maxRetries &&
    x.claims == st.retryCount + (if Unclaimed(st.phase) then 0 else 1) &&
    (!st.phase.Unset? ==> Tallied(spec, st)) &&
    (st.phase.Completed? ==> st.failed == 0 && AllCompleted(spec, st) && st.percentage == 100) &&
    BackedOff(spec, x)
  }

  // ---------- how one stored version follows another ----------

  predicate Edge(p: Phase, q: Phase) {
    match p
    case Unset => q.Pending?
    case Pending => q.Claimed?
    case Claimed => q.Processing? || q.Stale?
    case Processing => q.Processing? || q.Stale? || q.Retrying? || q.Completed? || q.Failed?
    case Stale => q.Retrying? || q.Failed?
    case Retrying => q.Pending?
    case Completed => false
    case Failed => false
  }

  predicate Follows(a: Stored, b: Stored) {
    Edge(a.st.phase, b.st.phase) && a.at <= b.at && b.writer != "" &&
    b.claims == a.claims + (if a.st.phase.Pending? then 1 else 0) &&
    b.st.retryCount == a.st.retryCount + (if b.st.phase.Retrying? then 1 else 0) &&
    (a.st.claimedBy != "" && b.st.claimedBy != "" ==> a.st.claimedBy == b.st.claimedBy) &&
    (a.st.phase.Claimed? || a.st.phase.Processing? ==> b.writer == a.st.claimedBy) &&
    (b.st.phase.Claimed? ==>
      b.st.claimedBy == b.writer && b.st.claimedAt.Some? && a.at <= b.st.claimedAt.value <= b.at) &&
    (if b.st.phase.Retrying? then a.at <= b.retryDecided <= b.at else b.retryDecided == a.retryDecided) &&
    (a.st.phase.Retrying? ==> a.st.nextRetryTime.Some? ==> a.st.nextRetryTime.value <= b.at) &&
    a.st.entries <= b.st.entries && (a.st.entries != b.st.entries ==> a.st.phase.Processing?)
  }

  ghost predicate Good(spec: Spec, h: seq<Stored>) {
    (forall i | 0 <= i < |h| :: Inv(spec, h[i])) && forall i | 0 < i < |h| :: Follows(h[i - 1], h[i])
  }

  // ---------- the invariant of a reconcile that holds the newest version ----------

  /** The in-memory copy of an owner at work: nothing but progress, lease and times differ from the stored version. */
  ghost predicate Working(spec: Spec, b: Status, o: Status, worker: string) {
    b.phase.Processing? && b.claimedBy == worker &&
    o.phase == b.phase && o.claimedBy == b.claimedBy && o.claimedAt == b.claimedAt && o.leaseExpiresAt.Some? &&
    o.retryCount == b.retryCount && o.startTime == b.startTime && o.nextRetryTime == b.nextRetryTime &&
    Tallied(spec, o) && b.entries <= o.entries
  }

  predicate SettledUpTo(spec: Spec, o: Status, n: nat) {
    n <= |spec.resources| &&
    forall i | 0 <= i < n :: SettledByName(o.entries, spec.resources[i].source)
  }

  /** Whenever the update is stored, the new version is sound and follows the old one. */
  ghost predicate Writable(spec: Spec, x: Stored, s: Session) {
    forall now {:trigger Record(x, s, now)} | s.edited <= now ::
      Inv(spec, Record(x, s, now)) && Follows(x, Record(x, s, now))
  }

  ghost predicate SessionInv(spec: Spec, x: Stored, s: Session) {
    s.worker != "" && (s.control.AtUpdate? ==> x.at <= s.edited) &&
    match s.control
    case Dispatch => s.obj == x.st
    case Retry => s.obj == x.st && x.st.phase.Stale?
    case Loop(k) => Working(spec, x.st, s.obj, s.worker) && SettledUpTo(spec, s.obj, k)
    case Done => true
    case AtUpdate(MarkStaleUpdate) => s.obj == MarkedStale(x.st) && Writable(spec, x, s)
    case AtUpdate(RenewUpdate) => Working(spec, x.st, s.obj, s.worker)
    case AtUpdate(ResourceUpdate(k)) => Working(spec, x.st, s.obj, s.worker) && SettledUpTo(spec, s.obj, k + 1)
    case AtUpdate(LastUpdate) => Writable(spec, x, s)
  }
  // ---------- entries and counters ----------

  lemma {:induction false} SettledFits(spec: Spec, st: Status)
    requires Tallied(spec, st)
    ensures st.completed + st.failed == |st.entries| <= st.total
  {
    CountDisjoint(st.entries, IsCompleted, IsFailed);
    var sources := seq(|spec.resources|, i requires 0 <= i < |spec.resources| => spec.resources[i].source);
    var names := set n | n in sources;
    forall i | 0 <= i < |st.entries| ensures SourceNames(st.entries)[i] in names {
      var j :| 0 <= j < |spec.resources| && spec.resources[j].source == st.entries[i].source;
      assert sources[j] in sources;
    }
    DistinctFits(SourceNames(st.entries), names);
    ElementsFit(sources);
  }

  /** Settling one more resource appends its entry and keeps the tally. */
  lemma {:induction false} MarkKeepsTally(spec: Spec, st: Status, k: nat, succeeded: bool, now: Time)
    requires Tallied(spec, st) && k < |spec.resources|
    requires !SettledByName(st.entries, spec.resources[k].source)
    ensures var st' := WithProgress(Marked(st, spec.resources[k], succeeded, now));
      Tallied(spec, st') && st'.entries == st.entries + [Outcome(spec.resources[k], succeeded, now)]
  {
    var e := Outcome(spec.resources[k], succeeded, now);
    AppendKeepsTally(spec, st, e);
    var marked := Marked(st, spec.resources[k], succeeded, now);
    SettledFits(spec, marked);
    if marked.total > 0 {
      PercentInRange(marked.completed + marked.failed, marked.total);
    }
  }

  lemma {:induction false} AppendKeepsTally(spec: Spec, st: Status, e: Entry)
    requires Tallied(spec, st) && InSpec(spec, e) && IsSettled(e) && !SettledByName(st.entries, e.source)
    ensures PutEntry(st.entries, e) == st.entries + [e]
    ensures Tallied(spec, st.(entries := st.entries + [e],
      completed := st.completed + (if IsCompleted(e) then 1 else 0),
      failed := st.failed + (if IsFailed(e) then 1 else 0)))
  {
    CountAppend(st.entries, e, IsCompleted);
    CountAppend(st.entries, e, IsFailed);
  }

  lemma {:induction false} PercentInRange(n: int, total: int)
    requires 0 <= n <= total && total > 0
    ensures 0 <= (n * 100) / total <= 100
  {
    var q := (n * 100) / total;
    assert n * 100 == q * total + (n * 100) % total;
    if q > 100 {
      TimesMonotone(101, q, total);
    } else if q < 0 {
      TimesMonotone(q, -1, total);
    }
  }

  lemma {:induction false} AppendKeepsSettled(entries: seq<Entry>, e: Entry, name: string)
    requires SettledByName(entries, name) ||
      (e.source == name && IsSettled(e) && FirstBySource(entries, name) == |entries|)
    ensures SettledByName(entries + [e], name)
  {
    FirstBySourceIs(entries + [e], name, FirstBySource(entries, name));
  }

  lemma {:induction false} AllSettledNoneFailed(spec: Spec, st: Status)
    requires Tallied(spec, st) && st.failed == 0 && SettledUpTo(spec, st, |spec.resources|)
    ensures AllCompleted(spec, st)
  {
    CountAtMost(st.entries, IsFailed);
    forall i | 0 <= i < |spec.resources|
      ensures exists j | 0 <= j < |st.entries| ::
        st.entries[j].source == spec.resources[i].source && IsCompleted(st.entries[j])
    {
      assert SettledByName(st.entries, spec.resources[i].source);
      var j := FirstBySource(st.entries, spec.resources[i].source);
      assert !IsFailed(st.entries[j]);
    }
  }

  // ---------- every edit is a sound successor of the version it starts from ----------

  lemma {:induction false} InitializeWritable(spec: Spec, x: Stored, s: Session)
    requires Inv(spec, x) && x.st.phase.Unset? && s.worker != "" && x.at <= s.edited
    requires s.obj == Initialized(spec, x.st)
    ensures Writable(spec, x, s)
  {
  }

  lemma {:induction false} ClaimWritable(spec: Spec, x: Stored, s: Session)
    requires Inv(spec, x) && x.st.phase.Pending? && s.worker != "" && x.at <= s.edited
    requires s.obj == ClaimedFor(x.st, s.worker, s.edited)
    ensures Writable(spec, x, s)
  {
  }

  lemma {:induction false} StartWritable(spec: Spec, x: Stored, s: Session)
    requires Inv(spec, x) && x.st.phase.Claimed? && x.st.claimedBy == s.worker && x.at <= s.edited
    requires s.obj == Started(x.st, s.edited)
    ensures Writable(spec, x, s)
  {
  }

  lemma {:induction false} StaleWritable(spec: Spec, x: Stored, s: Session)
    requires Inv(spec, x) && (x.st.phase.Claimed? || x.st.phase.Processing?)
    requires x.st.claimedBy == s.worker && x.at <= s.edited && s.obj == MarkedStale(x.st)
    ensures Writable(spec, x, s)
  {
  }

  lemma {:induction false} ResumeWritable(spec: Spec, x: Stored, s: Session)
    requires Inv(spec, x) && x.st.phase.Retrying? && s.worker != "" && x.at <= s.edited
    requires x.st.nextRetryTime.Some? ==> x.st.nextRetryTime.value <= s.edited
    requires s.obj == Resumed(x.st)
    ensures Writable(spec, x, s)
  {
  }

  lemma {:induction false} SameTally(spec: Spec, a: Status, b: Status)
    requires Tallied(spec, a) && a.total == b.total && a.completed == b.completed && a.failed == b.failed
    requires a.entries == b.entries && 0 <= b.percentage <= 100
    ensures Tallied(spec, b) && 0 <= a.percentage <= 100
    ensures AllCompleted(spec, a) ==> AllCompleted(spec, b)
  {
  }

  /** The version to be written ends the attempt of the version x that its worker, or anyone once it is stale, took
      up. */
  predicate EndsAttempt(x: Stored, s: Session, o: Status) {
    s.worker != "" && x.at <= s.edited && x.st.entries <= o.entries &&
    o.retryCount == x.st.retryCount && o.claimedBy == x.st.claimedBy && Held(o) &&
    o.nextRetryTime == x.st.nextRetryTime &&
    ((x.st.phase.Stale? && o.entries == x.st.entries) || (x.st.phase.Processing? && x.st.claimedBy == s.worker))
  }

  lemma {:induction false} RetryWritable(spec: Spec, x: Stored, s: Session, o: Status, u: Draw)
    requires Inv(spec, x) && Tallied(spec, o) && EndsAttempt(x, s, o)
    requires o.retryCount < spec.Policy().maxRetries && s.obj == Retried(spec, o, s.edited, u)
    ensures Writable(spec, x, s)
  {
    SameTally(spec, o, s.obj);
    if Fits(spec.Policy(), x.st.retryCount) {
      DelayInBandIffFits(spec.Policy(), x.st.retryCount, u);
    }
    hide Base, Fits, RetryDelay, Tallied, AllCompleted;
  }

  lemma {:induction false} FailWritable(spec: Spec, x: Stored, s: Session, o: Status, message: string)
    requires Inv(spec, x) && Tallied(spec, o) && EndsAttempt(x, s, o)
    requires s.obj == FailedWith(o, message, s.edited)
    ensures Writable(spec, x, s)
  {
    SameTally(spec, o, s.obj);
    hide Base, Fits, Tallied, AllCompleted;
  }

  lemma {:induction false} CompleteWritable(spec: Spec, x: Stored, s: Session, o: Status)
    requires Inv(spec, x) && Tallied(spec, o) && EndsAttempt(x, s, o) && x.st.phase.Processing?
    requires o.failed == 0 && AllCompleted(spec, o)
    requires s.obj == o.(completionTime := Some(s.edited), phase := Completed, percentage := 100)
    ensures Writable(spec, x, s)
  {
    hide Base, Fits, Tallied, AllCompleted;
    SameTally(spec, o, s.obj);
  }

  lemma {:induction false} RetryOrFailWritable(spec: Spec, x: Stored, s: Session, u: Draw)
    requires Inv(spec, x) && x.st.phase.Stale? && s.worker != "" && x.at <= s.edited
    requires s.obj == Retried(spec, x.st, s.edited, u)
    ensures Writable(spec, x, s)
  {
    hide Writable, Tallied, BackedOff;
    if x.st.retryCount < spec.Policy().maxRetries {
      RetryWritable(spec, x, s, x.st, u);
    } else {
      FailWritable(spec, x, s, x.st, "Maximum retry attempts exceeded");
    }
  }

  lemma {:induction false} FinishWritable(spec: Spec, x: Stored, s: Session, o: Status, u: Draw)
    requires Inv(spec, x) && s.worker != "" && x.at <= s.edited && Working(spec, x.st, o, s.worker)
    requires SettledUpTo(spec, o, |spec.resources|)
    requires s.obj == Finished(spec, o, s.edited, u)
    ensures Writable(spec, x, s)
  {
    hide Writable, Retried, AllCompleted, BackedOff;
    var done := o.(completionTime := Some(s.edited));
    SameTally(spec, o, done);
    CountNatural(spec, o);
    if o.failed == 0 {
      AllSettledNoneFailed(spec, o);
      hide Tallied, SettledUpTo;
      CompleteWritable(spec, x, s, o);
    } else if o.retryCount < spec.Policy().maxRetries {
      hide Tallied, SettledUpTo;
      RetryWritable(spec, x, s, done, u);
    } else {
      hide Tallied, SettledUpTo;
      FailWritable(spec, x, s, done, "resources failed");
    }
  }

  lemma {:induction false} CountNatural(spec: Spec, st: Status)
    requires Tallied(spec, st)
    ensures st.failed >= 0
  {
  }

  lemma {:induction false} WorkWritable(spec: Spec, x: Stored, s: Session)
    requires Inv(spec, x) && s.worker != "" && x.at <= s.edited && Working(spec, x.st, s.obj, s.worker)
    ensures Writable(spec, x, s)
  {
  }

  // ---------- a reconcile that holds the newest version keeps its invariant ----------

  lemma {:induction false} DispatchOwned(spec: Spec, x: Stored, s: Session, i: Input)
    requires Inv(spec, x) && SessionInv(spec, x, s) && s.control.Dispatch? && x.at <= i.now
    requires (x.st.phase.Claimed? || x.st.phase.Processing?) && x.st.claimedBy == s.worker
    ensures SessionInv(spec, x, DispatchStep(spec, s, i))
  {
    var s' := DispatchStep(spec, s, i);
    if LeaseExpired(x.st, i.now) {
      StaleWritable(spec, x, s');
    } else if x.st.phase.Processing? {
      SameTally(spec, x.st, s'.obj);
    } else {
      StartWritable(spec, x, s');
    }
    hide Writable, BackedOff, Tallied, AllCompleted;
  }

  lemma {:induction false} DispatchKeeps(spec: Spec, x: Stored, s: Session, i: Input)
    requires Inv(spec, x) && SessionInv(spec, x, s) && s.control.Dispatch? && x.at <= i.now
    ensures SessionInv(spec, x, DispatchStep(spec, s, i))
  {
    var s' := DispatchStep(spec, s, i);
    hide Writable, Inv;
    match x.st.phase
    case Unset => InitializeWritable(spec, x, s');
    case Pending => ClaimWritable(spec, x, s');
    case Claimed => if x.st.claimedBy == s.worker { DispatchOwned(spec, x, s, i); }
    case Processing => if x.st.claimedBy == s.worker { DispatchOwned(spec, x, s, i); }
    case Stale =>
    case Retrying => if s'.control.AtUpdate? { ResumeWritable(spec, x, s'); }
    case Completed =>
    case Failed =>
  }

  lemma {:induction false} MarkKeepsWorking(spec: Spec, b: Status, o: Status, worker: string, k: nat, i: Input)
    requires Working(spec, b, o, worker) && k < |spec.resources| && SettledUpTo(spec, o, k)
    requires !SettledByName(o.entries, spec.resources[k].source)
    ensures var o' := WithProgress(Marked(o, spec.resources[k], i.succeeded, i.now));
      Working(spec, b, o', worker) && SettledUpTo(spec, o', k + 1)
  {
    UnsettledIsAbsent(spec, o, spec.resources[k].source);
    MarkKeepsTally(spec, o, k, i.succeeded, i.now);
    hide Tallied, SettledUpTo;
    var o' := WithProgress(Marked(o, spec.resources[k], i.succeeded, i.now));
    MarkSettlesOneMore(spec, o, o', k, Outcome(spec.resources[k], i.succeeded, i.now));
  }

  lemma {:induction false} LoopKeeps(spec: Spec, x: Stored, s: Session, k: nat, i: Input)
    requires Inv(spec, x) && SessionInv(spec, x, s) && s.control == Loop(k) && x.at <= i.now
    ensures SessionInv(spec, x, LoopStep(spec, s, k, i))
  {
    hide Inv, Writable, Working, Finished, WithProgress, Marked, SettledUpTo;
    if k >= |spec.resources| {
      LoopEnds(spec, x, s, k, i);
    } else if SettledByName(s.obj.entries, spec.resources[k].source) {
      SkipSettles(spec, s.obj, k);
    } else {
      MarkKeepsWorking(spec, x.st, s.obj, s.worker, k, i);
    }
  }

  lemma {:induction false} SkipSettles(spec: Spec, o: Status, k: nat)
    requires k < |spec.resources| && SettledUpTo(spec, o, k) && SettledByName(o.entries, spec.resources[k].source)
    ensures SettledUpTo(spec, o, k + 1)
  {
    hide SettledByName;
  }

  lemma {:induction false} LoopEnds(spec: Spec, x: Stored, s: Session, k: nat, i: Input)
    requires Inv(spec, x) && SessionInv(spec, x, s) && s.control == Loop(k) && k >= |spec.resources| && x.at <= i.now
    ensures Writable(spec, x, LoopStep(spec, s, k, i))
  {
    assert k == |spec.resources|;
    hide Writable, Finished, Working, Inv, SettledUpTo;
    FinishWritable(spec, x, LoopStep(spec, s, k, i), s.obj, i.draw);
  }

  lemma {:induction false} MarkSettlesOneMore(spec: Spec, o: Status, o': Status, k: nat, e: Entry)
    requires k < |spec.resources| && SettledUpTo(spec, o, k) && o'.entries == o.entries + [e]
    requires e.source == spec.resources[k].source && IsSettled(e) && FirstBySource(o.entries, e.source) == |o.entries|
    ensures SettledUpTo(spec, o', k + 1)
  {
    forall j | 0 <= j <= k ensures SettledByName(o'.entries, spec.resources[j].source) {
      AppendKeepsSettled(o.entries, e, spec.resources[j].source);
    }
  }

  lemma {:induction false} UnsettledIsAbsent(spec: Spec, o: Status, name: string)
    requires Tallied(spec, o) && !SettledByName(o.entries, name)
    ensures FirstBySource(o.entries, name) == |o.entries|
  {
  }

  lemma {:induction false} LocalKeeps(spec: Spec, x: Stored, s: Session, i: Input)
    requires Inv(spec, x) && SessionInv(spec, x, s) && Local(s.control) && x.at <= i.now
    ensures SessionInv(spec, x, LocalStep(spec, s, i))
  {
    match s.control
    case Dispatch => DispatchKeeps(spec, x, s, i);
    case Loop(k) => LoopKeeps(spec, x, s, k, i);
    case Retry => hide Writable; RetryOrFailWritable(spec, x, LocalStep(spec, s, i), i.draw);
  }

  lemma {:induction false} StoreKeeps(spec: Spec, x: Stored, s: Session, now: Time)
    requires Inv(spec, x) && SessionInv(spec, x, s) && s.control.AtUpdate? && s.edited <= now
    ensures var y := Record(x, s, now);
      Inv(spec, y) && Follows(x, y) && SessionInv(spec, y, Answered(s, true))
  {
    if s.control.update.RenewUpdate? || s.control.update.ResourceUpdate? {
      WorkWritable(spec, x, s);
    }
    var y := Record(x, s, now);
    assert Inv(spec, y) && Follows(x, y);
    hide Inv, Follows, Writable, Tallied;
  }
}
