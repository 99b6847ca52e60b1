/** What is stored of a batch, traced back to what was reported while it was worked on. */
module BatchOutcomes {
  import opened Common
  import opened Resources
  import opened BatchBackoff
  import opened BatchMachine
  import opened BatchProtocol
  import opened BatchSafety
  import opened BatchTheorems

  /** The entry says how the work on this resource ended at that time. */
  predicate TellsOf(e: Entry, r: Resource, succeeded: bool, at: Time) {
    e.id == r.id && e.kind == r.kind && e.source == r.source && e.target == r.target &&
    e.completionTime == Some(at) &&
    if succeeded then e.state.ResCompleted? && e.progress == 100 else e.state.ResFailed? && e.progress == 0
  }

  /** Event n is a step in which some reconcile worked on a resource, and the entry says how that ended. */
  ghost predicate ReportedAt(spec: Spec, events: seq<Event>, n: nat, e: Entry)
    requires n < |events|
  {
    var w := Execute(spec, events[..n]);
    events[n].Act? && events[n].id in w.active &&
    var control := w.active[events[n].id].session.control;
    control.Loop? && control.index < |spec.resources| &&
    TellsOf(e, spec.resources[control.index], events[n].input.succeeded, w.clock)
  }

  ghost predicate Reported(spec: Spec, events: seq<Event>, e: Entry) {
    exists n | 0 <= n < |events| :: ReportedAt(spec, events, n, e)
  }

  /** The time to which a retry decided at time t was put off. */
  predicate DelayedBy(spec: Spec, st: Status, t: Time, u: Draw) {
    st.retryCount > 0 && st.nextRetryTime == Some(t + RetryDelay(spec.Policy(), st.retryCount - 1, u))
  }

  ghost predicate Scheduled(spec: Spec, st: Status, t: Time) {
    exists u: Draw :: DelayedBy(spec, st, t, u)
  }

  predicate PercentExact(st: Status) {
    st.phase.Completed? ||
    st.percentage == if st.total > 0 then ((st.completed + st.failed) * 100) / st.total else 0
  }

  predicate GivenUp(spec: Spec, st: Status) {
    st.phase.Failed? ==> st.retryCount >= spec.Policy().maxRetries && st.completionTime.Some? && st.errorMessage != ""
  }

  ghost predicate Told(spec: Spec, events: seq<Event>, st: Status) {
    (forall e | e in st.entries :: Reported(spec, events, e)) && PercentExact(st) && GivenUp(spec, st)
  }

  /** A reconcile is at its resources, now or once its update has been answered, only with a batch that is Processing,
      and it retries only one that is Stale. */
  predicate Placed(s: Session) {
    match s.control
    case Loop(_) => s.obj.phase.Processing?
    case AtUpdate(RenewUpdate) => s.obj.phase.Processing?
    case AtUpdate(ResourceUpdate(_)) => s.obj.phase.Processing?
    case Retry => s.obj.phase.Stale?
    case AtUpdate(MarkStaleUpdate) => s.obj.phase.Stale?
    case _ => true
  }

  ghost predicate SessionTold(spec: Spec, events: seq<Event>, s: Session) {
    Told(spec, events, s.obj) && Placed(s) &&
    (s.control.AtUpdate? && s.obj.phase.Retrying? ==> Scheduled(spec, s.obj, s.edited))
  }

  ghost predicate StoredTold(spec: Spec, events: seq<Event>, x: Stored) {
    Told(spec, events, x.st) && (x.st.phase.Retrying? ==> Scheduled(spec, x.st, x.retryDecided))
  }

  ghost predicate WorldTold(spec: Spec, events: seq<Event>) {
    var w := Execute(spec, events);
    (forall k | 0 <= k < |w.history| :: StoredTold(spec, events, w.history[k])) &&
    forall id | id in w.active :: SessionTold(spec, events, w.active[id].session)
  }

  lemma {:induction false} ReportedStays(spec: Spec, events: seq<Event>, more: Event, e: Entry)
    requires Reported(spec, events, e)
    ensures Reported(spec, events + [more], e)
  {
    hide Execute;
    var n :| 0 <= n < |events| && ReportedAt(spec, events, n, e);
    assert (events + [more])[..n] == events[..n];
    assert ReportedAt(spec, events + [more], n, e);
  }

  lemma {:induction false} ToldStays(spec: Spec, events: seq<Event>, more: Event, st: Status)
    requires Told(spec, events, st)
    ensures Told(spec, events + [more], st)
  {
    hide Reported;
    forall e | e in st.entries ensures Reported(spec, events + [more], e) {
      ReportedStays(spec, events, more, e);
    }
  }

  lemma {:induction false} PutIn(entries: seq<Entry>, e: Entry)
    ensures forall x | x in PutEntry(entries, e) :: x == e || x in entries
  {
    hide FirstBySource;
  }

  /** The only step that adds an entry adds the outcome of its own work. */
  lemma {:induction false} LocalTells(spec: Spec, events: seq<Event>, id: nat, input: Input)
    requires var w := Execute(spec, events);
      id in w.active && Local(w.active[id].session.control) && SessionTold(spec, events, w.active[id].session)
    ensures var w := Execute(spec, events);
      SessionTold(spec, events + [Act(id, input)], LocalStep(spec, w.active[id].session, input.(now := w.clock)))
  {
    hide Reported, Execute, RetryDelay, PutEntry, SettledByName;
    var w := Execute(spec, events);
    var s, i := w.active[id].session, input.(now := w.clock);
    var events' := events + [Act(id, input)];
    ToldStays(spec, events, Act(id, input), s.obj);
    if s.control.Loop? && s.control.index < |spec.resources| {
      var e := Outcome(spec.resources[s.control.index], i.succeeded, i.now);
      OutcomeReported(spec, events, id, input, e);
      PutIn(s.obj.entries, e);
    } else {
      EditTells(spec, events', s, i);
    }
  }

  /** Every other edit leaves the entries alone. */
  lemma {:induction false} EditTells(spec: Spec, events: seq<Event>, s: Session, i: Input)
    requires Told(spec, events, s.obj) && Local(s.control)
    requires Placed(s) && (s.control.Loop? ==> s.control.index >= |spec.resources|)
    ensures SessionTold(spec, events, LocalStep(spec, s, i))
  {
    hide Reported, RetryDelay;
    var s' := LocalStep(spec, s, i);
    assert s'.obj.entries == s.obj.entries;
    assert s.obj.total > 0 ==> 0 / s.obj.total == 0;
    if s'.control.AtUpdate? && s'.obj.phase.Retrying? {
      assert DelayedBy(spec, s'.obj, s'.edited, i.draw);
    }
  }

  lemma {:induction false} OutcomeReported(spec: Spec, events: seq<Event>, id: nat, input: Input, e: Entry)
    requires var w := Execute(spec, events);
      id in w.active && w.active[id].session.control.Loop? &&
      w.active[id].session.control.index < |spec.resources| &&
      TellsOf(e, spec.resources[w.active[id].session.control.index], input.succeeded, w.clock)
    ensures Reported(spec, events + [Act(id, input)], e)
  {
    hide Execute;
    assert (events + [Act(id, input)])[..|events|] == events;
    assert ReportedAt(spec, events + [Act(id, input)], |events|, e);
  }

  lemma {:induction false} StepTells(spec: Spec, events: seq<Event>, more: Event)
    requires WorldTold(spec, events)
    ensures WorldTold(spec, events + [more])
  {
    var w, w' := Execute(spec, events), Execute(spec, events + [more]);
    assert w' == Apply(spec, w, more) by { assert (events + [more])[..|events|] == events; }
    hide Execute, Told, LocalStep, Scheduled;
    forall k | 0 <= k < |w.history| ensures StoredTold(spec, events + [more], w.history[k]) {
      ToldStays(spec, events, more, w.history[k].st);
    }
    forall id | id in w.active ensures SessionTold(spec, events + [more], w.active[id].session) {
      ToldStays(spec, events, more, w.active[id].session.obj);
    }
    if more.Act? && more.id in w.active && Local(w.active[more.id].session.control) {
      LocalTells(spec, events, more.id, more.input);
    }
  }

  lemma {:induction false} AlwaysTold(spec: Spec, events: seq<Event>)
    ensures WorldTold(spec, events)
  {
    if events == [] {
      assert Told(spec, [], BLANK);
    } else {
      hide WorldTold;
      AlwaysTold(spec, events[..|events| - 1]);
      StepTells(spec, events[..|events| - 1], Last(events));
      assert events == events[..|events| - 1] + [Last(events)];
    }
  }

  // ---------- what that says ----------

  /** Whatever workers do, an entry is stored as Completed or Failed because a reconcile worked on the resource that it
      names, and that work succeeded or failed. */
  lemma {:induction false} EntriesAreReported(spec: Spec, events: seq<Event>, i: nat, e: Entry)
    requires i < |History(spec, events)| && e in History(spec, events)[i].st.entries
    ensures exists n | 0 <= n < |events| :: ReportedAt(spec, events, n, e)
  {
    AlwaysTold(spec, events);
    hide Execute, ReportedAt;
    assert StoredTold(spec, events, History(spec, events)[i]);
  }

  /** So a batch none of whose work fails is never stored with a failure, and one all of whose work fails never with a
      completed resource. */
  lemma {:induction false} CountersAreReported(spec: Spec, events: seq<Event>, i: nat)
    requires i < |History(spec, events)|
    ensures var st := History(spec, events)[i].st;
      (st.failed > 0 ==> exists n | 0 <= n < |events| :: events[n].Act? && !events[n].input.succeeded) &&
      (st.completed > 0 ==> exists n | 0 <= n < |events| :: events[n].Act? && events[n].input.succeeded)
  {
    AlwaysGood(spec, events);
    var st := History(spec, events)[i].st;
    assert Inv(spec, History(spec, events)[i]);
    hide Execute, ReportedAt, History;
    CountAtMost(st.entries, IsFailed);
    CountAtMost(st.entries, IsCompleted);
    if st.failed > 0 {
      var j :| 0 <= j < |st.entries| && IsFailed(st.entries[j]);
      Witness(spec, events, i, st.entries[j]);
    }
    if st.completed > 0 {
      var j :| 0 <= j < |st.entries| && IsCompleted(st.entries[j]);
      Witness(spec, events, i, st.entries[j]);
    }
  }

  lemma {:induction false} Witness(spec: Spec, events: seq<Event>, i: nat, e: Entry)
    requires i < |History(spec, events)| && e in History(spec, events)[i].st.entries
    ensures exists n | 0 <= n < |events| :: events[n].Act? && (events[n].input.succeeded <==> IsCompleted(e))
  {
    EntriesAreReported(spec, events, i, e);
    var n :| 0 <= n < |events| && ReportedAt(spec, events, n, e);
    hide Execute;
  }

  lemma {:induction false} DivBounds(x: int, n: int)
    requires n > 0
    ensures (x / n) * n <= x < (x / n + 1) * n
  {
    assert x == (x / n) * n + x % n;
  }

  /** Until the batch is Completed, the percentage stored is the share of settled resources, rounded down. */
  lemma {:induction false} PercentageIsExact(spec: Spec, events: seq<Event>, i: nat)
    requires i < |History(spec, events)| && !History(spec, events)[i].st.phase.Completed?
    ensures var st := History(spec, events)[i].st;
      if st.total > 0 then
        st.percentage * st.total <= 100 * |st.entries| < (st.percentage + 1) * st.total
      else st.percentage == 0
  {
    AlwaysTold(spec, events);
    AlwaysGood(spec, events);
    var x := History(spec, events)[i];
    assert StoredTold(spec, events, x) && Inv(spec, x);
    hide Execute, History, Reported;
    if !x.st.phase.Unset? && x.st.total > 0 {
      SettledFits(spec, x.st);
      DivBounds((x.st.completed + x.st.failed) * 100, x.st.total);
    }
  }

  /** A stored retry is put off by a delay in [min(Initial * Multiplier^k, Max), 1.25 times that] from the time at
      which it was decided, if and only if Initial * Multiplier^k fits a Duration; otherwise it is due before it was
      decided. */
  lemma {:induction false} RetryIsScheduled(spec: Spec, events: seq<Event>, i: nat)
    requires i < |History(spec, events)| && History(spec, events)[i].st.phase.Retrying?
    ensures var x := History(spec, events)[i]; var k := x.st.retryCount - 1;
      k >= 0 && x.st.nextRetryTime.Some? && 0 < i && History(spec, events)[i - 1].at <= x.retryDecided <= x.at &&
      var delay, base := x.st.nextRetryTime.value - x.retryDecided, Base(spec.Policy(), k);
      (base <= delay && 4 * delay <= 5 * base <==> Fits(spec.Policy(), k)) && (delay < 0 <==> !Fits(spec.Policy(), k))
  {
    AlwaysTold(spec, events);
    AlwaysGood(spec, events);
    StartsCreated(spec, events);
    var x := History(spec, events)[i];
    assert StoredTold(spec, events, x) && Follows(History(spec, events)[i - 1], x);
    hide Execute, History, Told;
    var k := x.st.retryCount - 1;
    var u: Draw :| DelayedBy(spec, x.st, x.retryDecided, u);
    DelayInBandIffFits(spec.Policy(), k, u);
    BaseMonotone(spec.Policy(), k, k);
    hide Base, Fits, RetryDelay;
  }

  /** A batch is given up only when its retries are used up. */
  lemma {:induction false} FailedIsExhausted(spec: Spec, events: seq<Event>, i: nat)
    requires i < |History(spec, events)| && History(spec, events)[i].st.phase.Failed?
    ensures var st := History(spec, events)[i].st;
      st.retryCount == spec.Policy().maxRetries && st.completionTime.Some? && st.errorMessage != ""
  {
    AlwaysTold(spec, events);
    AlwaysGood(spec, events);
    assert StoredTold(spec, events, History(spec, events)[i]) && Inv(spec, History(spec, events)[i]);
    hide Execute, Reported, Tallied;
  }
}
