/** Safety of the batch protocol over whole runs, for any number of workers. */
module BatchTheorems {
  import opened Common
  import opened Resources
  import opened BatchBackoff
  import opened BatchMachine
  import opened BatchProtocol
  import opened BatchSafety

  // ---------- serial runs are good ----------

  lemma {:induction false} GoodExtends(spec: Spec, h: seq<Stored>, y: Stored)
    requires h != [] && Good(spec, h) && Inv(spec, y) && Follows(Last(h), y)
    ensures Good(spec, h + [y])
  {
    hide Inv, Follows;
  }

  lemma {:induction false} GoodJoins(spec: Spec, h: seq<Stored>, writes: seq<Stored>)
    requires h != [] && Good(spec, h) && Good(spec, [Last(h)] + writes)
    ensures Good(spec, h + writes)
  {
    hide Inv, Follows;
    var t := [Last(h)] + writes;
    forall i | 0 <= i < |h + writes| ensures Inv(spec, (h + writes)[i]) {
      if i >= |h| { assert (h + writes)[i] == t[i - |h| + 1]; }
    }
    forall i | 0 < i < |h + writes| ensures Follows((h + writes)[i - 1], (h + writes)[i]) {
      if i >= |h| { assert Follows(t[i - |h|], t[i - |h| + 1]); }
    }
  }

  /** What a reconcile has done so far, from a sound version that was current when it was read. */
  ghost predicate RunGood(spec: Spec, k: nat, first: Stored, r: Reconcile, run: Run) {
    Good(spec, [first] + run.writes) && run.session.worker == r.worker &&
    Newest(first, run.writes).at <= Latest(r) && run.session.edited <= Latest(r) &&
    run.session.version <= k + |run.writes| &&
    (run.session.version == k + |run.writes| ==> SessionInv(spec, Newest(first, run.writes), run.session))
  }

  lemma {:induction false} StepStaysGood(spec: Spec, k: nat, first: Stored, r: Reconcile, run: Run, i: Input)
    requires RunGood(spec, k, first, r, run) && Latest(r) <= i.now
    ensures var r' := r.(inputs := r.inputs + [i]); RunGood(spec, k, first, r', PerformStep(spec, k, first, run, i))
  {
    hide SessionInv, LocalStep, Inv, Follows;
    var s := run.session;
    var x := Newest(first, run.writes);
    assert x == Last([first] + run.writes) && Inv(spec, x);
    var r' := r.(inputs := r.inputs + [i]);
    assert Latest(r') == i.now;
    if Local(s.control) {
      LocalTimes(spec, s, i);
      if s.version == k + |run.writes| { LocalKeeps(spec, x, s, i); }
    } else if s.control.AtUpdate? && !i.delivery.Rejected? && s.version == k + |run.writes| {
      StoreKeeps(spec, x, s, i.now);
      var y := Record(x, s, i.now);
      GoodExtends(spec, [first] + run.writes, y);
      assert [first] + run.writes + [y] == [first] + (run.writes + [y]);
    } else if s.control.AtUpdate? && s.version == k + |run.writes| {
      RefusalKeeps(spec, x, s);
    }
    hide Good;
  }

  lemma {:induction false} RefusalKeeps(spec: Spec, x: Stored, s: Session)
    requires SessionInv(spec, x, s) && s.control.AtUpdate?
    ensures SessionInv(spec, x, Answered(s, false))
  {
    hide Writable, Working;
  }

  lemma {:induction false} PerformGood(spec: Spec, k: nat, first: Stored, r: Reconcile)
    requires Inv(spec, first) && Ordered(r) && first.at <= r.start
    ensures RunGood(spec, k, first, r, Perform(spec, k, first, r))
    decreases |r.inputs|
  {
    hide Inv, Follows, PerformStep;
    if r.inputs == [] {
      assert Good(spec, [first] + []);
    } else {
      var before := r.(inputs := r.inputs[..|r.inputs| - 1]);
      PerformGood(spec, k, first, before);
      StepStaysGood(spec, k, first, before, Perform(spec, k, first, before), Last(r.inputs));
      assert before.inputs + [Last(r.inputs)] == r.inputs;
      assert before.(inputs := r.inputs) == r;
    }
  }

  lemma {:induction false} SerialGood(spec: Spec, rs: seq<Reconcile>)
    requires WellTimed(spec, rs)
    ensures Good(spec, Serial(spec, rs))
  {
    if rs == [] {
      assert CREATED.claims == 0;
    } else {
      hide Inv, Follows, Perform, Ordered;
      var h := Serial(spec, rs[..|rs| - 1]);
      SerialGood(spec, rs[..|rs| - 1]);
      PerformGood(spec, |h| - 1, Last(h), Last(rs));
      GoodJoins(spec, h, Perform(spec, |h| - 1, Last(h), Last(rs)).writes);
    }
  }

  // ---------- safety of every interleaving ----------

  function History(spec: Spec, events: seq<Event>): (h: seq<Stored>)
    ensures h != []
  {
    Execute(spec, events).history
  }

  lemma {:induction false} AlwaysGood(spec: Spec, events: seq<Event>)
    ensures Good(spec, History(spec, events))
  {
    hide Execute, WellTimed, Serial;
    SerialEquivalent(spec, events);
    var rs :| WellTimed(spec, rs) && Serial(spec, rs) == Execute(spec, events).history;
    SerialGood(spec, rs);
  }

  /** Pending and Retrying versions have no owner and no lease, Claimed and Processing versions have both;
      an owner is never replaced without a version in between that has none, and while a batch is held
      only its owner writes it. */
  lemma {:induction false} Ownership(spec: Spec, events: seq<Event>)
    ensures var h := History(spec, events);
      forall i | 0 <= i < |h| :: var p := h[i].st.phase;
        (p.Pending? || p.Retrying? ==> Free(h[i].st)) && (p.Claimed? || p.Processing? ==> Held(h[i].st))
    ensures var h := History(spec, events);
      forall i | 0 < i < |h| && Held(h[i - 1].st) ::
        (h[i].st.claimedBy == h[i - 1].st.claimedBy || h[i].st.claimedBy == "") &&
        (h[i - 1].st.phase.Claimed? || h[i - 1].st.phase.Processing? ==> h[i].writer == h[i - 1].st.claimedBy)
  {
    hide Execute;
    AlwaysGood(spec, events);
    var h := History(spec, events);
    forall i | 0 < i < |h| && Held(h[i - 1].st)
      ensures h[i].st.claimedBy == h[i - 1].st.claimedBy || h[i].st.claimedBy == ""
    {
      assert Follows(h[i - 1], h[i]);
    }
  }

  /** How many of the versions are accepted claims. */
  function Claims(h: seq<Stored>): nat {
    if |h| < 2 then 0
    else Claims(h[..|h| - 1]) + if h[|h| - 2].st.phase.Pending? && Last(h).st.phase.Claimed? then 1 else 0
  }

  /** How many of the versions differ in phase from the one before. */
  function PhaseChanges(h: seq<Stored>): nat {
    if |h| < 2 then 0
    else PhaseChanges(h[..|h| - 1]) + if h[|h| - 2].st.phase != Last(h).st.phase then 1 else 0
  }

  function Rank(p: Phase): nat {
    match p
    case Unset => 5
    case Retrying => 5
    case Pending => 4
    case Claimed => 3
    case Processing => 2
    case Stale => 1
    case Completed => 0
    case Failed => 0
  }

  /** How many phase changes a batch still has before it. */
  function Measure(spec: Spec, st: Status): int {
    5 * (spec.Policy().maxRetries - st.retryCount) + Rank(st.phase)
  }

  lemma {:induction false} GoodPrefix(spec: Spec, h: seq<Stored>)
    requires h != [] && Good(spec, h)
    ensures Good(spec, h[..|h| - 1])
  {
    hide Inv, Follows;
    var before := h[..|h| - 1];
    forall i | 0 < i < |before| ensures Follows(before[i - 1], before[i]) {
      assert Follows(h[i - 1], h[i]);
    }
  }

  lemma {:induction false} MeasureDrops(spec: Spec, a: Stored, b: Stored)
    requires Follows(a, b)
    ensures Measure(spec, b.st) + (if a.st.phase != b.st.phase then 1 else 0) <= Measure(spec, a.st)
  {
  }

  lemma {:induction false} ClaimsCounted(spec: Spec, h: seq<Stored>)
    requires h != [] && h[0] == CREATED && Good(spec, h)
    ensures Claims(h) == Last(h).claims
  {
    hide Inv;
    if |h| > 1 {
      var before := h[..|h| - 1];
      GoodPrefix(spec, h);
      ClaimsCounted(spec, before);
      assert Follows(h[|h| - 2], Last(h));
    }
  }

  lemma {:induction false} PhaseChangesBounded(spec: Spec, h: seq<Stored>)
    requires h != [] && h[0] == CREATED && Good(spec, h)
    ensures PhaseChanges(h) <= Measure(spec, BLANK) - Measure(spec, Last(h).st)
  {
    hide Inv;
    if |h| > 1 {
      var before := h[..|h| - 1];
      GoodPrefix(spec, h);
      PhaseChangesBounded(spec, before);
      MeasureDrops(spec, h[|h| - 2], Last(h));
      hide Measure, Follows;
    }
  }

  lemma {:induction false} StartsCreated(spec: Spec, events: seq<Event>)
    ensures History(spec, events)[0] == CREATED
  {
    hide Apply;
    if events != [] {
      StartsCreated(spec, events[..|events| - 1]);
    }
  }

  /** Accepted claims are one per attempt, attempts are bounded, and so is the length of the whole run. */
  lemma {:induction false} AttemptsAreBounded(spec: Spec, events: seq<Event>)
    ensures var h := History(spec, events); var st := Last(h).st;
      st.retryCount <= spec.Policy().maxRetries &&
      Claims(h) == st.retryCount + (if Unclaimed(st.phase) then 0 else 1) &&
      PhaseChanges(h) <= 5 * (spec.Policy().maxRetries + 1)
  {
    AlwaysGood(spec, events);
    StartsCreated(spec, events);
    var h := History(spec, events);
    ClaimsCounted(spec, h);
    PhaseChangesBounded(spec, h);
    assert Inv(spec, Last(h));
    hide Execute, Claims, PhaseChanges;
  }

  /** Entries have distinct names and match the counters, and a Completed batch has no failure and a Completed
      entry for every resource of its spec. */
  lemma {:induction false} CompletedMeansEverything(spec: Spec, events: seq<Event>, i: nat)
    requires i < |History(spec, events)| && !History(spec, events)[i].st.phase.Unset?
    ensures var st := History(spec, events)[i].st;
      Distinct(SourceNames(st.entries)) && 0 <= st.percentage <= 100 &&
      st.completed == Count(st.entries, IsCompleted) && st.failed == Count(st.entries, IsFailed) &&
      st.completed + st.failed == |st.entries| <= |spec.resources| &&
      (st.phase.Completed? ==> st.failed == 0 && AllCompleted(spec, st))
  {
    AlwaysGood(spec, events);
    SettledFits(spec, History(spec, events)[i].st);
    hide Execute;
  }

  lemma {:induction false} EntriesGrow(spec: Spec, h: seq<Stored>, i: nat, j: nat)
    requires Good(spec, h) && i <= j < |h|
    ensures h[i].st.entries <= h[j].st.entries
  {
    hide Inv;
    if i < j {
      EntriesGrow(spec, h, i, j - 1);
      assert Follows(h[j - 1], h[j]);
    }
  }

  lemma {:induction false} CountPrefix(a: seq<Entry>, b: seq<Entry>, p: Entry -> bool)
    requires a <= b
    ensures Count(a, p) <= Count(b, p)
  {
    if |a| < |b| {
      assert a <= b[..|b| - 1];
      CountPrefix(a, b[..|b| - 1], p);
    } else {
      assert a == b;
    }
  }

  /** A resource is settled once and for all: later attempts keep its entry, so a batch with a failed
      resource never completes, however many retries it is given. */
  lemma {:induction false} FailureIsPermanent(spec: Spec, events: seq<Event>, i: nat, j: nat)
    requires i <= j < |History(spec, events)|
    ensures var h := History(spec, events);
      h[i].st.entries <= h[j].st.entries && (h[i].st.failed > 0 ==> !h[j].st.phase.Completed?)
  {
    var h := History(spec, events);
    AlwaysGood(spec, events);
    EntriesGrow(spec, h, i, j);
    CountPrefix(h[i].st.entries, h[j].st.entries, IsFailed);
    assert Inv(spec, h[i]) && Inv(spec, h[j]);
    hide Execute;
  }

  lemma {:induction false} SameAttempt(spec: Spec, h: seq<Stored>, i: nat, j: nat)
    requires Good(spec, h) && i <= j < |h|
    ensures h[i].st.retryCount <= h[j].st.retryCount
    ensures h[i].st.retryCount == h[j].st.retryCount ==> h[i].retryDecided == h[j].retryDecided
  {
    hide Inv;
    if i < j {
      SameAttempt(spec, h, i, j - 1);
      assert Follows(h[j - 1], h[j]);
    }
  }

  /** The claim that follows the k+1st retry comes no sooner than min(Initial * Multiplier^k, Max) after that
      retry was decided, as long as Initial * Multiplier^k fits a Duration. */
  lemma {:induction false} BackoffIsRespected(spec: Spec, events: seq<Event>, i: nat, j: nat, k: nat)
    requires i < j < |History(spec, events)| && Fits(spec.Policy(), k)
    requires var h := History(spec, events);
      h[i].st.phase.Retrying? && h[j].st.phase.Claimed? && h[i].st.retryCount == h[j].st.retryCount == k + 1
    ensures var h := History(spec, events);
      h[i].retryDecided <= h[i].at && h[j].st.claimedAt.Some? &&
      h[j].st.claimedAt.value >= h[i].retryDecided + Base(spec.Policy(), k)
  {
    var h := History(spec, events);
    AlwaysGood(spec, events);
    SameAttempt(spec, h, i, j);
    StartsCreated(spec, events);
    assert i > 0 && Follows(h[i - 1], h[i]);
    assert Inv(spec, h[j]);
    hide Execute, Tallied, AllCompleted, Fits, Base;
  }
}
