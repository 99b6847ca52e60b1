/** When a batch completes, and a run on which it never will. */
module BatchFailure {
  import opened Common
  import opened Resources
  import opened BatchBackoff
  import opened BatchMachine
  import opened BatchProtocol
  import opened BatchSafety
  import opened BatchTheorems

  /** When the loop over the resources is over, the batch is completed if and only if no entry is Failed. */
  lemma {:induction false} CompletesIffNoneFailed(spec: Spec, st: Status, now: Time, u: real)
    requires Tallied(spec, st)
    ensures Finished(spec, st, now, u).phase.Completed? <==>
      forall j | 0 <= j < |st.entries| :: !IsFailed(st.entries[j])
  {
    CountAtMost(st.entries, IsFailed);
    hide RetryDelay, Count;
  }

  // ---------- a run with a failed resource ----------

  const SPEC := Spec([Resource("1", "repository", "source", "target")], None)

  /** What the environment gives to every step: the resource fails, and every update is stored. */
  const UNLUCKY := Input(0, false, 0.0, Acknowledged)

  lemma {:induction false} ExecuteOn(events: seq<Event>, e: Event)
    ensures Execute(SPEC, events + [e]) == Apply(SPEC, Execute(SPEC, events), e)
  {
    assert (events + [e])[..|events|] == events;
  }

  /** The next reconcile of the worker, in which it takes n steps. */
  function Turn(events: seq<Event>, n: nat): seq<Event> {
    if n == 0 then events + [Read(0, "w", |Execute(SPEC, events).history| - 1)]
    else Turn(events, n - 1) + [Act(0, UNLUCKY)]
  }

  /** The world after n steps, as far as it matters: the worker's session and the history. */
  ghost predicate At(events: seq<Event>, session: Session, history: seq<Stored>) {
    var w := Execute(SPEC, events);
    w.clock == 0 && w.history == history && 0 in w.active && w.active[0].session == session
  }

  lemma {:induction false} TurnBegins(events: seq<Event>, h: seq<Stored>)
    requires h != [] && Execute(SPEC, events).history == h && Execute(SPEC, events).clock == 0
    ensures At(Turn(events, 0), Begin("w", |h| - 1, Last(h).st, 0), h)
  {
    ExecuteOn(events, Read(0, "w", |h| - 1));
    hide Execute;
  }

  lemma {:induction false} TurnWorks(events: seq<Event>, n: nat, s: Session, h: seq<Stored>)
    requires h != [] && At(Turn(events, n), s, h) && Local(s.control)
    ensures At(Turn(events, n + 1), LocalStep(SPEC, s, UNLUCKY), h)
  {
    ExecuteOn(Turn(events, n), Act(0, UNLUCKY));
    hide Execute, LocalStep;
  }

  lemma {:induction false} TurnStores(events: seq<Event>, n: nat, s: Session, h: seq<Stored>)
    requires h != [] && At(Turn(events, n), s, h) && s.control.AtUpdate? && s.version == |h| - 1
    ensures At(Turn(events, n + 1), Answered(s, true), h + [Record(Last(h), s, 0)])
  {
    ExecuteOn(Turn(events, n), Act(0, UNLUCKY));
    hide Execute, Answered, Record;
  }

  /** A reconcile that stores one status and is done. */
  lemma {:induction false} OneUpdate(events: seq<Event>, h: seq<Stored>, s: Session)
    requires h != [] && Execute(SPEC, events).history == h && Execute(SPEC, events).clock == 0
    requires s == LocalStep(SPEC, Begin("w", |h| - 1, Last(h).st, 0), UNLUCKY) && s.control.AtUpdate?
    ensures var w := Execute(SPEC, Turn(events, 2)); w.history == h + [Record(Last(h), s, 0)] && w.clock == 0
  {
    var s0 := Begin("w", |h| - 1, Last(h).st, 0);
    LocalTimes(SPEC, s0, UNLUCKY);
    hide LocalStep, Turn, Execute, Record, Answered;
    TurnBegins(events, h);
    TurnWorks(events, 0, s0, h);
    TurnStores(events, 1, s, h);
  }

  /** One worker initialises the batch, claims it and starts it. */
  function ThreeTurns(): seq<Event> {
    Turn(Turn(Turn([], 2), 2), 2)
  }

  /** The first step of a reconcile that reads this status makes that one of it. */
  predicate Becomes(version: nat, st: Status, next: Status) {
    var s := LocalStep(SPEC, Begin("w", version, st, 0), UNLUCKY);
    s.control.AtUpdate? && s.obj == next
  }

  lemma {:induction false} NextVersion(events: seq<Event>, next: Status)
    requires var w := Execute(SPEC, events);
      w.clock == 0 && Becomes(|w.history| - 1, Last(w.history).st, next)
    ensures var w, w' := Execute(SPEC, events), Execute(SPEC, Turn(events, 2));
      w'.clock == 0 && |w'.history| == |w.history| + 1 && Last(w'.history).st == next
  {
    var h := Execute(SPEC, events).history;
    hide Execute, LocalStep, Turn;
    OneUpdate(events, h, LocalStep(SPEC, Begin("w", |h| - 1, Last(h).st, 0), UNLUCKY));
  }

  const CREATED_STATUS := Initialized(SPEC, BLANK)
  const CLAIMED_STATUS := ClaimedFor(CREATED_STATUS, "w", 0)
  const STARTED_STATUS := Started(CLAIMED_STATUS, 0)

  lemma {:induction false} Becoming()
    ensures Becomes(0, BLANK, CREATED_STATUS)
    ensures Becomes(1, CREATED_STATUS, CLAIMED_STATUS)
    ensures Becomes(2, CLAIMED_STATUS, STARTED_STATUS)
  {
  }

  lemma {:induction false} BatchIsStarted()
    ensures var w := Execute(SPEC, ThreeTurns());
      w.clock == 0 && |w.history| == 4 && Last(w.history).st == STARTED_STATUS
  {
    Becoming();
    hide Turn, Becomes, Started, ClaimedFor, Initialized;
    assert Execute(SPEC, []) == START;
    hide Execute;
    NextVersion([], CREATED_STATUS);
    NextVersion(Turn([], 2), CLAIMED_STATUS);
    NextVersion(Turn(Turn([], 2), 2), STARTED_STATUS);
  }

  /** Then its only resource fails. */
  function FailedRun(): seq<Event> {
    Turn(ThreeTurns(), 5)
  }

  /** The batch is stored as waiting for a retry, with its resource Failed. */
  lemma {:induction false} FailureOccurs()
    ensures var st := Last(History(SPEC, FailedRun())).st; st.phase.Retrying? && st.failed == 1
  {
    BatchIsStarted();
    var e := ThreeTurns();
    var h := Execute(SPEC, e).history;
    hide Execute, ThreeTurns, Turn, RetryDelay;
    var s0 := Begin("w", 3, Last(h).st, 0);
    TurnBegins(e, h);
    TurnWorks(e, 0, s0, h);
    var s1 := s0.(control := Loop(0));
    assert LocalStep(SPEC, s0, UNLUCKY) == s1;
    TurnWorks(e, 1, s1, h);
    var s2 := LocalStep(SPEC, s1, UNLUCKY);
    assert s2.control == AtUpdate(ResourceUpdate(0)) && s2.obj.failed == 1 && s2.obj.retryCount == 0;
    TurnStores(e, 2, s2, h);
    var h' := h + [Record(Last(h), s2, 0)];
    var s3 := Answered(s2, true);
    TurnWorks(e, 3, s3, h');
    var s4 := LocalStep(SPEC, s3, UNLUCKY);
    assert s4.obj == Finished(SPEC, s2.obj, 0, 0.0);
    TurnStores(e, 4, s4, h');
    assert Last(History(SPEC, FailedRun())).st == s4.obj;
  }

  lemma {:induction false} HistoryGrows(spec: Spec, events: seq<Event>, more: seq<Event>)
    ensures History(spec, events) <= History(spec, events + more)
  {
    if more == [] {
      assert events + more == events;
    } else {
      hide Apply;
      HistoryGrows(spec, events, more[..|more| - 1]);
      assert (events + more)[..|events + more| - 1] == events + more[..|more| - 1];
    }
  }

  /** From there the batch is never Completed, whoever does whatever. */
  lemma {:induction false} RetriedInVain(more: seq<Event>)
    ensures !Last(History(SPEC, FailedRun() + more)).st.phase.Completed?
  {
    FailureOccurs();
    hide History, FailedRun;
    var h, h' := History(SPEC, FailedRun()), History(SPEC, FailedRun() + more);
    HistoryGrows(SPEC, FailedRun(), more);
    assert h'[|h| - 1] == Last(h);
    FailureIsPermanent(SPEC, FailedRun() + more, |h| - 1, |h'| - 1);
  }

}
