/** Any number of workers reconciling one batch against a server that compares resource versions. */
module BatchProtocol {
  import opened Common
  import opened BatchMachine

  /** A version of the batch as the server stored it: its status, when and by whom it was written,
      how many claims had been stored by then, and when the latest stored retry was decided. */
  datatype Stored = Stored(st: Status, at: Time, writer: string, claims: nat, retryDecided: Time)

  const CREATED := Stored(BLANK, 0, "", 0, 0)

  function Record(previous: Stored, s: Session, now: Time): Stored {
    Stored(s.obj, now, s.worker,
           previous.claims + (if previous.st.phase == Pending && s.obj.phase == Claimed then 1 else 0),
           if s.obj.phase == Retrying then s.edited else previous.retryDecided)
  }

  // ---------- workers in any interleaving, each from a possibly stale snapshot ----------

  datatype Event =
    | Wait(duration: nat)
    | Read(id: nat, worker: string, version: nat)
    | Act(id: nat, input: Input)

  /** A reconcile in progress: its session, the version it read, and what it has been given so far. */
  datatype Active = Active(session: Session, readVersion: nat, past: Reconcile)

  datatype World = World(clock: Time, history: seq<Stored>, active: map<nat, Active>)

  const START := World(0, [CREATED], map[])

  function Execute(spec: Spec, events: seq<Event>): (w: World)
    ensures w.history != []
  {
    if events == [] then START else Apply(spec, Execute(spec, events[..|events| - 1]), Last(events))
  }

  /** A Read starts a reconcile, under any id, from any version stored so far. One worker may have several in progress:
      after a crash it starts anew under another id, and what its old reconcile has under way may still be stored. */
  function Apply(spec: Spec, w: World, e: Event): (w': World)
    requires w.history != []
    ensures w.history <= w'.history
  {
    match e
    case Wait(d) => w.(clock := w.clock + d)
    case Read(id, worker, k) =>
      if worker != "" && k < |w.history| then
        w.(active := w.active[id :=
          Active(Begin(worker, k, w.history[k].st, w.clock), k, Reconcile(worker, w.clock, []))])
      else w
    case Act(id, input) =>
      if id in w.active then ActStep(spec, w, id, input.(now := w.clock)) else w
  }

  /** An update is stored exactly when it reaches the server and carries the latest resource version. */
  predicate Accepts(w: World, s: Session, i: Input)
    requires w.history != []
  {
    s.control.AtUpdate? && !i.delivery.Rejected? && s.version == |w.history| - 1
  }

  /** What one step of a worker gives to its undisturbed reconcile. */
  function Effective(w: World, s: Session, i: Input): Input
    requires w.history != []
  {
    if Accepts(w, s, i) then i else i.(delivery := Rejected)
  }

  function ActStep(spec: Spec, w: World, id: nat, i: Input): (w': World)
    requires w.history != [] && id in w.active
    ensures w.history <= w'.history
  {
    hide LocalStep, Answered, Record, Perform;
    var a := w.active[id];
    var stored := Accepts(w, a.session, i);
    var effective := Effective(w, a.session, i);
    var past := a.past.(inputs := a.past.inputs + [effective]);
    var s := if Local(a.session.control) then LocalStep(spec, a.session, i)
             else if a.session.control.AtUpdate? then Answered(a.session, effective.delivery.Acknowledged?)
             else a.session;
    World(w.clock,
          if stored then w.history + [Record(Last(w.history), a.session, i.now)] else w.history,
          w.active[id := Active(s, a.readVersion, past)])
  }

  // ---------- reconciles one at a time, each from the current version ----------

  datatype Reconcile = Reconcile(worker: string, start: Time, inputs: seq<Input>)

  datatype Run = Run(session: Session, writes: seq<Stored>)

  function Newest(first: Stored, writes: seq<Stored>): Stored {
    if writes == [] then first else Last(writes)
  }

  /** A whole reconcile that starts from version k and is disturbed by nobody. */
  function Perform(spec: Spec, k: nat, first: Stored, r: Reconcile): Run
    decreases |r.inputs|
  {
    if r.inputs == [] then Run(Begin(r.worker, k, first.st, r.start), [])
    else
      var n := |r.inputs| - 1;
      PerformStep(spec, k, first, Perform(spec, k, first, r.(inputs := r.inputs[..n])), r.inputs[n])
  }

  function PerformStep(spec: Spec, k: nat, first: Stored, run: Run, i: Input): Run {
    var s := run.session;
    if Local(s.control) then Run(LocalStep(spec, s, i), run.writes)
    else if s.control.AtUpdate? then
      if !i.delivery.Rejected? && s.version == k + |run.writes| then
        Run(Answered(s, i.delivery.Acknowledged?), run.writes + [Record(Newest(first, run.writes), s, i.now)])
      else Run(Answered(s, false), run.writes)
    else run
  }

  function Serial(spec: Spec, rs: seq<Reconcile>): (h: seq<Stored>)
    ensures h != []
  {
    if rs == [] then [CREATED]
    else
      var h := Serial(spec, rs[..|rs| - 1]);
      h + Perform(spec, |h| - 1, Last(h), Last(rs)).writes
  }

  /** Every reconcile starts no earlier than the version it reads was stored, and time never runs backwards. */
  ghost predicate WellTimed(spec: Spec, rs: seq<Reconcile>) {
    rs == [] ||
    (WellTimed(spec, rs[..|rs| - 1]) && Ordered(Last(rs)) &&
     Last(Serial(spec, rs[..|rs| - 1])).at <= Last(rs).start)
  }

  function Latest(r: Reconcile): Time {
    if r.inputs == [] then r.start else Last(r.inputs).now
  }

  predicate Ordered(r: Reconcile)
    decreases |r.inputs|
  {
    if r.inputs == [] then r.worker != ""
    else
      var before := r.(inputs := r.inputs[..|r.inputs| - 1]);
      Ordered(before) && Latest(before) <= Latest(r)
  }

  // ---------- every interleaving is equivalent to a serial run ----------

  /** What the history has to say about one reconcile in progress. */
  ghost predicate Consistent(spec: Spec, w: World, id: nat)
    requires id in w.active
  {
    var a := w.active[id];
    a.readVersion < |w.history| && Ordered(a.past) &&
    w.history[a.readVersion].at <= a.past.start && Latest(a.past) <= w.clock &&
    var run := Perform(spec, a.readVersion, w.history[a.readVersion], a.past);
    var written := a.readVersion + |run.writes|;
    run.session == a.session && a.session.version <= written < |w.history| &&
    w.history[a.readVersion + 1..written + 1] == run.writes
  }

  /** rs is a serial account of the history, in which a reconcile whose write is the newest version comes last. */
  ghost predicate Explains(spec: Spec, w: World, rs: seq<Reconcile>) {
    WellTimed(spec, rs) && Serial(spec, rs) == w.history &&
    (forall k | 0 <= k < |w.history| :: w.history[k].at <= w.clock) &&
    (forall id | id in w.active :: Consistent(spec, w, id)) &&
    forall id | id in w.active ::
      var a := w.active[id];
      a.readVersion + 1 < |w.history| && a.session.version == |w.history| - 1 ==>
        rs != [] && Serial(spec, rs[..|rs| - 1]) == w.history[..a.readVersion + 1]
  }

  lemma {:induction false} LocalTimes(spec: Spec, s: Session, i: Input)
    requires Local(s.control)
    ensures var s' := LocalStep(spec, s, i);
      (s.edited <= i.now ==> s'.edited <= i.now) && s'.worker == s.worker && s'.version == s.version
  {
  }

  lemma {:induction false} ExtendPerform(spec: Spec, k: nat, first: Stored, r: Reconcile, i: Input)
    ensures Perform(spec, k, first, r.(inputs := r.inputs + [i])) ==
            PerformStep(spec, k, first, Perform(spec, k, first, r), i)
  {
    assert (r.inputs + [i])[..|r.inputs|] == r.inputs;
    assert r.(inputs := r.inputs) == r;
  }

  lemma {:induction false} ExtendSerial(spec: Spec, rs: seq<Reconcile>, r: Reconcile)
    requires WellTimed(spec, rs) && Ordered(r) && Last(Serial(spec, rs)).at <= r.start
    ensures WellTimed(spec, rs + [r])
    ensures var h := Serial(spec, rs);
      Serial(spec, rs + [r]) == h + Perform(spec, |h| - 1, Last(h), r).writes
  {
    hide Perform, Ordered;
    assert (rs + [r])[..|rs|] == rs;
  }

  lemma {:induction false} OrderedExtends(r: Reconcile, i: Input)
    requires Ordered(r) && Latest(r) <= i.now
    ensures Ordered(r.(inputs := r.inputs + [i])) && Latest(r.(inputs := r.inputs + [i])) == i.now
  {
    assert (r.inputs + [i])[..|r.inputs|] == r.inputs;
    assert r.(inputs := r.inputs) == r;
  }

  lemma {:induction false} WritesExtend(h: seq<Stored>, k: nat, writes: seq<Stored>, x: Stored)
    requires k + |writes| == |h| - 1 && h[k + 1..k + |writes| + 1] == writes
    ensures Newest(h[k], writes) == Last(h)
    ensures (h + [x])[k + 1..k + |writes| + 2] == writes + [x]
  {
    assert h[k + 1..|h|] == writes;
    if writes != [] {
      assert Last(writes) == h[k + 1..|h|][|writes| - 1] == h[|h| - 1];
    }
  }

  /** One step in the world and one step of the undisturbed reconcile agree on the session and on what is stored. */
  lemma {:induction false} StepAgrees(spec: Spec, w: World, id: nat, run: Run, i: Input)
    requires w.history != [] && id in w.active
    requires var a := w.active[id];
      a.readVersion < |w.history| && run.session == a.session &&
      a.session.version <= a.readVersion + |run.writes| < |w.history| &&
      w.history[a.readVersion + 1..a.readVersion + |run.writes| + 1] == run.writes
    ensures var a := w.active[id];
      var effective := Effective(w, a.session, i);
      var w' := ActStep(spec, w, id, i);
      var run' := PerformStep(spec, a.readVersion, w.history[a.readVersion], run, effective);
      w'.clock == w.clock && id in w'.active &&
      w'.active[id] == Active(run'.session, a.readVersion, a.past.(inputs := a.past.inputs + [effective])) &&
      run'.session.version <= a.readVersion + |run'.writes| < |w'.history| &&
      w'.history[a.readVersion] == w.history[a.readVersion] &&
      w'.history[a.readVersion + 1..a.readVersion + |run'.writes| + 1] == run'.writes
  {
    var a := w.active[id];
    if Accepts(w, a.session, i) {
      WritesExtend(w.history, a.readVersion, run.writes, Record(Last(w.history), a.session, i.now));
    }
    hide Record;
  }

  /** The worker's own next step, taken in the world, is the next step of its undisturbed reconcile. */
  lemma {:induction false} StepConsistent(spec: Spec, w: World, id: nat, i: Input)
    requires w.history != [] && id in w.active && i.now == w.clock && Consistent(spec, w, id)
    ensures Consistent(spec, ActStep(spec, w, id, i), id)
  {
    hide ActStep, PerformStep, Perform, Ordered, Accepts;
    var a := w.active[id];
    var effective := Effective(w, a.session, i);
    var first := w.history[a.readVersion];
    ExtendPerform(spec, a.readVersion, first, a.past, effective);
    OrderedExtends(a.past, effective);
    StepAgrees(spec, w, id, Perform(spec, a.readVersion, first, a.past), i);
  }

  lemma {:induction false} WellTimedBefore(spec: Spec, rs: seq<Reconcile>)
    requires WellTimed(spec, rs) && rs != []
    ensures WellTimed(spec, rs[..|rs| - 1])
  {
    hide Serial, Ordered;
  }

  /** A serial account whose newest reconcile may be unfinished is brought up to date with that reconcile. */
  lemma {:induction false} Splice(
    spec: Spec, rs: seq<Reconcile>, h: seq<Stored>, h': seq<Stored>, k: nat, past: Reconcile)
    returns (rs': seq<Reconcile>)
    requires WellTimed(spec, rs) && Serial(spec, rs) == h && k < |h| < |h'|
    requires k + 1 < |h| ==> rs != [] && Serial(spec, rs[..|rs| - 1]) == h[..k + 1]
    requires h'[..k + 1] == h[..k + 1] && Ordered(past) && h[k].at <= past.start
    requires Perform(spec, k, h[k], past).writes == h'[k + 1..]
    ensures WellTimed(spec, rs') && Serial(spec, rs') == h'
    ensures rs' != [] && Serial(spec, rs'[..|rs'| - 1]) == h'[..k + 1]
  {
    hide Perform, Ordered, WellTimed, Serial;
    var before := if k + 1 == |h| then rs else rs[..|rs| - 1];
    var h0 := h'[..k + 1];
    if k + 1 < |h| {
      WellTimedBefore(spec, rs);
    } else {
      assert h[..k + 1] == h;
    }
    assert WellTimed(spec, before) && Serial(spec, before) == h0;
    assert |h0| - 1 == k && Last(h0) == h[k] by { assert h[..k + 1][k] == h[k]; }
    ExtendSerial(spec, before, past);
    rs' := before + [past];
    assert rs'[..|rs'| - 1] == before;
    assert h' == h0 + h'[k + 1..];
  }

  /** Right after its update is stored, a reconcile's writes are the newest versions. */
  lemma {:induction false} FullyWritten(spec: Spec, w: World, id: nat, i: Input)
    requires w.history != [] && id in w.active && i.now == w.clock && Consistent(spec, w, id)
    requires Accepts(w, w.active[id].session, i)
    ensures var w' := ActStep(spec, w, id, i); var a := w'.active[id];
      a.readVersion < |w'.history| &&
      Perform(spec, a.readVersion, w'.history[a.readVersion], a.past).writes == w'.history[a.readVersion + 1..]
  {
    hide Perform, Ordered, ActStep;
    StepConsistent(spec, w, id, i);
    WritesAreNewest(spec, w, id, i);
    var w' := ActStep(spec, w, id, i);
    assert w'.history[..|w'.history|] == w'.history;
  }

  /** A reconcile whose update is accepted has written everything after the version it read. */
  lemma {:induction false} WritesAreNewest(spec: Spec, w: World, id: nat, i: Input)
    requires w.history != [] && id in w.active && Consistent(spec, w, id) && Accepts(w, w.active[id].session, i)
    ensures var w' := ActStep(spec, w, id, i); var a := w'.active[id];
      a.readVersion == w.active[id].readVersion < |w'.history| == |w.history| + 1 &&
      |Perform(spec, a.readVersion, w'.history[a.readVersion], a.past).writes| == |w'.history| - 1 - a.readVersion
  {
    hide Ordered, Record;
    var a := w.active[id];
    ExtendPerform(spec, a.readVersion, w.history[a.readVersion], a.past, i);
    hide Perform;
  }

  lemma {:induction false} OthersConsistent(spec: Spec, w: World, w': World, changed: set<nat>)
    requires w.history != [] && w.history <= w'.history && w.clock <= w'.clock
    requires forall v | v in w.active :: Consistent(spec, w, v)
    requires forall v | v in w'.active && v !in changed :: v in w.active && w.active[v] == w'.active[v]
    ensures forall v | v in w'.active && v !in changed :: Consistent(spec, w', v)
  {
    forall v | v in w'.active && v !in changed ensures Consistent(spec, w', v) {
      var k := w.active[v].readVersion;
      var written := k + |Perform(spec, k, w.history[k], w.active[v].past).writes|;
      assert w'.history[k + 1..written + 1] == w.history[k + 1..written + 1];
    }
  }

  lemma {:induction false} ReadExplained(spec: Spec, w: World, id: nat, worker: string, k: nat, rs: seq<Reconcile>)
    requires Explains(spec, w, rs) && worker != "" && k < |w.history|
    ensures Explains(spec, Apply(spec, w, Read(id, worker, k)), rs)
  {
    hide WellTimed, Serial, Perform;
    var w' := Apply(spec, w, Read(id, worker, k));
    OthersConsistent(spec, w, w', {id});
    BegunIsConsistent(spec, w, id, worker, k);
    hide Consistent;
  }

  lemma {:induction false} BegunIsConsistent(spec: Spec, w: World, id: nat, worker: string, k: nat)
    requires worker != "" && k < |w.history| && w.history[k].at <= w.clock
    ensures Consistent(spec, Apply(spec, w, Read(id, worker, k)), id)
  {
    assert w.history[k + 1..k + 1] == [];
  }

  lemma {:induction false} RefusedExplained(spec: Spec, w: World, id: nat, i: Input, rs: seq<Reconcile>)
    requires w.history != [] && Explains(spec, w, rs) && id in w.active && i.now == w.clock
    requires !Accepts(w, w.active[id].session, i)
    ensures Explains(spec, ActStep(spec, w, id, i), rs)
  {
    hide ActStep, Consistent, WellTimed, Serial;
    var w' := ActStep(spec, w, id, i);
    SameVersionUnlessAccepted(spec, w, id, i);
    StepConsistent(spec, w, id, i);
    OthersConsistent(spec, w, w', {id});
  }

  lemma {:induction false} SameVersionUnlessAccepted(spec: Spec, w: World, id: nat, i: Input)
    requires w.history != [] && id in w.active && !Accepts(w, w.active[id].session, i)
    ensures var w' := ActStep(spec, w, id, i);
      w'.clock == w.clock && w'.history == w.history && w'.active.Keys == w.active.Keys &&
      w'.active[id].readVersion == w.active[id].readVersion &&
      w'.active[id].session.version == w.active[id].session.version &&
      forall v | v in w.active && v != id :: w'.active[v] == w.active[v]
  {
  }

  lemma {:induction false} AcceptedShape(spec: Spec, w: World, id: nat, i: Input)
    requires w.history != [] && id in w.active && i.now == w.clock && Accepts(w, w.active[id].session, i)
    ensures var w' := ActStep(spec, w, id, i);
      w'.clock == w.clock && |w'.history| == |w.history| + 1 && w.history <= w'.history &&
      Last(w'.history).at == w.clock && w'.active.Keys == w.active.Keys &&
      w'.active[id].readVersion == w.active[id].readVersion &&
      w'.active[id].past.start == w.active[id].past.start &&
      forall v | v in w.active && v != id :: w'.active[v] == w.active[v]
  {
  }

  lemma {:induction false} Bounds(spec: Spec, w: World, id: nat)
    requires id in w.active && Consistent(spec, w, id)
    ensures var a := w.active[id];
      a.readVersion < |w.history| && a.session.version < |w.history| && Ordered(a.past) &&
      w.history[a.readVersion].at <= a.past.start
  {
    hide Perform;
  }

  lemma {:induction false} OthersOutdated(spec: Spec, w: World, w': World, id: nat)
    requires |w'.history| == |w.history| + 1
    requires forall v | v in w.active :: Consistent(spec, w, v)
    requires forall v | v in w.active && v != id :: v in w'.active && w'.active[v] == w.active[v]
    ensures forall v | v in w.active && v != id :: w'.active[v].session.version < |w'.history| - 1
  {
    forall v | v in w.active && v != id ensures w'.active[v].session.version < |w'.history| - 1 {
      Bounds(spec, w, v);
    }
  }

  lemma {:induction false} AcceptedExplained(spec: Spec, w: World, id: nat, i: Input, rs: seq<Reconcile>)
    returns (rs': seq<Reconcile>)
    requires w.history != [] && Explains(spec, w, rs) && id in w.active && i.now == w.clock
    requires Accepts(w, w.active[id].session, i)
    ensures Explains(spec, ActStep(spec, w, id, i), rs')
  {
    hide ActStep, Consistent, WellTimed, Serial, Perform, Ordered;
    var w' := ActStep(spec, w, id, i);
    var k := w.active[id].readVersion;
    AcceptedShape(spec, w, id, i);
    StepConsistent(spec, w, id, i);
    OthersConsistent(spec, w, w', {id});
    FullyWritten(spec, w, id, i);
    Bounds(spec, w, id);
    Bounds(spec, w', id);
    OthersOutdated(spec, w, w', id);
    rs' := Splice(spec, rs, w.history, w'.history, k, w'.active[id].past);
  }

  lemma {:induction false} WaitExplained(spec: Spec, w: World, d: nat, rs: seq<Reconcile>)
    requires Explains(spec, w, rs)
    ensures Explains(spec, Apply(spec, w, Wait(d)), rs)
  {
    hide Consistent, WellTimed, Serial;
    OthersConsistent(spec, w, w.(clock := w.clock + d), {});
  }

  lemma {:induction false} ApplyExplained(spec: Spec, w: World, e: Event, rs: seq<Reconcile>)
    returns (rs': seq<Reconcile>)
    requires Explains(spec, w, rs) && w.history != []
    ensures Explains(spec, Apply(spec, w, e), rs')
  {
    hide Explains, ActStep, Accepts;
    rs' := rs;
    match e
    case Wait(d) => WaitExplained(spec, w, d, rs);
    case Read(id, worker, k) => if worker != "" && k < |w.history| { ReadExplained(spec, w, id, worker, k, rs); }
    case Act(id, input) =>
      if id in w.active {
        var i := input.(now := w.clock);
        if Accepts(w, w.active[id].session, i) {
          rs' := AcceptedExplained(spec, w, id, i, rs);
        } else {
          RefusedExplained(spec, w, id, i, rs);
        }
      }
  }

  lemma {:induction false} Explained(spec: Spec, events: seq<Event>) returns (rs: seq<Reconcile>)
    ensures Explains(spec, Execute(spec, events), rs)
  {
    if events == [] {
      rs := [];
    } else {
      rs := Explained(spec, events[..|events| - 1]);
      rs := ApplyExplained(spec, Execute(spec, events[..|events| - 1]), Last(events), rs);
    }
  }

  /** Whatever the interleaving and however stale the snapshots, the stored versions are those of a run
      in which reconciles happen one after the other, each reading the current version. */
  lemma {:induction false} SerialEquivalent(spec: Spec, events: seq<Event>)
    ensures exists rs :: WellTimed(spec, rs) && Serial(spec, rs) == Execute(spec, events).history
  {
    var rs := Explained(spec, events);
  }
}
