/** What becomes of a pipeline that is added by hand to the spec of a conversion that has ended. */
module PipelineRestart {
  import opened Common
  import opened PipelineMachine
  import opened PipelineTheorems
  import opened PipelineLiveness

  predicate Reconciles(spec: Spec, s: Step) {
    s.Reconcile? && s.spec == spec
  }

  predicate AllReconcile(spec: Spec, steps: seq<Step>) {
    forall k | 0 <= k < |steps| :: Reconciles(spec, steps[k])
  }

  /** An ended conversion whose changed spec names, by hand, a pipeline that has no status. */
  ghost predicate Extended(spec: Spec, st: Status) {
    Terminal(st.phase) && !spec.autoDiscovery && exists id | id in spec.pipelines :: !HasStatus(st.pipelines, id)
  }

  lemma {:induction false} ExtendedRestarts(spec: Spec, st: Status)
    requires Extended(spec, st)
    ensures Restarted(spec, st) == st.(phase := Analyzing, repoReady := false, total := |spec.pipelines|)
  {
  }

  lemma {:induction false} RunSplits(st: Status, steps: seq<Step>)
    requires steps != []
    ensures RunFrom(st, steps) == RunFrom(Next(st, steps[0]), steps[1..])
  {
    if |steps| > 1 {
      var before := steps[..|steps| - 1];
      RunSplits(st, before);
      assert steps[1..][..|steps| - 2] == before[1..];
    } else {
      assert RunFrom(st, steps[..0]) == st;
    }
  }

  // ---------- whether the added pipeline ever gets a status ----------

  function Ids(ps: seq<Pipeline>): (ids: seq<string>)
    ensures |ids| == |ps|
    ensures forall k | 0 <= k < |ps| :: ids[k] == ps[k].id
  {
    seq(|ps|, k requires 0 <= k < |ps| => ps[k].id)
  }

  lemma {:induction false} HasStatusIs(ps: seq<Pipeline>, id: string)
    ensures HasStatus(ps, id) <==> id in Ids(ps)
  {
    if HasStatus(ps, id) {
      var k :| 0 <= k < |ps| && ps[k].id == id;
      assert Ids(ps)[k] == id;
    }
    if id in Ids(ps) {
      var k :| 0 <= k < |ps| && Ids(ps)[k] == id;
      assert ps[k] in ps;
    }
  }

  lemma {:induction false} UpdateKeepsIds(ps: seq<Pipeline>, k: nat, p: Pipeline)
    requires k < |ps| && p.id == ps[k].id
    ensures Ids(ps[k := p]) == Ids(ps)
  {
  }

  lemma {:induction false} ConvertKeepsIds(st: Status, converted: bool)
    ensures Ids(ConvertOne(st, converted).pipelines) == Ids(st.pipelines)
  {
    var k := FirstFrom(st.pipelines, IsActive, 0);
    if k < |st.pipelines| {
      UpdateKeepsIds(st.pipelines, k, ConvertAt(st, k, converted).pipelines[k]);
    }
    hide Ids;
  }

  /** Once there are statuses, no reconcile adds, drops or renames one. */
  lemma {:induction false} StepKeepsIds(spec: Spec, st: Status, i: Input)
    requires st.pipelines != []
    ensures Ids(PhaseStep(spec, st, i).pipelines) == Ids(st.pipelines)
  {
    hide Ids, ConvertOne, WithPercentage;
    ConvertKeepsIds(SetUpDone(spec, st, i), i.converted);
    var k := FirstFrom(st.pipelines, IsPending, 0);
    if k < |st.pipelines| {
      UpdateKeepsIds(st.pipelines, k, st.pipelines[k].(state := PlAnalyzing, progress := 25));
    }
  }

  lemma {:induction false} RunKeepsIds(st: Status, steps: seq<Step>)
    requires st.pipelines != [] && forall k | 0 <= k < |steps| :: steps[k].Reconcile?
    ensures Ids(RunFrom(st, steps).pipelines) == Ids(st.pipelines)
  {
    if steps != [] {
      hide PhaseStep;
      var before := RunFrom(st, steps[..|steps| - 1]);
      RunKeepsIds(st, steps[..|steps| - 1]);
      assert |Ids(before.pipelines)| > 0;
      StepKeepsIds(Last(steps).spec, before, Last(steps).input);
    }
  }

  /** Without statuses, the first reconcile that is stored makes one for every pipeline of the spec. */
  lemma {:induction false} EmptyGetsAll(spec: Spec, st: Status, i: Input)
    requires Extended(spec, st) && st.pipelines == [] && i.delivered
    ensures Ids(Next(Restarted(spec, st), Reconcile(spec, i)).pipelines) == spec.pipelines
  {
    ExtendedRestarts(spec, st);
    hide Restarted;
  }

  const SMOOTH := Input(true, None, true, true, true, Some(true), true)

  /** A pipeline without a status gets one, sooner or later, if and only if the conversion has no statuses at all. */
  lemma {:induction false} AddedGetsStatusIff(spec: Spec, st: Status, id: string)
    requires Terminal(st.phase) && !spec.autoDiscovery && id in spec.pipelines && !HasStatus(st.pipelines, id)
    ensures st.pipelines == [] <==>
      exists steps | AllReconcile(spec, steps) :: HasStatus(RunFrom(Restarted(spec, st), steps).pipelines, id)
  {
    ExtendedRestarts(spec, st);
    hide Restarted, HasStatus;
    var r := Restarted(spec, st);
    HasStatusIs(st.pipelines, id);
    if st.pipelines == [] {
      var steps := [Reconcile(spec, SMOOTH)];
      EmptyGetsAll(spec, st, SMOOTH);
      assert steps[..0] == [] && RunFrom(r, steps) == Next(r, steps[0]);
      HasStatusIs(RunFrom(r, steps).pipelines, id);
      assert AllReconcile(spec, steps);
    } else {
      forall steps | AllReconcile(spec, steps) ensures !HasStatus(RunFrom(r, steps).pipelines, id) {
        assert forall k | 0 <= k < |steps| :: Reconciles(spec, steps[k]);
        RunKeepsIds(r, steps);
        HasStatusIs(RunFrom(r, steps).pipelines, id);
      }
    }
  }

  // ---------- whether the restarted conversion gets to validation ----------

  /** The pipelines that are done or will be done by the one conversion under way. */
  function Ahead(st: Status): int {
    st.completed + st.failed + st.processing
  }

  /** If a pipeline is being converted, it is the first active one. */
  lemma {:induction false} ConvertingIsFirst(st: Status, k: nat)
    requires Shaped(st.pipelines) && Counted(st) && k < |st.pipelines| && k == FirstFrom(st.pipelines, IsActive, 0)
    ensures st.processing == if IsConverting(st.pipelines[k]) then 1 else 0
  {
    AtMostOneConverting(st.pipelines);
    CountAtMost(st.pipelines, IsConverting);
  }

  lemma {:induction false} DoneFits(st: Status)
    requires Counted(st)
    ensures 0 <= st.completed + st.failed <= |st.pipelines|
  {
    CountDisjoint(st.pipelines, IsCompleted, IsFailed);
  }

  lemma {:induction false} NoneConverting(st: Status)
    requires Counted(st) && FirstFrom(st.pipelines, IsActive, 0) == |st.pipelines|
    ensures st.processing == 0 && Count(st.pipelines, IsAnalyzing) == 0
  {
    CountAtMost(st.pipelines, IsConverting);
    CountAtMost(st.pipelines, IsAnalyzing);
  }

  /** Moving the first active pipeline: the work ahead grows when a conversion begins, and is then done. */
  lemma {:induction false} OneMoves(st: Status, converted: bool)
    requires Shaped(st.pipelines) && Counted(st)
    ensures var st' := ConvertOne(st, converted);
      var k := FirstFrom(st.pipelines, IsActive, 0);
      Shaped(st'.pipelines) && Counted(st') && |st'.pipelines| == |st.pipelines| && st'.total == st.total &&
      Count(st'.pipelines, IsPending) == Count(st.pipelines, IsPending) &&
      if k == |st.pipelines| then st' == st && st.processing == 0
      else if st.processing == 0 then
        st'.completed + st'.failed == Ahead(st) && Ahead(st') == Ahead(st) + 1 &&
        Count(st'.pipelines, IsAnalyzing) == Count(st.pipelines, IsAnalyzing) - 1 &&
        Count(st'.pipelines, IsConverting) == 1
      else
        st.processing == 1 && st'.completed + st'.failed == Ahead(st) == Ahead(st') &&
        Count(st'.pipelines, IsAnalyzing) == Count(st.pipelines, IsAnalyzing) &&
        Count(st'.pipelines, IsConverting) == 0
  {
    hide Count, Shaped;
    ConvertOneKeeps(st, converted);
    var k := FirstFrom(st.pipelines, IsActive, 0);
    if k == |st.pipelines| {
      NoneConverting(st);
    } else {
      ConvertingIsFirst(st, k);
      CountsMove(st.pipelines, k, ConvertOne(st, converted).pipelines[k]);
    }
  }

  // ---- no total between what is ahead and the number of statuses: never ----

  ghost predicate Stalled(n: nat, t: int, st: Status) {
    Inv(st) && 0 < |st.pipelines| == n && st.total == t && (t < Ahead(st) || t > n) &&
    (st.phase.Analyzing? || st.phase.Converting? || st.phase.Failed?)
  }

  lemma {:induction false} AnalyzeMoves(spec: Spec, st: Status, i: Input)
    requires Inv(st) && st.phase.Analyzing? && st.pipelines != []
    ensures var st' := AnalyzeStep(spec, st, i);
      |st'.pipelines| == |st.pipelines| && st'.total == st.total && Ahead(st') == Ahead(st) &&
      (st'.phase.Analyzing? || (st'.phase.Converting? && Count(st'.pipelines, IsPending) == 0)) &&
      Count(st'.pipelines, IsConverting) == Count(st.pipelines, IsConverting) &&
      if Count(st.pipelines, IsPending) == 0 then st'.phase.Converting? && st'.pipelines == st.pipelines
      else
        Count(st'.pipelines, IsPending) == Count(st.pipelines, IsPending) - 1 &&
        Count(st'.pipelines, IsAnalyzing) == Count(st.pipelines, IsAnalyzing) + 1
  {
    hide Count, Shaped, Counted;
    var ps := st.pipelines;
    AllAnalyzed(ps);
    AllAnalyzed(AnalyzeStep(spec, st, i).pipelines);
    var k := FirstFrom(ps, IsPending, 0);
    if k < |ps| {
      CountsMove(ps, k, ps[k].(state := PlAnalyzing, progress := 25));
    }
  }

  lemma {:induction false} ConvertStalls(spec: Spec, n: nat, t: int, st: Status, i: Input)
    requires Stalled(n, t, st) && st.phase.Converting?
    ensures Stalled(n, t, ConvertStep(spec, st, i))
  {
    hide Count, Shaped, ConvertOne, WithPercentage, FirstFrom;
    ConvertKeeps(spec, st, i);
    var ready := SetUpDone(spec, st, i);
    OneMoves(ready, i.converted);
    ConvertOneKeeps(ready, i.converted);
    DoneFits(ConvertOne(ready, i.converted));
    DoneFits(ready);
  }

  lemma {:induction false} StepStalls(spec: Spec, n: nat, t: int, st: Status, s: Step)
    requires Stalled(n, t, st) && s.Reconcile?
    ensures Stalled(n, t, Next(st, s))
  {
    hide Count, Shaped, AnalyzeStep, ConvertStep, Counted;
    if st.phase.Analyzing? {
      AnalyzeKeeps(s.spec, st, s.input);
      AnalyzeMoves(s.spec, st, s.input);
    } else if st.phase.Converting? {
      ConvertStalls(s.spec, n, t, st, s.input);
    }
  }

  /** Whatever the reconciles do, such a conversion is never validated. */
  lemma {:induction false} NeverValidates(n: nat, t: int, st: Status, steps: seq<Step>)
    requires Stalled(n, t, st) && forall k | 0 <= k < |steps| :: steps[k].Reconcile?
    ensures Stalled(n, t, RunFrom(st, steps))
  {
    if steps != [] {
      hide Stalled, Next;
      NeverValidates(n, t, st, steps[..|steps| - 1]);
      StepStalls(Last(steps).spec, n, t, RunFrom(st, steps[..|steps| - 1]), Last(steps));
    }
  }

  // ---- a total in that range: as soon as enough reconciles are stored ----

  ghost predicate Heading(t: int, st: Status) {
    Inv(st) && st.pipelines != [] && st.total == t && Ahead(st) <= t <= |st.pipelines| &&
    (st.phase.Analyzing? || (st.phase.Converting? && Count(st.pipelines, IsPending) == 0))
  }

  /** Reconciles that are left at most before validation. */
  function Distance(st: Status): nat {
    3 * Count(st.pipelines, IsPending) + 2 * Count(st.pipelines, IsAnalyzing) + Count(st.pipelines, IsConverting) +
    if st.phase.Analyzing? then 2 else 1
  }

  /** A reconcile that is stored, and finds a token if it needs one. */
  predicate Works(spec: Spec, s: Step) {
    Reconciles(spec, s) && s.input.delivered && (s.input.token || !spec.createWorkflowsRepo)
  }

  lemma {:induction false} ConvertHeads(spec: Spec, t: int, st: Status, i: Input)
    requires Heading(t, st) && st.phase.Converting? && (i.token || !spec.createWorkflowsRepo)
    ensures var st' := ConvertStep(spec, st, i);
      st'.phase.Validating? || (Heading(t, st') && Distance(st') < Distance(st))
  {
    hide Count, Shaped, ConvertOne, WithPercentage, FirstFrom;
    ConvertKeeps(spec, st, i);
    var ready := SetUpDone(spec, st, i);
    OneMoves(ready, i.converted);
    ConvertOneKeeps(ready, i.converted);
    DoneIffIdle(st.pipelines);
    NoneLeft(st);
  }

  lemma {:induction false} NoneLeft(st: Status)
    requires Counted(st)
    ensures FirstFrom(st.pipelines, IsActive, 0) == |st.pipelines| ==>
      Count(st.pipelines, IsAnalyzing) == 0 && Count(st.pipelines, IsConverting) == 0
  {
    if FirstFrom(st.pipelines, IsActive, 0) == |st.pipelines| {
      NoneConverting(st);
    }
  }

  lemma {:induction false} StepHeads(spec: Spec, t: int, st: Status, s: Step)
    requires Heading(t, st) && Works(spec, s)
    ensures var st' := Next(st, s);
      st'.phase.Validating? || (Heading(t, st') && Distance(st') < Distance(st))
  {
    hide Count, Shaped, AnalyzeStep, ConvertStep, Counted;
    if st.phase.Analyzing? {
      AnalyzeKeeps(spec, st, s.input);
      AnalyzeMoves(spec, st, s.input);
    } else {
      ConvertHeads(spec, t, st, s.input);
    }
  }

  lemma {:induction false} Validates(spec: Spec, t: int, st: Status, steps: seq<Step>) returns (k: nat)
    requires Heading(t, st) && (forall j | 0 <= j < |steps| :: Works(spec, steps[j])) && |steps| >= Distance(st)
    ensures k <= |steps| && RunFrom(st, steps[..k]).phase.Validating?
    decreases |steps|
  {
    hide Heading, Next;
    var st' := Next(st, steps[0]);
    StepHeads(spec, t, st, steps[0]);
    if st'.phase.Validating? {
      k := 1;
      RunSplits(st, steps[..1]);
      assert steps[..1][1..] == [];
    } else {
      var j := Validates(spec, t, st', steps[1..]);
      k := j + 1;
      RunSplits(st, steps[..k]);
      assert steps[..k][1..] == steps[1..][..j];
    }
  }

  lemma {:induction false} DistanceFits(st: Status)
    ensures Distance(st) <= 3 * |st.pipelines| + 2
  {
    StagesFit(st.pipelines);
  }

  lemma {:induction false} StagesFit(ps: seq<Pipeline>)
    ensures Count(ps, IsPending) + Count(ps, IsAnalyzing) + Count(ps, IsConverting) <= |ps|
  {
    if ps != [] {
      StagesFit(ps[..|ps| - 1]);
    }
  }

  /** Without statuses, the first reconcile makes as many as the new total counts. */
  lemma {:induction false} FreshHeads(spec: Spec, st: Status, i: Input)
    requires Extended(spec, st) && Inv(st) && st.pipelines == [] && i.delivered
    ensures var st' := Next(Restarted(spec, st), Reconcile(spec, i));
      Heading(|spec.pipelines|, st') && |st'.pipelines| == |spec.pipelines|
  {
    ExtendedRestarts(spec, st);
    hide Restarted;
    AnalyzeKeeps(spec, Restarted(spec, st), i);
    hide Shaped;
  }

  lemma {:induction false} FreshValidates(spec: Spec, st: Status, steps: seq<Step>) returns (k: nat)
    requires Extended(spec, st) && Inv(st) && st.pipelines == []
    requires (forall j | 0 <= j < |steps| :: Works(spec, steps[j])) && |steps| >= 3 * |spec.pipelines| + 3
    ensures k <= |steps| && RunFrom(Restarted(spec, st), steps[..k]).phase.Validating?
  {
    var r := Restarted(spec, st);
    assert Works(spec, steps[0]);
    FreshHeads(spec, st, steps[0].input);
    hide Heading, Next, Restarted;
    DistanceFits(Next(r, steps[0]));
    var j := Validates(spec, |spec.pipelines|, Next(r, steps[0]), steps[1..]);
    k := j + 1;
    RunSplits(r, steps[..k]);
    assert steps[..k][1..] == steps[1..][..j];
  }

  /** The new total can be met: there are no statuses yet, or it lies between the pipelines that are done or being
      converted and the number of statuses. */
  predicate TotalCanBeMet(spec: Spec, st: Status) {
    st.pipelines == [] || Ahead(st) <= |spec.pipelines| <= |st.pipelines|
  }

  /** The restarted conversion gets to validation if and only if the new total can be met. If it cannot, no run of
      reconciles gets there; if it can, every run that is stored and finds its token does, within three reconciles for
      every pipeline and three more. */
  lemma {:induction false} RestartStallsUnlessTotalsAgree(spec: Spec, st: Status, steps: seq<Step>)
    requires Extended(spec, st) && Inv(st)
    ensures var r := Restarted(spec, st);
      if TotalCanBeMet(spec, st) then
        (forall k | 0 <= k < |steps| :: Works(spec, steps[k])) &&
        |steps| >= 3 * |st.pipelines| + 3 * |spec.pipelines| + 3 ==>
          exists k | 0 <= k <= |steps| :: RunFrom(r, steps[..k]).phase.Validating?
      else
        (forall k | 0 <= k < |steps| :: steps[k].Reconcile?) ==>
          var p := RunFrom(r, steps).phase; p.Analyzing? || p.Converting? || p.Failed?
  {
    var r, n, t := Restarted(spec, st), |st.pipelines|, |spec.pipelines|;
    ExtendedRestarts(spec, st);
    hide Restarted, Count, Shaped, RunFrom, Extended;
    if TotalCanBeMet(spec, st) {
      if (forall k | 0 <= k < |steps| :: Works(spec, steps[k])) && |steps| >= 3 * n + 3 * t + 3 {
        if n == 0 {
          var k := FreshValidates(spec, st, steps);
        } else {
          DistanceFits(r);
          var k := Validates(spec, t, r, steps);
        }
      }
    } else if forall k | 0 <= k < |steps| :: steps[k].Reconcile? {
      NeverValidates(n, t, r, steps);
    }
  }

  // ---------- both cases are reached ----------

  const ONE := Spec(["a"], false, false)
  const TWO := Spec(["a", "b"], false, false)

  function Smooth(k: nat): seq<Step> {
    seq(k, _ => Reconcile(ONE, SMOOTH))
  }

  lemma {:induction false} SmoothStep(k: nat)
    ensures Run(Smooth(k + 1)) == PhaseStep(ONE, Run(Smooth(k)), SMOOTH)
  {
    assert Smooth(k + 1)[..k] == Smooth(k);
    hide PhaseStep;
  }

  const ANALYZED := BLANK.(phase := Converting, total := 1, pipelines := [Pipeline("a", PlAnalyzing, 25)])
  const CONVERTING := ANALYZED.(pipelines := [Pipeline("a", PlConverting, 50)], processing := 1)
  const CONVERTED := BLANK.(phase := Validating, total := 1, pipelines := [Pipeline("a", PlCompleted, 100)],
                            completed := 1, percentage := 100, workflows := ["a"])

  lemma {:induction false} FirstHalf()
    ensures Run(Smooth(4)) == ANALYZED
  {
    hide ConvertStep;
    assert Run(Smooth(0)) == BLANK;
    SmoothStep(0);
    SmoothStep(1);
    SmoothStep(2);
    SmoothStep(3);
    hide Run;
    var initial := BLANK.(phase := Analyzing, total := 1);
    assert Run(Smooth(2)) == initial;
    var ps := [Pipeline("a", PlPending, 0)];
    assert InitialPipelines(["a"]) == ps;
    assert Run(Smooth(3)) == initial.(pipelines := ps);
    assert ps[0 := ps[0].(state := PlAnalyzing, progress := 25)] == ANALYZED.pipelines;
  }

  lemma {:induction false} SecondHalf()
    ensures PhaseStep(ONE, ANALYZED, SMOOTH) == CONVERTING && PhaseStep(ONE, CONVERTING, SMOOTH) == CONVERTED
  {
    var ps := ANALYZED.pipelines;
    assert ps[0 := ps[0].(state := PlConverting, progress := 50)] == CONVERTING.pipelines;
    var qs := CONVERTING.pipelines;
    assert qs[0 := qs[0].(state := PlCompleted, progress := 100)] == CONVERTED.pipelines;
    assert [] + ["a"] == ["a"];
    assert FirstFrom(ps, IsActive, 0) == 0 && FirstFrom(qs, IsActive, 0) == 0;
    assert ConvertOne(ANALYZED, true) == CONVERTING;
  }

  lemma {:induction false} LastStep()
    ensures PhaseStep(ONE, CONVERTED, SMOOTH) == CONVERTED.(phase := Completed)
  {
  }

  /** Seven smooth reconciles convert one pipeline. */
  lemma {:induction false} OneIsConverted()
    ensures Run(Smooth(7)) == CONVERTED.(phase := Completed)
  {
    hide Run, PhaseStep, Smooth;
    FirstHalf();
    SecondHalf();
    LastStep();
    SmoothStep(4);
    SmoothStep(5);
    SmoothStep(6);
  }

  lemma {:induction false} WorkNeverFails(n: nat, t: int, spec: Spec, st: Status, steps: seq<Step>)
    requires Stalled(n, t, st) && !st.phase.Failed? && forall k | 0 <= k < |steps| :: Works(spec, steps[k])
    ensures Stalled(n, t, RunFrom(st, steps)) && !RunFrom(st, steps).phase.Failed?
  {
    if steps != [] {
      var before, s := RunFrom(st, steps[..|steps| - 1]), Last(steps);
      hide Stalled;
      WorkNeverFails(n, t, spec, st, steps[..|steps| - 1]);
      assert Works(spec, s);
      hide RunFrom;
      StepStalls(spec, n, t, before, s);
      StepNeverFails(n, t, spec, before, s);
    }
  }

  lemma {:induction false} StepNeverFails(n: nat, t: int, spec: Spec, st: Status, s: Step)
    requires Stalled(n, t, st) && !st.phase.Failed? && Works(spec, s)
    ensures !Next(st, s).phase.Failed?
  {
    hide Inv, FirstFrom, ConvertAt, WithPercentage, Ahead;
  }

  lemma {:induction false} RunOn(st: Status, steps: seq<Step>, s: Step)
    ensures RunFrom(st, steps + [s]) == Next(RunFrom(st, steps), s)
  {
    assert (steps + [s])[..|steps|] == steps;
  }

  /** One pipeline is converted; then a second is added. It is never heard of again, and the conversion never ends,
      though nothing goes wrong. */
  lemma {:induction false} AddedPipelineIsForgotten(more: seq<Step>)
    requires forall k | 0 <= k < |more| :: Works(TWO, more[k])
    ensures var ended := Run(Smooth(7));
      ended.phase.Completed? && Ids(ended.pipelines) == ["a"] &&
      var st := RunFrom(Next(ended, SpecChange(TWO)), more);
      (st.phase.Analyzing? || st.phase.Converting?) && Ids(st.pipelines) == ["a"]
  {
    var ended := Run(Smooth(7));
    OneIsConverted();
    AlwaysInv(Smooth(7));
    hide Run, RunFrom, Count, Shaped;
    assert Ids(ended.pipelines) == ["a"];
    HasStatusIs(ended.pipelines, "b");
    assert Extended(TWO, ended) by { assert TWO.pipelines[1] == "b"; }
    ExtendedRestarts(TWO, ended);
    hide Restarted;
    var r := Restarted(TWO, ended);
    assert Stalled(1, 2, r);
    assert forall k | 0 <= k < |more| :: Works(TWO, more[k]) && more[k].Reconcile?;
    WorkNeverFails(1, 2, TWO, r, more);
    RunKeepsIds(r, more);
  }

  /** A conversion that fails before it has any status, and whose spec is then corrected, does take the pipelines up. */
  lemma {:induction false} FailedEarlyResumes()
    ensures var failed := Run([Reconcile(ONE, SMOOTH), Reconcile(ONE, SMOOTH.(configured := false))]);
      failed.phase.Failed? && failed.pipelines == [] &&
      Ids(RunFrom(Next(failed, SpecChange(TWO)), [Reconcile(TWO, SMOOTH)]).pipelines) == ["a", "b"]
  {
    var steps := [Reconcile(ONE, SMOOTH), Reconcile(ONE, SMOOTH.(configured := false))];
    RunOn(BLANK, [], steps[0]);
    RunOn(BLANK, [steps[0]], steps[1]);
    assert steps == [] + [steps[0]] + [steps[1]] && [] + [steps[0]] == [steps[0]];
    var failed := Run(steps);
    assert failed == BLANK.(phase := Failed, total := 1);
    HasStatusIs([], "a");
    assert Extended(TWO, failed) by { assert TWO.pipelines[0] == "a"; }
    EmptyGetsAll(TWO, failed, SMOOTH);
    hide Run;
    var r := Next(failed, SpecChange(TWO));
    var one := [Reconcile(TWO, SMOOTH)];
    assert one[..0] == [] && RunFrom(r, one) == Next(r, one[0]);
  }
}
