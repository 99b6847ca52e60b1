/** How long a pipeline conversion takes, and the one way in which it never ends. */
module PipelineLiveness {
  import opened Common
  import opened PipelineMachine
  import opened PipelineTheorems

  // ---------- an undisturbed run takes exactly 3n + 4 reconciles, or fails before ----------

  /** The spec names n pipelines, or discovery finds n if it finds any. */
  predicate Names(spec: Spec, n: nat, i: Input) {
    if spec.autoDiscovery then i.discovery.Some? ==> |i.discovery.value| == n else |spec.pipelines| == n
  }

  predicate Calm(spec: Spec, n: nat, s: Step) {
    s.Reconcile? && s.spec == spec && s.input.delivered && Names(spec, n, s.input)
  }

  /** One spec, every write stored, and n pipelines all along. */
  predicate Undisturbed(spec: Spec, n: nat, steps: seq<Step>) {
    forall k | 0 <= k < |steps| :: Calm(spec, n, steps[k])
  }

  ghost predicate Live(n: nat, st: Status) {
    Inv(st) &&
    (st.phase.Pending? ==> st.pipelines == []) &&
    (st.phase.Analyzing? && st.pipelines != [] ==>
      |st.pipelines| == n == st.total && Count(st.pipelines, IsPending) > 0 &&
      forall k | 0 <= k < n :: IsPending(st.pipelines[k]) || IsAnalyzing(st.pipelines[k])) &&
    (st.phase.Converting? ==>
      |st.pipelines| == n == st.total && Count(st.pipelines, IsPending) == 0 && !AllDone(st))
  }

  /** The number of reconciles left, unless the conversion fails. */
  function Measure(n: nat, st: Status): nat {
    match st.phase
    case Unset => 3 * n + 4
    case Pending => 3 * n + 3
    case Analyzing => if st.pipelines == [] then 3 * n + 2 else Count(st.pipelines, IsPending) + 2 * n + 1
    case Converting => 2 * Count(st.pipelines, IsAnalyzing) + Count(st.pipelines, IsConverting) + 1
    case Validating => 1
    case Completed => 0
    case Failed => 0
    case Cancelled => 0
  }

  lemma {:induction false} AnalyzeProgresses(spec: Spec, n: nat, st: Status, i: Input)
    requires Live(n, st) && st.phase.Analyzing? && n >= 1 && Names(spec, n, i)
    ensures var st' := AnalyzeStep(spec, st, i);
      !st'.phase.Failed? ==> Live(n, st') && Measure(n, st') == Measure(n, st) - 1
  {
    hide Count, Shaped;
    AnalyzeKeeps(spec, st, i);
    if st.pipelines == [] {
      CountAtMost(AnalyzeStep(spec, st, i).pipelines, IsPending);
    } else {
      OneAnalyzed(spec, n, st, i);
    }
  }

  lemma {:induction false} OneAnalyzed(spec: Spec, n: nat, st: Status, i: Input)
    requires Live(n, st) && st.phase.Analyzing? && st.pipelines != []
    ensures var st' := AnalyzeStep(spec, st, i);
      Live(n, st') && Measure(n, st') == Measure(n, st) - 1
  {
    hide Count, Shaped, Counted, FirstFrom, AnalyzeStep;
    AnalyzeKeeps(spec, st, i);
    AnalyzedOne(spec, st, i);
    AllAnalyzed(AnalyzeStep(spec, st, i).pipelines);
    NothingDone(AnalyzeStep(spec, st, i));
  }

  lemma {:induction false} AnalyzedOne(spec: Spec, st: Status, i: Input)
    requires Count(st.pipelines, IsPending) > 0
    requires forall k | 0 <= k < |st.pipelines| :: IsPending(st.pipelines[k]) || IsAnalyzing(st.pipelines[k])
    ensures var st' := AnalyzeStep(spec, st, i);
      st'.phase == (if Count(st'.pipelines, IsPending) == 0 then Converting else st.phase) &&
      st'.total == st.total && |st'.pipelines| == |st.pipelines| &&
      Count(st'.pipelines, IsPending) == Count(st.pipelines, IsPending) - 1 &&
      forall k | 0 <= k < |st.pipelines| :: IsPending(st'.pipelines[k]) || IsAnalyzing(st'.pipelines[k])
  {
    hide Count;
    var ps := st.pipelines;
    AllAnalyzed(ps);
    var k := FirstFrom(ps, IsPending, 0);
    var p := ps[k].(state := PlAnalyzing, progress := 25);
    CountsMove(ps, k, p);
    AllAnalyzed(ps[k := p]);
  }

  lemma {:induction false} AllAnalyzed(ps: seq<Pipeline>)
    ensures Count(ps, IsPending) == 0 <==> FirstFrom(ps, IsPending, 0) == |ps|
    ensures (forall k | 0 <= k < |ps| :: IsPending(ps[k]) || IsAnalyzing(ps[k])) && Count(ps, IsPending) == 0 ==>
      Count(ps, IsAnalyzing) == |ps|
  {
    CountAtMost(ps, IsPending);
    CountAtMost(ps, IsAnalyzing);
  }

  lemma {:induction false} NothingDone(st: Status)
    requires Counted(st)
    requires forall k | 0 <= k < |st.pipelines| :: IsPending(st.pipelines[k]) || IsAnalyzing(st.pipelines[k])
    ensures st.completed == 0 && st.failed == 0 && Count(st.pipelines, IsConverting) == 0
  {
    CountAtMost(st.pipelines, IsCompleted);
    CountAtMost(st.pipelines, IsFailed);
    CountAtMost(st.pipelines, IsConverting);
  }

  /** All of a total are done exactly when no pipeline is pending or active. */
  lemma {:induction false} DoneIffIdle(ps: seq<Pipeline>)
    requires Shaped(ps)
    ensures Count(ps, IsCompleted) + Count(ps, IsFailed) == |ps| <==>
      Count(ps, IsPending) == 0 && Count(ps, IsAnalyzing) == 0 && Count(ps, IsConverting) == 0
  {
    CountDisjoint(ps, IsCompleted, IsFailed);
    CountAtMost(ps, IsPending);
    CountAtMost(ps, IsAnalyzing);
    CountAtMost(ps, IsConverting);
    assert forall k | 0 <= k < |ps| :: Stage(ps[k]) >= 0;
  }

  lemma {:induction false} OneConverted(st: Status, converted: bool)
    requires Shaped(st.pipelines) && Counted(st)
    requires Count(st.pipelines, IsPending) == 0 && st.completed + st.failed != |st.pipelines|
    ensures var ps, ps' := st.pipelines, ConvertOne(st, converted).pipelines;
      Count(ps', IsPending) == 0 && ps' != ps &&
      2 * Count(ps', IsAnalyzing) + Count(ps', IsConverting) == 2 * Count(ps, IsAnalyzing) + Count(ps, IsConverting) - 1
  {
    hide Count, Shaped;
    DoneIffIdle(st.pipelines);
    CountAtMost(st.pipelines, IsAnalyzing);
    CountAtMost(st.pipelines, IsConverting);
    var k := FirstFrom(st.pipelines, IsActive, 0);
    CountsMove(st.pipelines, k, ConvertOne(st, converted).pipelines[k]);
  }

  lemma {:induction false} ConvertProgresses(spec: Spec, n: nat, st: Status, i: Input)
    requires Live(n, st) && st.phase.Converting?
    ensures var st' := ConvertStep(spec, st, i);
      !st'.phase.Failed? ==> Live(n, st') && Measure(n, st') == Measure(n, st) - 1
  {
    hide Count, Shaped, WithPercentage, ConvertOne;
    ConvertKeeps(spec, st, i);
    var ready := SetUpDone(spec, st, i);
    ConvertOneKeeps(ready, i.converted);
    OneConverted(ready, i.converted);
    DoneIffIdle(ConvertOne(ready, i.converted).pipelines);
  }

  lemma {:induction false} StepProgresses(spec: Spec, n: nat, st: Status, i: Input)
    requires Live(n, st) && !Terminal(st.phase) && i.delivered && n >= 1
    requires Names(spec, n, i)
    ensures var st' := Next(st, Reconcile(spec, i));
      !st'.phase.Failed? ==> Live(n, st') && Measure(n, st') == Measure(n, st) - 1
  {
    hide Count, Shaped, AnalyzeStep, ConvertStep;
    StepKeeps(st, Reconcile(spec, i));
    match st.phase
    case Analyzing => AnalyzeProgresses(spec, n, st, i);
    case Converting => ConvertProgresses(spec, n, st, i);
    case _ =>
  }

  /** After k undisturbed reconciles the conversion has failed, is complete, or is exactly k reconciles further. */
  lemma {:induction false} Timetable(spec: Spec, n: nat, steps: seq<Step>)
    requires Undisturbed(spec, n, steps) && n >= 1
    ensures var st := Run(steps);
      st.phase.Failed? ||
      (Live(n, st) && if |steps| <= 3 * n + 4 then Measure(n, st) == 3 * n + 4 - |steps| else st.phase.Completed?)
  {
    if steps == [] {
      assert Inv(BLANK);
    } else {
      var before := steps[..|steps| - 1];
      Timetable(spec, n, before);
      var st := Run(before);
      assert Run(steps) == Next(st, Last(steps));
      NeverCancelled(spec, n, before);
      if !Terminal(st.phase) {
        hide Next;
        StepProgresses(spec, n, st, Last(steps).input);
      }
    }
  }

  lemma {:induction false} StepNeverCancels(spec: Spec, st: Status, i: Input)
    requires !st.phase.Cancelled?
    ensures !PhaseStep(spec, st, i).phase.Cancelled?
  {
    hide FirstFrom, ConvertAt, WithPercentage, InitialPipelines;
  }

  lemma {:induction false} NeverCancelled(spec: Spec, n: nat, steps: seq<Step>)
    requires Undisturbed(spec, n, steps)
    ensures !Run(steps).phase.Cancelled?
  {
    if steps != [] {
      hide PhaseStep;
      var before := steps[..|steps| - 1];
      NeverCancelled(spec, n, before);
      assert Calm(spec, n, Last(steps));
      StepNeverCancels(spec, Run(before), Last(steps).input);
    }
  }

  /** A conversion of n >= 1 pipelines that nothing disturbs is over after 3n + 4 reconciles, and it cannot be
      Completed any sooner. */
  lemma {:induction false} Terminates(spec: Spec, n: nat, steps: seq<Step>)
    requires Undisturbed(spec, n, steps) && n >= 1
    ensures |steps| >= 3 * n + 4 ==> Terminal(Run(steps).phase)
    ensures Run(steps).phase.Completed? ==> |steps| >= 3 * n + 4
  {
    Timetable(spec, n, steps);
    NeverCancelled(spec, n, steps);
  }
}
