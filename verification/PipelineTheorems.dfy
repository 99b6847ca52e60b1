/** What every run of a pipeline conversion keeps, and how long it takes. */
module PipelineTheorems {
  import opened Common
  import opened PipelineMachine

  // ---------- shape and counters, on every run, restarts and lost writes included ----------

  function Stage(p: Pipeline): int {
    match p.state
    case PlPending => 0
    case PlAnalyzing => 1
    case PlConverting => 2
    case PlCompleted => 3
    case PlFailed => 3
    case PlValidating => -1
    case PlSkipped => -1
  }

  /** (Completed | Failed)* Converting? Analyzing* Pending*. */
  ghost predicate Shaped(ps: seq<Pipeline>) {
    (forall i | 0 <= i < |ps| :: Stage(ps[i]) >= 0) &&
    (forall i, j | 0 <= i < j < |ps| :: Stage(ps[i]) >= Stage(ps[j])) &&
    forall i, j | 0 <= i < j < |ps| :: !(IsConverting(ps[i]) && IsConverting(ps[j]))
  }

  ghost predicate Counted(st: Status) {
    st.processing == Count(st.pipelines, IsConverting) && st.completed == Count(st.pipelines, IsCompleted) &&
    st.failed == Count(st.pipelines, IsFailed) && |st.workflows| == st.completed
  }

  ghost predicate Inv(st: Status) {
    Shaped(st.pipelines) && Counted(st) && (st.phase.Unset? ==> st == BLANK)
  }

  lemma {:induction false} AtMostOneConverting(ps: seq<Pipeline>)
    requires Shaped(ps)
    ensures Count(ps, IsConverting) <= 1
  {
    if ps != [] {
      var init := ps[..|ps| - 1];
      AtMostOneConverting(init);
      if IsConverting(Last(ps)) {
        CountAtMost(init, IsConverting);
        assert forall i | 0 <= i < |init| :: init[i] == ps[i];
      }
    }
  }

  /** Moving one pipeline changes three counts at most. */
  lemma {:induction false} CountsMove(ps: seq<Pipeline>, k: nat, p: Pipeline)
    requires k < |ps|
    ensures var ps' := ps[k := p];
      Count(ps', IsConverting) == CountAfter(ps, k, p, IsConverting) &&
      Count(ps', IsCompleted) == CountAfter(ps, k, p, IsCompleted) &&
      Count(ps', IsFailed) == CountAfter(ps, k, p, IsFailed) &&
      Count(ps', IsAnalyzing) == CountAfter(ps, k, p, IsAnalyzing) &&
      Count(ps', IsPending) == CountAfter(ps, k, p, IsPending)
  {
    CountUpdate(ps, k, p, IsConverting);
    CountUpdate(ps, k, p, IsCompleted);
    CountUpdate(ps, k, p, IsFailed);
    CountUpdate(ps, k, p, IsAnalyzing);
    CountUpdate(ps, k, p, IsPending);
  }

  /** A pipeline may move to the next stage when all before it have got further than it has. */
  lemma {:induction false} ShapeMoves(ps: seq<Pipeline>, k: nat, p: Pipeline)
    requires Shaped(ps) && k < |ps| && Stage(p) == Stage(ps[k]) + 1
    requires forall j | 0 <= j < k :: Stage(ps[j]) > Stage(ps[k])
    requires IsConverting(p) ==> forall j | 0 <= j < k :: Stage(ps[j]) == 3
    ensures Shaped(ps[k := p])
  {
  }

  /** Before the first pipeline that waits, everything has been analyzed; before the first active one, all is done. */
  lemma {:induction false} FirstsAreNext(ps: seq<Pipeline>, k: nat)
    requires Shaped(ps) && k < |ps|
    ensures IsPending(ps[k]) && (forall j | 0 <= j < k :: !IsPending(ps[j])) ==>
      forall j | 0 <= j < k :: Stage(ps[j]) > 0
    ensures IsActive(ps[k]) && (forall j | 0 <= j < k :: !IsActive(ps[j])) ==>
      forall j | 0 <= j < k :: Stage(ps[j]) == 3
  {
  }

  lemma {:induction false} AnalyzeKeeps(spec: Spec, st: Status, i: Input)
    requires Inv(st) && st.phase.Analyzing?
    ensures Inv(AnalyzeStep(spec, st, i))
  {
    hide Count, Shaped;
    var k := FirstFrom(st.pipelines, IsPending, 0);
    if st.pipelines == [] {
      FreshCounts(AnalyzeStep(spec, st, i).pipelines, st);
    } else if k < |st.pipelines| {
      var p := st.pipelines[k].(state := PlAnalyzing, progress := 25);
      CountsMove(st.pipelines, k, p);
      FirstsAreNext(st.pipelines, k);
      ShapeMoves(st.pipelines, k, p);
    }
  }

  lemma {:induction false} FreshCounts(ps: seq<Pipeline>, st: Status)
    requires Counted(st) && st.pipelines == [] && forall k | 0 <= k < |ps| :: IsPending(ps[k])
    ensures Shaped(ps) && Counted(st.(pipelines := ps))
  {
    CountAtMost(ps, IsConverting);
    CountAtMost(ps, IsCompleted);
    CountAtMost(ps, IsFailed);
  }

  lemma {:induction false} ConvertOneKeeps(st: Status, converted: bool)
    requires Shaped(st.pipelines) && Counted(st)
    ensures var st' := ConvertOne(st, converted);
      Shaped(st'.pipelines) && Counted(st') && |st'.pipelines| == |st.pipelines| &&
      st'.phase == st.phase && st'.total == st.total
  {
    hide Count, Shaped;
    var k := FirstFrom(st.pipelines, IsActive, 0);
    if k < |st.pipelines| {
      var p := ConvertOne(st, converted).pipelines[k];
      CountsMove(st.pipelines, k, p);
      FirstsAreNext(st.pipelines, k);
      ShapeMoves(st.pipelines, k, p);
    }
  }

  lemma {:induction false} ConvertKeeps(spec: Spec, st: Status, i: Input)
    requires Inv(st) && st.phase.Converting?
    ensures Inv(ConvertStep(spec, st, i))
  {
    hide Count, Shaped, ConvertOne, WithPercentage;
    ConvertOneKeeps(SetUpDone(spec, st, i), i.converted);
  }

  lemma {:induction false} RestartKeeps(spec: Spec, st: Status)
    requires Inv(st)
    ensures Inv(Next(st, SpecChange(spec)))
  {
  }

  lemma {:induction false} StepKeeps(st: Status, s: Step)
    requires Inv(st)
    ensures Inv(Next(st, s))
  {
    hide Count, Shaped, AnalyzeStep, ConvertStep, Restarted;
    match s
    case Reconcile(spec, i) =>
      if st.phase.Analyzing? {
        AnalyzeKeeps(spec, st, i);
      } else if st.phase.Converting? {
        ConvertKeeps(spec, st, i);
      }
    case SpecChange(spec) => RestartKeeps(spec, st);
  }

  lemma {:induction false} AlwaysInv(steps: seq<Step>)
    ensures Inv(Run(steps))
  {
    if steps != [] {
      AlwaysInv(steps[..|steps| - 1]);
      StepKeeps(Run(steps[..|steps| - 1]), Last(steps));
    }
  }

  /** The statuses always have their shape, the counters count them, and there is one workflow per completed
      pipeline. */
  lemma {:induction false} ShapeAndCounters(steps: seq<Step>)
    ensures var st := Run(steps);
      Shaped(st.pipelines) && 0 <= st.processing == Count(st.pipelines, IsConverting) <= 1 &&
      st.completed == Count(st.pipelines, IsCompleted) && st.failed == Count(st.pipelines, IsFailed) &&
      |st.workflows| == st.completed
  {
    AlwaysInv(steps);
    AtMostOneConverting(Run(steps).pipelines);
  }
}
