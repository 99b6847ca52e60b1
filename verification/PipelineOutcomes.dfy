/** What the outcome of each operation does to the pipelines and to the conversion, in one reconcile and over runs. */
module PipelineOutcomes {
  import opened Common
  import opened PipelineMachine
  import opened PipelineTheorems
  import opened PipelineLiveness
  import opened PipelineRestart

  predicate Active(p: Pipeline) {
    p.state.PlAnalyzing? || p.state.PlConverting?
  }

  predicate IsOver(p: Pipeline) {
    p.state.PlCompleted? || p.state.PlFailed?
  }

  /** Pipeline k is the first that is being worked on. */
  ghost predicate Worked(ps: seq<Pipeline>, k: nat) {
    k < |ps| && Active(ps[k]) && forall j | 0 <= j < k :: !Active(ps[j])
  }

  /** Pipeline k is the first that waits. */
  ghost predicate Waiting(ps: seq<Pipeline>, k: nat) {
    k < |ps| && ps[k].state.PlPending? && forall j | 0 <= j < k :: !ps[j].state.PlPending?
  }

  ghost predicate OnlyOneMoves(ps: seq<Pipeline>, ps': seq<Pipeline>, k: nat) {
    k < |ps| == |ps'| && ps'[k].id == ps[k].id && forall j | 0 <= j < |ps| && j != k :: ps'[j] == ps[j]
  }

  /** The percentage is that of the completed pipelines, rounded down. */
  predicate PercentageIsExact(st: Status) {
    st.total > 0 ==> st.percentage * st.total <= 100 * st.completed < (st.percentage + 1) * st.total
  }

  /** A repository for the workflows is wanted, and none is known to be there. */
  predicate LacksRepo(spec: Spec, st: Status) {
    spec.createWorkflowsRepo && !st.repoReady
  }

  // ---------- one reconcile ----------

  /** The next pipeline to be worked on is taken up, or it is Completed or Failed as its conversion was. A workflow
      comes from a success and from nothing else. When the last pipeline is over, validation is next. */
  lemma {:induction false} ConversionDecides(spec: Spec, st: Status, i: Input, k: nat)
    requires st.phase.Converting? && Worked(st.pipelines, k) && i.delivered && (LacksRepo(spec, st) ==> i.token)
    ensures var st' := Next(st, Reconcile(spec, i)); var p, p' := st.pipelines[k], st'.pipelines[k];
      OnlyOneMoves(st.pipelines, st'.pipelines, k) && st'.total == st.total && PercentageIsExact(st') &&
      (if p.state.PlAnalyzing? then
        p'.state.PlConverting? && p'.progress == 50 && st'.processing == st.processing + 1 &&
        st'.completed == st.completed && st'.failed == st.failed && st'.workflows == st.workflows
      else if i.converted then
        p'.state.PlCompleted? && p'.progress == 100 && st'.processing == st.processing - 1 &&
        st'.completed == st.completed + 1 && st'.failed == st.failed && st'.workflows == st.workflows + [p.id]
      else
        p'.state.PlFailed? && p'.progress == p.progress && st'.processing == st.processing - 1 &&
        st'.completed == st.completed && st'.failed == st.failed + 1 && st'.workflows == st.workflows) &&
      st'.phase == (if st'.completed + st'.failed == st.total then Validating else Converting) &&
      st'.repoReady == (st'.phase.Converting? && (st.repoReady || (spec.createWorkflowsRepo && i.setUp)))
  {
    assert FirstFrom(st.pipelines, IsActive, 0) == k;
    hide FirstFrom;
    var worked := ConvertOne(SetUpDone(spec, st, i), i.converted);
    PercentageFits(worked);
    hide WithPercentage;
  }

  lemma {:induction false} PercentageFits(st: Status)
    ensures PercentageIsExact(WithPercentage(st))
  {
  }

  /** Without the token for a repository that is wanted and lacking, the conversion fails and nothing else changes.
      With no pipeline to work on, only validation can be next; and unless it is, or the repository has been set up,
      nothing is stored, the percentage neither. */
  lemma {:induction false} NothingIsConverted(spec: Spec, st: Status, i: Input)
    requires st.phase.Converting? && i.delivered
    ensures var st' := Next(st, Reconcile(spec, i));
      (LacksRepo(spec, st) && !i.token ==> st' == st.(phase := Failed)) &&
      ((LacksRepo(spec, st) ==> i.token) && (forall j | 0 <= j < |st.pipelines| :: !Active(st.pipelines[j])) ==>
        st'.pipelines == st.pipelines && st'.workflows == st.workflows &&
        (st'.phase.Validating? <==> st.completed + st.failed == st.total) &&
        (st'.phase.Validating? || st'.phase.Converting?) &&
        (!st'.phase.Validating? && !(LacksRepo(spec, st) && i.setUp) ==> st' == st))
  {
    hide WithPercentage;
  }

  /** Analysis takes up the pipelines one by one, first of all by making a status for each that is named or found. */
  lemma {:induction false} AnalysisDecides(spec: Spec, st: Status, i: Input)
    requires st.phase.Analyzing? && i.delivered
    ensures var st' := Next(st, Reconcile(spec, i));
      (st.pipelines == [] && spec.autoDiscovery && i.discovery.None? ==> st' == st.(phase := Failed)) &&
      (st.pipelines == [] && (spec.autoDiscovery ==> i.discovery.Some?) ==>
        var ids := if spec.autoDiscovery then i.discovery.value else spec.pipelines;
        st'.phase.Analyzing? && st'.total == |st'.pipelines| == |ids| &&
        forall j | 0 <= j < |ids| :: st'.pipelines[j] == Pipeline(ids[j], PlPending, 0)) &&
      (forall k: nat | Waiting(st.pipelines, k) ::
        OnlyOneMoves(st.pipelines, st'.pipelines, k) && st'.pipelines[k].state.PlAnalyzing? &&
        st'.pipelines[k].progress == 25) &&
      (st.pipelines != [] ==>
        st'.phase == if exists j | 0 <= j < |st'.pipelines| :: st'.pipelines[j].state.PlPending? then Analyzing
                     else Converting)
  {
  }

  /** What is checked before anything is converted, and what is checked at the end. */
  lemma {:induction false} ChecksDecide(spec: Spec, st: Status, i: Input)
    requires i.delivered
    ensures var st' := Next(st, Reconcile(spec, i));
      (st.phase.Unset? ==>
        st'.phase.Pending? && st'.total == |spec.pipelines| && st'.completed == st'.failed == st'.percentage == 0) &&
      (st.phase.Pending? ==>
        st'.phase == if i.configured && (spec.pipelines != [] || spec.autoDiscovery) then Analyzing else Failed) &&
      (st.phase.Validating? ==>
        if i.validation == Some(true) then st'.phase.Completed? && st'.percentage == 100
        else st' == st.(phase := Failed))
  {
  }

  /** A changed spec reopens a conversion that has ended: from the start if pipelines are to be discovered, else for a
      total as long as the new list, and only if a pipeline of that list has no status. */
  lemma {:induction false} RestartDecides(spec: Spec, st: Status)
    ensures var st' := Next(st, SpecChange(spec));
      if !(st.phase.Completed? || st.phase.Failed? || st.phase.Cancelled?) then st' == st
      else if spec.autoDiscovery then st' == Status(Pending, [], 0, 0, 0, 0, 0, false, [])
      else if forall id | id in spec.pipelines :: exists p | p in st.pipelines :: p.id == id then st' == st
      else st' == st.(phase := Analyzing, total := |spec.pipelines|, repoReady := false)
  {
  }

  // ---------- over whole runs, restarts and lost writes included ----------

  /** The ids of the Completed pipelines, in their order. */
  function CompletedIds(ps: seq<Pipeline>): seq<string> {
    if ps == [] then []
    else CompletedIds(ps[..|ps| - 1]) + if Last(ps).state.PlCompleted? then [Last(ps).id] else []
  }

  lemma {:induction false} NoneFurther(ps: seq<Pipeline>, k: nat)
    requires k <= |ps| && forall j | k <= j < |ps| :: !ps[j].state.PlCompleted?
    ensures CompletedIds(ps) == CompletedIds(ps[..k])
  {
    if k == |ps| {
      assert ps[..k] == ps;
    } else {
      NoneFurther(ps[..|ps| - 1], k);
      assert ps[..|ps| - 1][..k] == ps[..k];
    }
  }

  /** One pipeline with none completed after it moves. */
  lemma {:induction false} IdsMove(ps: seq<Pipeline>, k: nat, p: Pipeline)
    requires k < |ps| && p.id == ps[k].id && forall j | k <= j < |ps| :: !ps[j].state.PlCompleted?
    ensures CompletedIds(ps[k := p]) == CompletedIds(ps) + if p.state.PlCompleted? then [p.id] else []
  {
    var ps' := ps[k := p];
    NoneFurther(ps, k);
    NoneFurther(ps', k + 1);
    assert ps'[..k + 1][..k] == ps[..k] && Last(ps'[..k + 1]) == p;
  }

  ghost predicate Listed(st: Status) {
    Inv(st) && st.workflows == CompletedIds(st.pipelines)
  }

  lemma {:induction false} ConvertLists(st: Status, converted: bool)
    requires Listed(st)
    ensures var st' := ConvertOne(st, converted); st'.workflows == CompletedIds(st'.pipelines)
  {
    hide Counted, CompletedIds, Count;
    var k := FirstFrom(st.pipelines, IsActive, 0);
    if k < |st.pipelines| {
      var p := ConvertAt(st, k, converted).pipelines[k];
      assert forall j | k <= j < |st.pipelines| :: Stage(st.pipelines[k]) >= Stage(st.pipelines[j]);
      IdsMove(st.pipelines, k, p);
    }
  }

  lemma {:induction false} AnalyzeLists(spec: Spec, st: Status, i: Input)
    requires Listed(st) && st.phase.Analyzing?
    ensures var st' := AnalyzeStep(spec, st, i); st'.workflows == CompletedIds(st'.pipelines)
  {
    hide Counted, CompletedIds, Count;
    var k := FirstFrom(st.pipelines, IsPending, 0);
    if st.pipelines == [] {
      var ps := AnalyzeStep(spec, st, i).pipelines;
      NoneFurther(ps, 0);
      assert ps[..0] == st.pipelines;
    } else if k < |st.pipelines| {
      assert forall j | k <= j < |st.pipelines| :: Stage(st.pipelines[k]) >= Stage(st.pipelines[j]);
      IdsMove(st.pipelines, k, st.pipelines[k].(state := PlAnalyzing, progress := 25));
    }
  }

  lemma {:induction false} StepLists(st: Status, s: Step)
    requires Listed(st)
    ensures Next(st, s).workflows == CompletedIds(Next(st, s).pipelines)
  {
    hide Inv, ConvertOne, WithPercentage, AnalyzeStep, CompletedIds;
    NothingListed();
    if s.Reconcile? && st.phase.Converting? {
      ReadyKeeps(s.spec, st, s.input);
      ConvertLists(SetUpDone(s.spec, st, s.input), s.input.converted);
    } else if s.Reconcile? && st.phase.Analyzing? {
      AnalyzeLists(s.spec, st, s.input);
    }
  }

  /** The workflows are those of the Completed pipelines, one each and in their order. */
  lemma {:induction false} WorkflowsAreOfCompleted(steps: seq<Step>)
    ensures Run(steps).workflows == CompletedIds(Run(steps).pipelines)
  {
    if steps != [] {
      var before := steps[..|steps| - 1];
      assert Run(steps) == Next(Run(before), Last(steps));
      AlwaysInv(before);
      WorkflowsAreOfCompleted(before);
      hide Inv, Next, CompletedIds;
      StepLists(Run(before), Last(steps));
    }
  }

  lemma {:induction false} NothingListed()
    ensures CompletedIds([]) == []
  {
  }

  lemma {:induction false} ReadyKeeps(spec: Spec, st: Status, i: Input)
    requires Inv(st) && st.phase.Converting?
    ensures Inv(SetUpDone(spec, st, i))
  {
    hide Shaped, Count;
  }

  /** Step n has converted the pipeline with that id, or has failed to. */
  ghost predicate ConvertedAt(steps: seq<Step>, n: nat, id: string, converted: bool)
    requires n < |steps|
  {
    var st := Run(steps[..n]);
    steps[n].Reconcile? && steps[n].input.delivered && steps[n].input.converted == converted && st.phase.Converting? &&
    exists k: nat | Worked(st.pipelines, k) :: st.pipelines[k].state.PlConverting? && st.pipelines[k].id == id
  }

  ghost predicate Reported(steps: seq<Step>, p: Pipeline) {
    exists n | 0 <= n < |steps| :: ConvertedAt(steps, n, p.id, p.state.PlCompleted?)
  }

  lemma {:induction false} ReportStays(steps: seq<Step>, s: Step, p: Pipeline)
    requires Reported(steps, p)
    ensures Reported(steps + [s], p)
  {
    var more := steps + [s];
    hide Run, Worked;
    var n :| 0 <= n < |steps| && ConvertedAt(steps, n, p.id, p.state.PlCompleted?);
    assert more[..n] == steps[..n];
    assert ConvertedAt(more, n, p.id, p.state.PlCompleted?);
  }

  /** A pipeline that is over after a step was so before it, or has been converted in that step. */
  lemma {:induction false} StepReports(st: Status, s: Step, p: Pipeline)
    requires p in Next(st, s).pipelines && IsOver(p) && p !in st.pipelines
    ensures s.Reconcile? && s.input.delivered && s.input.converted == p.state.PlCompleted? && st.phase.Converting?
    ensures exists k: nat | Worked(st.pipelines, k) ::
      st.pipelines[k].state.PlConverting? && st.pipelines[k].id == p.id
  {
    var k := FirstFrom(st.pipelines, IsActive, 0);
    hide FirstFrom, WithPercentage;
    if st.phase.Converting? && k < |st.pipelines| {
      assert Worked(st.pipelines, k);
    }
  }

  /** On every run: a pipeline is Completed because a step has converted it, and Failed because a step has failed to. */
  lemma {:induction false} OutcomesAreReported(steps: seq<Step>, p: Pipeline)
    requires p in Run(steps).pipelines && (p.state.PlCompleted? || p.state.PlFailed?)
    ensures exists n | 0 <= n < |steps| :: ConvertedAt(steps, n, p.id, p.state.PlCompleted?)
  {
    if steps != [] {
      var before, s := steps[..|steps| - 1], Last(steps);
      assert steps == before + [s];
      if p in Run(before).pipelines {
        OutcomesAreReported(before, p);
        ReportStays(before, s, p);
      } else {
        StepReports(Run(before), s, p);
        hide Run, Worked;
        assert steps[..|before|] == before;
        assert ConvertedAt(steps, |before|, p.id, p.state.PlCompleted?);
      }
    }
  }

  /** The operation in which step n ends the conversion, and how it came out. */
  ghost predicate EndsAt(steps: seq<Step>, n: nat, p: Phase)
    requires n < |steps|
  {
    var st := Run(steps[..n]);
    steps[n].Reconcile? && steps[n].input.delivered &&
    var spec, i := steps[n].spec, steps[n].input;
    match st.phase
    case Pending => p.Failed? && (!i.configured || (spec.pipelines == [] && !spec.autoDiscovery))
    case Analyzing => p.Failed? && st.pipelines == [] && spec.autoDiscovery && i.discovery.None?
    case Converting => p.Failed? && LacksRepo(spec, st) && !i.token
    case Validating => p == (if i.validation == Some(true) then Completed else Failed)
    case _ => false
  }

  /** On every run: a conversion is Completed because its validation has passed, and Failed because its configuration,
      the discovery, the set-up for want of a token, or its validation has failed: never because of a pipeline. */
  lemma {:induction false} EndsAreEarned(steps: seq<Step>)
    requires Run(steps).phase.Completed? || Run(steps).phase.Failed?
    ensures exists n | 0 <= n < |steps| :: EndsAt(steps, n, Run(steps).phase)
  {
    var before, s, p := steps[..|steps| - 1], Last(steps), Run(steps).phase;
    if Run(before).phase == p {
      EndsAreEarned(before);
      hide Run;
      var n :| 0 <= n < |before| && EndsAt(before, n, p);
      assert before[..n] == steps[..n];
      assert EndsAt(steps, n, p);
    } else {
      StepEnds(Run(before), s);
      hide Run;
      assert EndsAt(steps, |before|, p);
    }
  }

  lemma {:induction false} StepEnds(st: Status, s: Step)
    requires var p := Next(st, s).phase; p != st.phase && (p.Completed? || p.Failed?)
    ensures s.Reconcile? && s.input.delivered
    ensures var spec, i, p := s.spec, s.input, Next(st, s).phase;
      match st.phase
      case Pending => p.Failed? && (!i.configured || (spec.pipelines == [] && !spec.autoDiscovery))
      case Analyzing => p.Failed? && st.pipelines == [] && spec.autoDiscovery && i.discovery.None?
      case Converting => p.Failed? && LacksRepo(spec, st) && !i.token
      case Validating => p == (if i.validation == Some(true) then Completed else Failed)
      case _ => false
  {
    hide FirstFrom, WithPercentage, ConvertAt;
  }

  ghost predicate ProgressInv(st: Status) {
    if st.phase.Completed? then st.percentage == 100
    else PercentageIsExact(st) && (st.pipelines == [] ==> st.completed == st.percentage == 0)
  }

  lemma {:induction false} ConvertProgressIsExact(spec: Spec, st: Status, i: Input)
    requires ProgressInv(st) && st.phase.Converting?
    ensures ProgressInv(ConvertStep(spec, st, i))
  {
    var worked := ConvertOne(SetUpDone(spec, st, i), i.converted);
    PercentageFits(worked);
    if st.pipelines == [] { NothingIsZero(worked); }
    hide FirstFrom, WithPercentage, ConvertAt;
  }

  lemma {:induction false} NothingIsZero(st: Status)
    requires st.completed == st.percentage == 0
    ensures WithPercentage(st).percentage == 0
  {
  }

  lemma {:induction false} AlwaysProgress(steps: seq<Step>)
    requires forall n | 0 <= n < |steps| :: steps[n].Reconcile?
    ensures ProgressInv(Run(steps))
  {
    if steps != [] {
      var st, s := Run(steps[..|steps| - 1]), Last(steps);
      AlwaysProgress(steps[..|steps| - 1]);
      assert Run(steps) == Next(st, s) && s.Reconcile?;
      hide Run, RunFrom;
      StepProgressIsExact(s.spec, st, s.input);
    }
  }

  lemma {:induction false} StepProgressIsExact(spec: Spec, st: Status, i: Input)
    requires ProgressInv(st)
    ensures ProgressInv(PhaseStep(spec, st, i))
  {
    if st.phase.Converting? { ConvertProgressIsExact(spec, st, i); }
    hide ConvertStep, FirstFrom;
  }

  /** While no spec change reopens the conversion, its percentage is exact until it is Completed, and then it is 100. */
  lemma {:induction false} ProgressIsExact(steps: seq<Step>)
    requires forall n | 0 <= n < |steps| :: steps[n].Reconcile?
    ensures var st := Run(steps);
      if st.phase.Completed? then st.percentage == 100
      else st.total > 0 ==> st.percentage * st.total <= 100 * st.completed < (st.percentage + 1) * st.total
  {
    AlwaysProgress(steps);
    hide Run;
  }

  // ---------- undisturbed conversions of n pipelines ----------

  /** As a whole, the pipelines are those of the spec, and with validation they are all over. */
  ghost predicate Covers(spec: Spec, n: nat, st: Status) {
    (st.pipelines != [] && !spec.autoDiscovery ==> Ids(st.pipelines) == spec.pipelines) &&
    (st.phase.Validating? || st.phase.Completed? ==> |st.pipelines| == n && st.completed + st.failed == n)
  }

  lemma {:induction false} StepCovers(spec: Spec, n: nat, st: Status, i: Input)
    requires Live(n, st) && Covers(spec, n, st) && Names(spec, n, i) && n >= 1
    ensures Covers(spec, n, PhaseStep(spec, st, i))
  {
    hide Ids, Count, Shaped, FirstFrom, WithPercentage, ConvertOne, AnalyzeStep;
    if st.pipelines != [] {
      StepKeepsIds(spec, st, i);
    } else if !spec.autoDiscovery {
      FirstIds(spec, st, i);
    }
    if st.phase.Converting? {
      ConvertOneKeeps(SetUpDone(spec, st, i), i.converted);
    } else if st.phase.Analyzing? {
      AnalysisStays(spec, st, i);
    }
  }

  lemma {:induction false} FirstIds(spec: Spec, st: Status, i: Input)
    requires st.pipelines == [] && !spec.autoDiscovery
    ensures var ps := PhaseStep(spec, st, i).pipelines; ps == [] || Ids(ps) == spec.pipelines
  {
    hide WithPercentage;
  }

  lemma {:induction false} AnalysisStays(spec: Spec, st: Status, i: Input)
    requires st.phase.Analyzing?
    ensures var p := AnalyzeStep(spec, st, i).phase; !p.Validating? && !p.Completed?
  {
    hide FirstFrom;
  }

  lemma {:induction false} AlwaysCovers(spec: Spec, n: nat, steps: seq<Step>)
    requires Undisturbed(spec, n, steps) && n >= 1
    ensures Covers(spec, n, Run(steps))
  {
    if steps != [] {
      var before := steps[..|steps| - 1];
      AlwaysCovers(spec, n, before);
      Timetable(spec, n, before);
      hide Live, Covers, PhaseStep;
      if Run(before).phase.Failed? {
        assert Run(steps) == Run(before) by { Stays(spec, Run(before), Last(steps).input); }
      } else {
        StepCovers(spec, n, Run(before), Last(steps).input);
      }
    }
  }

  lemma {:induction false} Stays(spec: Spec, st: Status, i: Input)
    requires Terminal(st.phase)
    ensures PhaseStep(spec, st, i) == st
  {
  }

  /** Every conversion of a pipeline comes out the same. */
  predicate Uniform(steps: seq<Step>, converted: bool) {
    forall k | 0 <= k < |steps| :: steps[k].Reconcile? && steps[k].input.converted == converted
  }

  lemma {:induction false} AllCompleted(ps: seq<Pipeline>)
    requires forall k | 0 <= k < |ps| :: ps[k].state.PlCompleted?
    ensures CompletedIds(ps) == Ids(ps)
  {
    if ps != [] {
      AllCompleted(ps[..|ps| - 1]);
      assert Ids(ps) == Ids(ps[..|ps| - 1]) + [Last(ps).id];
    }
  }

  lemma {:induction false} AllOver(ps: seq<Pipeline>)
    requires Count(ps, IsCompleted) + Count(ps, IsFailed) == |ps|
    ensures forall k | 0 <= k < |ps| :: IsOver(ps[k])
  {
    CountDisjoint(ps, IsCompleted, IsFailed);
  }

  /** When an undisturbed conversion of n pipelines has got to its validation, every pipeline is over. If every
      conversion has failed, there are n failures and no workflow; if every one has succeeded, there is a workflow of
      each pipeline, in the order of the spec. */
  lemma {:induction false} ValidationFindsAll(spec: Spec, n: nat, steps: seq<Step>, converted: bool)
    requires Undisturbed(spec, n, steps) && n >= 1 && Uniform(steps, converted)
    requires Run(steps).phase.Validating? || Run(steps).phase.Completed?
    ensures var st := Run(steps);
      st.completed == (if converted then n else 0) && st.failed == (if converted then 0 else n) &&
      (forall p | p in st.pipelines :: if converted then p.state.PlCompleted? else p.state.PlFailed?) &&
      |st.workflows| == (if converted then n else 0) &&
      (converted && !spec.autoDiscovery ==> st.workflows == spec.pipelines)
  {
    var st := Run(steps);
    AlwaysCovers(spec, n, steps);
    AlwaysInv(steps);
    hide Run;
    AllOver(st.pipelines);
    forall p | p in st.pipelines ensures if converted then p.state.PlCompleted? else p.state.PlFailed? {
      OutcomesAreReported(steps, p);
    }
    CountAtMost(st.pipelines, if converted then IsCompleted else IsFailed);
    WorkflowsAreOfCompleted(steps);
    if converted { AllCompleted(st.pipelines); }
  }

  /** Configuration, discovery, token and validation are as they should be. */
  predicate Sound(steps: seq<Step>) {
    forall k | 0 <= k < |steps| ::
      steps[k].Reconcile? && steps[k].input.configured && steps[k].input.discovery.Some? && steps[k].input.token &&
      steps[k].input.validation == Some(true)
  }

  /** After 3n + 4 such reconciles the conversion is Completed, whether its pipelines have been converted or not. */
  lemma {:induction false} SoundCompletes(spec: Spec, n: nat, steps: seq<Step>)
    requires Undisturbed(spec, n, steps) && n >= 1 && Sound(steps) && |steps| >= 3 * n + 4
    ensures Run(steps).phase.Completed?
  {
    Timetable(spec, n, steps);
    NeverCancelled(spec, n, steps);
    hide Run;
    forall k | 0 <= k < |steps| ensures !EndsAt(steps, k, Failed) {
      assert Calm(spec, n, steps[k]);
    }
    if Run(steps).phase.Failed? {
      EndsAreEarned(steps);
    }
  }
}
