/** The pipeline conversion: its status record and one reconcile. */
module PipelineMachine {
  import opened Common

  datatype Phase = Unset | Pending | Analyzing | Converting | Validating | Completed | Failed | Cancelled

  datatype PipelineState =
    PlPending | PlAnalyzing | PlConverting | PlValidating | PlCompleted | PlFailed | PlSkipped

  datatype Pipeline = Pipeline(id: string, state: PipelineState, progress: int)

  datatype Spec = Spec(pipelines: seq<string>, autoDiscovery: bool, createWorkflowsRepo: bool)

  /** Of the current-step text, only whether it says that the repository for workflows is set up is ever read;
      repoReady is that fact. */
  datatype Status = Status(
    phase: Phase, pipelines: seq<Pipeline>, total: int, completed: int, failed: int, processing: int,
    percentage: int, repoReady: bool, workflows: seq<string>)

  const BLANK := Status(Unset, [], 0, 0, 0, 0, 0, false, [])

  predicate IsPending(p: Pipeline) { p.state.PlPending? }
  predicate IsAnalyzing(p: Pipeline) { p.state.PlAnalyzing? }
  predicate IsConverting(p: Pipeline) { p.state.PlConverting? }
  predicate IsCompleted(p: Pipeline) { p.state.PlCompleted? }
  predicate IsFailed(p: Pipeline) { p.state.PlFailed? }
  predicate IsActive(p: Pipeline) { IsAnalyzing(p) || IsConverting(p) }

  predicate Terminal(p: Phase) {
    p.Completed? || p.Failed? || p.Cancelled?
  }

  /** Everything the environment decides in one reconcile. */
  datatype Input = Input(
    configured: bool, discovery: Option<seq<string>>, token: bool, setUp: bool, converted: bool,
    validation: Option<bool>, delivered: bool)

  function FailedStatus(st: Status): Status {
    st.(phase := Failed)
  }

  function InitialPipelines(ids: seq<string>): (ps: seq<Pipeline>)
    ensures |ps| == |ids|
    ensures forall i | 0 <= i < |ids| :: ps[i] == Pipeline(ids[i], PlPending, 0)
  {
    seq(|ids|, i requires 0 <= i < |ids| => Pipeline(ids[i], PlPending, 0))
  }

  /** validateConfiguration, in which a conversion without pipelines needs auto-discovery. */
  function PendingStep(spec: Spec, st: Status, i: Input): Status {
    if !i.configured || (spec.pipelines == [] && !spec.autoDiscovery) then FailedStatus(st)
    else st.(phase := Analyzing, repoReady := false)
  }

  function AnalyzeStep(spec: Spec, st: Status, i: Input): Status {
    if st.pipelines == [] then
      if spec.autoDiscovery && i.discovery.None? then FailedStatus(st)
      else
        var ids := if spec.autoDiscovery then i.discovery.value else spec.pipelines;
        st.(pipelines := InitialPipelines(ids), total := |ids|)
    else
      var k := FirstFrom(st.pipelines, IsPending, 0);
      var ps := if k < |st.pipelines| then st.pipelines[k := st.pipelines[k].(state := PlAnalyzing, progress := 25)]
                else st.pipelines;
      var st' := st.(pipelines := ps);
      if FirstFrom(ps, IsPending, 0) == |ps| then st'.(phase := Converting, repoReady := false)
      else st'
  }

  predicate NeedsSetUp(spec: Spec, st: Status) {
    spec.createWorkflowsRepo && !st.repoReady
  }

  function SetUpDone(spec: Spec, st: Status, i: Input): Status {
    if NeedsSetUp(spec, st) && i.setUp then st.(repoReady := true) else st
  }

  /** An active pipeline moves by one stage. */
  function ConvertAt(st: Status, k: nat, converted: bool): (r: Status)
    requires k < |st.pipelines|
    ensures r.phase == st.phase && r.total == st.total && r.repoReady == st.repoReady
  {
    var p := st.pipelines[k];
    if IsAnalyzing(p) then
      st.(pipelines := st.pipelines[k := p.(state := PlConverting, progress := 50)], processing := st.processing + 1)
    else if !converted then
      st.(pipelines := st.pipelines[k := p.(state := PlFailed)],
          failed := st.failed + 1, processing := st.processing - 1)
    else
      st.(pipelines := st.pipelines[k := p.(state := PlCompleted, progress := 100)],
          processing := st.processing - 1, completed := st.completed + 1, workflows := st.workflows + [p.id])
  }

  /** The loop over the pipelines: the first one that is being worked on moves. */
  function ConvertOne(st: Status, converted: bool): Status {
    var k := FirstFrom(st.pipelines, IsActive, 0);
    if k == |st.pipelines| then st else ConvertAt(st, k, converted)
  }

  function WithPercentage(st: Status): (r: Status)
    ensures r.(percentage := st.percentage) == st
  {
    if st.total > 0 then st.(percentage := (st.completed * 100) / st.total) else st
  }

  predicate AllDone(st: Status) {
    st.completed + st.failed == st.total
  }

  function AdvanceIfDone(st: Status): Status {
    if AllDone(st) then st.(phase := Validating, repoReady := false) else st
  }

  /** A step that changes nothing but the percentage is not stored. */
  function ConvertStep(spec: Spec, st: Status, i: Input): Status {
    if NeedsSetUp(spec, st) && !i.token then FailedStatus(st)
    else
      var worked := ConvertOne(SetUpDone(spec, st, i), i.converted);
      if worked == st && !AllDone(st) then st else AdvanceIfDone(WithPercentage(worked))
  }

  function ValidateStep(st: Status, i: Input): Status {
    if i.validation == Some(true) then st.(phase := Completed, percentage := 100, repoReady := false)
    else FailedStatus(st)
  }

  function PhaseStep(spec: Spec, st: Status, i: Input): Status {
    match st.phase
    case Unset =>
      st.(phase := Pending, total := |spec.pipelines|, completed := 0, failed := 0, processing := 0, percentage := 0,
          repoReady := false)
    case Pending => PendingStep(spec, st, i)
    case Analyzing => AnalyzeStep(spec, st, i)
    case Converting => ConvertStep(spec, st, i)
    case Validating => ValidateStep(st, i)
    case Completed => st
    case Failed => st
    case Cancelled => st
  }

  predicate HasStatus(ps: seq<Pipeline>, id: string) {
    exists p | p in ps :: p.id == id
  }

  /** restartConversionForSpecChange: auto-discovery starts afresh; otherwise only the total follows the new spec,
      and only if the spec names a pipeline without a status. */
  function Restarted(spec: Spec, st: Status): Status {
    if spec.autoDiscovery then BLANK.(phase := Pending)
    else if forall id | id in spec.pipelines :: HasStatus(st.pipelines, id) then st
    else st.(phase := Analyzing, repoReady := false, total := |spec.pipelines|)
  }

  datatype Step = Reconcile(spec: Spec, input: Input) | SpecChange(spec: Spec)

  function Next(st: Status, s: Step): Status {
    match s
    case Reconcile(spec, i) => if i.delivered then PhaseStep(spec, st, i) else st
    case SpecChange(spec) => if Terminal(st.phase) then Restarted(spec, st) else st
  }

  function RunFrom(st: Status, steps: seq<Step>): Status {
    if steps == [] then st else Next(RunFrom(st, steps[..|steps| - 1]), Last(steps))
  }

  function Run(steps: seq<Step>): Status {
    RunFrom(BLANK, steps)
  }
}
