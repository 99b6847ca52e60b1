/** The pipeline reconciler as the imperative program it is. */
module PipelineController {
  import opened Common
  import opened PipelineMachine

  class PipelineToWorkflow {
    var phase: Phase
    var pipelines: seq<Pipeline>
    var total: int
    var completed: int
    var failed: int
    var processing: int
    var percentage: int
    var repoReady: bool
    var workflows: seq<string>
    // the statuses that this reconcile has tried to store
    ghost var writes: seq<Status>

    function Snapshot(): Status
      reads this
    {
      Status(phase, pipelines, total, completed, failed, processing, percentage, repoReady, workflows)
    }

    /** What has been asked of the server: to store the given status, or nothing where that is the status fetched. */
    ghost predicate Asked(fetched: Status, target: Status)
      reads this
    {
      writes == [target] || (writes == [] && target == fetched)
    }

    constructor Fetched(st: Status)
      ensures Snapshot() == st && writes == []
    {
      phase, pipelines, total, completed := st.phase, st.pipelines, st.total, st.completed;
      failed, processing, percentage, repoReady := st.failed, st.processing, st.percentage, st.repoReady;
      workflows, writes := st.workflows, [];
    }

    /** Status().Update: whether the server stores it is the environment's choice. */
    method UpdateStatus()
      modifies this`writes
      ensures writes == old(writes) + [Snapshot()]
    {
      writes := writes + [Snapshot()];
    }

    method ProcessPending(spec: Spec, i: Input)
      requires writes == []
      modifies this
      ensures Asked(old(Snapshot()), PendingStep(spec, old(Snapshot()), i))
    {
      if !i.configured || (|spec.pipelines| == 0 && !spec.autoDiscovery) {
        phase := Failed;
        UpdateStatus();
        return;
      }
      phase, repoReady := Analyzing, false;
      UpdateStatus();
    }

    /** The first call makes an entry for each pipeline; each later call analyzes one of them. */
    method ProcessAnalyzing(spec: Spec, i: Input)
      requires writes == []
      modifies this
      ensures Asked(old(Snapshot()), AnalyzeStep(spec, old(Snapshot()), i))
    {
      if |pipelines| == 0 {
        var named := spec.pipelines;
        if spec.autoDiscovery {
          if i.discovery.None? {
            phase := Failed;
            UpdateStatus();
            return;
          }
          named := i.discovery.value;
        }
        for k := 0 to |named|
          invariant pipelines == InitialPipelines(named[..k])
          invariant Snapshot().(pipelines := []) == old(Snapshot()) && writes == []
        {
          pipelines := pipelines + [Pipeline(named[k], PlPending, 0)];
        }
        assert named[..|named|] == named;
        total := |named|;
        UpdateStatus();
        return;
      }
      var updated := AnalyzeFirst();
      var allAnalyzed := AllAnalyzed();
      if allAnalyzed {
        phase, repoReady, updated := Converting, false, true;
      }
      if updated {
        UpdateStatus();
      }
    }

    method AnalyzeFirst() returns (updated: bool)
      modifies this`pipelines
      ensures var k := FirstFrom(old(pipelines), IsPending, 0);
        updated == (k < |old(pipelines)|) &&
        pipelines == if updated then old(pipelines)[k := old(pipelines)[k].(state := PlAnalyzing, progress := 25)]
                     else old(pipelines)
    {
      updated := false;
      for k := 0 to |pipelines|
        invariant !updated && pipelines == old(pipelines)
        invariant FirstFrom(pipelines, IsPending, 0) == FirstFrom(pipelines, IsPending, k)
      {
        if pipelines[k].state.PlPending? {
          pipelines := pipelines[k := pipelines[k].(state := PlAnalyzing, progress := 25)];
          updated := true;
          return;
        }
      }
    }

    method AllAnalyzed() returns (all: bool)
      ensures all == (FirstFrom(pipelines, IsPending, 0) == |pipelines|)
    {
      all := true;
      for k := 0 to |pipelines|
        invariant all && FirstFrom(pipelines, IsPending, 0) == FirstFrom(pipelines, IsPending, k)
      {
        if pipelines[k].state.PlPending? {
          all := false;
          break;
        }
      }
    }

    /** What the loop's body does to an active pipeline. */
    method Convert(k: nat, converted: bool)
      requires k < |pipelines| && IsActive(pipelines[k])
      modifies this
      ensures Snapshot() == ConvertAt(old(Snapshot()), k, converted) && writes == old(writes)
      ensures Snapshot() != old(Snapshot())
    {
      var p := pipelines[k];
      if p.state.PlAnalyzing? {
        pipelines := pipelines[k := p.(state := PlConverting, progress := 50)];
        processing := processing + 1;
      } else if !converted {
        pipelines := pipelines[k := p.(state := PlFailed)];
        failed := failed + 1;
        processing := processing - 1;
      } else {
        pipelines := pipelines[k := p.(state := PlCompleted, progress := 100)];
        workflows := workflows + [p.id];
        processing := processing - 1;
        completed := completed + 1;
      }
    }

    /** The loop over the pipelines, which moves the first active one and breaks. */
    method ConvertFirst(converted: bool) returns (updated: bool)
      modifies this
      ensures Snapshot() == ConvertOne(old(Snapshot()), converted)
      ensures updated == (Snapshot() != old(Snapshot())) && repoReady == old(repoReady) && writes == old(writes)
    {
      hide ConvertAt;
      updated := false;
      for k := 0 to |pipelines|
        invariant !updated && Snapshot() == old(Snapshot()) && writes == old(writes)
        invariant FirstFrom(pipelines, IsActive, 0) == FirstFrom(pipelines, IsActive, k)
      {
        if pipelines[k].state.PlAnalyzing? || pipelines[k].state.PlConverting? {
          Convert(k, converted);
          return true;
        }
      }
    }

    method ProcessConverting(spec: Spec, i: Input)
      requires writes == []
      modifies this
      ensures Asked(old(Snapshot()), ConvertStep(spec, old(Snapshot()), i))
    {
      hide ConvertOne;
      var updated := false;
      if spec.createWorkflowsRepo && !repoReady {
        if !i.token {
          phase := Failed;
          UpdateStatus();
          return;
        }
        if i.setUp {
          repoReady, updated := true, true;
        }
      }
      var moved := ConvertFirst(i.converted);
      updated := updated || moved;
      if total > 0 {
        percentage := (completed * 100) / total;
      }
      if completed + failed == total {
        phase, repoReady, updated := Validating, false, true;
      }
      if updated {
        UpdateStatus();
      }
    }

    method ProcessValidating(i: Input)
      requires writes == []
      modifies this
      ensures Asked(old(Snapshot()), ValidateStep(old(Snapshot()), i))
    {
      if i.validation.None? {
        phase := Failed;
        UpdateStatus();
        return;
      }
      if i.validation.value {
        phase, repoReady, percentage := Completed, false, 100;
      } else {
        phase := Failed;
      }
      UpdateStatus();
    }

    /** restartConversionForSpecChange. */
    method RestartForSpecChange(spec: Spec)
      requires writes == []
      modifies this
      ensures Asked(old(Snapshot()), Restarted(spec, old(Snapshot())))
    {
      var existing: set<string> := {};
      for k := 0 to |pipelines|
        invariant forall id :: id in existing <==> HasStatus(pipelines[..k], id)
        invariant Snapshot() == old(Snapshot()) && writes == []
      {
        assert pipelines[..k + 1] == pipelines[..k] + [pipelines[k]];
        existing := existing + {pipelines[k].id};
      }
      assert pipelines[..|pipelines|] == pipelines;
      var newPipelines := 0;
      for k := 0 to |spec.pipelines|
        invariant newPipelines >= 0
        invariant newPipelines == 0 <==> forall j | 0 <= j < k :: HasStatus(pipelines, spec.pipelines[j])
        invariant Snapshot() == old(Snapshot()) && writes == []
      {
        if spec.pipelines[k] !in existing {
          newPipelines := newPipelines + 1;
        }
      }
      if spec.autoDiscovery {
        phase, total, completed, failed := Pending, 0, 0, 0;
        processing, percentage, repoReady := 0, 0, false;
        pipelines, workflows := [], [];
        UpdateStatus();
        return;
      }
      if newPipelines == 0 {
        UpdateStatus();
        return;
      }
      phase, repoReady, total := Analyzing, false, |spec.pipelines|;
      UpdateStatus();
    }

    /** Reconcile, from the status fetched; the flag says that the spec is newer than the generation observed. */
    method Reconcile(spec: Spec, specChanged: bool, i: Input)
      requires writes == []
      modifies this
      ensures Asked(old(Snapshot()),
                    if specChanged && Terminal(old(phase)) then Restarted(spec, old(Snapshot()))
                    else PhaseStep(spec, old(Snapshot()), i))
    {
      if specChanged && (phase.Completed? || phase.Failed? || phase.Cancelled?) {
        RestartForSpecChange(spec);
        return;
      }
      if phase.Unset? {
        phase, total, completed, failed := Pending, |spec.pipelines|, 0, 0;
        processing, percentage, repoReady := 0, 0, false;
        UpdateStatus();
        return;
      }
      match phase
      case Pending => ProcessPending(spec, i);
      case Analyzing => ProcessAnalyzing(spec, i);
      case Converting => ProcessConverting(spec, i);
      case Validating => ProcessValidating(i);
      case _ =>
    }
  }
}
