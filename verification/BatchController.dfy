/** The batch reconciler as the imperative program it is, refining one reconcile of the protocol. */
module BatchController {
  import opened Common
  import opened Resources
  import opened BatchBackoff
  import opened BatchMachine
  import opened BatchProtocol

  /** A worker's in-memory copy of the custom resource. */
  class BatchMigration {
    var resourceVersion: nat
    var phase: Phase
    var claimedBy: string
    var claimedAt: Option<Time>
    var leaseExpiresAt: Option<Time>
    var total: int
    var completed: int
    var failed: int
    var percentage: int
    var retryCount: nat
    var startTime: Option<Time>
    var completionTime: Option<Time>
    var nextRetryTime: Option<Time>
    var entries: seq<Entry>
    var errorMessage: string

    function Snapshot(): Status
      reads this
    {
      Status(phase, claimedBy, claimedAt, leaseExpiresAt, total, completed, failed, percentage, retryCount,
             startTime, completionTime, nextRetryTime, entries, errorMessage)
    }

    /** A copy of a stored version, as the client cache hands it out. */
    constructor Fetched(version: nat, st: Status)
      ensures resourceVersion == version && Snapshot() == st
    {
      resourceVersion := version;
      phase, claimedBy, claimedAt, leaseExpiresAt := st.phase, st.claimedBy, st.claimedAt, st.leaseExpiresAt;
      total, completed, failed, percentage := st.total, st.completed, st.failed, st.percentage;
      retryCount, startTime, completionTime := st.retryCount, st.startTime, st.completionTime;
      nextRetryTime, entries, errorMessage := st.nextRetryTime, st.entries, st.errorMessage;
    }

    method Initialize(spec: Spec)
      modifies this
      ensures Snapshot() == Initialized(spec, old(Snapshot())) && resourceVersion == old(resourceVersion)
    {
      phase := Pending;
      total, completed, failed, percentage := |spec.resources|, 0, 0, 0;
      retryCount := 0;
    }

    method Claim(worker: string, now: Time)
      modifies this
      ensures Snapshot() == ClaimedFor(old(Snapshot()), worker, now) && resourceVersion == old(resourceVersion)
    {
      phase := Claimed;
      claimedBy := worker;
      claimedAt := Some(now);
      leaseExpiresAt := Some(now + WORKER_LEASE);
    }

    method Start(now: Time)
      modifies this
      ensures Snapshot() == Started(old(Snapshot()), now) && resourceVersion == old(resourceVersion)
    {
      phase := Processing;
      startTime := Some(now);
    }

    method Renew(now: Time)
      modifies this
      ensures Snapshot() == Renewed(old(Snapshot()), now) && resourceVersion == old(resourceVersion)
    {
      leaseExpiresAt := Some(now + WORKER_LEASE);
    }

    method Release()
      modifies this`claimedBy, this`claimedAt, this`leaseExpiresAt
      ensures claimedBy == "" && claimedAt == None && leaseExpiresAt == None
    {
      claimedBy := "";
      claimedAt := None;
      leaseExpiresAt := None;
    }

    /** isResourceProcessed: the first entry with the resource's source name decides. */
    method IsResourceProcessed(resource: Resource) returns (processed: bool)
      ensures processed == SettledByName(entries, resource.source)
    {
      var i := 0;
      while i < |entries|
        invariant 0 <= i <= |entries|
        invariant forall j | 0 <= j < i :: entries[j].source != resource.source
      {
        if entries[i].source == resource.source {
          FirstBySourceIs(entries, resource.source, i);
          return IsSettled(entries[i]);
        }
        i := i + 1;
      }
      return false;
    }

    /** markResourceCompleted and markResourceFailed: replace the first entry of that name, or append one. */
    method MarkResource(resource: Resource, succeeded: bool, now: Time)
      modifies this
      ensures Snapshot() == Marked(old(Snapshot()), resource, succeeded, now) && resourceVersion == old(resourceVersion)
    {
      var entry := Outcome(resource, succeeded, now);
      var i := 0;
      while i < |entries| && entries[i].source != resource.source
        invariant 0 <= i <= |entries|
        invariant forall j | 0 <= j < i :: entries[j].source != resource.source
      {
        i := i + 1;
      }
      FirstBySourceIs(entries, resource.source, i);
      if i < |entries| {
        entries := entries[i := entry];
      } else {
        entries := entries + [entry];
      }
      if succeeded {
        completed := completed + 1;
      } else {
        failed := failed + 1;
      }
    }

    method UpdateProgress()
      modifies this`percentage
      ensures Snapshot() == WithProgress(old(Snapshot()))
    {
      if total > 0 {
        percentage := ((completed + failed) * 100) / total;
      }
    }
  }

  /** The API server: it stores a status update only for the latest resource version, and may fail to answer. */
  class ApiServer {
    var version: nat
    var current: Status
    var clock: Time
    ghost var history: seq<Stored>

    ghost predicate Valid()
      reads this
    {
      |history| == version + 1 && Last(history).st == current &&
      forall k | 0 <= k < |history| :: history[k].at <= clock
    }

    constructor ()
      ensures Valid() && history == [CREATED] && clock == 0
    {
      version, current, clock, history := 0, BLANK, 0, [CREATED];
    }

    /** The time, and everything else that the environment decides for the next step. */
    method Sense() returns (i: Input)
      modifies this`clock
      ensures old(Valid()) ==> Valid()
      ensures old(clock) <= clock == i.now
    {
      var elapsed: nat :| 0 <= elapsed;
      clock := clock + elapsed;
      var succeeded := *;
      var draw: Draw := *;
      var delivery: Delivery := *;
      i := Input(clock, succeeded, draw, delivery);
    }

    method Store(batch: BatchMigration, ghost s: Session, now: Time)
      requires Valid() && s.obj == batch.Snapshot() && now <= clock
      modifies this`version, this`current, this`history
      ensures Valid() && history == old(history) + [Record(Last(old(history)), s, now)]
    {
      current := batch.Snapshot();
      version := version + 1;
      history := history + [Record(Last(history), s, now)];
    }
  }

  /** What the server does with an update is what the protocol's undisturbed reconcile does with it. */
  lemma {:induction false} UpdatePerformed(
    spec: Spec, k: nat, before: seq<Stored>, past: Reconcile, history: seq<Stored>, i: Input, stored: bool)
    requires k < |before|
    requires var run := Perform(spec, k, before[k], past);
      run.session.control.AtUpdate? && history == before + run.writes && run.session.version <= k + |run.writes| &&
      stored == (!i.delivery.Rejected? && run.session.version == |history| - 1)
    ensures var effective := if stored then i else i.(delivery := Rejected);
      var s := Perform(spec, k, before[k], past).session;
      var run' := Perform(spec, k, before[k], past.(inputs := past.inputs + [effective]));
      run'.session == Answered(s, stored && i.delivery.Acknowledged?) &&
      (stored && i.delivery.Acknowledged? ==> run'.session.version == s.version + 1) &&
      (!(stored && i.delivery.Acknowledged?) ==> run'.session.version == s.version) &&
      run'.session.obj == s.obj && run'.session.worker == s.worker && run'.session.version <= k + |run'.writes| &&
      before + run'.writes == history + if stored then [Record(Last(history), s, i.now)] else []
  {
    hide LocalStep, Perform, Record;
    var effective := if stored then i else i.(delivery := Rejected);
    ExtendPerform(spec, k, before[k], past, effective);
    var run := Perform(spec, k, before[k], past);
    if stored {
      assert Newest(before[k], run.writes) == Last(history);
      var x := Record(Last(history), run.session, i.now);
      assert before + run.writes + [x] == before + (run.writes + [x]);
    }
  }

  class BatchMigrationReconciler {
    const workerID: string
    const server: ApiServer
    const spec: Spec

    // the reconcile in progress, as the protocol sees it
    ghost var readVersion: nat
    ghost var before: seq<Stored>
    ghost var past: Reconcile

    constructor (workerID: string, server: ApiServer, spec: Spec)
      ensures this.workerID == workerID && this.server == server && this.spec == spec
    {
      this.workerID, this.server, this.spec := workerID, server, spec;
      before, past := [CREATED], BatchProtocol.Reconcile.Reconcile(workerID, 0, []);
    }

    ghost function Progress(): Run
      requires readVersion < |before|
      reads this
    {
      Perform(spec, readVersion, before[readVersion], past)
    }

    /** The server has stored exactly the writes of this reconcile since it began. */
    ghost predicate Tracks()
      reads this, server
    {
      server.Valid() && readVersion < |before| && past.worker == workerID &&
      before[readVersion].at <= past.start && Ordered(past) && Latest(past) <= server.clock &&
      server.history == before + Progress().writes &&
      Progress().session.worker == workerID && Progress().session.version <= readVersion + |Progress().writes|
    }

    ghost function Current(): Session
      requires readVersion < |before|
      reads this
    {
      Progress().session
    }

    /** In addition, the copy in memory is that of the protocol's session. */
    ghost predicate Mirrors(batch: BatchMigration)
      reads this, server, batch
    {
      Tracks() && batch.Snapshot() == Current().obj && batch.resourceVersion == Current().version
    }

    twostate predicate SameReconcile()
      reads this
    {
      readVersion == old(readVersion) && before == old(before) && past.start == old(past.start)
    }

    /** Take the protocol's own next step. */
    ghost method Advance(i: Input)
      requires Tracks() && Local(Current().control) && Latest(past) <= i.now <= server.clock
      modifies this`past
      ensures Tracks() && SameReconcile() && Current() == LocalStep(spec, old(Current()), i)
    {
      ExtendPerform(spec, readVersion, before[readVersion], past, i);
      OrderedExtends(past, i);
      LocalTimes(spec, Current(), i);
      past := past.(inputs := past.inputs + [i]);
      hide LocalStep, Ordered, Perform;
    }

    /** Status().Update: compare resource versions, store the copy, and report whether that is known to have worked. */
    method UpdateStatus(batch: BatchMigration) returns (ok: bool)
      requires Mirrors(batch) && Current().control.AtUpdate?
      modifies this`past, server, batch`resourceVersion
      ensures Mirrors(batch) && SameReconcile() && Current() == Answered(old(Current()), ok)
    {
      hide Answered, Ordered, Perform, PerformStep, Record;
      var i := server.Sense();
      var stored := !i.delivery.Rejected? && batch.resourceVersion == server.version;
      ghost var effective := if stored then i else i.(delivery := Rejected);
      UpdatePerformed(spec, readVersion, before, past, server.history, i, stored);
      OrderedExtends(past, effective);
      ghost var s := Current();
      past := past.(inputs := past.inputs + [effective]);
      ok := stored && i.delivery.Acknowledged?;
      if stored {
        server.Store(batch, s, i.now);
      }
      if ok {
        batch.resourceVersion := batch.resourceVersion + 1;
      }
    }

    /** One reconcile of the copy fetched at some version, current or stale. */
    method Reconcile(batch: BatchMigration)
      requires workerID != "" && server.Valid() && batch.resourceVersion <= server.version
      requires batch.Snapshot() == server.history[batch.resourceVersion].st
      modifies this, server, batch
      ensures Mirrors(batch) && Current().control.Done?
      ensures readVersion == old(batch.resourceVersion) && before == old(server.history)
    {
      readVersion, before := batch.resourceVersion, server.history;
      past := BatchProtocol.Reconcile.Reconcile(workerID, server.clock, []);
      var i := server.Sense();
      match batch.phase
      case Unset => InitializeStatus(batch, i);
      case Pending => ClaimBatch(batch, i);
      case Claimed => ProcessClaimed(batch, i);
      case Processing => ProcessProcessing(batch, i);
      case Stale => Advance(i); RetryStale(batch);
      case Retrying => ProcessRetrying(batch, i);
      case Completed => Advance(i);
      case Failed => Advance(i);
    }

    method InitializeStatus(batch: BatchMigration, i: Input)
      requires Mirrors(batch) && Current().control.Dispatch? && batch.phase.Unset?
      requires Latest(past) <= i.now <= server.clock
      modifies this`past, server, batch
      ensures Mirrors(batch) && Current().control.Done? && SameReconcile()
    {
      hide Perform, PerformStep, Ordered;
      Advance(i);
      batch.Initialize(spec);
      var ok := UpdateStatus(batch);
    }

    method ClaimBatch(batch: BatchMigration, i: Input)
      requires Mirrors(batch) && Current().control.Dispatch? && batch.phase.Pending?
      requires Latest(past) <= i.now <= server.clock
      modifies this`past, server, batch
      ensures Mirrors(batch) && Current().control.Done? && SameReconcile()
    {
      hide Perform, PerformStep, Ordered;
      Advance(i);
      batch.Claim(workerID, i.now);
      var ok := UpdateStatus(batch);
    }

    method ProcessClaimed(batch: BatchMigration, i: Input)
      requires Mirrors(batch) && Current().control.Dispatch? && batch.phase.Claimed?
      requires Latest(past) <= i.now <= server.clock
      modifies this`past, server, batch
      ensures Mirrors(batch) && Current().control.Done? && SameReconcile()
    {
      hide Perform, PerformStep, Ordered;
      Advance(i);
      if batch.claimedBy != workerID {
        return;
      }
      if LeaseExpired(batch.Snapshot(), i.now) {
        MarkStale(batch);
      } else {
        StartProcessing(batch, i.now);
      }
    }

    method StartProcessing(batch: BatchMigration, now: Time)
      requires Tracks() && Current().control == AtUpdate(LastUpdate)
      requires Current().obj == Started(batch.Snapshot(), now) && Current().version == batch.resourceVersion
      modifies this`past, server, batch
      ensures Mirrors(batch) && Current().control.Done? && SameReconcile()
    {
      hide Perform, PerformStep, Ordered;
      batch.Start(now);
      var ok := UpdateStatus(batch);
    }

    method MarkStale(batch: BatchMigration)
      requires Tracks() && Current().control == AtUpdate(MarkStaleUpdate)
      requires Current().obj == MarkedStale(batch.Snapshot()) && Current().version == batch.resourceVersion
      modifies this`past, server, batch
      ensures Mirrors(batch) && Current().control.Done? && SameReconcile()
    {
      hide Perform, PerformStep, Ordered;
      batch.phase := Stale;
      var ok := UpdateStatus(batch);
      if ok {
        RetryStale(batch);
      }
    }

    method RetryStale(batch: BatchMigration)
      requires Mirrors(batch) && Current().control.Retry?
      modifies this`past, server, batch
      ensures Mirrors(batch) && Current().control.Done? && SameReconcile()
    {
      hide Perform, PerformStep, Ordered;
      var i := server.Sense();
      Advance(i);
      RetryBatch(batch, i.now, i.draw);
    }

    method RetryBatch(batch: BatchMigration, now: Time, draw: Draw)
      requires Tracks() && Current().control == AtUpdate(LastUpdate)
      requires Current().obj == Retried(spec, batch.Snapshot(), now, draw) && Current().version == batch.resourceVersion
      modifies this`past, server, batch
      ensures Mirrors(batch) && Current().control.Done? && SameReconcile()
    {
      hide Perform, PerformStep, Ordered;
      var policy := spec.Policy();
      if batch.retryCount >= policy.maxRetries {
        FailBatch(batch, "Maximum retry attempts exceeded", now);
        return;
      }
      var delay := RetryDelay(policy, batch.retryCount, draw);
      batch.phase := Retrying;
      batch.retryCount := batch.retryCount + 1;
      batch.nextRetryTime := Some(now + delay);
      batch.Release();
      var ok := UpdateStatus(batch);
    }

    method FailBatch(batch: BatchMigration, message: string, now: Time)
      requires Tracks() && Current().control == AtUpdate(LastUpdate)
      requires Current().obj == FailedWith(batch.Snapshot(), message, now) && Current().version == batch.resourceVersion
      modifies this`past, server, batch
      ensures Mirrors(batch) && Current().control.Done? && SameReconcile()
    {
      hide Perform, PerformStep, Ordered;
      batch.phase := Failed;
      batch.errorMessage := message;
      batch.completionTime := Some(now);
      var ok := UpdateStatus(batch);
    }

    method ProcessRetrying(batch: BatchMigration, i: Input)
      requires Mirrors(batch) && Current().control.Dispatch? && batch.phase.Retrying?
      requires Latest(past) <= i.now <= server.clock
      modifies this`past, server, batch
      ensures Mirrors(batch) && Current().control.Done? && SameReconcile()
    {
      hide Perform, PerformStep, Ordered, LocalStep;
      RetryingAt(spec, Current(), i);
      Advance(i);
      if batch.nextRetryTime.Some? && i.now < batch.nextRetryTime.value {
        return;
      }
      batch.phase := Pending;
      batch.Release();
      var ok := UpdateStatus(batch);
    }

    method ProcessProcessing(batch: BatchMigration, i: Input)
      requires Mirrors(batch) && Current().control.Dispatch? && batch.phase.Processing?
      requires Latest(past) <= i.now <= server.clock
      modifies this`past, server, batch
      ensures Mirrors(batch) && Current().control.Done? && SameReconcile()
    {
      hide Perform, PerformStep, Ordered;
      Advance(i);
      if batch.claimedBy != workerID {
        return;
      }
      if LeaseExpired(batch.Snapshot(), i.now) {
        MarkStale(batch);
        return;
      }
      if RenewalDue(batch.Snapshot(), i.now) {
        batch.Renew(i.now);
        var renewed := UpdateStatus(batch);
      }
      ProcessResources(batch);
    }

    /** The loop over the resources; a status update that fails does not stop it. */
    method ProcessResources(batch: BatchMigration)
      requires Mirrors(batch) && Current().control == Loop(0)
      modifies this`past, server, batch
      ensures Mirrors(batch) && Current().control.Done? && SameReconcile()
    {
      hide Perform, PerformStep, Ordered;
      var k := 0;
      while k < |spec.resources|
        invariant Mirrors(batch) && SameReconcile() && Current().control == Loop(k) && k <= |spec.resources|
      {
        ProcessResource(batch, k);
        k := k + 1;
      }
      CompleteBatch(batch);
    }

    method ProcessResource(batch: BatchMigration, k: nat)
      requires Mirrors(batch) && Current().control == Loop(k) && k < |spec.resources|
      modifies this`past, server, batch
      ensures Mirrors(batch) && Current().control == Loop(k + 1) && SameReconcile()
    {
      hide Perform, PerformStep, Ordered, LocalStep, Marked, WithProgress, SettledByName;
      var input := server.Sense();
      LoopAt(spec, Current(), k, input);
      Advance(input);
      var processed := batch.IsResourceProcessed(spec.resources[k]);
      if !processed {
        batch.MarkResource(spec.resources[k], input.succeeded, input.now);
        batch.UpdateProgress();
        var saved := UpdateStatus(batch);
      }
    }

    method CompleteBatch(batch: BatchMigration)
      requires Mirrors(batch) && Current().control == Loop(|spec.resources|)
      modifies this`past, server, batch
      ensures Mirrors(batch) && Current().control.Done? && SameReconcile()
    {
      hide Perform, PerformStep, Ordered, LocalStep, Finished;
      var i := server.Sense();
      LoopAtEnd(spec, Current(), i);
      Advance(i);
      FinishBatch(batch, i);
    }

    /** The part of completeBatch that determines the final phase. */
    method FinishBatch(batch: BatchMigration, i: Input)
      requires Tracks() && Current().control == AtUpdate(LastUpdate)
      requires Current().obj == Finished(spec, batch.Snapshot(), i.now, i.draw)
      requires Current().version == batch.resourceVersion
      modifies this`past, server, batch
      ensures Mirrors(batch) && Current().control.Done? && SameReconcile()
    {
      hide Perform, PerformStep, Ordered, Retried, FailedWith;
      batch.completionTime := Some(i.now);
      if batch.failed > 0 {
        if batch.retryCount < spec.Policy().maxRetries {
          RetryBatch(batch, i.now, i.draw);
        } else {
          FailBatch(batch, "resources failed", i.now);
        }
        return;
      }
      batch.phase := Completed;
      batch.percentage := 100;
      var ok := UpdateStatus(batch);
    }
  }
}
