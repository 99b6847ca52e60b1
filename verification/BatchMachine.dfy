/** The batch status record, its edits, and one reconcile as a machine that advances between status updates. */
module BatchMachine {
  import opened Common
  import opened Resources
  import opened BatchBackoff

  const WORKER_LEASE: int := 600 * SECOND
  const LEASE_RENEWAL: int := 120 * SECOND

  datatype Phase = Unset | Pending | Claimed | Processing | Completed | Failed | Retrying | Stale

  datatype Spec = Spec(resources: seq<Resource>, retryPolicy: Option<RetryPolicy>) {
    function Policy(): RetryPolicy {
      if retryPolicy.Some? then retryPolicy.value else DEFAULT_POLICY
    }
  }

  datatype Status = Status(
    phase: Phase, claimedBy: string, claimedAt: Option<Time>, leaseExpiresAt: Option<Time>,
    total: int, completed: int, failed: int, percentage: int, retryCount: nat,
    startTime: Option<Time>, completionTime: Option<Time>, nextRetryTime: Option<Time>,
    entries: seq<Entry>, errorMessage: string)

  const BLANK := Status(Unset, "", None, None, 0, 0, 0, 0, 0, None, None, None, [], "")

  // ---------- edits of the status record ----------

  function Initialized(spec: Spec, st: Status): Status {
    st.(phase := Pending, total := |spec.resources|, completed := 0, failed := 0, percentage := 0, retryCount := 0)
  }

  function ClaimedFor(st: Status, worker: string, now: Time): Status {
    st.(phase := Claimed, claimedBy := worker, claimedAt := Some(now), leaseExpiresAt := Some(now + WORKER_LEASE))
  }

  function Started(st: Status, now: Time): Status {
    st.(phase := Processing, startTime := Some(now))
  }

  predicate LeaseExpired(st: Status, now: Time) {
    st.leaseExpiresAt.None? || now > st.leaseExpiresAt.value
  }

  predicate RenewalDue(st: Status, now: Time) {
    st.leaseExpiresAt.None? || st.leaseExpiresAt.value - now < LEASE_RENEWAL
  }

  function Renewed(st: Status, now: Time): Status {
    st.(leaseExpiresAt := Some(now + WORKER_LEASE))
  }

  function MarkedStale(st: Status): Status {
    st.(phase := Stale)
  }

  function Resumed(st: Status): Status {
    st.(phase := Pending, claimedBy := "", claimedAt := None, leaseExpiresAt := None)
  }

  function FailedWith(st: Status, message: string, now: Time): Status {
    st.(phase := Failed, errorMessage := message, completionTime := Some(now))
  }

  function Retried(spec: Spec, st: Status, now: Time, u: real): Status {
    if st.retryCount >= spec.Policy().maxRetries then
      FailedWith(st, "Maximum retry attempts exceeded", now)
    else
      st.(phase := Retrying, retryCount := st.retryCount + 1,
          nextRetryTime := Some(now + RetryDelay(spec.Policy(), st.retryCount, u)),
          claimedBy := "", claimedAt := None, leaseExpiresAt := None)
  }

  function Outcome(r: Resource, succeeded: bool, now: Time): Entry {
    if succeeded then Entry(r.id, r.kind, r.source, r.target, ResCompleted, 100, "", Some(now))
    else Entry(r.id, r.kind, r.source, r.target, ResFailed, 0, "resource failed", Some(now))
  }

  function Marked(st: Status, r: Resource, succeeded: bool, now: Time): Status {
    st.(entries := PutEntry(st.entries, Outcome(r, succeeded, now)),
        completed := st.completed + (if succeeded then 1 else 0),
        failed := st.failed + (if succeeded then 0 else 1))
  }

  function WithProgress(st: Status): Status {
    if st.total > 0 then st.(percentage := ((st.completed + st.failed) * 100) / st.total) else st
  }

  function Finished(spec: Spec, st: Status, now: Time, u: real): Status {
    var done := st.(completionTime := Some(now));
    if done.failed > 0 then
      if done.retryCount < spec.Policy().maxRetries then Retried(spec, done, now, u)
      else FailedWith(done, "resources failed", now)
    else
      done.(phase := Completed, percentage := 100)
  }

  // ---------- one reconcile ----------

  /** Which status update a reconcile is waiting for. */
  datatype Update = MarkStaleUpdate | RenewUpdate | ResourceUpdate(index: nat) | LastUpdate

  datatype Control = Dispatch | Retry | Loop(index: nat) | AtUpdate(update: Update) | Done

  /** A worker's in-memory copy of the batch, the resource version it holds, and where its reconcile stands.
      `edited` is the time of the last edit. */
  datatype Session = Session(worker: string, version: nat, obj: Status, control: Control, edited: Time)

  /** What happens to a status update: the server may refuse it, or store it and lose the reply. */
  datatype Delivery = Rejected | ReplyLost | Acknowledged

  /** Everything the environment decides in one step. */
  datatype Input = Input(now: Time, succeeded: bool, draw: Draw, delivery: Delivery)

  type Draw = u: real | 0.0 <= u < 1.0 witness 0.0

  function Begin(worker: string, version: nat, st: Status, now: Time): Session {
    Session(worker, version, st, Dispatch, now)
  }

  predicate Local(c: Control) {
    c.Dispatch? || c.Retry? || c.Loop?
  }

  function Put(s: Session, st: Status, update: Update, now: Time): Session {
    s.(obj := st, control := AtUpdate(update), edited := now)
  }

  function DispatchStep(spec: Spec, s: Session, i: Input): Session {
    var st := s.obj;
    match st.phase
    case Unset => Put(s, Initialized(spec, st), LastUpdate, i.now)
    case Pending => Put(s, ClaimedFor(st, s.worker, i.now), LastUpdate, i.now)
    case Claimed =>
      if st.claimedBy != s.worker then s.(control := Done)
      else if LeaseExpired(st, i.now) then Put(s, MarkedStale(st), MarkStaleUpdate, i.now)
      else Put(s, Started(st, i.now), LastUpdate, i.now)
    case Processing =>
      if st.claimedBy != s.worker then s.(control := Done)
      else if LeaseExpired(st, i.now) then Put(s, MarkedStale(st), MarkStaleUpdate, i.now)
      else if RenewalDue(st, i.now) then Put(s, Renewed(st, i.now), RenewUpdate, i.now)
      else s.(control := Loop(0))
    case Stale => s.(control := Retry)
    case Retrying =>
      if st.nextRetryTime.Some? && i.now < st.nextRetryTime.value then s.(control := Done)
      else Put(s, Resumed(st), LastUpdate, i.now)
    case Completed => s.(control := Done)
    case Failed => s.(control := Done)
  }

  function LoopStep(spec: Spec, s: Session, k: nat, i: Input): Session {
    if k >= |spec.resources| then
      Put(s, Finished(spec, s.obj, i.now, i.draw), LastUpdate, i.now)
    else if SettledByName(s.obj.entries, spec.resources[k].source) then
      s.(control := Loop(k + 1))
    else
      Put(s, WithProgress(Marked(s.obj, spec.resources[k], i.succeeded, i.now)), ResourceUpdate(k), i.now)
  }

  function LocalStep(spec: Spec, s: Session, i: Input): Session
    requires Local(s.control)
  {
    match s.control
    case Dispatch => DispatchStep(spec, s, i)
    case Retry => Put(s, Retried(spec, s.obj, i.now, i.draw), LastUpdate, i.now)
    case Loop(k) => LoopStep(spec, s, k, i)
  }

  lemma {:induction false} LoopAtEnd(spec: Spec, s: Session, i: Input)
    requires s.control == Loop(|spec.resources|)
    ensures LocalStep(spec, s, i) == Put(s, Finished(spec, s.obj, i.now, i.draw), LastUpdate, i.now)
  {
  }

  lemma {:induction false} LoopAt(spec: Spec, s: Session, k: nat, i: Input)
    requires s.control == Loop(k) && k < |spec.resources|
    ensures LocalStep(spec, s, i) ==
      if SettledByName(s.obj.entries, spec.resources[k].source) then s.(control := Loop(k + 1))
      else Put(s, WithProgress(Marked(s.obj, spec.resources[k], i.succeeded, i.now)), ResourceUpdate(k), i.now)
  {
  }

  lemma {:induction false} RetryingAt(spec: Spec, s: Session, i: Input)
    requires s.control.Dispatch? && s.obj.phase.Retrying?
    ensures LocalStep(spec, s, i) ==
      if s.obj.nextRetryTime.Some? && i.now < s.obj.nextRetryTime.value then s.(control := Done)
      else Put(s, Resumed(s.obj), LastUpdate, i.now)
  {
  }

  /** Where a reconcile goes once the update it waits for has been answered. */
  function Answered(s: Session, acknowledged: bool): Session
    requires s.control.AtUpdate?
  {
    var s' := if acknowledged then s.(version := s.version + 1) else s;
    match s.control.update
    case MarkStaleUpdate => s'.(control := if acknowledged then Retry else Done)
    case RenewUpdate => s'.(control := Loop(0))
    case ResourceUpdate(k) => s'.(control := Loop(k + 1))
    case LastUpdate => s'.(control := Done)
  }
}
