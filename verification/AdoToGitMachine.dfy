/** The AdoToGit migration: the running step, and the restart that a spec edit causes once it has ended. */
module AdoToGitMachine {
  import opened Common
  import opened Resources

  datatype Phase = Unset | Pending | Validating | Running | Paused | Syncing | Completed | Failed | Cancelled

  datatype Status = Status(
    phase: Phase, entries: seq<Entry>, total: int, completed: int, failed: int, skipped: int,
    processing: int, percentage: int)

  const BLANK := Status(Unset, [], 0, 0, 0, 0, 0, 0)

  predicate Terminal(p: Phase) {
    p.Completed? || p.Failed? || p.Cancelled?
  }

  function WithPercentage(st: Status): (r: Status)
    ensures r.(percentage := st.percentage) == st
  {
    if st.total > 0 then st.(percentage := ((st.completed + st.failed) * 100) / st.total) else st
  }

  // ---------- one resource per reconcile ----------

  function Initialized(spec: seq<Resource>, st: Status): Status {
    st.(phase := Pending, total := |spec|, completed := 0, failed := 0, processing := 0, skipped := 0, percentage := 0)
  }

  function FailedMigration(st: Status): Status {
    st.(phase := Failed, processing := 0)
  }

  /** The index of the first resource that is not settled, or the number of resources. */
  function NextResource(spec: seq<Resource>, entries: seq<Entry>): (k: nat)
    ensures k <= |spec|
    ensures k < |spec| ==> !SettledByName(entries, spec[k].source)
    ensures forall j | 0 <= j < k :: SettledByName(entries, spec[j].source)
  {
    if spec == [] || !SettledByName(entries, spec[0].source) then 0 else 1 + NextResource(spec[1..], entries)
  }

  function Outcome(r: Resource, ok: bool, error: string, now: Time): Entry {
    Entry(r.id, r.kind, r.source, r.target, if ok then ResCompleted else ResFailed,
          if ok then 100 else 0, if ok then "" else error, Some(now))
  }

  function Processed(st: Status, r: Resource, ok: bool, error: string, now: Time): Status {
    WithPercentage(st.(entries := PutEntry(st.entries, Outcome(r, ok, error, now)), processing := 0,
                       completed := st.completed + (if ok then 1 else 0), failed := st.failed + (if ok then 0 else 1)))
  }

  /** completeMigration, which enters continuous sync when that is enabled. */
  function Complete(st: Status, sync: bool): Status {
    st.(phase := if sync then Syncing else Completed, percentage := 100, processing := 0)
  }

  /** What the environment decides in one reconcile. `stored` is the number of the last status write that is stored. */
  datatype Input = Input(token: bool, ok: bool, error: string, now: Time, sync: bool, stored: nat)

  /** The status writes that one running reconcile attempts, in order. */
  function RunningWrites(spec: seq<Resource>, st: Status, i: Input): (writes: seq<Status>)
    ensures writes != []
  {
    if !i.token then [FailedMigration(st)]
    else
      var k := NextResource(spec, st.entries);
      if k == |spec| then [Complete(st, i.sync)]
      else
        var begun := st.(processing := 1);
        var done := Processed(begun, spec[k], i.ok, i.error, i.now);
        if !i.ok then [begun, done.(phase := Failed)]
        else if k < |spec| - 1 then [begun, done]
        else [begun, done, Complete(done, i.sync)]
  }

  function StoredOf(st: Status, writes: seq<Status>, stored: nat): Status {
    if stored == 0 || writes == [] then st
    else if stored <= |writes| then writes[stored - 1] else Last(writes)
  }

  /** completeMigration is reached, on the last status this reconcile computes. */
  predicate ReachesCompletion(spec: seq<Resource>, st: Status, i: Input) {
    i.token && (NextResource(spec, st.entries) == |spec| || (i.ok && NextResource(spec, st.entries) == |spec| - 1))
  }

  // ---------- restart for a spec change ----------

  /** The first entry with the given id, or the number of entries. */
  function FirstById(entries: seq<Entry>, id: string): (i: nat)
    ensures i <= |entries|
    ensures i < |entries| ==> entries[i].id == id
    ensures forall j | 0 <= j < i :: entries[j].id != id
  {
    if entries == [] || entries[0].id == id then 0 else 1 + FirstById(entries[1..], id)
  }

  /** existingResourceStatuses: a later entry with the same id wins. */
  function Existing(entries: seq<Entry>): map<string, Entry> {
    if entries == [] then map[] else Existing(entries[..|entries| - 1])[Last(entries).id := Last(entries)]
  }

  predicate Matches(e: Entry, r: Resource) {
    e.target == r.target && e.source == r.source && e.kind == r.kind
  }

  predicate IsNew(existing: map<string, Entry>, r: Resource) {
    r.id !in existing
  }

  predicate IsModified(existing: map<string, Entry>, r: Resource) {
    r.id in existing && !Matches(existing[r.id], r)
  }

  function NewResources(existing: map<string, Entry>, spec: seq<Resource>): seq<Resource> {
    if spec == [] then []
    else NewResources(existing, spec[..|spec| - 1]) + if IsNew(existing, Last(spec)) then [Last(spec)] else []
  }

  function ModifiedResources(existing: map<string, Entry>, spec: seq<Resource>): seq<Resource> {
    if spec == [] then []
    else ModifiedResources(existing, spec[..|spec| - 1]) + if IsModified(existing, Last(spec)) then [Last(spec)] else []
  }

  function Ids(spec: seq<Resource>): set<string> {
    set r | r in spec :: r.id
  }

  function RemovedIds(existing: map<string, Entry>, spec: seq<Resource>): set<string> {
    existing.Keys - Ids(spec)
  }

  function Skip(e: Entry): Entry {
    e.(state := ResSkipped, error := "Resource removed from spec")
  }

  function Reset(e: Entry, r: Resource): Entry {
    e.(state := ResPending, target := r.target, source := r.source, kind := r.kind, progress := 0,
       error := "Resource modified - queued for re-migration")
  }

  function Fresh(r: Resource): Entry {
    Entry(r.id, r.kind, r.source, r.target, ResPending, 0, "", None)
  }

  /** Overwrite one entry, taking its old state out of the counters. */
  function Overwritten(st: Status, i: nat, e: Entry): Status
    requires i < |st.entries|
  {
    st.(entries := st.entries[i := e],
        completed := st.completed - (if IsCompleted(st.entries[i]) then 1 else 0),
        failed := st.failed - (if IsFailed(st.entries[i]) then 1 else 0))
  }

  function SkipId(st: Status, id: string): Status {
    var i := FirstById(st.entries, id);
    if i == |st.entries| then st
    else var st' := Overwritten(st, i, Skip(st.entries[i])); st'.(skipped := st'.skipped + 1)
  }

  /** The removed ids come in the order of a map iteration: any order. */
  function SkipIds(st: Status, ids: seq<string>): Status {
    if ids == [] then st else SkipId(SkipIds(st, ids[..|ids| - 1]), Last(ids))
  }

  function ResetOne(st: Status, r: Resource): Status {
    var i := FirstById(st.entries, r.id);
    if i == |st.entries| then st else Overwritten(st, i, Reset(st.entries[i], r))
  }

  function ResetAll(st: Status, rs: seq<Resource>): Status {
    if rs == [] then st else ResetOne(ResetAll(st, rs[..|rs| - 1]), Last(rs))
  }

  function FreshAll(rs: seq<Resource>): (entries: seq<Entry>)
    ensures |entries| == |rs|
    ensures forall i | 0 <= i < |rs| :: entries[i] == Fresh(rs[i])
  {
    seq(|rs|, i requires 0 <= i < |rs| => Fresh(rs[i]))
  }

  predicate NoChanges(st: Status, spec: seq<Resource>) {
    var existing := Existing(st.entries);
    NewResources(existing, spec) == [] && ModifiedResources(existing, spec) == [] && RemovedIds(existing, spec) == {}
  }

  ghost predicate Enumerates(ids: seq<string>, s: set<string>) {
    Distinct(ids) && forall id :: id in ids <==> id in s
  }

  /** restartMigrationForSpecChange, for one order of the removed ids. */
  function Restarted(st: Status, spec: seq<Resource>, removed: seq<string>): Status {
    if NoChanges(st, spec) then st
    else
      var existing := Existing(st.entries);
      var st1 := ResetAll(SkipIds(st, removed), ModifiedResources(existing, spec));
      var st2 := st1.(total := |spec|, entries := st1.entries + FreshAll(NewResources(existing, spec)));
      WithPercentage(st2).(phase := Running)
  }

  // ---------- runs, with any spec at any step ----------

  datatype Step =
    | Initialise(spec: seq<Resource>)
    | Validate
    | Validated(passed: bool)
    | Work(spec: seq<Resource>, input: Input)
    | LeaveSync
    | PauseRequest
    | CancelRequest
    | SpecChange(spec: seq<Resource>, removed: seq<string>)

  /** The stored status, and whether a spec change has restarted the migration so far. */
  datatype World = World(st: Status, restarted: bool)

  const START := World(BLANK, false)

  function Next(w: World, s: Step): World {
    var st := w.st;
    match s
    case Initialise(spec) => if st.phase.Unset? then w.(st := Initialized(spec, st)) else w
    case Validate => if st.phase.Pending? then w.(st := st.(phase := Validating)) else w
    case Validated(passed) =>
      if !st.phase.Validating? then w
      else w.(st := if passed then st.(phase := Running) else FailedMigration(st))
    case Work(spec, i) =>
      if st.phase.Running? then w.(st := StoredOf(st, RunningWrites(spec, st, i), i.stored)) else w
    case LeaveSync => if st.phase.Syncing? then w.(st := st.(phase := Completed)) else w
    case PauseRequest => w.(st := st.(phase := Paused))
    case CancelRequest => w.(st := st.(phase := Cancelled))
    case SpecChange(spec, removed) =>
      if Terminal(st.phase) then
        World(Restarted(st, spec, removed), w.restarted || !NoChanges(st, spec))
      else w
  }

  function Run(steps: seq<Step>): World {
    if steps == [] then START else Next(Run(steps[..|steps| - 1]), Last(steps))
  }
}
