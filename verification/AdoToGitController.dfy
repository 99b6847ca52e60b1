/** The AdoToGit reconciler's running step and restart as the imperative program they are. */
module AdoToGitController {
  import opened Common
  import opened Resources
  import opened AdoToGitMachine

  class AdoToGitMigration {
    var phase: Phase
    var entries: seq<Entry>
    var total: int
    var completed: int
    var failed: int
    var skipped: int
    var processing: int
    var percentage: int
    // the statuses that this reconcile has tried to store
    ghost var writes: seq<Status>

    function Snapshot(): Status
      reads this
    {
      Status(phase, entries, total, completed, failed, skipped, processing, percentage)
    }

    constructor Fetched(st: Status)
      ensures Snapshot() == st && writes == []
    {
      phase, entries, total, completed := st.phase, st.entries, st.total, st.completed;
      failed, skipped, processing, percentage := st.failed, st.skipped, st.processing, st.percentage;
      writes := [];
    }

    /** Status().Update: whether the server stores it is the environment's choice. */
    method UpdateStatus() returns (ok: bool)
      modifies this`writes
      ensures writes == old(writes) + [Snapshot()]
    {
      writes := writes + [Snapshot()];
      ok := *;
    }

    // ---------- running ----------

    /** checkResourceStatus: the index of the first entry with the resource's name, and whether it is settled. */
    method CheckResourceStatus(resource: Resource) returns (index: nat, processed: bool)
      ensures index == FirstBySource(entries, resource.source)
      ensures processed == SettledByName(entries, resource.source)
    {
      index := 0;
      while index < |entries| && entries[index].source != resource.source
        invariant 0 <= index <= |entries|
        invariant forall j | 0 <= j < index :: entries[j].source != resource.source
      {
        index := index + 1;
      }
      FirstBySourceIs(entries, resource.source, index);
      processed := index < |entries| && (entries[index].state.ResCompleted? || entries[index].state.ResFailed?);
    }

    method UpdateProgressPercentage()
      modifies this`percentage
      ensures Snapshot() == WithPercentage(old(Snapshot()))
    {
      if total > 0 {
        percentage := ((completed + failed) * 100) / total;
      }
    }

    /** processResource: store that work has begun, do it, and put its outcome in the entry at the index found. */
    method ProcessResource(resource: Resource, index: nat, ok: bool, error: string, now: Time)
      requires index == FirstBySource(entries, resource.source)
      modifies this
      ensures Snapshot() == Processed(old(Snapshot()).(processing := 1), resource, ok, error, now)
      ensures writes == old(writes) + [old(Snapshot()).(processing := 1)]
    {
      hide WithPercentage;
      processing := 1;
      var begun := UpdateStatus();
      var status := Entry(resource.id, resource.kind, resource.source, resource.target, ResRunning, 0, "", None);
      var at := index;
      if index < |entries| {
        entries := entries[index := status];
      } else {
        entries := entries + [status];
      }
      UpdateAfterProcessing(status, at, ok, error, now);
      assert entries == PutEntry(old(entries), AdoToGitMachine.Outcome(resource, ok, error, now));
    }

    /** updateResourceStatusAfterProcessing: the outcome goes into the entry and into one counter. */
    method UpdateAfterProcessing(begun: Entry, at: nat, ok: bool, error: string, now: Time)
      requires at < |entries|
      modifies this`entries, this`completed, this`failed, this`processing, this`percentage
      ensures var status := begun.(state := if ok then ResCompleted else ResFailed, progress := if ok then 100 else 0,
                                   error := if ok then begun.error else error, completionTime := Some(now));
        Snapshot() == WithPercentage(old(Snapshot()).(
          entries := old(entries)[at := status], processing := 0,
          completed := old(completed) + (if ok then 1 else 0), failed := old(failed) + (if ok then 0 else 1)))
    {
      var status := begun.(completionTime := Some(now));
      if ok {
        status := status.(state := ResCompleted, progress := 100);
        completed := completed + 1;
      } else {
        status := status.(state := ResFailed, error := error, progress := 0);
        failed := failed + 1;
      }
      processing := 0;
      entries := entries[at := status];
      UpdateProgressPercentage();
    }

    method CompleteMigration(sync: bool)
      modifies this
      ensures Snapshot() == Complete(old(Snapshot()), sync) && writes == old(writes) + [Snapshot()]
    {
      phase := if sync then Syncing else Completed;
      percentage := 100;
      processing := 0;
      var ok := UpdateStatus();
    }

    /** processRunning: one resource per reconcile; what is attempted is a prefix of the machine's writes,
        cut short only when storing the outcome has failed. */
    method ProcessRunning(spec: seq<Resource>, i: Input)
      requires writes == []
      modifies this
      ensures writes <= RunningWrites(spec, old(Snapshot()), i) && writes != [] && Last(writes) == Snapshot()
      ensures |writes| == 2 || writes == RunningWrites(spec, old(Snapshot()), i)
    {
      if !i.token {
        phase := Failed;
        processing := 0;
        var ok := UpdateStatus();
        return;
      }
      var k := 0;
      while k < |spec|
        invariant 0 <= k <= |spec| && writes == [] && Snapshot() == old(Snapshot())
        invariant NextResource(spec, entries) == k + NextResource(spec[k..], entries)
      {
        assert spec[k..][0] == spec[k] && spec[k..][1..] == spec[k + 1..];
        var index, processed := CheckResourceStatus(spec[k]);
        if !processed {
          ProcessNext(spec, k, index, i);
          return;
        }
        k := k + 1;
      }
      assert spec[k..] == [];
      CompleteMigration(i.sync);
    }

    /** The part of the loop's body that handles the one resource worked on; it falls through to completion only
        after the last resource. */
    method ProcessNext(spec: seq<Resource>, k: nat, index: nat, i: Input)
      requires writes == [] && i.token && k < |spec| && k == NextResource(spec, entries)
      requires index == FirstBySource(entries, spec[k].source)
      modifies this
      ensures writes <= RunningWrites(spec, old(Snapshot()), i) && writes != [] && Last(writes) == Snapshot()
      ensures |writes| == 2 || writes == RunningWrites(spec, old(Snapshot()), i)
    {
      hide NextResource, Processed;
      ProcessResource(spec[k], index, i.ok, i.error, i.now);
      if !i.ok {
        phase := Failed;
        var failureSaved := UpdateStatus();
        return;
      }
      var saved := UpdateStatus();
      if !saved || k < |spec| - 1 {
        return;
      }
      CompleteMigration(i.sync);
    }

    // ---------- restart for a spec change ----------

    method FindById(id: string) returns (i: nat)
      ensures i == FirstById(entries, id)
    {
      i := 0;
      while i < |entries| && entries[i].id != id
        invariant 0 <= i <= |entries| && forall j | 0 <= j < i :: entries[j].id != id
      {
        i := i + 1;
      }
    }

    method ExistingById() returns (existing: map<string, Entry>)
      ensures existing == Existing(entries)
    {
      existing := map[];
      var i := 0;
      while i < |entries|
        invariant 0 <= i <= |entries| && existing == Existing(entries[..i])
      {
        assert entries[..i + 1][..i] == entries[..i];
        existing := existing[entries[i].id := entries[i]];
        i := i + 1;
      }
      assert entries[..i] == entries;
    }

    /** The diff: new and modified resources in spec order, and the ids that the spec no longer has. */
    method Diff(spec: seq<Resource>, existing: map<string, Entry>)
      returns (added: seq<Resource>, modified: seq<Resource>, removed: set<string>)
      ensures added == NewResources(existing, spec) && modified == ModifiedResources(existing, spec)
      ensures removed == RemovedIds(existing, spec)
    {
      added, modified, removed := [], [], existing.Keys;
      var i := 0;
      while i < |spec|
        invariant 0 <= i <= |spec|
        invariant added == NewResources(existing, spec[..i]) && modified == ModifiedResources(existing, spec[..i])
        invariant removed == existing.Keys - Ids(spec[..i])
      {
        var resource := spec[i];
        assert spec[..i + 1][..i] == spec[..i];
        assert Ids(spec[..i + 1]) == Ids(spec[..i]) + {resource.id} by {
          assert spec[..i + 1] == spec[..i] + [resource];
        }
        removed := removed - {resource.id};
        if resource.id in existing {
          var e := existing[resource.id];
          if e.target != resource.target || e.source != resource.source || e.kind != resource.kind {
            modified := modified + [resource];
          }
        } else {
          added := added + [resource];
        }
        i := i + 1;
      }
      assert spec[..i] == spec;
    }

    /** Overwrite one entry and take its old state out of the counters. */
    method Overwrite(i: nat, e: Entry)
      requires i < |entries|
      modifies this
      ensures Snapshot() == Overwritten(old(Snapshot()), i, e) && writes == old(writes)
    {
      var oldStatus := entries[i].state;
      entries := entries[i := e];
      if oldStatus == ResCompleted {
        completed := completed - 1;
      } else if oldStatus == ResFailed {
        failed := failed - 1;
      }
    }

    method SkipRemoved(removed: set<string>) returns (ghost order: seq<string>)
      modifies this
      ensures Enumerates(order, removed) && Snapshot() == SkipIds(old(Snapshot()), order) && writes == old(writes)
    {
      order := [];
      var todo := removed;
      while todo != {}
        invariant Snapshot() == SkipIds(old(Snapshot()), order) && writes == old(writes)
        invariant todo <= removed && Enumerates(order, removed - todo)
        decreases |todo|
      {
        var id :| id in todo;
        var i := FindById(id);
        if i < |entries| {
          Overwrite(i, Skip(entries[i]));
          skipped := skipped + 1;
        }
        assert (order + [id])[..|order|] == order;
        order := order + [id];
        todo := todo - {id};
      }
    }

    method ResetModified(modified: seq<Resource>)
      modifies this
      ensures Snapshot() == ResetAll(old(Snapshot()), modified) && writes == old(writes)
    {
      var k := 0;
      while k < |modified|
        invariant 0 <= k <= |modified| && writes == old(writes)
        invariant Snapshot() == ResetAll(old(Snapshot()), modified[..k])
      {
        assert modified[..k + 1][..k] == modified[..k];
        var i := FindById(modified[k].id);
        if i < |entries| {
          Overwrite(i, Reset(entries[i], modified[k]));
        }
        k := k + 1;
      }
      assert modified[..k] == modified;
    }

    method AppendNew(added: seq<Resource>)
      modifies this`entries
      ensures entries == old(entries) + FreshAll(added)
    {
      var k := 0;
      while k < |added|
        modifies this`entries
        invariant 0 <= k <= |added| && entries == old(entries) + FreshAll(added[..k])
      {
        assert FreshAll(added[..k + 1]) == FreshAll(added[..k]) + [Fresh(added[k])];
        entries := entries + [Fresh(added[k])];
        k := k + 1;
      }
      assert added[..k] == added;
    }

    method RestartForSpecChange(spec: seq<Resource>) returns (ghost order: seq<string>)
      modifies this
      ensures Enumerates(order, RemovedIds(Existing(old(entries)), spec))
      ensures Snapshot() == Restarted(old(Snapshot()), spec, order) && writes == old(writes) + [Snapshot()]
    {
      hide Existing, NewResources, ModifiedResources, RemovedIds, SkipIds, ResetAll, FreshAll, Enumerates;
      var existing := ExistingById();
      var added, modified, removed := Diff(spec, existing);
      if |added| + |modified| + |removed| == 0 {
        NoneToSkip(removed);
        order := [];
        var unchanged_ := UpdateStatus();
        return;
      }
      order := SkipRemoved(removed);
      ResetModified(modified);
      total := |spec|;
      AppendNew(added);
      UpdateProgressPercentage();
      phase := Running;
      var ok := UpdateStatus();
    }
  }

  lemma {:induction false} NoneToSkip(removed: set<string>)
    requires |removed| == 0
    ensures removed == {} && Enumerates([], removed)
  {
  }
}
