/** What the restart does, and what every run of the AdoToGit migration keeps. */
module AdoToGitTheorems {
  import opened Common
  import opened Resources
  import opened AdoToGitMachine

  // ---------- counters, on every run, duplicate ids and names included ----------

  ghost predicate Counted(st: Status) {
    st.completed == Count(st.entries, IsCompleted) && st.failed == Count(st.entries, IsFailed)
  }

  lemma {:induction false} OverwriteCounted(st: Status, i: nat, e: Entry)
    requires i < |st.entries| && Counted(st) && !IsSettled(e)
    ensures Counted(Overwritten(st, i, e))
  {
    CountUpdate(st.entries, i, e, IsCompleted);
    CountUpdate(st.entries, i, e, IsFailed);
  }

  lemma {:induction false} SkipCounted(st: Status, ids: seq<string>)
    requires Counted(st)
    ensures Counted(SkipIds(st, ids))
  {
    if ids != [] {
      var before := SkipIds(st, ids[..|ids| - 1]);
      SkipCounted(st, ids[..|ids| - 1]);
      var i := FirstById(before.entries, Last(ids));
      if i < |before.entries| {
        OverwriteCounted(before, i, Skip(before.entries[i]));
      }
    }
  }

  lemma {:induction false} ResetCounted(st: Status, rs: seq<Resource>)
    requires Counted(st)
    ensures Counted(ResetAll(st, rs))
  {
    if rs != [] {
      var before := ResetAll(st, rs[..|rs| - 1]);
      ResetCounted(st, rs[..|rs| - 1]);
      var i := FirstById(before.entries, Last(rs).id);
      if i < |before.entries| {
        OverwriteCounted(before, i, Reset(before.entries[i], Last(rs)));
      }
    }
  }

  lemma {:induction false} AppendUnsettled(entries: seq<Entry>, more: seq<Entry>, p: Entry -> bool)
    requires forall k | 0 <= k < |more| :: !p(more[k])
    ensures Count(entries + more, p) == Count(entries, p)
  {
    if more == [] {
      assert entries + more == entries;
    } else {
      AppendUnsettled(entries, more[..|more| - 1], p);
      CountAppend(entries + more[..|more| - 1], Last(more), p);
      assert entries + more == entries + more[..|more| - 1] + [Last(more)];
    }
  }

  lemma {:induction false} RestartCounted(st: Status, spec: seq<Resource>, removed: seq<string>)
    requires Counted(st)
    ensures Counted(Restarted(st, spec, removed))
  {
    hide WithPercentage;
    var existing := Existing(st.entries);
    SkipCounted(st, removed);
    ResetCounted(SkipIds(st, removed), ModifiedResources(existing, spec));
    var st1 := ResetAll(SkipIds(st, removed), ModifiedResources(existing, spec));
    var added := FreshAll(NewResources(existing, spec));
    AppendUnsettled(st1.entries, added, IsCompleted);
    AppendUnsettled(st1.entries, added, IsFailed);
  }

  lemma {:induction false} PutCounted(entries: seq<Entry>, e: Entry, p: Entry -> bool)
    requires var i := FirstBySource(entries, e.source); i < |entries| ==> !p(entries[i])
    ensures Count(PutEntry(entries, e), p) == Count(entries, p) + if p(e) then 1 else 0
  {
    var i := FirstBySource(entries, e.source);
    if i < |entries| {
      CountUpdate(entries, i, e, p);
    } else {
      CountAppend(entries, e, p);
    }
  }

  lemma {:induction false} ProcessCounted(st: Status, r: Resource, ok: bool, error: string, now: Time)
    requires Counted(st) && !SettledByName(st.entries, r.source)
    ensures Counted(Processed(st, r, ok, error, now))
  {
    hide PutEntry, Count, WithPercentage;
    PutCounted(st.entries, Outcome(r, ok, error, now), IsCompleted);
    PutCounted(st.entries, Outcome(r, ok, error, now), IsFailed);
  }

  lemma {:induction false} WritesCounted(spec: seq<Resource>, st: Status, i: Input)
    requires Counted(st)
    ensures forall k | 0 <= k < |RunningWrites(spec, st, i)| :: Counted(RunningWrites(spec, st, i)[k])
  {
    hide Processed, Count, NextResource;
    var k := NextResource(spec, st.entries);
    if k < |spec| {
      ProcessCounted(st.(processing := 1), spec[k], i.ok, i.error, i.now);
    }
  }

  lemma {:induction false} StoredIsOneOf(st: Status, writes: seq<Status>, stored: nat)
    ensures var st' := StoredOf(st, writes, stored);
      st' == st || exists k | 0 <= k < |writes| :: st' == writes[k]
  {
    if stored > 0 && writes != [] {
      assert StoredOf(st, writes, stored) == writes[Min(stored, |writes|) - 1];
    }
  }

  /** The counters equal the number of Completed and of Failed entries, so they are never negative. */
  lemma {:induction false} AlwaysCounted(steps: seq<Step>)
    ensures var st := Run(steps).st;
      0 <= st.completed == Count(st.entries, IsCompleted) && 0 <= st.failed == Count(st.entries, IsFailed)
    ensures Run(steps).st.phase.Unset? ==> Run(steps).st.entries == []
  {
    if steps != [] {
      var before := steps[..|steps| - 1];
      AlwaysCounted(before);
      var st := Run(before).st;
      hide StoredOf, RunningWrites, Restarted, Count;
      match Last(steps)
      case Work(spec, i) =>
        if st.phase.Running? {
          WritesCounted(spec, st, i);
          StoredIsOneOf(st, RunningWrites(spec, st, i), i.stored);
          WorkPhase(spec, st, i);
        }
      case SpecChange(spec, removed) =>
        RestartCounted(st, spec, removed);
        if Terminal(st.phase) { RestartPhase(st, spec, removed); }
      case _ =>
    }
  }

  // ---------- completion ----------

  /** Before any restart, a migration that is still going has no failed entry. */
  ghost predicate CleanInv(w: World) {
    (w.st.phase.Unset? ==> w.st.entries == []) &&
    (!w.restarted && !w.st.phase.Failed? && !w.st.phase.Paused? && !w.st.phase.Cancelled? ==>
      forall k | 0 <= k < |w.st.entries| :: !IsFailed(w.st.entries[k]))
  }

  lemma {:induction false} WorkClean(spec: seq<Resource>, st: Status, i: Input)
    requires forall k | 0 <= k < |st.entries| :: !IsFailed(st.entries[k])
    ensures var st' := StoredOf(st, RunningWrites(spec, st, i), i.stored);
      st'.phase.Failed? || forall k | 0 <= k < |st'.entries| :: !IsFailed(st'.entries[k])
  {
    hide NextResource, FirstBySource;
  }

  lemma {:induction false} WorkPhase(spec: seq<Resource>, st: Status, i: Input)
    requires st.phase.Running?
    ensures !StoredOf(st, RunningWrites(spec, st, i), i.stored).phase.Unset?
  {
    hide NextResource, PutEntry;
  }

  lemma {:induction false} AlwaysClean(steps: seq<Step>)
    ensures CleanInv(Run(steps))
  {
    if steps != [] {
      AlwaysClean(steps[..|steps| - 1]);
      var w := Run(steps[..|steps| - 1]);
      hide StoredOf, RunningWrites, Restarted;
      match Last(steps)
      case Work(spec, i) =>
        if w.st.phase.Running? {
          WorkPhase(spec, w.st, i);
          if !w.restarted { WorkClean(spec, w.st, i); }
        }
      case SpecChange(spec, removed) => if Terminal(w.st.phase) { RestartPhase(w.st, spec, removed); }
      case _ =>
    }
  }

  lemma {:induction false} RestartPhase(st: Status, spec: seq<Resource>, removed: seq<string>)
    requires Terminal(st.phase)
    ensures if NoChanges(st, spec) then Restarted(st, spec, removed) == st
            else Restarted(st, spec, removed).phase.Running?
  {
  }

  /** Settling one resource keeps every other name settled, and settles its own. */
  lemma {:induction false} PutKeepsSettled(entries: seq<Entry>, e: Entry, name: string)
    requires IsSettled(e) && !SettledByName(entries, e.source)
    requires name == e.source || SettledByName(entries, name)
    ensures SettledByName(PutEntry(entries, e), name)
  {
    var put := PutEntry(entries, e);
    FirstBySourceIs(put, name, FirstBySource(entries, name));
  }

  /** completeMigration is reached only when the first entry of every resource's source name is settled,
      and, if there has been no restart, Completed. */
  lemma {:induction false} CompletionMeansSettled(steps: seq<Step>, spec: seq<Resource>, i: Input, k: nat)
    requires Run(steps).st.phase.Running? && ReachesCompletion(spec, Run(steps).st, i) && k < |spec|
    ensures var w := Run(steps); var final := Last(RunningWrites(spec, w.st, i));
      (final.phase.Completed? || final.phase.Syncing?) && SettledByName(final.entries, spec[k].source) &&
      (!w.restarted ==> IsCompleted(final.entries[FirstBySource(final.entries, spec[k].source)]))
  {
    AlwaysClean(steps);
    var st := Run(steps).st;
    var n := NextResource(spec, st.entries);
    hide Run, NextResource, FirstBySource, WithPercentage;
    if n < |spec| {
      var e := Outcome(spec[n], true, i.error, i.now);
      PutKeepsSettled(st.entries, e, spec[k].source);
    }
  }

  /** Conversely, a migration stored as Completed or Syncing by a running step has reached completeMigration. */
  lemma {:induction false} OnlyCompletionCompletes(spec: seq<Resource>, st: Status, i: Input)
    requires st.phase.Running?
    ensures var st' := StoredOf(st, RunningWrites(spec, st, i), i.stored);
      st'.phase.Completed? || st'.phase.Syncing? ==>
        ReachesCompletion(spec, st, i) && st' == Last(RunningWrites(spec, st, i))
  {
  }
}
