/** The four-way diff of a restart, for specs whose ids are distinct. */
module AdoToGitRestart {
  import opened Common
  import opened Resources
  import opened AdoToGitMachine
  import opened AdoToGitTheorems

  ghost predicate DistinctEntries(entries: seq<Entry>) {
    forall i, j | 0 <= i < j < |entries| :: entries[i].id != entries[j].id
  }

  ghost predicate DistinctResources(spec: seq<Resource>) {
    forall i, j | 0 <= i < j < |spec| :: spec[i].id != spec[j].id
  }

  /** Where the spec has the id, if it does. */
  function IndexOf(spec: seq<Resource>, id: string): (k: nat)
    ensures k <= |spec|
    ensures k < |spec| <==> id in Ids(spec)
    ensures k < |spec| ==> spec[k].id == id
  {
    if spec == [] then 0
    else if spec[0].id == id then (assert spec[0] in spec; 0)
    else
      (assert Ids(spec) == {spec[0].id} + Ids(spec[1..]) by { assert spec == [spec[0]] + spec[1..]; }
       1 + IndexOf(spec[1..], id))
  }

  /** What a restart makes of an entry. Only the first entry with an id is ever edited: it is skipped if the spec no
      longer has the id, untouched if the spec agrees with the last entry that has it, and otherwise reset to what the
      spec says. */
  function Revised(entries: seq<Entry>, j: nat, spec: seq<Resource>): Entry
    requires j < |entries| && entries[j].id in Existing(entries)
  {
    var e := entries[j];
    var k := IndexOf(spec, e.id);
    if FirstById(entries, e.id) != j then e
    else if k == |spec| then Skip(e)
    else if Matches(Existing(entries)[e.id], spec[k]) then e
    else Reset(e, spec[k])
  }

  lemma {:induction false} ExistingIs(entries: seq<Entry>)
    ensures forall j | 0 <= j < |entries| :: entries[j].id in Existing(entries)
    ensures forall id | id in Existing(entries) ::
      exists j | 0 <= j < |entries| :: entries[j].id == id && entries[j] == Existing(entries)[id]
  {
    if entries != [] {
      var init := entries[..|entries| - 1];
      ExistingIs(init);
      forall id | id in Existing(entries)
        ensures exists j | 0 <= j < |entries| :: entries[j].id == id && entries[j] == Existing(entries)[id]
      {
        if id == Last(entries).id {
          assert entries[|entries| - 1].id == id;
        } else {
          var j :| 0 <= j < |init| && init[j].id == id && init[j] == Existing(init)[id];
          assert entries[j].id == id && entries[j] == Existing(entries)[id];
        }
      }
    }
  }

  /** The entries have the same ids at the same places. */
  ghost predicate SameIds(es: seq<Entry>, entries: seq<Entry>) {
    |es| == |entries| && forall j | 0 <= j < |es| :: es[j].id == entries[j].id
  }

  lemma {:induction false} SameFirst(es: seq<Entry>, entries: seq<Entry>, id: string)
    requires SameIds(es, entries)
    ensures FirstById(es, id) == FirstById(entries, id)
  {
    var i, j := FirstById(es, id), FirstById(entries, id);
    if i < |es| {
      assert entries[i].id == id;
    }
    if j < |entries| {
      assert es[j].id == id;
    }
  }

  function SkippedAt(entries: seq<Entry>, j: nat, ids: seq<string>): Entry
    requires j < |entries|
  {
    var e := entries[j];
    if e.id in ids && FirstById(entries, e.id) == j then Skip(e) else e
  }

  /** Skipping a list of ids skips exactly the first entry of each. */
  lemma {:induction false} SkipsExactly(st: Status, ids: seq<string>)
    requires Distinct(ids)
    ensures var es := SkipIds(st, ids).entries;
      SameIds(es, st.entries) && forall j | 0 <= j < |es| :: es[j] == SkippedAt(st.entries, j, ids)
  {
    if ids != [] {
      var init := ids[..|ids| - 1];
      SkipsExactly(st, init);
      var before := SkipIds(st, init);
      assert SkipIds(st, ids) == SkipId(before, Last(ids));
      hide SkipIds;
      assert ids == init + [Last(ids)] && Last(ids) !in init;
      SameFirst(before.entries, st.entries, Last(ids));
      hide FirstById;
    }
  }

  /** What resetting a list of resources leaves at an index. */
  function ResetAt(entries: seq<Entry>, j: nat, rs: seq<Resource>): Entry
    requires j < |entries|
  {
    var e := entries[j];
    var k := IndexOf(rs, e.id);
    if k < |rs| && FirstById(entries, e.id) == j then Reset(e, rs[k]) else e
  }

  lemma {:induction false} OneMoreReset(entries: seq<Entry>, before: Entry, j: nat, rs: seq<Resource>)
    requires j < |entries| && rs != [] && DistinctResources(rs) && before == ResetAt(entries, j, rs[..|rs| - 1])
    ensures ResetAt(entries, j, rs) ==
      if entries[j].id == Last(rs).id && FirstById(entries, entries[j].id) == j then Reset(before, Last(rs)) else before
  {
    IndexOfPrefix(rs, entries[j].id);
    var init := rs[..|rs| - 1];
    if IndexOf(init, entries[j].id) < |init| {
      IndexUnique(rs, entries[j].id);
    }
    hide IndexOf, FirstById;
  }

  /** Resetting a list of resources resets exactly the first entry of each of their ids. */
  lemma {:induction false} ResetsExactly(st: Status, rs: seq<Resource>)
    requires DistinctResources(rs)
    ensures var es := ResetAll(st, rs).entries;
      SameIds(es, st.entries) && forall j | 0 <= j < |es| :: es[j] == ResetAt(st.entries, j, rs)
  {
    if rs != [] {
      var init := rs[..|rs| - 1];
      var before := ResetAll(st, init);
      ResetsExactly(st, init);
      SameFirst(before.entries, st.entries, Last(rs).id);
      assert ResetAll(st, rs) == ResetOne(before, Last(rs));
      hide ResetAll, ResetAt, FirstById;
      var es := ResetOne(before, Last(rs)).entries;
      forall j | 0 <= j < |es| ensures es[j] == ResetAt(st.entries, j, rs) {
        OneMoreReset(st.entries, before.entries[j], j, rs);
      }
    }
  }

  lemma {:induction false} IndexOfPrefix(rs: seq<Resource>, id: string)
    requires rs != [] && DistinctResources(rs)
    ensures var init := rs[..|rs| - 1];
      IndexOf(rs, id) == if IndexOf(init, id) < |init| then IndexOf(init, id)
                         else if Last(rs).id == id then |rs| - 1 else |rs|
  {
    var init := rs[..|rs| - 1];
    IndexUnique(rs, id);
    IndexUnique(init, id);
  }

  lemma {:induction false} IndexUnique(rs: seq<Resource>, id: string)
    requires DistinctResources(rs)
    ensures forall k | 0 <= k < |rs| && rs[k].id == id :: IndexOf(rs, id) == k
    ensures IndexOf(rs, id) == |rs| ==> forall k | 0 <= k < |rs| :: rs[k].id != id
  {
    forall k | 0 <= k < |rs| && rs[k].id == id ensures IndexOf(rs, id) == k {
      assert rs[k] in rs;
    }
  }

  lemma {:induction false} ModifiedAre(existing: map<string, Entry>, spec: seq<Resource>)
    requires DistinctResources(spec)
    ensures var rs := ModifiedResources(existing, spec);
      DistinctResources(rs) && (forall r :: r in rs <==> r in spec && IsModified(existing, r))
  {
    if spec != [] {
      var init := spec[..|spec| - 1];
      ModifiedAre(existing, init);
      assert spec == init + [Last(spec)];
      var rs := ModifiedResources(existing, init);
      forall k | 0 <= k < |rs| ensures rs[k].id != Last(spec).id {
        assert rs[k] in init;
      }
    }
  }

  lemma {:induction false} NewAre(existing: map<string, Entry>, spec: seq<Resource>)
    requires DistinctResources(spec)
    ensures var rs := NewResources(existing, spec);
      DistinctResources(rs) && (forall r :: r in rs <==> r in spec && IsNew(existing, r))
  {
    if spec != [] {
      var init := spec[..|spec| - 1];
      NewAre(existing, init);
      assert spec == init + [Last(spec)];
      var rs := NewResources(existing, init);
      forall k | 0 <= k < |rs| ensures rs[k].id != Last(spec).id {
        assert rs[k] in init;
      }
    }
  }

  // ---------- the outcome of a restart ----------

  ghost predicate IsRevision(es: seq<Entry>, entries: seq<Entry>, spec: seq<Resource>, added: seq<Resource>) {
    |es| == |entries| + |added| &&
    (forall j | 0 <= j < |entries| :: entries[j].id in Existing(entries) && es[j] == Revised(entries, j, spec)) &&
    forall j | |entries| <= j < |es| :: es[j] == Fresh(added[j - |entries|])
  }

  /** One entry, after the removed ids have been skipped. */
  lemma {:induction false} OneRevised(
    entries: seq<Entry>, skipped: seq<Entry>, j: nat,
    spec: seq<Resource>, removed: seq<string>, modified: seq<Resource>)
    requires SameIds(skipped, entries) && j < |entries| && entries[j].id in Existing(entries)
    requires DistinctResources(spec) && DistinctResources(modified)
    requires forall r :: r in modified <==> r in spec && IsModified(Existing(entries), r)
    requires skipped[j] == SkippedAt(entries, j, removed)
    requires Enumerates(removed, RemovedIds(Existing(entries), spec))
    ensures ResetAt(skipped, j, modified) == Revised(entries, j, spec)
  {
    SameFirst(skipped, entries, entries[j].id);
    PlacesAgree(entries[j].id, spec, Existing(entries), modified);
    hide Existing, RemovedIds, IsModified, Skip, Reset, FirstById, IndexOf;
  }

  lemma {:induction false} OldEntriesRevised(st: Status, spec: seq<Resource>, removed: seq<string>)
    requires DistinctResources(spec) && Enumerates(removed, RemovedIds(Existing(st.entries), spec))
    ensures var es := ResetAll(SkipIds(st, removed), ModifiedResources(Existing(st.entries), spec)).entries;
      |es| == |st.entries| &&
      forall j | 0 <= j < |st.entries| ::
        st.entries[j].id in Existing(st.entries) && es[j] == Revised(st.entries, j, spec)
  {
    hide SkipIds, ResetAll, ModifiedResources, Existing, RemovedIds, IsModified, SkippedAt, ResetAt, Revised;
    var existing := Existing(st.entries);
    var modified := ModifiedResources(existing, spec);
    var skipped := SkipIds(st, removed);
    ExistingIs(st.entries);
    SkipsExactly(st, removed);
    ModifiedAre(existing, spec);
    ResetsExactly(skipped, modified);
    forall j | 0 <= j < |st.entries| ensures ResetAt(skipped.entries, j, modified) == Revised(st.entries, j, spec) {
      OneRevised(st.entries, skipped.entries, j, spec, removed, modified);
    }
  }

  /** An id is to be reset where the spec has it and disagrees with the entries, and to be skipped where it has not. */
  lemma {:induction false} PlacesAgree(
    id: string, spec: seq<Resource>, existing: map<string, Entry>, modified: seq<Resource>)
    requires DistinctResources(spec) && DistinctResources(modified) && id in existing
    requires forall r :: r in modified <==> r in spec && IsModified(existing, r)
    ensures var k, m := IndexOf(spec, id), IndexOf(modified, id);
      (id in RemovedIds(existing, spec) <==> k == |spec|) &&
      (m < |modified| <==> k < |spec| && !Matches(existing[id], spec[k])) &&
      (m < |modified| ==> modified[m] == spec[k])
  {
    IndexUnique(spec, id);
    IndexUnique(modified, id);
    var k, m := IndexOf(spec, id), IndexOf(modified, id);
    if m < |modified| {
      assert modified[m] in spec;
    } else if k < |spec| {
      assert spec[k] in spec && spec[k] !in modified;
    }
  }

  lemma {:induction false} RestartedEntries(st: Status, spec: seq<Resource>, removed: seq<string>)
    requires !NoChanges(st, spec)
    ensures var existing := Existing(st.entries);
      Restarted(st, spec, removed).entries ==
      ResetAll(SkipIds(st, removed), ModifiedResources(existing, spec)).entries + FreshAll(NewResources(existing, spec))
  {
    hide WithPercentage, ResetAll, SkipIds;
  }

  /** After a restart, the entries that were there are each revised, and one Pending entry is appended for every
      resource whose id is new. */
  lemma {:induction false} RestartRevises(st: Status, spec: seq<Resource>, removed: seq<string>)
    requires DistinctResources(spec) && !NoChanges(st, spec)
    requires Enumerates(removed, RemovedIds(Existing(st.entries), spec))
    ensures IsRevision(Restarted(st, spec, removed).entries, st.entries, spec, NewResources(Existing(st.entries), spec))
  {
    hide Restarted, ResetAll, SkipIds, Revised, Existing;
    OldEntriesRevised(st, spec, removed);
    RestartedEntries(st, spec, removed);
  }

  /** Some entry has the resource's id, source, target and type. */
  ghost predicate Represented(entries: seq<Entry>, r: Resource) {
    exists j | 0 <= j < |entries| :: entries[j].id == r.id && Matches(entries[j], r)
  }

  /** Every entry whose id the spec does not have is Skipped. */
  ghost predicate SkippedOutside(entries: seq<Entry>, spec: seq<Resource>) {
    forall j | 0 <= j < |entries| && entries[j].id !in Ids(spec) :: entries[j].state == ResSkipped
  }

  /** The entries that are not the first with their id, and whose id the spec does not have, are Skipped already. */
  ghost predicate RepeatsAreSkipped(entries: seq<Entry>, spec: seq<Resource>) {
    forall j | 0 <= j < |entries| && FirstById(entries, entries[j].id) != j && entries[j].id !in Ids(spec) ::
      entries[j].state == ResSkipped
  }

  lemma {:induction false} RevisedIs(entries: seq<Entry>, j: nat, spec: seq<Resource>)
    requires j < |entries| && entries[j].id in Existing(entries)
    ensures var e := Revised(entries, j, spec);
      e.id == entries[j].id &&
      (e.id !in Ids(spec) ==>
        (e.state == ResSkipped <==> FirstById(entries, e.id) == j || entries[j].state == ResSkipped)) &&
      (IsSettled(e) ==> e == entries[j])
  {
  }

  lemma {:induction false} RevisionIds(es: seq<Entry>, entries: seq<Entry>, spec: seq<Resource>, added: seq<Resource>)
    requires IsRevision(es, entries, spec, added)
    ensures SameIds(es[..|entries|], entries)
    ensures forall j | |entries| <= j < |es| :: es[j].id == added[j - |entries|].id
  {
    hide Revised;
    forall j | 0 <= j < |entries| ensures es[j].id == entries[j].id {
      RevisedIs(entries, j, spec);
    }
  }

  lemma {:induction false} RevisionIsDistinctIff(
    es: seq<Entry>, entries: seq<Entry>, spec: seq<Resource>, added: seq<Resource>)
    requires IsRevision(es, entries, spec, added) && DistinctResources(added)
    requires forall i, j | 0 <= i < |entries| && 0 <= j < |added| :: entries[i].id != added[j].id
    ensures DistinctEntries(es) <==> DistinctEntries(entries)
  {
    RevisionIds(es, entries, spec, added);
    hide IsRevision;
    var n := |entries|;
    assert forall j | 0 <= j < n :: es[j] == es[..n][j];
    if DistinctEntries(entries) {
      forall i, j | 0 <= i < j < |es| ensures es[i].id != es[j].id {
        if i < n {
          assert es[i].id == entries[i].id;
        } else {
          assert added[i - n].id != added[j - n].id;
        }
      }
    } else {
      var i, j :| 0 <= i < j < n && entries[i].id == entries[j].id;
      assert es[i].id == es[j].id;
    }
  }

  lemma {:induction false} RevisionMatches(
    es: seq<Entry>, entries: seq<Entry>, spec: seq<Resource>, added: seq<Resource>, k: nat)
    requires IsRevision(es, entries, spec, added) && DistinctResources(spec) && k < |spec|
    requires spec[k].id in Existing(entries) || spec[k] in added
    ensures Represented(es, spec[k])
  {
    var r := spec[k];
    if r.id in Existing(entries) {
      IndexUnique(spec, r.id);
      ExistingIs(entries);
      var last :| 0 <= last < |entries| && entries[last].id == r.id && entries[last] == Existing(entries)[r.id];
      var first := FirstById(entries, r.id);
      hide IndexOf, Existing;
      if Matches(entries[last], r) {
        assert es[last] == Revised(entries, last, spec) == entries[last];
      } else {
        assert es[first] == Revised(entries, first, spec) == Reset(entries[first], r);
      }
    } else {
      var j :| 0 <= j < |added| && added[j] == r;
      assert es[|entries| + j] == Fresh(r);
    }
  }

  lemma {:induction false} AddedAreNew(existing: map<string, Entry>, spec: seq<Resource>)
    requires DistinctResources(spec)
    ensures var added := NewResources(existing, spec);
      DistinctResources(added) && forall j | 0 <= j < |added| :: added[j].id !in existing && added[j].id in Ids(spec)
  {
    NewAre(existing, spec);
    var added := NewResources(existing, spec);
    forall j | 0 <= j < |added| ensures added[j].id !in existing && added[j].id in Ids(spec) {
      assert added[j] in added;
    }
  }

  /** After a restart every resource of the spec has an entry with its source, target and type; every entry outside the
      spec is Skipped, if and only if its repetitions were already; and ids are distinct, if and only if they were. */
  lemma {:induction false} RestartCovers(st: Status, spec: seq<Resource>, removed: seq<string>)
    requires DistinctResources(spec) && !NoChanges(st, spec)
    requires Enumerates(removed, RemovedIds(Existing(st.entries), spec))
    ensures var es := Restarted(st, spec, removed).entries;
      (forall k | 0 <= k < |spec| :: Represented(es, spec[k])) &&
      (SkippedOutside(es, spec) <==> RepeatsAreSkipped(st.entries, spec)) &&
      (DistinctEntries(es) <==> DistinctEntries(st.entries))
  {
    var es := Restarted(st, spec, removed).entries;
    var existing := Existing(st.entries);
    var added := NewResources(existing, spec);
    hide Restarted, NewResources, Existing, Revised, IsRevision, SkippedOutside, RepeatsAreSkipped, Represented;
    RestartRevises(st, spec, removed);
    ExistingIs(st.entries);
    NewAre(existing, spec);
    AddedAreNew(existing, spec);
    RevisionIsDistinctIff(es, st.entries, spec, added);
    forall k | 0 <= k < |spec| ensures Represented(es, spec[k]) {
      assert spec[k] in spec;
      RevisionMatches(es, st.entries, spec, added, k);
    }
    RevisionOutside(es, st.entries, spec, added);
  }

  lemma {:induction false} RevisionOutside(
    es: seq<Entry>, entries: seq<Entry>, spec: seq<Resource>, added: seq<Resource>)
    requires IsRevision(es, entries, spec, added) && forall j | 0 <= j < |added| :: added[j].id in Ids(spec)
    ensures SkippedOutside(es, spec) <==> RepeatsAreSkipped(entries, spec)
  {
    hide Revised, FirstById, Existing;
    forall j | 0 <= j < |entries|
      ensures es[j].id == entries[j].id
      ensures es[j].id !in Ids(spec) ==>
        (es[j].state == ResSkipped <==> FirstById(entries, es[j].id) == j || entries[j].state == ResSkipped)
    {
      RevisedIs(entries, j, spec);
    }
  }

  /** With distinct ids there are no repetitions. */
  lemma {:induction false} DistinctHaveNoRepeats(entries: seq<Entry>, spec: seq<Resource>)
    requires DistinctEntries(entries)
    ensures RepeatsAreSkipped(entries, spec)
  {
  }

  /** The entries that satisfy p have distinct ids, all of them in the set. */
  ghost predicate DistinctWhere(entries: seq<Entry>, p: Entry -> bool) {
    forall i, j | 0 <= i < j < |entries| && p(entries[i]) && p(entries[j]) :: entries[i].id != entries[j].id
  }

  lemma {:induction false} CountWithin(entries: seq<Entry>, p: Entry -> bool, ids: set<string>)
    requires DistinctWhere(entries, p)
    requires forall j | 0 <= j < |entries| && p(entries[j]) :: entries[j].id in ids
    ensures Count(entries, p) <= |ids|
  {
    if entries != [] {
      var init, e := entries[..|entries| - 1], Last(entries);
      CountWithin(init, p, if p(e) then ids - {e.id} else ids);
    }
  }

  lemma {:induction false} CountSettled(entries: seq<Entry>)
    ensures Count(entries, IsSettled) == Count(entries, IsCompleted) + Count(entries, IsFailed)
  {
    if entries != [] {
      CountSettled(entries[..|entries| - 1]);
    }
  }

  lemma {:induction false} IdsFit(spec: seq<Resource>)
    ensures |Ids(spec)| <= |spec|
  {
    if spec != [] {
      var init := spec[..|spec| - 1];
      IdsFit(init);
      assert spec == init + [Last(spec)];
      assert Ids(spec) == Ids(init) + {Last(spec).id};
    }
  }

  /** Every settled entry is the first one with its id. */
  ghost predicate SettledAreFirst(entries: seq<Entry>) {
    forall j | 0 <= j < |entries| && IsSettled(entries[j]) :: FirstById(entries, entries[j].id) == j
  }

  lemma {:induction false} RevisionSettles(
    es: seq<Entry>, entries: seq<Entry>, spec: seq<Resource>, added: seq<Resource>)
    requires IsRevision(es, entries, spec, added) && SettledAreFirst(entries)
    ensures DistinctWhere(es, IsSettled)
    ensures forall j | 0 <= j < |es| && IsSettled(es[j]) :: es[j].id in Ids(spec)
  {
    hide Revised, FirstById, Existing;
    forall j | 0 <= j < |es| && IsSettled(es[j])
      ensures j < |entries| && es[j] == entries[j] && FirstById(entries, es[j].id) == j && es[j].id in Ids(spec)
    {
      if j < |entries| {
        RevisedIs(entries, j, spec);
      }
    }
  }

  /** After a restart the settled entries belong to the spec, so the counters stay within the new total. */
  lemma {:induction false} RestartWithinTotal(st: Status, spec: seq<Resource>, removed: seq<string>)
    requires SettledAreFirst(st.entries) && DistinctResources(spec) && !NoChanges(st, spec) && Counted(st)
    requires Enumerates(removed, RemovedIds(Existing(st.entries), spec))
    ensures var st' := Restarted(st, spec, removed);
      st'.phase.Running? && st'.total == |spec| && 0 <= st'.completed + st'.failed <= st'.total
  {
    var st' := Restarted(st, spec, removed);
    RestartCounted(st, spec, removed);
    RestartRevises(st, spec, removed);
    RevisionSettles(st'.entries, st.entries, spec, NewResources(Existing(st.entries), spec));
    CountWithin(st'.entries, IsSettled, Ids(spec));
    CountSettled(st'.entries);
    IdsFit(spec);
    hide Count, ResetAll, SkipIds, Ids, IsRevision;
  }

  /** In particular with distinct ids. */
  lemma {:induction false} DistinctAreFirst(entries: seq<Entry>)
    requires DistinctEntries(entries)
    ensures SettledAreFirst(entries)
  {
  }

  // ---------- the exit without changes ----------

  datatype Fields = Fields(source: string, target: string, kind: string)

  function FieldsOf(e: Entry): Fields {
    Fields(e.source, e.target, e.kind)
  }

  /** The id-to-fields map of the stored entries, in which a later entry wins, and that of the spec. */
  function EntryFields(entries: seq<Entry>): map<string, Fields> {
    if entries == [] then map[]
    else EntryFields(entries[..|entries| - 1])[Last(entries).id := FieldsOf(Last(entries))]
  }

  function SpecFields(spec: seq<Resource>): map<string, Fields> {
    map id | id in Ids(spec) :: var r := spec[IndexOf(spec, id)]; Fields(r.source, r.target, r.kind)
  }

  lemma {:induction false} LookupIsExisting(entries: seq<Entry>)
    ensures EntryFields(entries).Keys == Existing(entries).Keys
    ensures forall id | id in Existing(entries) :: EntryFields(entries)[id] == FieldsOf(Existing(entries)[id])
  {
    if entries != [] {
      LookupIsExisting(entries[..|entries| - 1]);
    }
  }

  /** What it takes for the diff to find nothing. */
  lemma {:induction false} NoChangesMeans(st: Status, spec: seq<Resource>)
    requires DistinctResources(spec)
    ensures var existing := Existing(st.entries);
      NoChanges(st, spec) <==>
      existing.Keys == Ids(spec) && forall r | r in spec :: r.id in existing && Matches(existing[r.id], r)
  {
    var existing := Existing(st.entries);
    ModifiedAre(existing, spec);
    NewAre(existing, spec);
    var added, modified := NewResources(existing, spec), ModifiedResources(existing, spec);
    hide Existing, NewResources, ModifiedResources;
    if NoChanges(st, spec) {
      forall r | r in spec ensures r.id in existing && Matches(existing[r.id], r) {
        assert r !in added && r !in modified;
      }
      forall id | id in existing ensures id in Ids(spec) {
        assert id !in RemovedIds(existing, spec);
      }
    } else {
      assert added != [] ==> added[0] in added;
      assert modified != [] ==> modified[0] in modified;
    }
  }

  /** The restart leaves the migration as it is exactly when entries and spec have the same id-to-fields map. */
  lemma {:induction false} NoChangesIffSameFields(st: Status, spec: seq<Resource>)
    requires DistinctResources(spec)
    ensures NoChanges(st, spec) <==> EntryFields(st.entries) == SpecFields(spec)
  {
    var existing := Existing(st.entries);
    LookupIsExisting(st.entries);
    NoChangesMeans(st, spec);
    hide Existing, EntryFields, NoChanges;
    forall r | r in spec ensures SpecFields(spec)[r.id] == Fields(r.source, r.target, r.kind) {
      var k :| 0 <= k < |spec| && spec[k] == r;
      IndexUnique(spec, r.id);
    }
    if existing.Keys == Ids(spec) {
      forall id | id in existing ensures spec[IndexOf(spec, id)] in spec {
      }
    }
  }

  // ---------- the running step between restarts ----------

  /** The running step finds its entry by name and gives it the resource's id. Ids stay distinct if and only if no other
      entry has that id. */
  lemma {:induction false} PutKeepsDistinctIff(entries: seq<Entry>, e: Entry)
    requires DistinctEntries(entries)
    ensures DistinctEntries(PutEntry(entries, e)) <==>
      forall j | 0 <= j < |entries| && entries[j].id == e.id :: j == FirstBySource(entries, e.source)
  {
    var i := FirstBySource(entries, e.source);
    var es := PutEntry(entries, e);
    hide FirstBySource;
    if i == |entries| {
      assert forall j | 0 <= j < |entries| :: es[j] == entries[j];
    }
    if j :| 0 <= j < |entries| && entries[j].id == e.id && j != i {
      assert es[j].id == es[i].id;
    }
  }

  const A1 := Resource("1", "repository", "a", "t")
  const A2 := Resource("2", "repository", "a", "t")

  /** One resource is migrated, stored and completed with it. */
  const GOOD := Input(true, true, "", 0, false, 3)

  lemma {:induction false} RunOn(steps: seq<Step>, s: Step)
    ensures Run(steps + [s]) == Next(Run(steps), s)
  {
    assert (steps + [s])[..|steps|] == steps;
  }

  function FirstSteps(): seq<Step> {
    [Initialise([A1])] + [Validate] + [Validated(true)] + [Work([A1], GOOD)]
  }

  const MIGRATED := Entry("1", "repository", "a", "t", ResCompleted, 100, "", Some(0))

  lemma {:induction false} FirstWorks(st: Status)
    requires st.entries == []
    ensures var writes := RunningWrites([A1], st, GOOD);
      |writes| == 3 && writes[2].phase.Completed? && writes[2].entries == [MIGRATED]
  {
    assert NextResource([A1], []) == 0;
    assert [] + [MIGRATED] == [MIGRATED];
    hide NextResource, WithPercentage;
  }

  lemma {:induction false} OneIsMigrated()
    ensures var w := Run(FirstSteps()); w.st.phase.Completed? && w.st.entries == [MIGRATED]
  {
    var s1 := [Initialise([A1])];
    var s2 := s1 + [Validate];
    var s3 := s2 + [Validated(true)];
    RunOn([], Initialise([A1]));
    assert [] + s1 == s1 && Run([]) == START;
    RunOn(s1, Validate);
    RunOn(s2, Validated(true));
    RunOn(s3, Work([A1], GOOD));
    hide Run, RunningWrites;
    assert Run(s3).st.phase.Running? && Run(s3).st.entries == [];
    FirstWorks(Run(s3).st);
  }

  lemma {:induction false} ExistingOfOne(e: Entry)
    ensures Existing([e]) == map[e.id := e]
  {
    assert [e][..0] == [];
    var none: map<string, Entry> := Existing([e][..0]);
    assert none == map[] && Existing([e]) == none[e.id := e];
  }

  lemma {:induction false} OneNewOneRemoved()
    ensures var existing := map["1" := MIGRATED];
      NewResources(existing, [A2]) == [A2] && ModifiedResources(existing, [A2]) == []
  {
    assert [A2][..0] == [];
  }

  lemma {:induction false} OneIsSkipped(st: Status)
    requires st.entries == [MIGRATED]
    ensures SkipIds(st, ["1"]).entries == [Skip(MIGRATED)]
  {
    assert ["1"][..0] == [] && SkipIds(st, ["1"]) == SkipId(st, "1");
    assert FirstById(st.entries, "1") == 0;
    hide SkipIds;
  }

  lemma {:induction false} NewIdRestarts(st: Status)
    requires st.entries == [MIGRATED]
    ensures !NoChanges(st, [A2]) && Restarted(st, [A2], ["1"]).phase.Running?
    ensures Restarted(st, [A2], ["1"]).entries == [Skip(MIGRATED), Fresh(A2)]
  {
    ExistingOfOne(MIGRATED);
    OneNewOneRemoved();
    OneIsSkipped(st);
    hide NewResources, ModifiedResources, Existing, SkipIds, WithPercentage, Skip, Fresh;
    RestartedEntries(st, [A2], ["1"]);
    assert FreshAll([A2]) == [Fresh(A2)];
    assert ResetAll(SkipIds(st, ["1"]), []) == SkipIds(st, ["1"]);
    hide Restarted, ResetAll, FreshAll;
  }

  lemma {:induction false} NewIdWorks(st: Status)
    requires st.entries == [Skip(MIGRATED), Fresh(A2)]
    ensures var writes := RunningWrites([A2], st, GOOD);
      |writes| == 3 && writes[2].phase.Completed? && writes[2].entries == [MIGRATED.(id := "2"), Fresh(A2)]
  {
    assert FirstBySource(st.entries, "a") == 0 && !SettledByName(st.entries, "a");
    assert NextResource([A2], st.entries) == 0;
    var e := AdoToGitMachine.Outcome(A2, true, "", 0);
    assert PutEntry(st.entries, e) == [e, Fresh(A2)];
    hide NextResource, PutEntry, FirstBySource, WithPercentage;
  }

  /** The only resource gets another id. The restart skips its old entry and appends one; then the running step finds
      the skipped entry by name and gives it the new id. The migration completes with two entries of that id, one of
      them Pending. */
  lemma {:induction false} NewIdIsDuplicated()
    ensures var st := Run(FirstSteps() + [SpecChange([A2], ["1"])] + [Work([A2], GOOD)]).st;
      st.phase.Completed? && st.entries == [MIGRATED.(id := "2"), Fresh(A2)]
  {
    OneIsMigrated();
    RunOn(FirstSteps(), SpecChange([A2], ["1"]));
    RunOn(FirstSteps() + [SpecChange([A2], ["1"])], Work([A2], GOOD));
    hide Run, FirstSteps, Restarted, RunningWrites;
    var before := Run(FirstSteps()).st;
    NewIdRestarts(before);
    NewIdWorks(Restarted(before, [A2], ["1"]));
  }
}
