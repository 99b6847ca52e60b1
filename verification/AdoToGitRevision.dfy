/** What a restart leaves of every entry, field by field. */
module AdoToGitRevision {
  import opened Common
  import opened Resources
  import opened AdoToGitMachine
  import opened AdoToGitTheorems
  import opened AdoToGitRestart

  /** No entry before it has its id. */
  ghost predicate IsFirst(entries: seq<Entry>, j: nat)
    requires j < |entries|
  {
    forall i | 0 <= i < j :: entries[i].id != entries[j].id
  }

  ghost predicate IsLastWith(entries: seq<Entry>, id: string, l: nat) {
    l < |entries| && entries[l].id == id && forall i | l < i < |entries| :: entries[i].id != id
  }

  predicate Agrees(e: Entry, r: Resource) {
    e.source == r.source && e.target == r.target && e.kind == r.kind
  }

  /** The last entry with the id agrees with the resource. */
  ghost predicate LastAgrees(entries: seq<Entry>, r: Resource) {
    exists l: nat | IsLastWith(entries, r.id, l) :: Agrees(entries[l], r)
  }

  /** Nothing but the state and its explanation has changed: the entry is Skipped. */
  predicate BecameSkipped(e: Entry, e': Entry) {
    e'.state.ResSkipped? && e' == e.(state := ResSkipped, error := e'.error)
  }

  /** The entry waits to be migrated afresh, as the resource says. */
  predicate BecamePending(e: Entry, e': Entry, r: Resource) {
    e'.state.ResPending? && e'.progress == 0 && e'.id == e.id == r.id && e'.source == r.source &&
    e'.target == r.target && e'.kind == r.kind
  }

  /** An entry made for the resource, on which nothing has been done. */
  predicate IsNewEntry(e: Entry, r: Resource) {
    e.id == r.id && e.source == r.source && e.target == r.target && e.kind == r.kind &&
    e.state.ResPending? && e.progress == 0 && e.error == "" && e.completionTime.None?
  }

  ghost predicate HasId(entries: seq<Entry>, id: string) {
    exists j | 0 <= j < |entries| :: entries[j].id == id
  }

  lemma {:induction false} FirstMeans(entries: seq<Entry>, j: nat)
    requires j < |entries|
    ensures IsFirst(entries, j) <==> FirstById(entries, entries[j].id) == j
  {
  }

  lemma {:induction false} ExistingIsLast(entries: seq<Entry>, id: string) returns (l: nat)
    requires HasId(entries, id)
    ensures IsLastWith(entries, id, l) && id in Existing(entries) && Existing(entries)[id] == entries[l]
  {
    var n := |entries| - 1;
    if entries[n].id == id {
      l := n;
    } else {
      var j :| 0 <= j < |entries| && entries[j].id == id;
      assert entries[..n][j].id == id;
      l := ExistingIsLast(entries[..n], id);
    }
  }

  lemma {:induction false} LastAgreesIff(entries: seq<Entry>, r: Resource)
    requires HasId(entries, r.id)
    ensures r.id in Existing(entries) && (LastAgrees(entries, r) <==> Matches(Existing(entries)[r.id], r))
  {
    var l := ExistingIsLast(entries, r.id);
    hide Existing, HasId;
    assert forall m: nat | IsLastWith(entries, r.id, m) :: m == l;
    if LastAgrees(entries, r) {
      var m: nat :| IsLastWith(entries, r.id, m) && Agrees(entries[m], r);
    } else {
      assert IsLastWith(entries, r.id, l);
    }
  }

  /** What a restart may leave of entry j. Only the first entry with an id is edited: it becomes Skipped if the spec
      does not have the id; it stays as it is if the last entry with the id agrees with the spec; and otherwise it
      becomes Pending, as the spec says. */
  ghost predicate MayLeave(entries: seq<Entry>, spec: seq<Resource>, j: nat, e': Entry)
    requires j < |entries|
  {
    var e := entries[j];
    if !IsFirst(entries, j) then e' == e
    else
      ((forall k | 0 <= k < |spec| :: spec[k].id != e.id) ==> BecameSkipped(e, e')) &&
      forall k | 0 <= k < |spec| && spec[k].id == e.id ::
        if LastAgrees(entries, spec[k]) then e' == e else BecamePending(e, e', spec[k])
  }

  lemma {:induction false} RevisedMeans(entries: seq<Entry>, spec: seq<Resource>, j: nat)
    requires DistinctResources(spec) && j < |entries| && entries[j].id in Existing(entries)
    ensures MayLeave(entries, spec, j, Revised(entries, j, spec))
  {
    var e := entries[j];
    FirstMeans(entries, j);
    IndexUnique(spec, e.id);
    assert HasId(entries, e.id);
    var k := IndexOf(spec, e.id);
    if k < |spec| {
      LastAgreesIff(entries, spec[k]);
    }
    hide Existing, FirstById, IndexOf, LastAgrees, HasId;
  }

  /** Every entry that was there is left as it may be, and the counters take the consequences. */
  lemma {:induction false} RestartLeaves(st: Status, spec: seq<Resource>, removed: seq<string>)
    requires DistinctResources(spec) && !NoChanges(st, spec)
    requires Enumerates(removed, RemovedIds(Existing(st.entries), spec))
    ensures var es := Restarted(st, spec, removed).entries;
      |es| >= |st.entries| && forall j | 0 <= j < |st.entries| :: MayLeave(st.entries, spec, j, es[j])
  {
    var es := Restarted(st, spec, removed).entries;
    RestartRevises(st, spec, removed);
    hide Restarted, MayLeave, Revised, Existing;
    forall j | 0 <= j < |st.entries| ensures MayLeave(st.entries, spec, j, es[j]) {
      RevisedMeans(st.entries, spec, j);
    }
  }

  /** No resource of the spec ends up Skipped, except under an entry that was Skipped already and agrees with it, or
      that repeats an earlier id. */
  lemma {:induction false} SkippedInSpecWasSkipped(
    st: Status, spec: seq<Resource>, removed: seq<string>, j: nat, k: nat)
    requires DistinctResources(spec) && !NoChanges(st, spec)
    requires Enumerates(removed, RemovedIds(Existing(st.entries), spec))
    requires j < |Restarted(st, spec, removed).entries| && k < |spec|
    requires var e := Restarted(st, spec, removed).entries[j]; e.id == spec[k].id && e.state.ResSkipped?
    ensures j < |st.entries| && st.entries[j].state.ResSkipped? &&
      (!IsFirst(st.entries, j) || LastAgrees(st.entries, spec[k]))
  {
    RestartLeaves(st, spec, removed);
    hide Restarted, Existing, NoChanges, Enumerates, MayLeave, LastAgrees;
    var e' := Restarted(st, spec, removed).entries[j];
    if j < |st.entries| {
      LeftSkipped(st.entries, spec, j, k, e');
    } else {
      NewIsPending(st, spec, removed, j);
    }
  }

  lemma {:induction false} LeftSkipped(entries: seq<Entry>, spec: seq<Resource>, j: nat, k: nat, e': Entry)
    requires j < |entries| && k < |spec| && MayLeave(entries, spec, j, e') && DistinctResources(spec)
    requires e'.id == spec[k].id && e'.state.ResSkipped?
    ensures entries[j].state.ResSkipped? && (!IsFirst(entries, j) || LastAgrees(entries, spec[k]))
  {
    hide LastAgrees;
  }

  lemma {:induction false} NewIsPending(st: Status, spec: seq<Resource>, removed: seq<string>, j: nat)
    requires DistinctResources(spec) && !NoChanges(st, spec)
    requires Enumerates(removed, RemovedIds(Existing(st.entries), spec))
    requires |st.entries| <= j < |Restarted(st, spec, removed).entries|
    ensures Restarted(st, spec, removed).entries[j].state.ResPending?
  {
    RestartRevises(st, spec, removed);
    hide Restarted, Revised, Existing, NewResources;
  }

  /** Behind them comes one new entry for each resource whose id is new, in the order of the spec, and no other. */
  lemma {:induction false} RestartAdds(st: Status, spec: seq<Resource>, removed: seq<string>) returns (places: seq<nat>)
    requires DistinctResources(spec) && !NoChanges(st, spec)
    requires Enumerates(removed, RemovedIds(Existing(st.entries), spec))
    ensures var es, n := Restarted(st, spec, removed).entries, |st.entries|;
      |es| == n + |places| &&
      (forall a, b | 0 <= a < b < |places| :: places[a] < places[b]) &&
      (forall k: nat :: k in places <==> k < |spec| && !HasId(st.entries, spec[k].id)) &&
      forall a | 0 <= a < |places| :: places[a] in places && IsNewEntry(es[n + a], spec[places[a]])
  {
    RestartRevises(st, spec, removed);
    places := NewPlaces(Existing(st.entries), spec);
    forall k: nat | k < |spec| ensures IsNew(Existing(st.entries), spec[k]) <==> !HasId(st.entries, spec[k].id) {
      ExistingHas(st.entries, spec[k].id);
    }
    hide Restarted, Revised, Existing, NewResources, HasId;
  }

  lemma {:induction false} ExistingHas(entries: seq<Entry>, id: string)
    ensures id in Existing(entries) <==> HasId(entries, id)
  {
    ExistingIs(entries);
    if HasId(entries, id) {
      var l := ExistingIsLast(entries, id);
    }
  }

  lemma {:induction false} NewPlaces(existing: map<string, Entry>, spec: seq<Resource>) returns (places: seq<nat>)
    ensures |places| == |NewResources(existing, spec)|
    ensures forall a | 0 <= a < |places| :: places[a] < |spec| && NewResources(existing, spec)[a] == spec[places[a]]
    ensures forall a, b | 0 <= a < b < |places| :: places[a] < places[b]
    ensures forall k: nat :: k in places <==> k < |spec| && IsNew(existing, spec[k])
  {
    if spec == [] {
      places := [];
    } else {
      var n := |spec| - 1;
      places := NewPlaces(existing, spec[..n]);
      if IsNew(existing, spec[n]) {
        places := places + [n];
      }
    }
  }

  /** The new total is that of the spec, the skipped counter grows by the number of ids that have gone, and the
      percentage follows. */
  lemma {:induction false} RestartCounts(st: Status, spec: seq<Resource>, removed: seq<string>)
    requires !NoChanges(st, spec) && Enumerates(removed, RemovedIds(Existing(st.entries), spec))
    ensures var st' := Restarted(st, spec, removed);
      st'.phase.Running? && st'.total == |spec| && st'.skipped == st.skipped + |removed| &&
      st'.processing == st.processing &&
      (spec == [] ==> st'.percentage == st.percentage) &&
      (spec != [] ==>
        st'.percentage * |spec| <= 100 * (st'.completed + st'.failed) < (st'.percentage + 1) * |spec|)
  {
    var st' := Restarted(st, spec, removed);
    forall id | id in removed ensures HasId(st.entries, id) {
      ExistingHas(st.entries, id);
    }
    hide Existing, RemovedIds, HasId;
    var modified := ModifiedResources(Existing(st.entries), spec);
    SkippedCounts(st, removed);
    ResetCounts(SkipIds(st, removed), modified);
    hide SkipIds, ResetAll, ModifiedResources, NewResources;
    if spec != [] {
      Share((st'.completed + st'.failed) * 100, |spec|);
    }
  }

  lemma {:induction false} Share(x: int, n: int)
    requires n > 0
    ensures (x / n) * n <= x < (x / n + 1) * n
  {
    assert x == (x / n) * n + x % n;
  }

  lemma {:induction false} SkippedCounts(st: Status, ids: seq<string>)
    requires Distinct(ids) && forall id | id in ids :: HasId(st.entries, id)
    ensures var st' := SkipIds(st, ids);
      st'.skipped == st.skipped + |ids| && st'.processing == st.processing && st'.percentage == st.percentage
  {
    if ids != [] {
      var init := ids[..|ids| - 1];
      SkippedCounts(st, init);
      SkipsExactly(st, init);
      SameFirst(SkipIds(st, init).entries, st.entries, Last(ids));
      assert Last(ids) in ids;
      FoundById(st.entries, Last(ids));
      hide FirstById;
    }
  }

  lemma {:induction false} FoundById(entries: seq<Entry>, id: string)
    ensures FirstById(entries, id) < |entries| <==> HasId(entries, id)
  {
  }

  lemma {:induction false} ResetCounts(st: Status, rs: seq<Resource>)
    ensures var st' := ResetAll(st, rs);
      st'.skipped == st.skipped && st'.processing == st.processing && st'.percentage == st.percentage
  {
    if rs != [] {
      ResetCounts(st, rs[..|rs| - 1]);
    }
  }
}
