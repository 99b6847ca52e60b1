/** The bounded cache of migrations: what one operation does to its map, and what every run of them keeps. */
module CacheMachine {
  import opened Common

  datatype Record = Record(start: Time, completion: Option<Time>, cleanedUp: bool, phase: string)

  type Entries = map<string, Record>

  predicate Completed(m: Entries, id: string) {
    id in m && m[id].completion.Some?
  }

  ghost predicate AnyCompleted(m: Entries) {
    exists id | id in m :: Completed(m, id)
  }

  ghost predicate OldestCompleted(m: Entries, id: string) {
    Completed(m, id) && forall other | Completed(m, other) :: m[id].completion.value <= m[other].completion.value
  }

  ghost predicate OldestStarted(m: Entries, id: string) {
    id in m && forall other | other in m :: m[id].start <= m[other].start
  }

  /** Remove the entry picked; the empty id is taken for "nothing found". */
  function Without(m: Entries, id: string): Entries {
    if id == "" then m else m - {id}
  }

  /** When the oldest completed entry has the empty id, only an entry that was started before its completion is looked
      for. */
  ghost predicate EvictsStartedBefore(m: Entries, m': Entries, t: Time) {
    if forall id | id in m :: m[id].start >= t then m' == m
    else exists id | OldestStarted(m, id) :: m' == Without(m, id)
  }

  ghost predicate Evicts(m: Entries, m': Entries) {
    if AnyCompleted(m) then
      exists id | OldestCompleted(m, id) ::
        if id != "" then m' == m - {id} else EvictsStartedBefore(m, m', m[id].completion.value)
    else if m == map[] then m' == m
    else exists id | OldestStarted(m, id) :: m' == Without(m, id)
  }

  predicate Expired(r: Record, now: Time, retention: Time) {
    r.completion.Some? && now > r.completion.value + retention
  }

  function Unexpired(m: Entries, now: Time, retention: Time): Entries {
    map id | id in m && !Expired(m[id], now, retention) :: m[id]
  }

  /** What the cache holds while some ids are left to be checked. */
  function Swept(m: Entries, left: set<string>, now: Time, retention: Time): Entries {
    map id | id in m && (id in left || !Expired(m[id], now, retention)) :: m[id]
  }

  lemma {:induction false} SweepOne(m: Entries, left: set<string>, id: string, now: Time, retention: Time)
    requires id in m && id in left
    ensures Swept(m, left - {id}, now, retention) ==
      if Expired(m[id], now, retention) then Swept(m, left, now, retention) - {id} else Swept(m, left, now, retention)
    ensures id in Swept(m, left, now, retention) && Swept(m, left, now, retention)[id] == m[id]
  {
    hide Expired;
  }

  lemma {:induction false} SweptEnds(m: Entries, now: Time, retention: Time)
    ensures Swept(m, m.Keys, now, retention) == m && Swept(m, {}, now, retention) == Unexpired(m, now, retention)
  {
  }

  datatype Op =
    Set(id: string, record: Record) | Delete(id: string) | MarkCompleted(id: string, phase: string, now: Time) |
    MarkCleanedUp(id: string) | Cleanup(now: Time)

  ghost predicate Stores(m: Entries, m': Entries, id: string, r: Record, maxEntries: int) {
    if |m| >= maxEntries && id !in m then exists kept | Evicts(m, kept) :: m' == kept[id := r]
    else m' == m[id := r]
  }

  ghost predicate CacheStep(m: Entries, op: Op, m': Entries, maxEntries: int, retention: Time) {
    match op
    case Set(id, r) => Stores(m, m', id, r, maxEntries)
    case Delete(id) => m' == m - {id}
    case MarkCompleted(id, phase, now) =>
      m' == if id in m then m[id := m[id].(completion := Some(now), phase := phase)] else m
    case MarkCleanedUp(id) => m' == if id in m then m[id := m[id].(cleanedUp := true)] else m
    case Cleanup(now) => m' == Unexpired(m, now, retention)
  }

  ghost predicate StepAt(states: seq<Entries>, ops: seq<Op>, maxEntries: int, retention: Time, k: nat)
    requires |states| == |ops| + 1 && k < |ops|
  {
    CacheStep(states[k], ops[k], states[k + 1], maxEntries, retention)
  }

  /** The states of a cache that starts empty and goes through some operations. */
  ghost predicate Run(states: seq<Entries>, ops: seq<Op>, maxEntries: int, retention: Time) {
    |states| == |ops| + 1 && states[0] == map[] &&
    forall k | 0 <= k < |ops| :: StepAt(states, ops, maxEntries, retention, k)
  }

  ghost predicate NamesAreGiven(ops: seq<Op>) {
    forall k | 0 <= k < |ops| :: ops[k].Set? ==> ops[k].id != ""
  }

  // ---------- eviction ----------

  lemma {:induction false} Removed(m: Entries, id: string)
    requires id in m
    ensures |m - {id}| == |m| - 1
  {
    assert (m - {id}).Keys == m.Keys - {id};
    CardinalityOf(m);
    CardinalityOf(m - {id});
  }

  lemma {:induction false} CardinalityOf(m: Entries)
    ensures |m| == |m.Keys|
  {
  }

  /** The entry that ought to go: the one completed first if any is completed, the one started first otherwise. */
  ghost predicate IsVictim(m: Entries, id: string) {
    if AnyCompleted(m) then OldestCompleted(m, id) else OldestStarted(m, id)
  }

  ghost predicate RightVictim(m: Entries, m': Entries) {
    exists id | id in m :: IsVictim(m, id) && m' == m - {id}
  }

  /** The search for a victim may be misled by the empty id: it finds that entry, and then nothing, or it goes on to an
      entry that is not to go. */
  ghost predicate MisledByEmptyId(m: Entries) {
    "" in m &&
    if AnyCompleted(m) then
      OldestCompleted(m, "") &&
      ((forall id | id in m :: m[id].start >= m[""].completion.value) ||
       exists id | OldestStarted(m, id) :: id == "" || !OldestCompleted(m, id))
    else OldestStarted(m, "")
  }

  lemma {:induction false} RemovalsDiffer(m: Entries, a: string, b: string)
    requires a in m && b in m && m - {a} == m - {b}
    ensures a == b && m - {a} != m
  {
    assert a !in m - {a};
  }

  lemma {:induction false} WrongRemoval(m: Entries, id: string)
    requires id in m && !IsVictim(m, id)
    ensures !RightVictim(m, m - {id})
  {
    hide IsVictim;
    forall other | other in m && m - {id} == m - {other} ensures other == id {
      RemovalsDiffer(m, id, other);
    }
  }

  lemma {:induction false} NoRemoval(m: Entries)
    ensures !RightVictim(m, m)
  {
    forall id | id in m ensures m != m - {id} {
      RemovalsDiffer(m, id, id);
    }
  }

  /** What eviction does, by the entry that the first loop ends with. */
  lemma {:induction false} MisledEvicts(m: Entries) returns (m': Entries)
    requires MisledByEmptyId(m)
    ensures Evicts(m, m') && !RightVictim(m, m')
  {
    NoRemoval(m);
    m' := m;
    if AnyCompleted(m) && exists id | id in m :: m[id].start < m[""].completion.value {
      var id :| OldestStarted(m, id) && (id == "" || !OldestCompleted(m, id));
      m' := Without(m, id);
      if id != "" {
        WrongRemoval(m, id);
      }
      assert EvictsStartedBefore(m, m', m[""].completion.value);
    }
  }

  lemma {:induction false} SoundEvicts(m: Entries, m': Entries)
    requires Evicts(m, m') && m != map[] && !MisledByEmptyId(m)
    ensures RightVictim(m, m')
  {
    if AnyCompleted(m) {
      var id :| OldestCompleted(m, id) &&
        if id != "" then m' == m - {id} else EvictsStartedBefore(m, m', m[id].completion.value);
      if id == "" {
        var first :| OldestStarted(m, first) && m' == Without(m, first);
        assert IsVictim(m, first);
      } else {
        assert IsVictim(m, id);
      }
    } else {
      var id :| OldestStarted(m, id) && m' == Without(m, id);
      assert IsVictim(m, id);
    }
  }

  /** Every outcome of eviction is the removal of the right entry if and only if the empty id cannot mislead the
      search. */
  lemma {:induction false} EvictsRightIff(m: Entries)
    requires m != map[]
    ensures (forall m' | Evicts(m, m') :: RightVictim(m, m')) <==> !MisledByEmptyId(m)
  {
    hide Evicts, RightVictim, MisledByEmptyId;
    if MisledByEmptyId(m) {
      var m' := MisledEvicts(m);
    } else {
      forall m' | Evicts(m, m') ensures RightVictim(m, m') {
        SoundEvicts(m, m');
      }
    }
  }

  /** A running entry goes although another is completed, because the completed one has the empty id. */
  lemma {:induction false} EmptyIdCostsARunningEntry(m': Entries)
    requires Evicts(map["" := Record(5, Some(10), false, "Completed"), "r" := Record(1, None, false, "Running")], m')
    ensures m' == map["" := Record(5, Some(10), false, "Completed")]
  {
    var m: Entries := map["" := Record(5, Some(10), false, "Completed"), "r" := Record(1, None, false, "Running")];
    assert Completed(m, "") && forall id | Completed(m, id) :: id == "";
    assert m["r"].start < 10;
    var first :| OldestStarted(m, first) && m' == Without(m, first);
    assert m["r"].start < m[""].start && first == "r";
  }

  /** Unless the empty id misleads it, eviction removes exactly one entry, and the right one. */
  lemma {:induction false} EvictsExactlyOne(m: Entries, m': Entries) returns (id: string)
    requires Evicts(m, m') && m != map[] && !MisledByEmptyId(m)
    ensures m' == m - {id} && |m'| == |m| - 1
    ensures if AnyCompleted(m) then OldestCompleted(m, id) else OldestStarted(m, id)
  {
    SoundEvicts(m, m');
    id :| id in m && IsVictim(m, id) && m' == m - {id};
    Removed(m, id);
  }

  /** The search may end with the empty id, so that nothing is removed at all. */
  ghost predicate StuckOnEmptyId(m: Entries) {
    "" in m &&
    if AnyCompleted(m) then
      OldestCompleted(m, "") &&
      (OldestStarted(m, "") || forall id | id in m :: m[id].start >= m[""].completion.value)
    else OldestStarted(m, "")
  }

  lemma {:induction false} MayEvictNothingIff(m: Entries)
    requires m != map[]
    ensures Evicts(m, m) <==> StuckOnEmptyId(m)
  {
    forall id | id in m ensures m - {id} != m {
      assert id !in m - {id};
    }
  }

  lemma {:induction false} EvictsAtMostOne(m: Entries, m': Entries)
    requires Evicts(m, m')
    ensures m' == m || exists id | id in m :: m' == m - {id}
  {
    hide AnyCompleted;
    if AnyCompleted(m) {
      var id :| OldestCompleted(m, id) &&
        if id != "" then m' == m - {id} else EvictsStartedBefore(m, m', m[id].completion.value);
      if id == "" && m' != m {
        var first :| OldestStarted(m, first) && m' == Without(m, first);
        assert first in m;
      } else {
        assert id in m;
      }
    } else if m != map[] {
      var id :| OldestStarted(m, id) && m' == Without(m, id);
      assert id in m;
    }
  }

  // ---------- every run ----------

  function Bound(maxEntries: int): int {
    if maxEntries < 1 then 1 else maxEntries
  }

  lemma {:induction false} Put(m: Entries, id: string, r: Record)
    ensures |m[id := r]| == if id in m then |m| else |m| + 1
  {
    var m' := m[id := r];
    assert m'.Keys == m.Keys + {id};
    CardinalityOf(m);
    CardinalityOf(m');
  }

  lemma {:induction false} Fewer(m: Entries, m': Entries)
    requires m'.Keys <= m.Keys
    ensures |m'| <= |m|
  {
    assert m.Keys == m'.Keys + (m.Keys - m'.Keys);
    CardinalityOf(m);
    CardinalityOf(m');
  }

  /** The operation makes room first. */
  predicate Evicting(m: Entries, op: Op, maxEntries: int) {
    op.Set? && |m| >= maxEntries && op.id !in m
  }

  /** A new entry stored in a full cache that is not empty may make it larger if and only if the search for a victim may
      end with the empty id. */
  lemma {:induction false} FullStoreGrowsIff(m: Entries, id: string, r: Record, maxEntries: int)
    requires m != map[] && |m| >= maxEntries && id !in m
    ensures (exists m' | Stores(m, m', id, r, maxEntries) :: |m'| > |m|) <==> StuckOnEmptyId(m)
  {
    MayEvictNothingIff(m);
    hide Evicts, StuckOnEmptyId;
    if Evicts(m, m) {
      Put(m, id, r);
      assert Stores(m, m[id := r], id, r, maxEntries);
    } else {
      forall m' | Stores(m, m', id, r, maxEntries) ensures |m'| <= |m| {
        var kept :| Evicts(m, kept) && m' == kept[id := r];
        EvictsAtMostOne(m, kept);
        var gone :| gone in m && kept == m - {gone};
        Removed(m, gone);
        Put(kept, id, r);
      }
    }
  }

  lemma {:induction false} StepKeepsBound(m: Entries, op: Op, m': Entries, maxEntries: int, retention: Time)
    requires CacheStep(m, op, m', maxEntries, retention) && |m| <= Bound(maxEntries)
    requires Evicting(m, op, maxEntries) ==> !StuckOnEmptyId(m)
    ensures |m'| <= Bound(maxEntries)
  {
    hide Evicts, StuckOnEmptyId;
    match op
    case Set(id, r) =>
      if |m| >= maxEntries && id !in m {
        if m == map[] {
          EmptyEvictsNothing(m);
          Put(m, id, r);
        } else {
          FullStoreGrowsIff(m, id, r, maxEntries);
        }
      } else {
        Put(m, id, r);
      }
    case Delete(id) => Fewer(m, m');
    case MarkCompleted(id, phase, now) => if id in m { Put(m, id, m'[id]); }
    case MarkCleanedUp(id) => if id in m { Put(m, id, m'[id]); }
    case Cleanup(now) => Fewer(m, m');
  }

  lemma {:induction false} EmptyEvictsNothing(m: Entries)
    requires m == map[]
    ensures forall m' | Evicts(m, m') :: m' == m
  {
  }

  /** As long as no new entry is stored while the search for a victim can end with the empty id, the cache never holds
      more than its maximum, or one if that is less. */
  lemma {:induction false} SizeIsBoundedUnlessStuck(
    states: seq<Entries>, ops: seq<Op>, maxEntries: int, retention: Time, n: nat)
    requires Run(states, ops, maxEntries, retention) && n < |states|
    requires forall k | 0 <= k < n :: Evicting(states[k], ops[k], maxEntries) ==> !StuckOnEmptyId(states[k])
    ensures |states[n]| <= Bound(maxEntries)
  {
    if n > 0 {
      hide CacheStep, StuckOnEmptyId, Evicting;
      SizeIsBoundedUnlessStuck(states, ops, maxEntries, retention, n - 1);
      assert StepAt(states, ops, maxEntries, retention, n - 1);
      StepKeepsBound(states[n - 1], ops[n - 1], states[n], maxEntries, retention);
    }
  }

  lemma {:induction false} NamesStayGiven(states: seq<Entries>, ops: seq<Op>, maxEntries: int, retention: Time, n: nat)
    requires Run(states, ops, maxEntries, retention) && NamesAreGiven(ops) && n < |states|
    ensures "" !in states[n]
  {
    if n > 0 {
      NamesStayGiven(states, ops, maxEntries, retention, n - 1);
      assert StepAt(states, ops, maxEntries, retention, n - 1);
      StepKeepsNames(states[n - 1], ops[n - 1], states[n], maxEntries, retention);
    }
  }

  lemma {:induction false} StepKeepsNames(m: Entries, op: Op, m': Entries, maxEntries: int, retention: Time)
    requires CacheStep(m, op, m', maxEntries, retention) && "" !in m && (op.Set? ==> op.id != "")
    ensures "" !in m'
  {
    if op.Set? && |m| >= maxEntries && op.id !in m {
      var kept :| Evicts(m, kept) && m' == kept[op.id := op.record];
      EvictsAtMostOne(m, kept);
    }
    hide Evicts;
  }

  /** In particular, if no entry is stored under the empty id. */
  lemma {:induction false} SizeIsBounded(states: seq<Entries>, ops: seq<Op>, maxEntries: int, retention: Time, n: nat)
    requires Run(states, ops, maxEntries, retention) && NamesAreGiven(ops) && n < |states|
    ensures "" !in states[n] && |states[n]| <= Bound(maxEntries)
  {
    hide CacheStep;
    NamesStayGiven(states, ops, maxEntries, retention, n);
    forall k | 0 <= k < n ensures !StuckOnEmptyId(states[k]) {
      NamesStayGiven(states, ops, maxEntries, retention, k);
    }
    SizeIsBoundedUnlessStuck(states, ops, maxEntries, retention, n);
  }

  /** The empty id breaks the bound: two entries in a cache of at most one, after two stores. */
  lemma {:induction false} EmptyIdOverflows(first: Record, second: Record, states: seq<Entries>, retention: Time)
    requires first.completion.None?
    requires Run(states, [Set("", first), Set("a", second)], 1, retention)
    ensures |states[2]| == 2
  {
    var ops := [Set("", first), Set("a", second)];
    assert StepAt(states, ops, 1, retention, 0) && StepAt(states, ops, 1, retention, 1);
    var one: Entries := map["" := first];
    assert states[1] == one;
    Put(map[], "", first);
    Put(one, "a", second);
    var kept :| Evicts(one, kept) && states[2] == kept["a" := second];
    assert !AnyCompleted(one);
    assert kept == one;
  }

  /** Cleanup removes exactly the completed migrations whose retention has passed, and changes no other. */
  lemma {:induction false} CleanupRemovesTheExpired(
    states: seq<Entries>, ops: seq<Op>, maxEntries: int, retention: Time, k: nat, id: string)
    requires Run(states, ops, maxEntries, retention) && k < |ops| && ops[k].Cleanup? && id in states[k]
    ensures var r := states[k][id];
      if r.completion.Some? && ops[k].now > r.completion.value + retention then id !in states[k + 1]
      else id in states[k + 1] && states[k + 1][id] == r
  {
    assert StepAt(states, ops, maxEntries, retention, k);
  }

  predicate MarksCompleted(op: Op, id: string) {
    op.MarkCompleted? && op.id == id
  }

  /** The migration has been stored by operation k, and neither stored nor deleted since. */
  ghost predicate StoredBy(ops: seq<Op>, k: nat, n: nat, id: string) {
    k < n <= |ops| && ops[k].Set? && ops[k].id == id &&
    forall j | k < j < n :: !((ops[j].Set? || ops[j].Delete?) && ops[j].id == id)
  }

  /** What is found is what was stored last, with the completion and the phase of the last mark since, if there is one,
      and cleaned up if it was so or has been marked so since. */
  ghost predicate Explained(ops: seq<Op>, k: nat, n: nat, id: string, r: Record)
    requires StoredBy(ops, k, n, id)
  {
    r.start == ops[k].record.start &&
    (r.cleanedUp <==> ops[k].record.cleanedUp || exists j | k < j < n :: ops[j] == MarkCleanedUp(id)) &&
    if forall j | k < j < n :: !MarksCompleted(ops[j], id) then
      r.completion == ops[k].record.completion && r.phase == ops[k].record.phase
    else
      exists j | k < j < n && MarksCompleted(ops[j], id) ::
        r.completion == Some(ops[j].now) && r.phase == ops[j].phase &&
        forall i | j < i < n :: !MarksCompleted(ops[i], id)
  }

  /** In every run, the record found for a migration is explained by the operations on it. */
  lemma {:induction false} RecordsAreExplained(
    states: seq<Entries>, ops: seq<Op>, maxEntries: int, retention: Time, n: nat, id: string) returns (k: nat)
    requires Run(states, ops, maxEntries, retention) && n < |states| && id in states[n]
    ensures StoredBy(ops, k, n, id) && Explained(ops, k, n, id, states[n][id])
  {
    var op := ops[n - 1];
    assert StepAt(states, ops, maxEntries, retention, n - 1);
    if op.Set? && op.id == id {
      k := n - 1;
      StoredNow(ops, k, id);
      hide StoredBy, Explained, Evicts;
    } else {
      OthersStay(states[n - 1], op, states[n], maxEntries, retention, id);
      hide CacheStep, Explained, StoredBy, Run;
      assert Run(states, ops, maxEntries, retention) && op == ops[n - 1];
      k := RecordsAreExplained(states, ops, maxEntries, retention, n - 1, id);
      StaysExplained(ops, k, n, id, states[n - 1][id], states[n][id]);
    }
  }

  lemma {:induction false} StoredNow(ops: seq<Op>, k: nat, id: string)
    requires k < |ops| && ops[k].Set? && ops[k].id == id
    ensures StoredBy(ops, k, k + 1, id) && Explained(ops, k, k + 1, id, ops[k].record)
  {
  }

  /** What an operation that does not store this migration does to its record. */
  ghost predicate Follows(op: Op, id: string, r: Record, r': Record) {
    r' ==
      if MarksCompleted(op, id) then r.(completion := Some(op.now), phase := op.phase)
      else if op == MarkCleanedUp(id) then r.(cleanedUp := true) else r
  }

  lemma {:induction false} OthersStay(m: Entries, op: Op, m': Entries, maxEntries: int, retention: Time, id: string)
    requires CacheStep(m, op, m', maxEntries, retention) && id in m' && !(op.Set? && op.id == id)
    ensures id in m && op != Delete(id) && Follows(op, id, m[id], m'[id])
  {
    if Evicting(m, op, maxEntries) {
      var kept :| Evicts(m, kept) && m' == kept[op.id := op.record];
      hide Evicts;
      EvictsAtMostOne(m, kept);
    }
    hide Evicts;
  }

  lemma {:induction false} StaysExplained(ops: seq<Op>, k: nat, n: nat, id: string, r: Record, r': Record)
    requires 0 < n <= |ops| && StoredBy(ops, k, n - 1, id) && Explained(ops, k, n - 1, id, r)
    requires !((ops[n - 1].Set? || ops[n - 1].Delete?) && ops[n - 1].id == id) && Follows(ops[n - 1], id, r, r')
    ensures StoredBy(ops, k, n, id) && Explained(ops, k, n, id, r')
  {
    if MarksCompleted(ops[n - 1], id) {
      assert r'.completion == Some(ops[n - 1].now);
    }
  }

  /** What happens between two states to an entry that is lost. */
  lemma {:induction false} WhyAnEntryGoes(m: Entries, op: Op, m': Entries, maxEntries: int, retention: Time, id: string)
    requires CacheStep(m, op, m', maxEntries, retention) && id in m && id !in m'
    requires Evicting(m, op, maxEntries) ==> !MisledByEmptyId(m)
    ensures op == Delete(id) || (op.Cleanup? && Expired(m[id], op.now, retention)) ||
      (Evicting(m, op, maxEntries) && if AnyCompleted(m) then OldestCompleted(m, id) else OldestStarted(m, id))
  {
    if Evicting(m, op, maxEntries) {
      var kept :| Evicts(m, kept) && m' == kept[op.id := op.record];
      hide Evicts, MisledByEmptyId;
      var gone := EvictsExactlyOne(m, kept);
    }
  }

  /** In a run, unless the empty id misleads the search, a migration that is still going leaves the cache only by being
      deleted, or when one more migration is stored in a full cache in which none is completed. */
  lemma {:induction false} RunningEntriesStay(
    states: seq<Entries>, ops: seq<Op>, maxEntries: int, retention: Time, k: nat, id: string)
    requires Run(states, ops, maxEntries, retention) && k < |ops|
    requires Evicting(states[k], ops[k], maxEntries) ==> !MisledByEmptyId(states[k])
    requires id in states[k] && !Completed(states[k], id) && id !in states[k + 1]
    ensures ops[k] == Delete(id) ||
      (Evicting(states[k], ops[k], maxEntries) && !AnyCompleted(states[k]) && OldestStarted(states[k], id))
  {
    assert StepAt(states, ops, maxEntries, retention, k);
    hide CacheStep, MisledByEmptyId;
    WhyAnEntryGoes(states[k], ops[k], states[k + 1], maxEntries, retention, id);
  }

  /** A completed migration that nobody deletes or stores over is found until its retention has passed, if the cache
      never gets full. */
  lemma {:induction false} CompletedEntriesAreRetained(
    states: seq<Entries>, ops: seq<Op>, maxEntries: int, retention: Time, k: nat, n: nat, id: string, t: Time)
    requires Run(states, ops, maxEntries, retention) && k <= n < |states|
    requires Completed(states[k], id) && states[k][id].completion == Some(t)
    requires forall j | k <= j < n :: Spares(states[j], ops[j], id, maxEntries, t + retention)
    ensures Completed(states[n], id) && states[n][id].completion == Some(t)
  {
    if k < n {
      hide CacheStep, Spares;
      CompletedEntriesAreRetained(states, ops, maxEntries, retention, k, n - 1, id, t);
      assert StepAt(states, ops, maxEntries, retention, n - 1);
      SparedEntryStays(states[n - 1], ops[n - 1], states[n], maxEntries, retention, id, t);
    }
  }

  lemma {:induction false} SparedEntryStays(
    m: Entries, op: Op, m': Entries, maxEntries: int, retention: Time, id: string, t: Time)
    requires CacheStep(m, op, m', maxEntries, retention) && Spares(m, op, id, maxEntries, t + retention)
    requires Completed(m, id) && m[id].completion == Some(t)
    ensures Completed(m', id) && m'[id].completion == Some(t)
  {
    hide Evicts;
  }

  /** The operation is not about this entry, finds room, and comes before the entry expires. */
  predicate Spares(m: Entries, op: Op, id: string, maxEntries: int, expiry: Time) {
    match op
    case Set(other, _) => other != id && (|m| < maxEntries || other in m)
    case Delete(other) => other != id
    case MarkCompleted(other, _, _) => other != id
    case MarkCleanedUp(_) => true
    case Cleanup(now) => now <= expiry
  }
}

/** The cache as the object that the operations update in place. */
module MigrationCache {
  import opened Common
  import opened CacheMachine

  class MigrationCacheEntry {
    const migrationID: string
    var start: Time
    var completion: Option<Time>
    var cleanedUp: bool
    var phase: string

    constructor (id: string, r: Record)
      ensures migrationID == id && View() == r
    {
      migrationID, start, completion, cleanedUp, phase := id, r.start, r.completion, r.cleanedUp, r.phase;
    }

    function View(): Record
      reads this
    {
      Record(start, completion, cleanedUp, phase)
    }
  }

  class MigrationCache {
    const retention: Time
    const maxEntries: int
    var entries: map<string, MigrationCacheEntry>

    constructor (retention: Time, maxEntries: int)
      ensures this.retention == retention && this.maxEntries == maxEntries && entries == map[]
    {
      this.retention, this.maxEntries, entries := retention, maxEntries, map[];
    }

    /** Every entry is kept under its own id. */
    ghost predicate Valid()
      reads this
    {
      forall id | id in entries :: entries[id].migrationID == id
    }

    ghost function View(): (m: Entries)
      reads this, entries.Values
      ensures m.Keys == entries.Keys
    {
      map id | id in entries :: entries[id].View()
    }

    method Put(entry: MigrationCacheEntry)
      requires Valid()
      modifies this
      ensures Valid() && View() == old(View())[entry.migrationID := entry.View()]
    {
      entries := entries[entry.migrationID := entry];
    }

    method Drop(id: string)
      requires Valid()
      modifies this
      ensures Valid() && View() == old(View()) - {id}
    {
      entries := entries - {id};
    }

    method Set(entry: MigrationCacheEntry)
      requires Valid()
      modifies this
      ensures Valid()
      ensures CacheStep(old(View()), Op.Set(entry.migrationID, entry.View()), View(), maxEntries, retention)
    {
      hide Evicts, View;
      assert |View()| == |entries| by { CardinalityOf(View()); assert |entries| == |entries.Keys|; }
      if |entries| >= maxEntries && entry.migrationID !in entries {
        EvictOldest();
      }
      Put(entry);
    }

    method Delete(id: string)
      requires Valid()
      modifies this
      ensures Valid() && CacheStep(old(View()), Op.Delete(id), View(), maxEntries, retention)
    {
      Drop(id);
    }

    method MarkCompleted(id: string, phase: string, now: Time)
      requires Valid()
      modifies entries.Values
      ensures Valid() && CacheStep(old(View()), Op.MarkCompleted(id, phase, now), View(), maxEntries, retention)
    {
      if id in entries {
        var entry := entries[id];
        entry.completion := Some(now);
        entry.phase := phase;
      }
    }

    method MarkCleanedUp(id: string)
      requires Valid()
      modifies entries.Values
      ensures Valid() && CacheStep(old(View()), Op.MarkCleanedUp(id), View(), maxEntries, retention)
    {
      if id in entries {
        entries[id].cleanedUp := true;
      }
    }

    /** The range loop of cleanup, in whatever order the ids come, with deletions on the way. */
    method Cleanup(now: Time)
      requires Valid()
      modifies this
      ensures Valid() && CacheStep(old(View()), Op.Cleanup(now), View(), maxEntries, retention)
    {
      hide View, Swept, Expired;
      ghost var was := View();
      SweptEnds(was, now, retention);
      var left := entries.Keys;
      while left != {}
        invariant Valid() && left <= was.Keys && View() == Swept(was, left, now, retention)
        decreases |left|
      {
        var id :| id in left;
        SweepOne(was, left, id, now, retention);
        SameRecord(id);
        left := left - {id};
        var expired := IsExpired(entries[id], now);
        if expired {
          Drop(id);
        }
      }
    }

    /** The check that the loop makes of one entry. */
    method IsExpired(entry: MigrationCacheEntry, now: Time) returns (expired: bool)
      ensures expired == Expired(entry.View(), now, retention)
    {
      if entry.completion.None? {
        return false;
      }
      var expirationTime := entry.completion.value + retention;
      expired := now > expirationTime;
    }

    lemma {:induction false} SameRecord(id: string)
      requires id in entries
      ensures View()[id] == entries[id].View()
    {
    }

    /** The first loop of evictOldest: the completed entry with the least completion time. */
    method FindOldestCompleted() returns (oldestID: string, oldestTime: Option<Time>)
      requires Valid()
      ensures if AnyCompleted(View()) then
          OldestCompleted(View(), oldestID) && oldestTime == View()[oldestID].completion
        else oldestID == "" && oldestTime == None
    {
      oldestID, oldestTime := "", None;
      var left := entries.Keys;
      while left != {}
        invariant left <= entries.Keys
        invariant oldestTime.None? ==> oldestID == "" && forall id | id in entries.Keys - left :: !Completed(View(), id)
        invariant oldestTime.Some? ==> Completed(View(), oldestID) && View()[oldestID].completion == oldestTime
        invariant oldestTime.Some? ==>
          forall id | id in entries.Keys - left && Completed(View(), id) ::
            oldestTime.value <= View()[id].completion.value
        decreases |left|
      {
        var id :| id in left;
        left := left - {id};
        var entry := entries[id];
        if entry.completion.Some? {
          if oldestTime.None? || entry.completion.value < oldestTime.value {
            oldestTime, oldestID := entry.completion, id;
          }
        }
      }
    }

    /** The second loop: the entry with the least start time, looked for below the time that is given, if any. */
    method FindOldestStarted(time: Option<Time>) returns (oldestID: string)
      requires Valid()
      ensures var m := View();
        if m == map[] || (time.Some? && forall id | id in m :: m[id].start >= time.value) then oldestID == ""
        else OldestStarted(m, oldestID)
    {
      var oldestTime := time;
      oldestID := "";
      var found := false;
      var left := entries.Keys;
      while left != {}
        invariant left <= entries.Keys
        invariant !found ==> oldestID == "" && oldestTime == time
        invariant !found ==> forall id | id in entries.Keys - left :: time.Some? && entries[id].start >= time.value
        invariant found ==> oldestTime.Some? && oldestID in entries && entries[oldestID].start == oldestTime.value
        invariant found && time.Some? ==> oldestTime.value < time.value
        invariant found ==> forall id | id in entries.Keys - left :: oldestTime.value <= entries[id].start
        decreases |left|
      {
        var id :| id in left;
        left := left - {id};
        var entry := entries[id];
        if oldestTime.None? || entry.start < oldestTime.value {
          oldestTime, oldestID, found := Some(entry.start), id, true;
        }
      }
      assert forall id | id in entries :: View()[id].start == entries[id].start;
    }

    method EvictOldest()
      requires Valid()
      modifies this
      ensures Valid() && Evicts(old(View()), View())
    {
      hide View;
      ghost var m := View();
      var oldestID, oldestTime := FindOldestCompleted();
      if oldestID != "" {
        Drop(oldestID);
      } else {
        oldestID := FindOldestStarted(oldestTime);
        if oldestID != "" {
          Drop(oldestID);
        }
        assert View() == Without(m, oldestID);
      }
    }

    ghost predicate Pending(id: string)
      reads this, entries.Values
    {
      id in entries && entries[id].completion.Some? && !entries[id].cleanedUp
    }

    ghost function CompletedAmong(ids: set<string>): set<string>
      reads this, entries.Values
    {
      set id | id in ids && id in entries && entries[id].completion.Some?
    }

    ghost function PendingAmong(ids: set<string>): set<string>
      reads this, entries.Values
    {
      set id | id in ids && Pending(id)
    }

    lemma {:induction false} OneMore(ids: set<string>, id: string)
      requires id !in ids && id in entries
      ensures |CompletedAmong(ids + {id})| == |CompletedAmong(ids)| + if entries[id].completion.Some? then 1 else 0
      ensures |PendingAmong(ids + {id})| == |PendingAmong(ids)| + if Pending(id) then 1 else 0
    {
      assert CompletedAmong(ids + {id}) ==
        if entries[id].completion.Some? then CompletedAmong(ids) + {id} else CompletedAmong(ids);
      assert PendingAmong(ids + {id}) == if Pending(id) then PendingAmong(ids) + {id} else PendingAmong(ids);
    }

    /** Exactly the entries that are completed and not cleaned up, each once. */
    method GetPendingCleanup() returns (pending: seq<MigrationCacheEntry>)
      requires Valid()
      ensures forall e :: e in pending <==> exists id | Pending(id) :: entries[id] == e
      ensures forall i, j | 0 <= i < j < |pending| :: pending[i] != pending[j]
      ensures |pending| == |PendingAmong(entries.Keys)|
    {
      hide CompletedAmong, PendingAmong;
      NoneYet();
      pending := [];
      var left := entries.Keys;
      ghost var seen: set<string> := {};
      while left != {}
        invariant left <= entries.Keys && seen == entries.Keys - left
        invariant forall e | e in pending ::
          e.migrationID in seen && entries[e.migrationID] == e && Pending(e.migrationID)
        invariant forall id | id in seen && Pending(id) :: entries[id] in pending
        invariant forall i, j | 0 <= i < j < |pending| :: pending[i] != pending[j]
        invariant |pending| == |PendingAmong(seen)|
        decreases |left|
      {
        var id :| id in left;
        OneMore(seen, id);
        left, seen := left - {id}, seen + {id};
        var entry := entries[id];
        if entry.completion.Some? && !entry.cleanedUp {
          pending := pending + [entry];
        }
      }
      assert seen == entries.Keys;
    }

    /** The counts that Stats reports: they add up, and the last is the length of GetPendingCleanup's answer. */
    method Stats() returns (running: nat, completed: nat, pendingCleanup: nat)
      requires Valid()
      ensures running + completed == |entries|
      ensures completed == |CompletedAmong(entries.Keys)|
      ensures pendingCleanup == |PendingAmong(entries.Keys)|
    {
      hide CompletedAmong, PendingAmong, Valid;
      running, completed, pendingCleanup := 0, 0, 0;
      var left := entries.Keys;
      ghost var seen: set<string> := {};
      NoneYet();
      while left != {}
        invariant left <= entries.Keys && seen == entries.Keys - left
        invariant running + completed == |seen|
        invariant completed == |CompletedAmong(seen)| && pendingCleanup == |PendingAmong(seen)|
        decreases |left|
      {
        var id :| id in left;
        OneMore(seen, id);
        left, seen := left - {id}, seen + {id};
        var entry := entries[id];
        if entry.completion.None? {
          running := running + 1;
        } else {
          completed := completed + 1;
          if !entry.cleanedUp {
            pendingCleanup := pendingCleanup + 1;
          }
        }
      }
      assert seen == entries.Keys && |entries| == |entries.Keys|;
    }

    lemma {:induction false} NoneYet()
      ensures CompletedAmong({}) == {} && PendingAmong({}) == {}
    {
    }
  }
}
