/** Values shared by the controllers: optional values, counting, migration resources and their status entries. */
module Common {

  datatype Option<+T> = None | Some(value: T)

  /** Points in time and durations are nanoseconds. */
  type Time = int

  const SECOND: int := 1_000_000_000

  function Last<T>(s: seq<T>): T
    requires s != []
  {
    s[|s| - 1]
  }

  function Min(a: int, b: int): int {
    if a <= b then a else b
  }

  lemma {:induction false} TimesMonotone(a: int, b: int, p: int)
    requires a <= b && p >= 1
    ensures a * p <= b * p
  {
  }

  /** The number of elements of s that satisfy p. */
  function Count<T>(s: seq<T>, p: T -> bool): nat {
    if s == [] then 0 else Count(s[..|s| - 1], p) + if p(Last(s)) then 1 else 0
  }

  lemma CountAppend<T>(s: seq<T>, x: T, p: T -> bool)
    ensures Count(s + [x], p) == Count(s, p) + if p(x) then 1 else 0
  {
    assert (s + [x])[..|s|] == s;
  }

  /** The count after one element has been replaced. */
  function CountAfter<T>(s: seq<T>, i: nat, x: T, p: T -> bool): int
    requires i < |s|
  {
    Count(s, p) - (if p(s[i]) then 1 else 0) + if p(x) then 1 else 0
  }

  lemma {:induction false} CountUpdate<T>(s: seq<T>, i: nat, x: T, p: T -> bool)
    requires i < |s|
    ensures Count(s[i := x], p) == CountAfter(s, i, x, p)
  {
    var n := |s| - 1;
    if i == n {
      assert s[i := x][..n] == s[..n];
    } else {
      assert s[i := x][..n] == s[..n][i := x];
      CountUpdate(s[..n], i, x, p);
    }
  }

  lemma {:induction false} CountAtMost<T>(s: seq<T>, p: T -> bool)
    ensures Count(s, p) <= |s|
    ensures Count(s, p) == 0 <==> forall i | 0 <= i < |s| :: !p(s[i])
    ensures Count(s, p) == |s| <==> forall i | 0 <= i < |s| :: p(s[i])
  {
    if s != [] {
      CountAtMost(s[..|s| - 1], p);
    }
  }

  lemma {:induction false} CountDisjoint<T>(s: seq<T>, p: T -> bool, q: T -> bool)
    requires forall i | 0 <= i < |s| :: !(p(s[i]) && q(s[i]))
    ensures Count(s, p) + Count(s, q) <= |s|
    ensures Count(s, p) + Count(s, q) == |s| <==> forall i | 0 <= i < |s| :: p(s[i]) || q(s[i])
  {
    if s != [] {
      CountDisjoint(s[..|s| - 1], p, q);
    }
  }

  /** The first index at or after `from` whose element satisfies p, or the length. */
  function FirstFrom<T>(s: seq<T>, p: T -> bool, from: nat): (i: nat)
    requires from <= |s|
    ensures from <= i <= |s|
    ensures i < |s| ==> p(s[i])
    ensures forall j | from <= j < i :: !p(s[j])
    decreases |s| - from
  {
    if from == |s| || p(s[from]) then from else FirstFrom(s, p, from + 1)
  }

  lemma {:induction false} Associate<T>(a: seq<T>, b: seq<T>, c: seq<T>)
    ensures a + b + c == a + (b + c)
  {
  }

  /** Pairwise distinct elements. */
  ghost predicate Distinct<T>(s: seq<T>) {
    forall i, j | 0 <= i < j < |s| :: s[i] != s[j]
  }

  /** A sequence without repetition is no longer than any set that holds its elements. */
  lemma {:induction false} DistinctFits<T>(s: seq<T>, bound: set<T>)
    requires Distinct(s)
    requires forall i | 0 <= i < |s| :: s[i] in bound
    ensures |s| <= |bound|
  {
    if s != [] {
      DistinctFits(s[..|s| - 1], bound - {Last(s)});
    }
  }

  /** The set of a sequence's elements is no larger than the sequence. */
  lemma {:induction false} ElementsFit<T>(s: seq<T>)
    ensures |set x | x in s| <= |s|
  {
    if s != [] {
      var init := s[..|s| - 1];
      ElementsFit(init);
      assert (set x | x in s) == (set x | x in init) + {Last(s)};
    }
  }
}

/** Resources named by a migration spec, and the status entries kept for them. */
module Resources {
  import opened Common

  datatype ResourceState =
    ResPending | ResValidating | ResRunning | ResCompleted | ResFailed | ResSkipped | ResPaused

  datatype Resource = Resource(id: string, kind: string, source: string, target: string)

  datatype Entry = Entry(
    id: string, kind: string, source: string, target: string,
    state: ResourceState, progress: int, error: string, completionTime: Option<Time>)

  predicate IsCompleted(e: Entry) { e.state == ResCompleted }

  predicate IsFailed(e: Entry) { e.state == ResFailed }

  /** A settled entry is never worked on again. */
  predicate IsSettled(e: Entry) { IsCompleted(e) || IsFailed(e) }

  /** The first entry with the given source name, or the number of entries if there is none. */
  function FirstBySource(entries: seq<Entry>, name: string): (i: nat)
    ensures i <= |entries|
    ensures i < |entries| ==> entries[i].source == name
    ensures forall j | 0 <= j < i :: entries[j].source != name
  {
    if entries == [] || entries[0].source == name then 0 else 1 + FirstBySource(entries[1..], name)
  }

  predicate SettledByName(entries: seq<Entry>, name: string) {
    var i := FirstBySource(entries, name);
    i < |entries| && IsSettled(entries[i])
  }

  /** Replace the first entry that has e's source name, or append e. */
  function PutEntry(entries: seq<Entry>, e: Entry): seq<Entry> {
    var i := FirstBySource(entries, e.source);
    if i < |entries| then entries[i := e] else entries + [e]
  }

  lemma FirstBySourceIs(entries: seq<Entry>, name: string, i: nat)
    requires i <= |entries|
    requires i < |entries| ==> entries[i].source == name
    requires forall j | 0 <= j < i :: entries[j].source != name
    ensures FirstBySource(entries, name) == i
  {
  }
}
