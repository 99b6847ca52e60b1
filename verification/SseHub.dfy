/** The SSE hub: clients are kept by id, a slow client misses events, and only its handler's departure closes a
    channel. */
module SseHub {
  import opened Common
  import opened Broadcasts

  const CAPACITY := 10

  // ---------- what the loop does ----------

  datatype Channel = Channel(closed: bool, received: seq<string>, pending: seq<string>) {
    function Queued(): seq<string> {
      received + pending
    }
  }

  const EMPTY := Channel(false, [], [])

  datatype Step<C> = Register(client: C) | Unregister(client: C) | Broadcast(event: string) | Receive(client: C)

  /** The client map after a run: the last registration of an id wins, and any departure under an id removes it. */
  function Members<C(==)>(id: C -> string, steps: seq<Step<C>>): map<string, C> {
    if steps == [] then map[] else MembersAfter(id, Members(id, steps[..|steps| - 1]), Last(steps))
  }

  function MembersAfter<C(==)>(id: C -> string, members: map<string, C>, s: Step<C>): map<string, C> {
    match s
    case Register(d) => members[id(d) := d]
    case Unregister(d) => members - {id(d)}
    case Broadcast(_) => members
    case Receive(_) => members
  }

  predicate Serves<C(==)>(id: C -> string, members: map<string, C>, c: C) {
    id(c) in members && members[id(c)] == c
  }

  function ChannelStep<C(==)>(id: C -> string, c: C, members: map<string, C>, k: Channel, s: Step<C>): Channel {
    match s
    case Register(_) => k
    case Unregister(d) => if d == c && id(c) in members then k.(closed := true) else k
    case Broadcast(event) =>
      if Serves(id, members, c) && |k.pending| < CAPACITY then k.(pending := k.pending + [event]) else k
    case Receive(d) =>
      if d == c && k.pending != [] then k.(received := k.received + [k.pending[0]], pending := k.pending[1..]) else k
  }

  /** The step sends on the client's channel, or closes it, when it is closed already. */
  predicate Panics<C(==)>(id: C -> string, c: C, members: map<string, C>, k: Channel, s: Step<C>) {
    match s
    case Register(_) => false
    case Unregister(d) => d == c && id(c) in members && k.closed
    case Broadcast(_) => Serves(id, members, c) && k.closed
    case Receive(_) => false
  }

  function After<C(==)>(id: C -> string, c: C, steps: seq<Step<C>>): Channel {
    if steps == [] then EMPTY
    else
      var before := steps[..|steps| - 1];
      ChannelStep(id, c, Members(id, before), After(id, c, before), Last(steps))
  }

  function MessageOf<C>(s: Step<C>): Option<string> {
    if s.Broadcast? then Some(s.event) else None
  }

  predicate Registers<C(==)>(c: C, s: Step<C>) {
    s.Register? && s.client == c
  }

  predicate Leaves<C(==)>(c: C, s: Step<C>) {
    s.Unregister? && s.client == c
  }

  /** What a handler does by deferring its departure: the client leaves at most once, and then for good. */
  ghost predicate LeavesForGood<C>(c: C, steps: seq<Step<C>>) {
    forall i, j | 0 <= i < j < |steps| :: Leaves(c, steps[i]) ==> !Leaves(c, steps[j]) && !Registers(c, steps[j])
  }

  // ---------- safety ----------

  lemma {:induction false} ClosedHasLeft<C>(id: C -> string, c: C, steps: seq<Step<C>>)
    requires LeavesForGood(c, steps)
    ensures After(id, c, steps).closed ==>
      !Serves(id, Members(id, steps), c) && exists i | 0 <= i < |steps| :: Leaves(c, steps[i])
    ensures |After(id, c, steps).pending| <= CAPACITY
  {
    if steps != [] {
      var n := |steps| - 1;
      ClosedHasLeft(id, c, steps[..n]);
      if After(id, c, steps[..n]).closed {
        var i :| 0 <= i < n && Leaves(c, steps[..n][i]);
        assert Leaves(c, steps[i]);
      } else {
        assert Leaves(c, steps[n]) || !After(id, c, steps).closed;
      }
    }
  }

  /** A client that leaves for good is served safely for ever, even if its id is another client's too. */
  lemma {:induction false} NeverPanics<C>(id: C -> string, c: C, steps: seq<Step<C>>, n: nat)
    requires LeavesForGood(c, steps) && n < |steps|
    ensures !Panics(id, c, Members(id, steps[..n]), After(id, c, steps[..n]), steps[n])
    ensures |After(id, c, steps[..n]).pending| <= CAPACITY
  {
    ClosedHasLeft(id, c, steps[..n]);
  }

  // ---------- what a client is queued ----------

  predicate Subsequence(a: seq<string>, b: seq<string>) {
    a == [] ||
    (b != [] &&
      ((Last(a) == Last(b) && Subsequence(a[..|a| - 1], b[..|b| - 1])) || Subsequence(a, b[..|b| - 1])))
  }

  lemma {:induction false} SubsequenceExtends(a: seq<string>, b: seq<string>, x: string)
    requires Subsequence(a, b)
    ensures Subsequence(a, b + [x]) && Subsequence(a + [x], b + [x])
  {
    assert (b + [x])[..|b|] == b && (a + [x])[..|a|] == a;
  }

  /** A broadcast is queued for a client that is served and has room, and nothing else changes what has been queued. */
  lemma {:induction false} QueueStep<C>(id: C -> string, c: C, members: map<string, C>, k: Channel, s: Step<C>)
    ensures ChannelStep(id, c, members, k, s).Queued() ==
      if s.Broadcast? && Serves(id, members, c) && |k.pending| < CAPACITY then k.Queued() + [s.event] else k.Queued()
  {
    if s.Receive? && k.pending != [] {
      assert k.received + [k.pending[0]] + k.pending[1..] == k.Queued();
    }
  }

  lemma {:induction false} UnregisteredIsUnserved<C>(id: C -> string, c: C, steps: seq<Step<C>>)
    requires forall i | 0 <= i < |steps| :: !Registers(c, steps[i])
    ensures !Serves(id, Members(id, steps), c) && After(id, c, steps).Queued() == []
  {
    if steps != [] {
      var before := steps[..|steps| - 1];
      UnregisteredIsUnserved(id, c, before);
      QueueStep(id, c, Members(id, before), After(id, c, before), Last(steps));
    }
  }

  lemma {:induction false} QueueAfter<C>(id: C -> string, c: C, steps: seq<Step<C>>)
    requires steps != []
    ensures var before := steps[..|steps| - 1];
      After(id, c, steps).Queued() ==
        if Last(steps).Broadcast? && Serves(id, Members(id, before), c) && |After(id, c, before).pending| < CAPACITY
        then After(id, c, before).Queued() + [Last(steps).event] else After(id, c, before).Queued()
  {
    var before := steps[..|steps| - 1];
    QueueStep(id, c, Members(id, before), After(id, c, before), Last(steps));
  }

  /** From before its first registration on, a client is queued a subsequence of the broadcasts. */
  lemma {:induction false} SubsequenceOfBroadcasts<C>(id: C -> string, c: C, steps: seq<Step<C>>, r: nat)
    requires r <= |steps| && forall i | 0 <= i < r :: !Registers(c, steps[i])
    ensures Subsequence(After(id, c, steps).Queued(), Messages(steps[r..], MessageOf<C>))
  {
    if r == |steps| {
      UnregisteredIsUnserved(id, c, steps);
    } else {
      hide After, Members, Messages, Subsequence;
      var before := steps[..|steps| - 1];
      SubsequenceOfBroadcasts(id, c, before, r);
      LaterMessages(steps, MessageOf<C>, r);
      QueueAfter(id, c, steps);
      if Last(steps).Broadcast? {
        SubsequenceExtends(After(id, c, before).Queued(), Messages(before[r..], MessageOf<C>), Last(steps).event);
      }
    }
  }

  predicate Touches<C>(id: C -> string, name: string, s: Step<C>) {
    (s.Register? || s.Unregister?) && id(s.client) == name
  }

  /** A client is served if and only if the last step that touched its id was its own registration. */
  lemma {:induction false} ServedIffLastTouch<C>(id: C -> string, c: C, steps: seq<Step<C>>)
    ensures Serves(id, Members(id, steps), c) <==>
      exists r | 0 <= r < |steps| ::
        Registers(c, steps[r]) && forall i | r < i < |steps| :: !Touches(id, id(c), steps[i])
  {
    if steps != [] {
      var n := |steps| - 1;
      ServedIffLastTouch(id, c, steps[..n]);
      if Touches(id, id(c), steps[n]) {
        assert Registers(c, steps[n]) ==> Serves(id, Members(id, steps), c);
      } else if Serves(id, Members(id, steps[..n]), c) {
        var r :| 0 <= r < n && Registers(c, steps[..n][r]) &&
          forall i | r < i < n :: !Touches(id, id(c), steps[..n][i]);
        assert Registers(c, steps[r]);
      }
    }
  }

  /** The client's channel is full when this step broadcasts. */
  predicate MissesAt<C(==)>(id: C -> string, c: C, steps: seq<Step<C>>, i: nat)
    requires i < |steps|
  {
    steps[i].Broadcast? && |After(id, c, steps[..i]).pending| >= CAPACITY
  }

  ghost predicate MissesAfter<C>(id: C -> string, c: C, steps: seq<Step<C>>, r: nat) {
    exists i | r < i < |steps| :: MissesAt(id, c, steps, i)
  }

  lemma {:induction false} MissesBefore<C>(id: C -> string, c: C, steps: seq<Step<C>>, i: nat)
    requires i < |steps| - 1
    ensures MissesAt(id, c, steps[..|steps| - 1], i) == MissesAt(id, c, steps, i)
  {
    hide After;
    assert steps[..|steps| - 1][..i] == steps[..i];
  }

  lemma {:induction false} MissesStep<C>(id: C -> string, c: C, steps: seq<Step<C>>, r: nat)
    requires r < |steps| - 1
    ensures MissesAfter(id, c, steps, r) <==>
      MissesAfter(id, c, steps[..|steps| - 1], r) || MissesAt(id, c, steps, |steps| - 1)
  {
    hide MissesAt;
    var before := steps[..|steps| - 1];
    if MissesAfter(id, c, steps, r) {
      var i :| r < i < |steps| && MissesAt(id, c, steps, i);
      if i < |before| {
        MissesBefore(id, c, steps, i);
      }
    }
    if MissesAfter(id, c, before, r) {
      var i :| r < i < |before| && MissesAt(id, c, before, i);
      MissesBefore(id, c, steps, i);
    }
  }

  /** Registered at step r, and no step after it touches the client's id. */
  ghost predicate LeftAlone<C>(id: C -> string, c: C, steps: seq<Step<C>>, r: nat) {
    r < |steps| && Registers(c, steps[r]) && forall i | r < i < |steps| :: !Touches(id, id(c), steps[i])
  }

  lemma {:induction false} LeftAloneIsServed<C>(id: C -> string, c: C, steps: seq<Step<C>>, r: nat)
    requires LeftAlone(id, c, steps, r) && r < |steps| - 1
    ensures var before := steps[..|steps| - 1];
      LeftAlone(id, c, before, r) && Serves(id, Members(id, before), c) && before[..r] == steps[..r]
  {
    ServedIffLastTouch(id, c, steps[..|steps| - 1]);
    assert Registers(c, steps[..|steps| - 1][r]);
  }

  /** Left alone under its id, a client is queued every broadcast since its registration if and only if its channel is
      never full at one. */
  lemma {:induction false} CompleteIffNeverFull<C>(id: C -> string, c: C, steps: seq<Step<C>>, r: nat)
    requires LeftAlone(id, c, steps, r)
    ensures var since := After(id, c, steps[..r]).Queued() + Messages(steps[r + 1..], MessageOf<C>);
      var queued := After(id, c, steps).Queued();
      |queued| <= |since| && (queued == since <==> !MissesAfter(id, c, steps, r))
  {
    var n := |steps| - 1;
    if r == n {
      QueueAfter(id, c, steps);
      assert steps[r + 1..] == [];
    } else {
      LeftAloneIsServed(id, c, steps, r);
      hide Members, MissesAfter, Messages, After, LeftAlone, Serves;
      CompleteIffNeverFull(id, c, steps[..n], r);
      StaysComplete(id, c, steps, r);
    }
  }

  lemma {:induction false} StaysComplete<C>(id: C -> string, c: C, steps: seq<Step<C>>, r: nat)
    requires r < |steps| - 1 && Serves(id, Members(id, steps[..|steps| - 1]), c)
    requires var before := steps[..|steps| - 1];
      var since := After(id, c, steps[..r]).Queued() + Messages(before[r + 1..], MessageOf<C>);
      var queued := After(id, c, before).Queued();
      |queued| <= |since| && (queued == since <==> !MissesAfter(id, c, before, r))
    ensures var since := After(id, c, steps[..r]).Queued() + Messages(steps[r + 1..], MessageOf<C>);
      var queued := After(id, c, steps).Queued();
      |queued| <= |since| && (queued == since <==> !MissesAfter(id, c, steps, r))
  {
    var n := |steps| - 1;
    var before := steps[..n];
    var k := After(id, c, before);
    QueueAfter(id, c, steps);
    MissesStep(id, c, steps, r);
    LaterMessages(steps, MessageOf<C>, r + 1);
    OneMore(k.Queued(), After(id, c, steps).Queued(), After(id, c, steps[..r]).Queued(),
            Messages(before[r + 1..], MessageOf<C>), Messages(steps[r + 1..], MessageOf<C>), MessageOf(steps[n]),
            |k.pending| < CAPACITY);
  }

  lemma {:induction false} OneMore(
    queued: seq<string>, queued': seq<string>, first: seq<string>, later: seq<string>, later': seq<string>,
    e: Option<string>, took: bool)
    requires queued' == (if e.Some? && took then queued + [e.value] else queued) && |queued| <= |first + later|
    requires later' == if e.Some? then later + [e.value] else later
    ensures |queued'| <= |first + later'|
    ensures queued' == first + later' <==> queued == first + later && (e.Some? ==> took)
  {
    if e.Some? {
      assert first + later' == first + later + [e.value];
      if took && queued' == first + later + [e.value] {
        assert queued == queued'[..|queued|] == first + later;
      }
    }
  }

  // ---------- departures ----------

  /** Before step i the id is taken: step r has registered a client under it, and nothing has touched it since. */
  ghost predicate TakenSince<C>(id: C -> string, name: string, steps: seq<Step<C>>, i: nat, r: nat) {
    r < i <= |steps| && steps[r].Register? && id(steps[r].client) == name &&
    forall j | r < j < i :: !Touches(id, name, steps[j])
  }

  lemma {:induction false} TakenIff<C>(id: C -> string, name: string, steps: seq<Step<C>>)
    ensures name in Members(id, steps) <==> exists r: nat :: TakenSince(id, name, steps, |steps|, r)
  {
    if steps != [] {
      var n := |steps| - 1;
      var s := steps[n];
      TakenIff(id, name, steps[..n]);
      if Touches(id, name, s) {
        assert s.Register? ==> TakenSince(id, name, steps, |steps|, n);
      } else {
        forall r: nat
          ensures TakenSince(id, name, steps, |steps|, r) <==> TakenSince(id, name, steps[..n], n, r)
        {
          if r < n {
            assert steps[..n][r] == steps[r];
            assert forall j | r < j < n :: steps[..n][j] == steps[j];
          }
        }
        hide TakenSince;
      }
    }
  }

  /** Step i is a departure of the client, at a time when its id is taken. */
  ghost predicate DepartsAt<C>(id: C -> string, c: C, steps: seq<Step<C>>, i: nat) {
    i < |steps| && Leaves(c, steps[i]) && exists r: nat :: TakenSince(id, id(c), steps, i, r)
  }

  /** A client's channel is closed if and only if the client has left while its id was taken, whoever had taken it. */
  lemma {:induction false} ClosedIffLeft<C>(id: C -> string, c: C, steps: seq<Step<C>>)
    ensures After(id, c, steps).closed <==> exists i: nat :: DepartsAt(id, c, steps, i)
  {
    if steps != [] {
      var n := |steps| - 1;
      ClosedIffLeft(id, c, steps[..n]);
      TakenIff(id, id(c), steps[..n]);
      assert |steps[..n]| == n;
      forall i: nat, r: nat | i <= n
        ensures TakenSince(id, id(c), steps, i, r) <==> TakenSince(id, id(c), steps[..n], i, r)
      {
        if r < i {
          assert steps[..n][r] == steps[r];
          assert forall j | r < j < i :: steps[..n][j] == steps[j];
        }
      }
      hide TakenSince;
      forall i: nat | i < n ensures DepartsAt(id, c, steps, i) <==> DepartsAt(id, c, steps[..n], i) {
        assert steps[..n][i] == steps[i];
      }
      assert DepartsAt(id, c, steps, n) <==> Leaves(c, steps[n]) && id(c) in Members(id, steps[..n]);
      hide DepartsAt;
    }
  }

  /** The departure of a client that is served closes its channel and ends its service, and unless it registers again,
      nothing is ever queued for it. */
  lemma {:induction false} DepartureIsFinal<C>(id: C -> string, c: C, steps: seq<Step<C>>, u: nat)
    requires u < |steps| && Leaves(c, steps[u]) && Serves(id, Members(id, steps[..u]), c)
    requires forall i | u < i < |steps| :: !Registers(c, steps[i])
    ensures After(id, c, steps).closed && !Serves(id, Members(id, steps), c) &&
      After(id, c, steps).Queued() == After(id, c, steps[..u]).Queued()
  {
    var n := |steps| - 1;
    QueueAfter(id, c, steps);
    if u < n {
      assert steps[..n][..u] == steps[..u];
      DepartureIsFinal(id, c, steps[..n], u);
    }
  }

  lemma {:induction false} OneMoreTaken(k: Channel, m: nat)
    ensures m < |k.pending| ==>
      k.received + k.pending[..m] + [k.pending[m..][0]] == k.received + k.pending[..m + 1] &&
      k.pending[m..][1..] == k.pending[m + 1..]
  {
    if m < |k.pending| {
      assert k.pending[..m + 1] == k.pending[..m] + [k.pending[m]];
    }
  }

  /** m turns in which the client takes what waits for it give it the first m of what waits, or all of it. */
  lemma {:induction false} ReceivesInOrder<C>(id: C -> string, c: C, steps: seq<Step<C>>, turns: seq<Step<C>>)
    requires forall i | 0 <= i < |turns| :: turns[i] == Step.Receive(c)
    ensures var k, k' := After(id, c, steps), After(id, c, steps + turns); var m := Min(|turns|, |k.pending|);
      k'.received == k.received + k.pending[..m] && k'.pending == k.pending[m..] && k'.closed == k.closed &&
      Members(id, steps + turns) == Members(id, steps)
  {
    var all := steps + turns;
    if turns == [] {
      assert all == steps;
    } else {
      var before := turns[..|turns| - 1];
      assert all[..|all| - 1] == steps + before && Last(all) == turns[|before|] == Step.Receive(c);
      assert After(id, c, all) ==
        ChannelStep(id, c, Members(id, steps + before), After(id, c, steps + before), Step.Receive(c));
      assert Members(id, all) == Members(id, steps + before);
      hide After, Members;
      ReceivesInOrder(id, c, steps, before);
      OneMoreTaken(After(id, c, steps), |before|);
    }
  }

  /** Two clients that share an id: the departure of the first silences the second, whose channel stays open. */
  lemma {:induction false} SharedIdSilences<C>(id: C -> string, a: C, b: C, events: seq<string>)
    requires a != b && id(a) == id(b)
    ensures After(id, b, [Step.Register(a), Step.Register(b), Step.Unregister(a)] + Announced(events)) == EMPTY
  {
    var start := [Step.Register(a), Step.Register(b), Step.Unregister(a)];
    if events == [] {
      assert start + Announced<C>(events) == start;
      assert start[..2] == [Step.Register(a), Step.Register(b)] && start[..2][..1] == [Step.Register(a)];
      assert After(id, b, start[..2][..1]) == EMPTY;
      assert After(id, b, start[..2]) == EMPTY;
    } else {
      var before := start + Announced(events[..|events| - 1]);
      SharedIdSilences(id, a, b, events[..|events| - 1]);
      assert (start + Announced(events))[..|before|] == before;
      ServedIffLastTouch(id, b, before);
      assert Touches(id, id(b), before[2]);
    }
  }

  function Announced<C>(events: seq<string>): seq<Step<C>> {
    seq(|events|, i requires 0 <= i < |events| => Step.Broadcast(events[i]))
  }

  lemma {:induction false} ServedOnceRegistered<C>(id: C -> string, c: C, events: seq<string>)
    ensures Serves(id, Members(id, [Step.Register(c)] + Announced(events)), c)
  {
    var steps := [Step.Register(c)] + Announced<C>(events);
    ServedIffLastTouch(id, c, steps);
    assert Registers(c, steps[0]);
    hide Members, Serves;
  }

  lemma {:induction false} QueuesOne<C>(id: C -> string, c: C, steps: seq<Step<C>>, event: string)
    requires Serves(id, Members(id, steps), c)
    ensures var k := After(id, c, steps);
      After(id, c, steps + [Step.Broadcast(event)]) ==
        if |k.pending| < 10 then k.(pending := k.pending + [event]) else k
  {
    assert (steps + [Step.Broadcast(event)])[..|steps|] == steps;
  }

  /** A client that does not receive is queued the first ten events after its registration, and no more. */
  lemma {:induction false} OnlyTenAreQueued<C>(id: C -> string, c: C, events: seq<string>)
    ensures After(id, c, [Step.Register(c)] + Announced(events)) ==
      Channel(false, [], if |events| <= 10 then events else events[..10])
  {
    var steps := [Step.Register(c)] + Announced<C>(events);
    if events == [] {
      assert steps == [Step.Register(c)];
    } else {
      var init, event := events[..|events| - 1], Last(events);
      assert Announced<C>(events) == Announced(init) + [Step.Broadcast(event)];
      hide After, Members, Serves, Announced;
      OnlyTenAreQueued(id, c, init);
      ServedOnceRegistered(id, c, init);
      QueuesOne(id, c, [Step.Register(c)] + Announced(init), event);
      assert steps == [Step.Register(c)] + Announced(init) + [Step.Broadcast(event)];
      assert events == init + [event];
    }
  }

  // ---------- the loop itself ----------

  /** A client: its id and its channel; a method's requires is what Go panics without. */
  class SseClient {
    const id: string
    var buffer: seq<string>
    var closed: bool
    ghost var received: seq<string>

    constructor (id: string)
      ensures this.id == id && buffer == [] && !closed && received == []
    {
      this.id, buffer, closed, received := id, [], false, [];
    }

    method TrySend(event: string) returns (ok: bool)
      requires !closed
      modifies this`buffer
      ensures ok == (|old(buffer)| < CAPACITY)
      ensures buffer == if ok then old(buffer) + [event] else old(buffer)
    {
      ok := |buffer| < CAPACITY;
      if ok {
        buffer := buffer + [event];
      }
    }

    method Close()
      requires !closed
      modifies this`closed
      ensures closed
    {
      closed := true;
    }

    method Receive()
      modifies this`buffer, this`received
      ensures if old(buffer) == [] then buffer == [] && received == old(received)
        else buffer == old(buffer)[1..] && received == old(received) + [old(buffer)[0]]
    {
      if |buffer| > 0 {
        received := received + [buffer[0]];
        buffer := buffer[1..];
      }
    }

    ghost function View(): Channel
      reads this
    {
      Channel(closed, received, buffer)
    }
  }

  function IdOf(c: SseClient): string {
    c.id
  }

  class SseHub {
    var clients: map<string, SseClient>

    constructor ()
      ensures clients == map[]
    {
      clients := map[];
    }

    ghost predicate Valid()
      reads this, clients.Values
    {
      forall name | name in clients :: clients[name].id == name && !clients[name].closed
    }

    method RegisterClient(client: SseClient)
      modifies this
      ensures clients == old(clients)[client.id := client]
    {
      clients := clients[client.id := client];
    }

    /** The id decides whether anything is closed, and the client that leaves is what is closed. */
    method UnregisterClient(client: SseClient, ghost all: set<SseClient>)
      requires client.id in clients ==> !client.closed
      modifies this, client
      ensures clients == old(clients) - {client.id}
      ensures forall c | c in all ::
        c.View() == ChannelStep(IdOf, c, old(clients), old(c.View()), Step.Unregister(client))
    {
      if client.id in clients {
        clients := clients - {client.id};
        client.Close();
      }
    }

    /** The range loop over the client map, in whatever order it comes. */
    method BroadcastEvent(event: string, ghost all: set<SseClient>)
      requires Valid()
      modifies clients.Values
      ensures forall c | c in all :: c.View() == ChannelStep(IdOf, c, clients, old(c.View()), Step.Broadcast(event))
    {
      var left := clients.Keys;
      while left != {}
        invariant left <= clients.Keys && Valid()
        invariant forall c | c in all ::
          c.View() == if c.id in left then old(c.View())
                      else ChannelStep(IdOf, c, clients, old(c.View()), Step.Broadcast(event))
        decreases |left|
      {
        var name :| name in left;
        left := left - {name};
        var ok := clients[name].TrySend(event);
      }
    }

    /** One turn of the loop: whatever has arrived is handled. */
    method Handle(step: Step<SseClient>, ghost all: set<SseClient>)
      requires forall name | name in clients :: clients[name] in all && clients[name].id == name
      requires !step.Broadcast? ==> step.client in all
      requires forall c | c in all :: !Panics(IdOf, c, clients, c.View(), step)
      modifies this, all
      ensures forall name | name in clients :: clients[name] in all && clients[name].id == name
      ensures clients == MembersAfter(IdOf, old(clients), step)
      ensures forall c | c in all :: c.View() == ChannelStep(IdOf, c, old(clients), old(c.View()), step)
    {
      match step
      case Register(client) => RegisterClient(client);
      case Unregister(client) => UnregisterClient(client, all);
      case Broadcast(event) =>
        assert forall name | name in clients :: Serves(IdOf, clients, clients[name]);
        BroadcastEvent(event, all);
      case Receive(client) => client.Receive();
    }

    /** The event loop over any arrivals: it never meets a closed channel, and leaves each client where its run does. */
    method Run(steps: seq<Step<SseClient>>, ghost all: set<SseClient>)
      requires clients == map[]
      requires forall c | c in all :: c.View() == EMPTY && LeavesForGood(c, steps)
      requires forall s | s in steps :: !s.Broadcast? ==> s.client in all
      modifies this, all
      ensures clients == Members(IdOf, steps)
      ensures forall c | c in all :: c.View() == After(IdOf, c, steps)
    {
      for n := 0 to |steps|
        invariant clients == Members(IdOf, steps[..n])
        invariant forall name | name in clients :: clients[name] in all && clients[name].id == name
        invariant forall c | c in all :: c.View() == After(IdOf, c, steps[..n])
      {
        forall c | c in all ensures !Panics(IdOf, c, clients, c.View(), steps[n]) {
          NeverPanics(IdOf, c, steps, n);
        }
        assert steps[..n + 1][..n] == steps[..n] && Last(steps[..n + 1]) == steps[n];
        Handle(steps[n], all);
      }
      assert steps[..|steps|] == steps;
    }
  }
}
