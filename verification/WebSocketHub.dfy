/** The WebSocket hub: one event loop that registers, drops and serves clients through bounded channels. */
module WebSocketHub {
  import opened Common
  import opened Broadcasts

  // ---------- what the loop does to one client ----------

  /** A client's place in the hub and its channel: what has been received from it, what waits in it. */
  datatype Client = Client(registered: bool, closed: bool, received: seq<string>, pending: seq<string>) {
    function Queued(): seq<string> {
      received + pending
    }
  }

  const NEW := Client(false, false, [], [])

  datatype Step<C> =
    Register(client: C, welcome: string) | Unregister(client: C) | Broadcast(message: string) | Receive(client: C)

  /** A client that is too slow to take a message is dropped and its channel closed. */
  function Offered(k: Client, message: string, capacity: nat): Client {
    if |k.pending| < capacity then k.(pending := k.pending + [message]) else k.(registered := false, closed := true)
  }

  function ClientStep<C(==)>(c: C, capacity: nat, k: Client, s: Step<C>): Client {
    match s
    case Register(d, welcome) => if d == c then Offered(k.(registered := true), welcome, capacity) else k
    case Unregister(d) => if d == c && k.registered then k.(registered := false, closed := true) else k
    case Broadcast(message) => if k.registered then Offered(k, message, capacity) else k
    case Receive(d) =>
      if d == c && k.pending != [] then k.(received := k.received + [k.pending[0]], pending := k.pending[1..]) else k
  }

  /** The step sends on the client's channel, or closes it, when it is closed already. */
  predicate Panics<C(==)>(c: C, k: Client, s: Step<C>) {
    match s
    case Register(d, _) => d == c && k.closed
    case Unregister(d) => d == c && k.registered && k.closed
    case Broadcast(_) => k.registered && k.closed
    case Receive(_) => false
  }

  function After<C(==)>(c: C, capacity: nat, steps: seq<Step<C>>): Client {
    if steps == [] then NEW else ClientStep(c, capacity, After(c, capacity, steps[..|steps| - 1]), Last(steps))
  }

  function MessageOf<C>(s: Step<C>): Option<string> {
    if s.Broadcast? then Some(s.message) else None
  }

  predicate Registers<C(==)>(c: C, s: Step<C>) {
    s.Register? && s.client == c
  }

  ghost predicate RegisteredOnce<C>(c: C, steps: seq<Step<C>>) {
    forall i, j | 0 <= i < j < |steps| :: !(Registers(c, steps[i]) && Registers(c, steps[j]))
  }

  // ---------- properties of every run ----------

  /** No step of the run sends on or closes a closed channel. */
  ghost predicate Safe<C>(c: C, capacity: nat, steps: seq<Step<C>>) {
    forall i | 0 <= i < |steps| :: !Panics(c, After(c, capacity, steps[..i]), steps[i])
  }

  lemma {:induction false} SafeBefore<C>(c: C, capacity: nat, steps: seq<Step<C>>, n: nat)
    requires Safe(c, capacity, steps) && n <= |steps|
    ensures Safe(c, capacity, steps[..n])
  {
    forall i | 0 <= i < n ensures !Panics(c, After(c, capacity, steps[..n][..i]), steps[..n][i]) {
      assert steps[..n][..i] == steps[..i];
    }
  }

  /** Up to the first panic a registered client's channel is open, and no channel holds more than its capacity. */
  lemma {:induction false} RegisteredIsOpen<C>(c: C, capacity: nat, steps: seq<Step<C>>)
    requires Safe(c, capacity, steps)
    ensures var k := After(c, capacity, steps); (k.registered ==> !k.closed) && |k.pending| <= capacity
  {
    if steps != [] {
      var n := |steps| - 1;
      SafeBefore(c, capacity, steps, n);
      RegisteredIsOpen(c, capacity, steps[..n]);
      assert !Panics(c, After(c, capacity, steps[..n]), steps[n]);
    }
  }

  /** The loop panics if and only if a client is registered whose channel it has closed. */
  lemma {:induction false} PanicsIffClosedReturns<C>(c: C, capacity: nat, steps: seq<Step<C>>, s: Step<C>)
    requires Safe(c, capacity, steps)
    ensures Panics(c, After(c, capacity, steps), s) <==> Registers(c, s) && After(c, capacity, steps).closed
  {
    RegisteredIsOpen(c, capacity, steps);
  }

  lemma {:induction false} UnseenIsNew<C>(c: C, capacity: nat, steps: seq<Step<C>>)
    requires forall i | 0 <= i < |steps| :: !Registers(c, steps[i])
    ensures After(c, capacity, steps) == NEW
  {
    if steps != [] {
      UnseenIsNew(c, capacity, steps[..|steps| - 1]);
    }
  }

  /** A client that is registered once is served safely for ever. */
  lemma {:induction false} OnceIsSafe<C>(c: C, capacity: nat, steps: seq<Step<C>>)
    requires RegisteredOnce(c, steps)
    ensures Safe(c, capacity, steps)
  {
    if steps != [] {
      var n := |steps| - 1;
      OnceIsSafe(c, capacity, steps[..n]);
      PanicsIffClosedReturns(c, capacity, steps[..n], steps[n]);
      if Registers(c, steps[n]) {
        UnseenIsNew(c, capacity, steps[..n]);
      }
      forall i | 0 <= i < |steps| ensures !Panics(c, After(c, capacity, steps[..i]), steps[i]) {
        if i < n {
          assert steps[..n][..i] == steps[..i] && steps[..n][i] == steps[i];
        }
      }
    }
  }

  /** Only a registration or a broadcast extends what has been queued. */
  lemma {:induction false} QueueStep<C>(c: C, capacity: nat, k: Client, s: Step<C>)
    requires !Registers(c, s)
    ensures var k' := ClientStep(c, capacity, k, s);
      k'.Queued() == (if s.Broadcast? && k'.registered then k.Queued() + [s.message] else k.Queued()) &&
      (k'.registered ==> k.registered)
  {
    if s.Receive? && k.pending != [] {
      assert k.received + [k.pending[0]] + k.pending[1..] == k.Queued();
    }
  }

  lemma {:induction false} PrefixGrows(queued: seq<string>, welcome: string, later: seq<string>, m: string)
    ensures queued <= [welcome] + later ==> queued <= [welcome] + (later + [m])
    ensures queued == [welcome] + later ==> queued + [m] == [welcome] + (later + [m])
  {
  }

  /** After its registration a client is queued the welcome and then a contiguous prefix of the broadcasts, all of
      them for as long as it stays registered. */
  lemma {:induction false} WelcomeThenBroadcasts<C>(c: C, capacity: nat, steps: seq<Step<C>>, r: nat)
    requires RegisteredOnce(c, steps) && r < |steps| && Registers(c, steps[r])
    ensures var k, all := After(c, capacity, steps), [steps[r].welcome] + Messages(steps[r + 1..], MessageOf<C>);
      k.Queued() <= all && (k.registered ==> k.Queued() == all)
  {
    var before, s := steps[..|steps| - 1], Last(steps);
    if r == |before| {
      UnseenIsNew(c, capacity, before);
      assert steps[r + 1..] == [];
    } else {
      hide Messages, ClientStep;
      var k := After(c, capacity, before);
      assert !Registers(c, s) && After(c, capacity, steps) == ClientStep(c, capacity, k, s);
      hide After;
      WelcomeThenBroadcasts(c, capacity, before, r);
      LaterMessages(steps, MessageOf<C>, r + 1);
      QueueStep(c, capacity, k, s);
      if s.Broadcast? {
        PrefixGrows(k.Queued(), steps[r].welcome, Messages(before[r + 1..], MessageOf<C>), s.message);
      }
    }
  }

  // ---------- departures ----------

  predicate Departs<C(==)>(c: C, s: Step<C>) {
    s.Unregister? && s.client == c
  }

  /** There is no room in the client's channel for what this step would send to it: its welcome or a broadcast. */
  predicate FullAt<C(==)>(c: C, capacity: nat, steps: seq<Step<C>>, i: nat)
    requires i < |steps|
  {
    (Registers(c, steps[i]) || steps[i].Broadcast?) && |After(c, capacity, steps[..i]).pending| >= capacity
  }

  /** From step r on the client has neither left nor been too slow. */
  ghost predicate KeepsUp<C>(c: C, capacity: nat, steps: seq<Step<C>>, r: nat) {
    forall i | r <= i < |steps| :: !Departs(c, steps[i]) && !FullAt(c, capacity, steps, i)
  }

  lemma {:induction false} KeepsUpStep<C>(c: C, capacity: nat, steps: seq<Step<C>>, r: nat)
    requires r < |steps|
    ensures var n := |steps| - 1;
      KeepsUp(c, capacity, steps, r) <==>
        KeepsUp(c, capacity, steps[..n], r) && !Departs(c, steps[n]) && !FullAt(c, capacity, steps, n)
  {
    var n := |steps| - 1;
    forall i | r <= i < n
      ensures Departs(c, steps[..n][i]) == Departs(c, steps[i])
      ensures FullAt(c, capacity, steps[..n], i) == FullAt(c, capacity, steps, i)
    {
      assert steps[..n][..i] == steps[..i];
    }
    hide FullAt;
    if KeepsUp(c, capacity, steps[..n], r) {
      forall i | r <= i < n ensures !Departs(c, steps[i]) && !FullAt(c, capacity, steps, i) {
        assert !Departs(c, steps[..n][i]);
      }
    }
  }

  /** A client that has been registered once is registered if and only if it has not left and its channel has had room
      for the welcome and for every broadcast; and its channel is closed if and only if it is registered no more. */
  lemma {:induction false} RegisteredIffKeepsUp<C>(c: C, capacity: nat, steps: seq<Step<C>>, r: nat)
    requires RegisteredOnce(c, steps) && r < |steps| && Registers(c, steps[r])
    ensures var k := After(c, capacity, steps);
      (k.registered <==>
        forall i | r <= i < |steps| :: !Departs(c, steps[i]) && !FullAt(c, capacity, steps, i)) &&
      (k.closed <==> !k.registered)
  {
    var n := |steps| - 1;
    KeepsUpStep(c, capacity, steps, r);
    hide KeepsUp;
    if r == n {
      UnseenIsNew(c, capacity, steps[..n]);
      assert KeepsUp(c, capacity, steps[..n], r) by { KeepsUpNone(c, capacity, steps[..n]); }
    } else {
      RegisteredIffKeepsUp(c, capacity, steps[..n], r);
      assert !Registers(c, steps[n]);
      KeepsUpMeans(c, capacity, steps[..n], r);
    }
    KeepsUpMeans(c, capacity, steps, r);
  }

  lemma {:induction false} KeepsUpNone<C>(c: C, capacity: nat, steps: seq<Step<C>>)
    ensures KeepsUp(c, capacity, steps, |steps|)
  {
  }

  lemma {:induction false} KeepsUpMeans<C>(c: C, capacity: nat, steps: seq<Step<C>>, r: nat)
    ensures KeepsUp(c, capacity, steps, r) <==>
      forall i | r <= i < |steps| :: !Departs(c, steps[i]) && !FullAt(c, capacity, steps, i)
  {
  }

  /** Once a client has left, it is registered no more, its channel is closed, and nothing is ever queued for it. */
  lemma {:induction false} DepartureIsFinal<C>(c: C, capacity: nat, steps: seq<Step<C>>, r: nat, u: nat)
    requires RegisteredOnce(c, steps) && r < u < |steps| && Registers(c, steps[r]) && Departs(c, steps[u])
    ensures var k := After(c, capacity, steps);
      !k.registered && k.closed && k.Queued() == After(c, capacity, steps[..u]).Queued()
  {
    var n := |steps| - 1;
    RegisteredIffKeepsUp(c, capacity, steps, r);
    assert !Registers(c, steps[n]);
    assert After(c, capacity, steps) == ClientStep(c, capacity, After(c, capacity, steps[..n]), steps[n]);
    hide After, FullAt;
    QueueStep(c, capacity, After(c, capacity, steps[..n]), steps[n]);
    if u < n {
      DepartureIsFinal(c, capacity, steps[..n], r, u);
      assert steps[..n][..u] == steps[..u];
    }
  }

  lemma {:induction false} OneMoreTaken(k: Client, m: nat)
    ensures m < |k.pending| ==>
      k.received + k.pending[..m] + [k.pending[m..][0]] == k.received + k.pending[..m + 1] &&
      k.pending[m..][1..] == k.pending[m + 1..]
  {
    if m < |k.pending| {
      assert k.pending[..m + 1] == k.pending[..m] + [k.pending[m]];
    }
  }

  /** m turns in which the client takes what waits for it leave nothing waiting, if no more than m messages do, and it
      has received everything in the order in which it was queued. Otherwise the first m of them. */
  lemma {:induction false} ReceivesInOrder<C>(c: C, capacity: nat, steps: seq<Step<C>>, turns: seq<Step<C>>)
    requires forall i | 0 <= i < |turns| :: turns[i] == Receive(c)
    ensures var k, k' := After(c, capacity, steps), After(c, capacity, steps + turns);
      var m := Min(|turns|, |k.pending|);
      k'.received == k.received + k.pending[..m] && k'.pending == k.pending[m..] &&
      k'.registered == k.registered && k'.closed == k.closed
  {
    var all := steps + turns;
    if turns == [] {
      assert all == steps;
    } else {
      var before := turns[..|turns| - 1];
      assert all[..|all| - 1] == steps + before && Last(all) == turns[|before|] == Receive(c);
      assert After(c, capacity, all) == ClientStep(c, capacity, After(c, capacity, steps + before), Receive(c));
      hide After;
      ReceivesInOrder(c, capacity, steps, before);
      OneMoreTaken(After(c, capacity, steps), |before|);
    }
  }

  // ---------- the loop itself ----------

  /** A client, reduced to the channel that the hub sends on; a method's requires is what Go panics without. */
  class WebSocketClient {
    const capacity: nat
    var buffer: seq<string>
    var closed: bool
    ghost var received: seq<string>

    constructor (capacity: nat)
      ensures this.capacity == capacity && buffer == [] && !closed && received == []
    {
      this.capacity, buffer, closed, received := capacity, [], false, [];
    }

    method TrySend(message: string) returns (ok: bool)
      requires !closed
      modifies this`buffer
      ensures ok == (|old(buffer)| < capacity)
      ensures buffer == if ok then old(buffer) + [message] else old(buffer)
    {
      ok := |buffer| < capacity;
      if ok {
        buffer := buffer + [message];
      }
    }

    method Close()
      requires !closed
      modifies this`closed
      ensures closed
    {
      closed := true;
    }

    /** The client's own goroutine takes the next message, if there is one. */
    method Receive()
      modifies this`buffer, this`received
      ensures if old(buffer) == [] then buffer == [] && received == old(received)
        else buffer == old(buffer)[1..] && received == old(received) + [old(buffer)[0]]
    {
      if |buffer| > 0 {
        received := received + [buffer[0]];
        buffer := buffer[1..];
      }
    }
  }

  class WebSocketHub {
    var clients: set<WebSocketClient>

    constructor ()
      ensures clients == {}
    {
      clients := {};
    }

    ghost function View(c: WebSocketClient): Client
      reads this, c
    {
      Client(c in clients, c.closed, c.received, c.buffer)
    }

    ghost predicate Valid()
      reads this, clients
    {
      forall c | c in clients :: !c.closed
    }

    method RegisterClient(client: WebSocketClient, welcome: string, ghost all: set<WebSocketClient>)
      requires Valid() && !client.closed
      modifies this, client
      ensures forall c | c in all :: View(c) == ClientStep(c, c.capacity, old(View(c)), Step.Register(client, welcome))
      ensures clients <= old(clients) + {client}
    {
      clients := clients + {client};
      var ok := client.TrySend(welcome);
      if !ok {
        client.Close();
        clients := clients - {client};
      }
    }

    method UnregisterClient(client: WebSocketClient, ghost all: set<WebSocketClient>)
      requires Valid()
      modifies this, client
      ensures forall c | c in all :: View(c) == ClientStep(c, c.capacity, old(View(c)), Step.Unregister(client))
      ensures clients <= old(clients)
    {
      if client in clients {
        clients := clients - {client};
        client.Close();
      }
    }

    /** The select of the loop: send, or close and forget a client that has no room. */
    method Offer(client: WebSocketClient, message: string)
      requires client in clients && !client.closed
      modifies this, client
      ensures View(client) == Offered(old(View(client)), message, client.capacity)
      ensures old(clients) - {client} <= clients <= old(clients)
    {
      var ok := client.TrySend(message);
      if !ok {
        client.Close();
        clients := clients - {client};
      }
    }

    /** The range loop over the client map, in whatever order it comes, with deletions on the way. */
    method BroadcastMessage(message: string, ghost all: set<WebSocketClient>)
      requires Valid()
      modifies this, clients
      ensures forall c | c in all :: View(c) == ClientStep(c, c.capacity, old(View(c)), Step.Broadcast(message))
      ensures clients <= old(clients)
    {
      var left := clients;
      while left != {}
        invariant left <= clients <= old(clients) && Valid()
        invariant forall c | c in left || (c in all && c !in old(clients)) :: View(c) == old(View(c))
        invariant forall c | c in old(clients) - left ::
          View(c) == ClientStep(c, c.capacity, old(View(c)), Step.Broadcast(message))
        decreases |left|
      {
        var client :| client in left;
        left := left - {client};
        Offer(client, message);
      }
    }

    /** One turn of the loop: whatever has arrived is handled. */
    method Handle(step: Step<WebSocketClient>, ghost all: set<WebSocketClient>)
      requires Valid() && clients <= all && (!step.Broadcast? ==> step.client in all)
      requires forall c | c in all :: !Panics(c, View(c), step)
      modifies this, all
      ensures clients <= all
      ensures forall c | c in all :: View(c) == ClientStep(c, c.capacity, old(View(c)), step)
    {
      match step
      case Register(client, welcome) => RegisterClient(client, welcome, all);
      case Unregister(client) => UnregisterClient(client, all);
      case Broadcast(message) => BroadcastMessage(message, all);
      case Receive(client) => client.Receive();
    }

    /** The event loop over any arrivals: it never meets a closed channel, and leaves each client where its run does. */
    method Run(steps: seq<Step<WebSocketClient>>, ghost all: set<WebSocketClient>)
      requires clients == {}
      requires forall c | c in all :: View(c) == NEW && RegisteredOnce(c, steps)
      requires forall s | s in steps :: !s.Broadcast? ==> s.client in all
      modifies this, all
      ensures forall c | c in all :: View(c) == After(c, c.capacity, steps)
    {
      for n := 0 to |steps|
        invariant clients <= all
        invariant forall c | c in all :: View(c) == After(c, c.capacity, steps[..n])
      {
        forall c | c in all ensures !Panics(c, View(c), steps[n]) && (View(c).registered ==> !View(c).closed) {
          OnceIsSafe(c, c.capacity, steps);
          SafeBefore(c, c.capacity, steps, n);
          RegisteredIsOpen(c, c.capacity, steps[..n]);
        }
        assert steps[..n + 1][..n] == steps[..n] && Last(steps[..n + 1]) == steps[n];
        Handle(steps[n], all);
      }
      assert steps[..|steps|] == steps;
    }
  }
}
