/** The write seat of cmd/satpulsewb/server.go, and the server's whole traffic with the hub in any interleaving. */
module WriteSeat {
  import Sequences
  import opened Options
  import opened HubEvents
  import opened SseHub

  /** Where a claim of the seat stands: no claim holds the seat lock, one has set the seat, one has announced it. */
  datatype SeatLock = Free | Claimed | Announced

  class Server {
    const hub: Hub
    var seat: string
    var lock: SeatLock

    /** History: every value the seat had, in order, and the value that seeded the writer event. */
    var claims: seq<string>
    const seed: string

    ghost predicate Valid()
      reads this, hub, hub.clients
    {
      hub.Valid() && SeatValid()
    }

    ghost predicate SeatValid()
      reads this, hub`writer
    {
      && seat == (if claims == [] then "" else claims[|claims| - 1])
      && "" !in claims
      && (lock != Free ==> claims != [])
      && (lock != Claimed ==> hub.writer == Some(Writer(if claims == [] then seed else seat)))
    }

    /** The seed makes a window from before a restart learn that its seat is stale. */
    constructor (hub: Hub, seed: string)
      requires hub.Valid()
      modifies hub`writer, hub`log
      modifies hub.clients`queue, hub.clients`received, hub.clients`overflowed, hub.clients`dead, hub.clients`sent
      ensures this.hub == hub && Valid() && claims == [] && lock == Free && this.seed == seed
      ensures hub.clients == old(hub.clients)
    {
      this.hub, this.seed, seat, lock, claims := hub, seed, "", Free, [];
      new;
      hub.BroadcastWriter(seed);
    }

    /** A claim takes the seat lock and makes the value it drew the seat. */
    method Claim(value: string)
      requires Valid() && lock == Free && value != ""
      modifies this`seat, this`lock, this`claims
      ensures Valid() && lock == Claimed && seat == value && claims == old(claims) + [value]
    {
      lock := Claimed;
      seat := value;
      claims := claims + [value];
    }

    method Announce()
      requires Valid() && lock == Claimed
      modifies this`lock, hub`writer, hub`log
      modifies hub.clients`queue, hub.clients`received, hub.clients`overflowed, hub.clients`dead, hub.clients`sent
      ensures Valid() && lock == Announced && hub.log == old(hub.log) + [Writer(seat)]
    {
      hub.BroadcastWriter(seat);
      lock := Announced;
    }

    method Release()
      requires Valid() && lock == Announced
      modifies this`lock
      ensures Valid() && lock == Free
    {
      lock := Free;
    }

    /** Only the newest claimant may write, and nobody before the first claim. Provided no value was drawn twice,
        older claimants and windows that only know the seed may not. */
    method RequireSeat(given: string) returns (current: bool)
      requires Valid() && lock == Free
      ensures current <==> claims != [] && given == claims[|claims| - 1]
      ensures Sequences.Distinct([seed] + claims) ==>
        (given == seed || exists i :: 0 <= i < |claims| - 1 && claims[i] == given) ==> !current
    {
      current := given == seat && seat != "";
      if claims != [] && Sequences.Distinct([seed] + claims) {
        NewestIsNew(seed, claims);
      }
    }
  }

  lemma NewestIsNew(seed: string, claims: seq<string>)
    requires claims != [] && Sequences.Distinct([seed] + claims)
    ensures claims[|claims| - 1] != seed
    ensures forall i :: 0 <= i < |claims| - 1 ==> claims[i] != claims[|claims| - 1]
  {
    var all := [seed] + claims;
    assert all[0] == seed && all[|claims|] == claims[|claims| - 1];
    assert forall i :: 0 <= i < |claims| ==> claims[i] == all[i + 1];
  }

  /** One step of anyone: the session emits, a connection starts, ends or takes events, a claim moves on. Connections
      are numbered in the order they start. */
  datatype Step =
    | Emission(event: Event)
    | Connection(packets: bool)
    | Disconnection(who: nat)
    | Receipt(who: nat, n: nat)
    | Claiming(value: string)
    | Announcing
    | Releasing

  /** What the steps so far amount to: the events sent out, the claims and how far the newest has got, for each
      connection whether it takes packets, and which of them are still open. */
  datatype Traffic =
    Traffic(log: seq<Sse>, claims: seq<string>, lock: SeatLock, connections: seq<bool>, open: set<nat>)

  /** A step that cannot be taken is passed over. */
  function After(t: Traffic, step: Step, encodes: Event -> bool): Traffic {
    match step
    case Emission(event) => if encodes(event) then t.(log := t.log + [Session(event)]) else t
    case Connection(packets) => t.(connections := t.connections + [packets], open := t.open + {|t.connections|})
    case Disconnection(who) => t.(open := t.open - {who})
    case Receipt(_, _) => t
    case Claiming(value) =>
      if t.lock == Free && value != "" then t.(claims := t.claims + [value], lock := Claimed) else t
    case Announcing =>
      if t.lock == Claimed && t.claims != [] then
        t.(log := t.log + [Writer(t.claims[|t.claims| - 1])], lock := Announced)
      else t
    case Releasing => if t.lock == Announced then t.(lock := Free) else t
  }

  function AfterAll(t: Traffic, steps: seq<Step>, encodes: Event -> bool): Traffic {
    if steps == [] then t else After(AfterAll(t, steps[..|steps| - 1], encodes), steps[|steps| - 1], encodes)
  }

  ghost function OpenOnes(windows: seq<SseClient>, open: set<nat>): set<SseClient> {
    set k | k in open && k < |windows| :: windows[k]
  }

  /** The server is where the traffic has brought it: `windows` are the connections started, besides `others`. */
  ghost predicate Tracks(server: Server, windows: seq<SseClient>, others: set<SseClient>, t: Traffic)
    reads server, server.hub, server.hub.clients
  {
    && server.Valid()
    && t.log == server.hub.log && t.claims == server.claims && t.lock == server.lock
    && Connected(server.hub.clients, windows, others, t.connections, t.open)
  }

  ghost predicate Connected(clients: set<SseClient>, windows: seq<SseClient>, others: set<SseClient>,
    connections: seq<bool>, open: set<nat>)
  {
    && |windows| == |connections| && (forall k :: 0 <= k < |windows| ==> windows[k].packets == connections[k])
    && (forall k :: 0 <= k < |windows| ==> windows[k] !in others)
    && (forall j, k :: 0 <= j < k < |windows| ==> windows[j] != windows[k])
    && (forall k :: k in open ==> k < |windows|)
    && clients == others + OpenOnes(windows, open)
  }

  lemma ConnectionStarts(clients: set<SseClient>, windows: seq<SseClient>, others: set<SseClient>,
    connections: seq<bool>, open: set<nat>, c: SseClient)
    requires Connected(clients, windows, others, connections, open) && c !in windows && c !in others
    ensures Connected(clients + {c}, windows + [c], others,
      connections + [c.packets], open + {|connections|})
  {
    var all := windows + [c];
    assert all[|windows|] == c;
    assert OpenOnes(all, open + {|connections|}) == OpenOnes(windows, open) + {c} by {
      forall k | k in open ensures all[k] == windows[k] {
      }
    }
  }

  lemma ConnectionEnds(clients: set<SseClient>, windows: seq<SseClient>, others: set<SseClient>,
    connections: seq<bool>, open: set<nat>, who: nat)
    requires Connected(clients, windows, others, connections, open)
    ensures var left := if who < |windows| && windows[who] in clients then clients - {windows[who]} else clients;
      Connected(left, windows, others, connections, open - {who})
  {
    if who < |windows| {
      assert OpenOnes(windows, open - {who}) == OpenOnes(windows, open) - {windows[who]};
    } else {
      assert open - {who} == open;
    }
  }

  predicate Received(before: seq<Sse>, queue: seq<Sse>, n: nat, after: seq<Sse>) {
    after == before + if n < |queue| then queue[..n] else queue
  }

  /** Any interleaving of any steps has just the effects of the steps that can be taken, and leaves the server and the
      hub consistent; so the guarantees below hold at all times. */
  method Interleave(server: Server, steps: seq<Step>) returns (windows: seq<SseClient>)
    requires server.Valid()
    modifies server, server.hub, server.hub.clients
    ensures Tracks(server, windows, old(server.hub.clients),
      AfterAll(old(Traffic(server.hub.log, server.claims, server.lock, [], {})), steps, server.hub.encodes))
  {
    ghost var t0 := Traffic(server.hub.log, server.claims, server.lock, [], {});
    ghost var others := server.hub.clients;
    windows := [];
    hide After, Hub.Valid, Server.SeatValid;
    for i := 0 to |steps|
      invariant Tracks(server, windows, others, AfterAll(t0, steps[..i], server.hub.encodes))
      invariant forall c :: c in windows ==> fresh(c)
    {
      ghost var t := AfterAll(t0, steps[..i], server.hub.encodes);
      assert steps[..i + 1][..i] == steps[..i];
      assert forall c :: c in OpenOnes(windows, t.open) ==> c in windows;
      windows := Take(server, steps[i], windows, others, t);
    }
    assert steps[..|steps|] == steps;
  }

  method Take(server: Server, step: Step, windows: seq<SseClient>, ghost others: set<SseClient>, ghost t: Traffic)
    returns (windows': seq<SseClient>)
    requires Tracks(server, windows, others, t)
    modifies server, server.hub, server.hub.clients
    ensures Tracks(server, windows', others, After(t, step, server.hub.encodes))
    // A connection that takes events takes the oldest it has not, as many as it asks for and there are.
    ensures step.Receipt? && step.who < |windows| && windows[step.who] in old(server.hub.clients) ==>
      Received(old(windows[step.who].received), old(windows[step.who].queue), step.n, windows[step.who].received)
    ensures forall c :: c in windows' && c !in windows ==> fresh(c)
  {
    hide Agrees, PacketClients, Hub.ClientsUpTo, Served, Connected;
    windows' := windows;
    ghost var clients := server.hub.clients;
    match step
    case Emission(event) => server.hub.Emit(event);
    case Connection(packets) =>
      var c, _ := server.hub.Subscribe(packets);
      ConnectionStarts(clients, windows, others, t.connections, t.open, c);
      windows' := windows + [c];
    case Disconnection(who) =>
      ConnectionEnds(clients, windows, others, t.connections, t.open, who);
      if who < |windows| && windows[who] in server.hub.clients {
        server.hub.Unsubscribe(windows[who]);
      }
    case Receipt(who, n) =>
      if who < |windows| && windows[who] in server.hub.clients {
        TakeReceipt(server, windows[who], n);
      }
    case _ => TakeSeatStep(server, step, windows, others, t);
  }

  method TakeReceipt(server: Server, client: SseClient, n: nat)
    requires server.Valid() && client in server.hub.clients
    modifies client`queue, client`received
    ensures server.Valid() && Received(old(client.received), old(client.queue), n, client.received)
  {
    hide Agrees, PacketClients, SentAll, Primes;
    var _ := client.Receive(n);
  }

  method TakeSeatStep(server: Server, step: Step, ghost windows: seq<SseClient>, ghost others: set<SseClient>,
    ghost t: Traffic)
    requires Tracks(server, windows, others, t) && (step.Claiming? || step.Announcing? || step.Releasing?)
    modifies server, server.hub, server.hub.clients
    ensures Tracks(server, windows, others, After(t, step, server.hub.encodes))
  {
    hide Agrees, PacketClients, Hub.ClientsUpTo, Served, Connected;
    match step
    case Claiming(value) =>
      if server.lock == Free && value != "" {
        server.Claim(value);
      }
    case Announcing =>
      if server.lock == Claimed {
        server.Announce();
      }
    case Releasing =>
      if server.lock == Announced {
        server.Release();
      }
  }

  /** A regular client that has not fallen behind agrees with the hub on every cached event; and whenever no claim is
      between taking the seat and announcing it, it has been told last who holds the seat, or that nobody does. */
  lemma WindowsKnowTheSeat(server: Server, c: SseClient, key: Key)
    requires server.Valid() && c in server.hub.clients && !c.packets && !c.overflowed
    ensures var cached := server.hub.Cached().Get(key);
      cached.Some? ==> LastWith(c.prime + c.sent, key) == cached
    ensures server.lock != Claimed ==>
      LastWith(c.prime + c.sent, Seat) == Some(Writer(if server.claims == [] then server.seed else server.seat))
  {
    if server.hub.Cached().Get(key).Some? {
      ClientsAgree(server.hub, c, key);
    }
    if server.lock != Claimed {
      assert server.hub.Cached().Get(Seat) == server.hub.writer;
      ClientsAgree(server.hub, c, Seat);
    }
  }

  /** Nothing a late joiner is primed with is left from before the latest disconnect, other than the connection
      state, the corrections state and the writer event. */
  lemma PrimedWithCurrent(server: Server, key: Key, d: nat)
    requires server.Valid() && server.hub.Cached().Get(key).Some?
    requires d < |server.hub.log| && IsDisconnect(server.hub.log[d]) && key !in {Seat, Named(State), Named(Corrections)}
    ensures exists i :: d < i < |server.hub.log| && server.hub.log[i] == server.hub.Cached().Get(key).value
  {
    CachedIsCurrent(server.hub.log, key, d);
  }
}
