/** The SSE hub of cmd/satpulsewb/sink.go. Every method is one step under the hub's mutex. */
module SseHub {
  import opened Options
  import opened HubEvents

  const CLIENT_CHAN_SIZE := 256

  /** One connection: a bounded queue, and a signal closed when it overflows. */
  class SseClient {
    const packets: bool
    var queue: seq<Sse>
    var overflowed: bool
    var dead: bool

    /** Length of the hub's log, and the hub's cache, when the client subscribed. */
    ghost var since: nat
    ghost var cached: Cache
    ghost var prime: seq<Sse>
    /** What the hub put in the queue, and what was taken out. */
    ghost var sent: seq<Sse>
    ghost var received: seq<Sse>

    /** The client was sent what it wants of the log since it subscribed; it is dead exactly if something had to be
        dropped, which takes a backlog of 256 events. */
    ghost predicate Delivered(log: seq<Sse>)
      reads this`since, this`queue, this`overflowed, this`dead, this`sent, this`received
    {
      && since <= |log| && SentAll(packets, overflowed, sent, log[since..])
      && |queue| <= 256 && received + queue == sent && dead == overflowed && (overflowed ==> |sent| >= 256)
    }

    ghost predicate Primed(log: seq<Sse>)
      reads this`since, this`cached, this`prime
    {
      since <= |log| && if packets then prime == [] else Agrees(cached, log[..since]) && Primes(prime, cached)
    }

    constructor (packets: bool, ghost log: seq<Sse>, ghost cached: Cache)
      ensures this.packets == packets && since == |log| && this.cached == cached && prime == []
      ensures sent == [] && Delivered(log)
    {
      this.packets := packets;
      queue, overflowed, dead := [], false, false;
      since, this.cached, prime, sent, received := |log|, cached, [], [], [];
    }

    /** The connection's handler takes up to `n` queued events. */
    method Receive(n: nat) returns (events: seq<Sse>)
      modifies this`queue, this`received
      ensures events == (if n < |old(queue)| then old(queue)[..n] else old(queue))
      ensures received == old(received) + events && received + queue == old(received + queue)
    {
      var k := if n < |queue| then n else |queue|;
      events := queue[..k];
      queue, received := queue[k..], received + events;
    }

    /** Closing it a second time would panic. */
    method CloseDead()
      requires !dead
      modifies this`dead
      ensures dead
    {
      dead := true;
    }

    /** Puts the event in the queue, or, if that is full, gives the client up. */
    method Offer(e: Sse, ghost log: seq<Sse>)
      requires Delivered(log) && IsFor(packets, e)
      modifies this`queue, this`overflowed, this`dead, this`sent
      ensures Delivered(log + [e])
      ensures if |old(queue)| < 256 then sent == old(sent) + [e] && queue == old(queue) + [e]
              else sent == old(sent) && queue == old(queue)
      ensures overflowed == (old(overflowed) || |old(queue)| >= 256)
    {
      hide SentAll, IsFor;
      SentStep(packets, overflowed, sent, log, since, e);
      if |queue| < CLIENT_CHAN_SIZE {
        queue := queue + [e];
        sent := sent + [e];
      } else if !overflowed {
        overflowed := true;
        CloseDead();
      }
    }
  }

  /** What becomes of a client when event `e` is sent out: it is sent the event if it wants it and has room. A client
      that has no room is given up, unless it makes room in time. */
  ghost predicate Served(e: Sse, packets: bool, queue0: seq<Sse>, sent0: seq<Sse>, overflowed0: bool, sent: seq<Sse>,
    overflowed: bool)
  {
    if packets != (e.Session? && e.event.Name() == Packet) then sent == sent0 && overflowed == overflowed0
    else
      || (sent == sent0 + [e] && overflowed == overflowed0)
      || (|queue0| == 256 && sent == sent0 && overflowed)
  }

  ghost function PacketClients(clients: set<SseClient>): set<SseClient> {
    set c | c in clients && c.packets
  }

  /** The counts tell whether anyone wants an event. */
  lemma Interest(clients: set<SseClient>, npackets: nat)
    requires npackets == |PacketClients(clients)|
    ensures npackets == 0 <==> forall c :: c in clients ==> !c.packets
    ensures |clients| - npackets == 0 <==> forall c :: c in clients ==> c.packets
  {
    var p := PacketClients(clients);
    assert |clients - p| == |clients| - |p|;
    if npackets != 0 {
      var c :| c in p;
    }
    if |clients - p| != 0 {
      var c :| c in clients - p;
    }
  }

  lemma Unkeyed(ev: Event)
    ensures ev.Name() !in STICKY_EVENTS && !(ev.MsgEvent? && ev.kind in STICKY_MSG_KINDS) ==> KeyOf(Session(ev)) == None
    ensures ev.MsgEvent? ==> ev.Name() == Msg
  {
  }

  /** An event no client wants changes nothing for them. */
  lemma NobodyServed(clients: set<SseClient>, npackets: nat, e: Sse)
    requires npackets == |PacketClients(clients)| && e.Session?
    requires if e.event.Name() == Packet then npackets == 0 else |clients| - npackets == 0
    ensures forall c :: c in clients ==>
      Served(e, c.packets, c.queue, c.sent, c.overflowed, c.sent, c.overflowed)
  {
    Interest(clients, npackets);
  }

  /** The event may be cached, or some client wants it. */
  ghost predicate Matters(ev: Event, clients: set<SseClient>) {
    KeyOf(Session(ev)).Some? || exists c :: c in clients && c.packets == (ev.Name() == Packet)
  }

  lemma MattersWhen(ev: Event, clients: set<SseClient>, npackets: nat)
    requires npackets == |PacketClients(clients)|
    ensures Matters(ev, clients) <==>
      || ev.Name() in STICKY_EVENTS || (ev.MsgEvent? && ev.kind in STICKY_MSG_KINDS)
      || (if ev.Name() == Packet then npackets != 0 else |clients| - npackets != 0)
  {
    Interest(clients, npackets);
  }

  class Hub {
    /** Whether an event can be encoded. */
    const encodes: Event -> bool
    var clients: set<SseClient>
    var cache: map<EventName, Sse>
    var msgCache: map<string, Sse>
    var writer: Option<Sse>
    var npackets: int

    /** Every encodable event and every writer broadcast so far. */
    ghost var log: seq<Sse>
    /** The events that an encoding was tried of. */
    ghost var tried: seq<Event>

    ghost function Cached(): Cache
      reads this`writer, this`cache, this`msgCache
    {
      Cache(writer, cache, msgCache)
    }

    ghost predicate ClientsUpTo(log: seq<Sse>)
      reads this`clients, clients
    {
      forall c :: c in clients ==> c.Delivered(log) && c.Primed(log)
    }

    ghost predicate Valid()
      reads this, clients
    {
      npackets == |PacketClients(clients)| && Agrees(Cached(), log) && ClientsUpTo(log)
    }

    constructor (encodes: Event -> bool)
      ensures Valid() && clients == {} && log == [] && writer == None && this.encodes == encodes
    {
      this.encodes := encodes;
      clients, cache, msgCache, writer, npackets := {}, map[], map[], None, 0;
      log, tried := [], [];
    }

    method Encode(ev: Event) returns (ok: bool)
      modifies this`tried
      ensures ok == encodes(ev) && tried == old(tried) + [ev]
    {
      tried := tried + [ev];
      ok := encodes(ev);
    }

    /** Sends the event to every client that wants it. Clients may take events from their queues meanwhile. */
    method FanOut(e: Sse, pkt: bool)
      requires ClientsUpTo(log) && pkt == (e.Session? && e.event.Name() == Packet)
      modifies clients`queue, clients`received, clients`overflowed, clients`dead, clients`sent
      ensures ClientsUpTo(log + [e])
      ensures forall c :: c in clients ==>
        Served(e, c.packets, old(c.queue), old(c.sent), old(c.overflowed), c.sent, c.overflowed)
    {
      var todo := clients;
      hide SseClient.Delivered, SseClient.Primed, Served;
      while todo != {}
        invariant todo <= clients
        invariant forall c :: c in todo ==> c.Delivered(log) && c.Primed(log)
        invariant forall c :: c in todo ==>
          c.queue == old(c.queue) && c.sent == old(c.sent) && c.overflowed == old(c.overflowed)
        invariant forall c :: c in clients - todo ==> c.Delivered(log + [e]) && c.Primed(log + [e])
        invariant forall c :: c in clients - todo ==>
          Served(e, c.packets, old(c.queue), old(c.sent), old(c.overflowed), c.sent, c.overflowed)
      {
        var c :| c in todo;
        Serve(c, e, pkt, log);
        todo := todo - {c};
      }
    }

    static method Serve(c: SseClient, e: Sse, pkt: bool, ghost log: seq<Sse>)
      requires c.Delivered(log) && c.Primed(log) && pkt == (e.Session? && e.event.Name() == Packet)
      modifies c`queue, c`received, c`overflowed, c`dead, c`sent
      ensures c.Delivered(log + [e]) && c.Primed(log + [e])
      ensures Served(e, c.packets, old(c.queue), old(c.sent), old(c.overflowed), c.sent, c.overflowed)
    {
      hide SentAll;
      var taken: nat :| 0 <= taken <= CLIENT_CHAN_SIZE;
      var _ := c.Receive(taken);
      if c.packets == pkt {
        c.Offer(e, log);
      } else {
        SentStep(c.packets, c.overflowed, c.sent, log, c.since, e);
      }
      StillPrimed(c, log, e);
    }

    method Emit(ev: Event)
      requires Valid()
      modifies this`cache, this`msgCache, this`log, this`tried
      modifies clients`queue, clients`received, clients`overflowed, clients`dead, clients`sent
      ensures Valid()
      ensures log == if encodes(ev) then old(log) + [Session(ev)] else old(log)
      ensures forall c :: c in clients ==>
        if encodes(ev) then
          Served(Session(ev), c.packets, old(c.queue), old(c.sent), old(c.overflowed), c.sent, c.overflowed)
        else c.sent == old(c.sent) && c.overflowed == old(c.overflowed)
      // Nothing is encoded unless a client wants it or it may be cached.
      ensures tried == old(tried) + if Matters(ev, clients) then [ev] else []
    {
      Unkeyed(ev);
      MattersWhen(ev, clients, npackets);
      hide SentAll, KeyOf, Clears, Agrees, PacketClients, ClientsUpTo, Served, Matters;
      var name := ev.Name();
      var pkt := name == Packet;
      var cacheMsg := name == Msg && ev.MsgEvent? && ev.kind in STICKY_MSG_KINDS;
      if name !in STICKY_EVENTS && !cacheMsg {
        if (pkt && npackets == 0) || (!pkt && |clients| - npackets == 0) {
          if encodes(ev) {
            NobodyServed(clients, npackets, Session(ev));
            SkipEvent(Session(ev));
          }
          return;
        }
      }
      var ok := Encode(ev);
      if !ok {
        return;
      }
      SendOut(ev, pkt, cacheMsg);
    }

    /** Caches an encoded event and sends it to whoever wants it. */
    method SendOut(ev: Event, pkt: bool, cacheMsg: bool)
      requires Valid() && pkt == (ev.Name() == Packet)
      requires cacheMsg == (ev.MsgEvent? && ev.kind in STICKY_MSG_KINDS)
      modifies this`cache, this`msgCache, this`log
      modifies clients`queue, clients`received, clients`overflowed, clients`dead, clients`sent
      ensures Valid() && log == old(log) + [Session(ev)]
      ensures forall c :: c in clients ==>
        Served(Session(ev), c.packets, old(c.queue), old(c.sent), old(c.overflowed), c.sent, c.overflowed)
    {
      hide SentAll, KeyOf, Clears, Agrees, PacketClients, ClientsUpTo, Served;
      UpdateCaches(ev, cacheMsg);
      FanOut(Session(ev), pkt);
      log := log + [Session(ev)];
    }

    /** An event that is not cached and that no client wants need not be encoded. */
    ghost method SkipEvent(e: Sse)
      requires Valid() && e.Session? && KeyOf(e) == None
      requires if e.event.Name() == Packet then npackets == 0 else |clients| - npackets == 0
      modifies this`log
      ensures Valid() && log == old(log) + [e]
    {
      Interest(clients, npackets);
      Recorded(Cached(), Cached(), log, e);
      NobodyMisses(clients, log, e);
      hide SentAll, KeyOf, Clears, Agrees, PacketClients, SseClient.Primed, SseClient.Delivered;
      log := log + [e];
    }

    method UpdateCaches(ev: Event, cacheMsg: bool)
      requires Agrees(Cached(), log) && cacheMsg == (ev.MsgEvent? && ev.kind in STICKY_MSG_KINDS)
      modifies this`cache, this`msgCache
      ensures Agrees(Cached(), log + [Session(ev)])
    {
      AgreeingIsWellKeyed(Cached(), log);
      Remember(ev, cacheMsg);
      assert WellKeyed(Cached());
      ForgetStale(ev);
      Recorded(old(Cached()), Cached(), log, Session(ev));
    }

    method Remember(ev: Event, cacheMsg: bool)
      requires cacheMsg == (ev.MsgEvent? && ev.kind in STICKY_MSG_KINDS)
      modifies this`cache, this`msgCache
      ensures forall key ::
        Cached().Get(key) == (if KeyOf(Session(ev)) == Some(key) then Some(Session(ev)) else old(Cached()).Get(key))
    {
      if ev.Name() in STICKY_EVENTS {
        cache := cache[ev.Name() := Session(ev)];
      }
      if cacheMsg {
        msgCache := msgCache[ev.kind := Session(ev)];
      }
    }

    method ForgetStale(ev: Event)
      requires WellKeyed(Cached())
      modifies this`cache, this`msgCache
      ensures forall key ::
        Cached().Get(key) == (if Clears(Session(ev), key) then None else old(Cached()).Get(key))
    {
      OnlyStickyNames(Cached());
      if ev == ConnState("disconnected") {
        ForgetConnection();
      }
      if ev.CorrEvent? && ev.stream in {"connecting", "stopped"} {
        cache := cache - {BaseARP};
      }
    }

    method ForgetConnection()
      modifies this`cache, this`msgCache
      ensures msgCache == map[]
      ensures forall n :: n in cache <==> n in old(cache) && (n in STICKY_EVENTS ==> n == State || n == Corrections)
      ensures forall n :: n in cache ==> cache[n] == old(cache)[n]
    {
      for i := 0 to |STICKY_EVENTS|
        invariant forall n :: n in cache <==>
          n in old(cache) && (n in STICKY_EVENTS[..i] ==> n == State || n == Corrections)
        invariant forall n :: n in cache ==> cache[n] == old(cache)[n]
      {
        var n := STICKY_EVENTS[i];
        assert STICKY_EVENTS[..i + 1] == STICKY_EVENTS[..i] + [n];
        if n != State && n != Corrections {
          cache := cache - {n};
        }
      }
      assert STICKY_EVENTS[..|STICKY_EVENTS|] == STICKY_EVENTS;
      msgCache := map[];
    }

    method Wants(name: EventName) returns (wanted: bool)
      requires Valid()
      ensures wanted <==> name != Packet || exists c :: c in clients && c.packets
    {
      Interest(clients, npackets);
      return name != Packet || npackets > 0;
    }

    method Subscribe(packets: bool) returns (c: SseClient, prime: seq<Sse>)
      requires Valid()
      modifies this`clients, this`npackets
      ensures Valid() && fresh(c) && clients == old(clients) + {c} && c.packets == packets
      ensures c.prime == prime && c.since == |log|
    {
      hide SentAll, KeyOf, Clears, Agrees, Primes;
      hide SseClient.Delivered, SseClient.Primed, PacketClients;
      c := new SseClient(packets, log, Cached());
      NewClient(clients, c);
      clients := clients + {c};
      if packets {
        npackets := npackets + 1;
        prime := [];
      } else {
        prime := PrimingEvents();
      }
      c.prime := prime;
      NewlyPrimed(c, log);
    }

    /** What a new client is sent first: the writer event, the sticky events in their order, the sticky messages. */
    method PrimingEvents() returns (prime: seq<Sse>)
      requires Agrees(Cached(), log)
      ensures Primes(prime, Cached())
    {
      AgreeingIsWellKeyed(Cached(), log);
      ghost var c := Cached();
      assert c.writer == writer && c.names == cache;
      hide *;
      ListsSeat(c);
      prime := if writer.Some? then [writer.value] else [];
      for i := 0 to |STICKY_EVENTS|
        invariant Lists(prime, PrimedKeys(i, {}), c)
      {
        var name := STICKY_EVENTS[i];
        ListsSticky(prime, i, c);
        if name in cache {
          prime := prime + [cache[name]];
        }
      }
      var messages := MessageEvents(prime);
      prime := prime + messages;
    }

    method MessageEvents(ghost before: seq<Sse>) returns (messages: seq<Sse>)
      requires WellKeyed(Cached()) && Lists(before, PrimedKeys(|STICKY_EVENTS|, {}), Cached())
      ensures Primes(before + messages, Cached())
    {
      hide Lists, WellKeyed, Agrees, PrimedKeys, Primes;
      messages := [];
      var kinds := msgCache.Keys;
      assert before + messages == before && msgCache.Keys - kinds == {};
      while kinds != {}
        invariant kinds <= msgCache.Keys
        invariant Lists(before + messages, PrimedKeys(|STICKY_EVENTS|, msgCache.Keys - kinds), Cached())
      {
        var kind :| kind in kinds;
        ListsKind(before + messages, msgCache.Keys - kinds, kind, Cached());
        assert msgCache.Keys - kinds + {kind} == msgCache.Keys - (kinds - {kind});
        assert before + messages + [msgCache[kind]] == before + (messages + [msgCache[kind]]);
        messages := messages + [msgCache[kind]];
        kinds := kinds - {kind};
      }
      assert msgCache.Keys - kinds == msgCache.Keys;
      AllPrimed(before + messages, Cached());
    }

    method Unsubscribe(c: SseClient)
      requires Valid() && c in clients
      modifies this`clients, this`npackets
      ensures Valid() && clients == old(clients) - {c}
    {
      NewClient(clients - {c}, c);
      assert clients == clients - {c} + {c};
      clients := clients - {c};
      if c.packets {
        npackets := npackets - 1;
      }
    }

    method BroadcastWriter(seat: string)
      requires Valid()
      modifies this`writer, this`log
      modifies clients`queue, clients`received, clients`overflowed, clients`dead, clients`sent
      ensures Valid() && writer == Some(Writer(seat)) && log == old(log) + [Writer(seat)]
      ensures forall c :: c in clients ==>
        Served(Writer(seat), c.packets, old(c.queue), old(c.sent), old(c.overflowed), c.sent, c.overflowed)
    {
      hide Served;
      var e := Writer(seat);
      ghost var before := Cached();
      writer := Some(e);
      Recorded(before, Cached(), log, e);
      FanOut(e, false);
      log := log + [e];
    }
  }

  /** A cache that took event `e` in agrees with the history including `e`. */
  lemma Recorded(before: Cache, after: Cache, log: seq<Sse>, e: Sse)
    requires Agrees(before, log)
    requires forall key ::
      after.Get(key) == (if KeyOf(e) == Some(key) then Some(e) else if Clears(e, key) then None else before.Get(key))
    ensures Agrees(after, log + [e])
  {
    assert (log + [e])[..|log|] == log;
  }

  lemma NewClient(others: set<SseClient>, c: SseClient)
    requires c !in others
    ensures |PacketClients(others + {c})| == |PacketClients(others)| + if c.packets then 1 else 0
  {
    assert PacketClients(others + {c}) == if c.packets then PacketClients(others) + {c} else PacketClients(others);
  }

  /** The keys already considered: the seat, the first `i` sticky names, and some message kinds. */
  ghost function PrimedKeys(i: nat, kinds: set<string>): set<Key>
    requires i <= |STICKY_EVENTS|
  {
    {Seat} + (set n | n in STICKY_EVENTS[..i] :: Named(n)) + (set kind | kind in kinds :: OfKind(kind))
  }

  lemma ListsSticky(p: seq<Sse>, i: nat, c: Cache)
    requires i < |STICKY_EVENTS| && WellKeyed(c) && Lists(p, PrimedKeys(i, {}), c)
    ensures var n := STICKY_EVENTS[i];
      Lists(if n in c.names then p + [c.names[n]] else p, PrimedKeys(i + 1, {}), c)
  {
    hide Lists, Rank, KeyOf;
    var k := Named(STICKY_EVENTS[i]);
    assert STICKY_EVENTS[..i + 1] == STICKY_EVENTS[..i] + [STICKY_EVENTS[i]];
    assert PrimedKeys(i + 1, {}) == PrimedKeys(i, {}) + {k};
    EarlierRank(i);
    ListsOneMore(p, PrimedKeys(i, {}), c, k, c.Get(k));
  }

  lemma EarlierRank(i: nat)
    requires i < |STICKY_EVENTS|
    ensures Named(STICKY_EVENTS[i]) !in PrimedKeys(i, {})
    ensures forall key :: key in PrimedKeys(i, {}) ==> Rank(key) <= Rank(Named(STICKY_EVENTS[i]))
  {
    hide IndexOf;
    StickyRank(i);
    forall key | key in PrimedKeys(i, {}) ensures Rank(key) <= 1 + i {
      if key.Named? {
        var j :| 0 <= j < i && STICKY_EVENTS[j] == key.name;
        StickyRank(j);
      }
    }
  }

  lemma ListsKind(p: seq<Sse>, kinds: set<string>, kind: string, c: Cache)
    requires kind !in kinds && kind in c.kinds && WellKeyed(c)
    requires Lists(p, PrimedKeys(|STICKY_EVENTS|, kinds), c)
    ensures Lists(p + [c.kinds[kind]], PrimedKeys(|STICKY_EVENTS|, kinds + {kind}), c)
  {
    var keys := PrimedKeys(|STICKY_EVENTS|, kinds);
    assert PrimedKeys(|STICKY_EVENTS|, kinds + {kind}) == keys + {OfKind(kind)};
    ListsOneMore(p, keys, c, OfKind(kind), c.Get(OfKind(kind)));
  }

  lemma ListsSeat(c: Cache)
    requires WellKeyed(c)
    ensures Lists(if c.writer.Some? then [c.writer.value] else [], PrimedKeys(0, {}), c)
  {
    ListsOneMore([], {}, c, Seat, c.writer);
    assert PrimedKeys(0, {}) == {} + {Seat};
    assert [] + (if c.writer.Some? then [c.writer.value] else []) == if c.writer.Some? then [c.writer.value] else [];
  }

  lemma AllPrimed(p: seq<Sse>, c: Cache)
    requires WellKeyed(c) && Lists(p, PrimedKeys(|STICKY_EVENTS|, c.kinds.Keys), c)
    ensures Primes(p, c)
  {
    OnlyStickyNames(c);
    assert STICKY_EVENTS[..|STICKY_EVENTS|] == STICKY_EVENTS;
    assert Covers(PrimedKeys(|STICKY_EVENTS|, c.kinds.Keys), c);
  }

  lemma OnlyStickyNames(c: Cache)
    requires WellKeyed(c)
    ensures forall n :: n in c.names ==> n in STICKY_EVENTS
  {
    forall n | n in c.names ensures n in STICKY_EVENTS {
      assert c.Get(Named(n)).Some?;
    }
  }

  lemma StickyRank(i: nat)
    requires i < |STICKY_EVENTS|
    ensures Rank(Named(STICKY_EVENTS[i])) == 1 + i && STICKY_EVENTS[i] !in STICKY_EVENTS[..i]
  {
    hide IndexOf;
    var j := IndexOf(STICKY_EVENTS, STICKY_EVENTS[i]);
    assert forall k :: 0 <= k < j ==> STICKY_EVENTS[k] in STICKY_EVENTS[..j];
  }

  lemma NewlyPrimed(c: SseClient, log: seq<Sse>)
    requires c.since == |log| && Agrees(c.cached, log)
    requires if c.packets then c.prime == [] else Primes(c.prime, c.cached)
    ensures c.Primed(log)
  {
    assert log[..|log|] == log;
  }

  lemma StillPrimed(c: SseClient, log: seq<Sse>, e: Sse)
    requires c.Primed(log)
    ensures c.Primed(log + [e])
  {
    assert (log + [e])[..c.since] == log[..c.since];
  }

  /** An event nobody wants leaves every client up to date. */
  lemma NobodyMisses(clients: set<SseClient>, log: seq<Sse>, e: Sse)
    requires forall c :: c in clients ==> c.Delivered(log) && c.Primed(log) && !IsFor(c.packets, e)
    ensures forall c :: c in clients ==> c.Delivered(log + [e]) && c.Primed(log + [e])
  {
    forall c | c in clients ensures c.Delivered(log + [e]) && c.Primed(log + [e]) {
      StillPrimed(c, log, e);
      SentStep(c.packets, c.overflowed, c.sent, log, c.since, e);
    }
  }

  /** Agreement: a regular client that has not overflowed has, for every cached key, been given the cached event
      last. */
  lemma ClientsAgree(hub: Hub, c: SseClient, key: Key)
    requires hub.Valid() && c in hub.clients && !c.packets && !c.overflowed
    requires hub.Cached().Get(key).Some?
    ensures LastWith(c.prime + c.sent, key) == hub.Cached().Get(key)
  {
    PrimedAgrees(hub.log, c.since, c.cached, c.prime, key);
  }
}
