/** The events an SSE hub carries (cmd/satpulsewb/sink.go), and what of their history a late joiner needs. */
module HubEvents {
  import opened Options

  datatype EventName =
    | State | Receiver | Speed | Corrections | InitialPos | NMEAPosition | Time | EpochPVT | BaseARP
    | Log | Msg | MsgSend | Response | CorrPacket | Packet

  datatype Event =
    | ConnState(state: string)
    | CorrEvent(stream: string, detail: string)
    | MsgEvent(kind: string, detail: string)
    | Plain(ofName: EventName, detail: string)
  {
    function Name(): EventName {
      match this
      case ConnState(_) => State
      case CorrEvent(_, _) => Corrections
      case MsgEvent(_, _) => Msg
      case Plain(name, _) => name
    }
  }

  /** An encoded event: one of the session's, or the server's broadcast of the write seat. */
  datatype Sse = Session(event: Event) | Writer(seat: string)

  /** What is cached: the latest event of a name or of a message kind, and the latest writer event. */
  datatype Key = Seat | Named(name: EventName) | OfKind(kind: string)

  const STICKY_EVENTS: seq<EventName> :=
    [State, Receiver, Speed, Corrections, InitialPos, NMEAPosition, Time, EpochPVT, BaseARP]

  const STICKY_MSG_KINDS: set<string> := {"leapSecond", "survey"}

  function KeyOf(e: Sse): Option<Key> {
    match e
    case Writer(_) => Some(Seat)
    case Session(ev) =>
      if ev.Name() in STICKY_EVENTS then Some(Named(ev.Name()))
      else if ev.MsgEvent? && ev.kind in STICKY_MSG_KINDS then Some(OfKind(ev.kind))
      else None
  }

  predicate IsDisconnect(e: Sse) {
    e == Session(ConnState("disconnected"))
  }

  predicate StartsOrStopsCorrections(e: Sse) {
    e.Session? && e.event.CorrEvent? && e.event.stream in {"connecting", "stopped"}
  }

  /** Whether event `e` makes what is cached under `key` stale. */
  predicate Clears(e: Sse, key: Key) {
    || (IsDisconnect(e) && key !in {Seat, Named(State), Named(Corrections)})
    || (StartsOrStopsCorrections(e) && key == Named(BaseARP))
  }

  /** A packets client is sent packet events, a regular client everything else. */
  predicate IsFor(packets: bool, e: Sse) {
    packets == (e.Session? && e.event.Name() == Packet)
  }

  function Wanted(packets: bool, log: seq<Sse>): seq<Sse> {
    if log == [] then []
    else
      var e := log[|log| - 1];
      Wanted(packets, log[..|log| - 1]) + if IsFor(packets, e) then [e] else []
  }

  /** `a` is `b` with some events left out. */
  predicate Thins(a: seq<Sse>, b: seq<Sse>) {
    if b == [] then a == []
    else Thins(a, b[..|b| - 1]) || (a != [] && a[|a| - 1] == b[|b| - 1] && Thins(a[..|a| - 1], b[..|b| - 1]))
  }

  /** `at` says where in `b` each event of `a` is, in order. */
  ghost predicate PickedAt(a: seq<Sse>, b: seq<Sse>, at: seq<nat>) {
    && |at| == |a| && (forall i :: 0 <= i < |at| ==> at[i] < |b| && a[i] == b[at[i]])
    && forall i, j :: 0 <= i < j < |at| ==> at[i] < at[j]
  }

  /** Leaving events out keeps the others, in order. */
  lemma ThinsMeans(a: seq<Sse>, b: seq<Sse>)
    ensures Thins(a, b) <==> exists at: seq<nat> :: PickedAt(a, b, at)
  {
    if Thins(a, b) {
      var at := ThinsPicks(a, b);
    }
    if at: seq<nat> :| PickedAt(a, b, at) {
      PickedThins(a, b, at);
    }
  }

  lemma {:induction false} ThinsPicks(a: seq<Sse>, b: seq<Sse>) returns (at: seq<nat>)
    requires Thins(a, b)
    ensures PickedAt(a, b, at)
  {
    if b == [] {
      at := [];
    } else if Thins(a, b[..|b| - 1]) {
      at := ThinsPicks(a, b[..|b| - 1]);
    } else {
      at := ThinsPicks(a[..|a| - 1], b[..|b| - 1]);
      at := at + [|b| - 1];
    }
  }

  lemma {:induction false} PickedThins(a: seq<Sse>, b: seq<Sse>, at: seq<nat>)
    requires PickedAt(a, b, at)
    ensures Thins(a, b)
  {
    if a == [] {
      if b != [] {
        PickedThins(a, b[..|b| - 1], at);
      }
    } else if at[|a| - 1] < |b| - 1 {
      PickedThins(a, b[..|b| - 1], at);
    } else {
      PickedThins(a[..|a| - 1], b[..|b| - 1], at[..|a| - 1]);
    }
  }

  lemma {:induction false} ThinsItself(a: seq<Sse>)
    ensures Thins(a, a)
  {
    if a != [] {
      ThinsItself(a[..|a| - 1]);
    }
  }

  lemma ThinsOneMore(a: seq<Sse>, b: seq<Sse>, e: Sse)
    requires Thins(a, b)
    ensures Thins(a, b + [e]) && Thins(a + [e], b + [e])
  {
    assert (a + [e])[..|a|] == a && (b + [e])[..|b|] == b;
  }

  /** All wanted events of `log` were sent, in order, unless some were dropped when the client overflowed. */
  predicate SentAll(packets: bool, overflowed: bool, sent: seq<Sse>, log: seq<Sse>) {
    var wanted := Wanted(packets, log);
    if overflowed then Thins(sent, wanted) && |sent| < |wanted| else sent == wanted
  }

  lemma SentStep(packets: bool, overflowed: bool, sent: seq<Sse>, log: seq<Sse>, since: nat, e: Sse)
    requires since <= |log| && SentAll(packets, overflowed, sent, log[since..])
    ensures !IsFor(packets, e) ==> SentAll(packets, overflowed, sent, (log + [e])[since..])
    ensures IsFor(packets, e) ==> SentAll(packets, overflowed, sent + [e], (log + [e])[since..])
    ensures IsFor(packets, e) ==> SentAll(packets, true, sent, (log + [e])[since..])
  {
    WantedAppend(packets, log, since, e);
    assert Wanted(packets, log[since..]) + [] == Wanted(packets, log[since..]);
    ThinsItself(sent);
    ThinsOneMore(sent, Wanted(packets, log[since..]), e);
  }

  /** The latest event of `key` that nothing after it made stale. */
  function Latest(log: seq<Sse>, key: Key): Option<Sse> {
    if log == [] then None
    else
      var e := log[|log| - 1];
      if KeyOf(e) == Some(key) then Some(e)
      else if Clears(e, key) then None
      else Latest(log[..|log| - 1], key)
  }

  /** The last event of `key` among those a client was sent. */
  function LastWith(s: seq<Sse>, key: Key): Option<Sse> {
    if s == [] then None
    else if KeyOf(s[|s| - 1]) == Some(key) then Some(s[|s| - 1])
    else LastWith(s[..|s| - 1], key)
  }

  datatype Cache = Cache(writer: Option<Sse>, names: map<EventName, Sse>, kinds: map<string, Sse>) {
    function Get(key: Key): Option<Sse> {
      match key
      case Seat => writer
      case Named(name) => if name in names then Some(names[name]) else None
      case OfKind(kind) => if kind in kinds then Some(kinds[kind]) else None
    }
  }

  ghost predicate Agrees(c: Cache, log: seq<Sse>) {
    forall key :: c.Get(key) == Latest(log, key)
  }

  /** Where events of a key stand among the events a new client is primed with. */
  function Rank(key: Key): nat {
    match key
    case Seat => 0
    case Named(name) => 1 + IndexOf(STICKY_EVENTS, name)
    case OfKind(_) => 1 + |STICKY_EVENTS|
  }

  function IndexOf(names: seq<EventName>, name: EventName): (i: nat)
    ensures i <= |names|
    ensures i < |names| ==> names[i] == name
    ensures name !in names[..i]
  {
    if names == [] || names[0] == name then 0 else 1 + IndexOf(names[1..], name)
  }

  /** `p` lists what the cache holds for `keys`: each entry once, in the order of their ranks. */
  ghost predicate Lists(p: seq<Sse>, keys: set<Key>, c: Cache) {
    && (forall e :: e in p ==> KeyOf(e).Some? && KeyOf(e).value in keys && c.Get(KeyOf(e).value) == Some(e))
    && (forall k :: k in keys && c.Get(k).Some? ==> c.Get(k).value in p)
    && (forall i, j :: 0 <= i < j < |p| ==>
          KeyOf(p[i]) != KeyOf(p[j]) && Rank(KeyOf(p[i]).value) <= Rank(KeyOf(p[j]).value))
  }

  /** `p` primes a new client with all that is cached. */
  ghost predicate Primes(p: seq<Sse>, c: Cache) {
    exists keys :: Lists(p, keys, c) && Covers(keys, c)
  }

  ghost predicate Covers(keys: set<Key>, c: Cache) {
    forall k :: c.Get(k).Some? ==> k in keys
  }

  ghost predicate WellKeyed(c: Cache) {
    forall k :: c.Get(k).Some? ==> KeyOf(c.Get(k).value) == Some(k)
  }

  lemma AgreeingIsWellKeyed(c: Cache, log: seq<Sse>)
    requires Agrees(c, log)
    ensures WellKeyed(c)
  {
    forall k ensures c.Get(k).Some? ==> KeyOf(c.Get(k).value) == Some(k) {
      LatestHasKey(log, k);
    }
  }

  lemma {:induction false} LatestHasKey(log: seq<Sse>, key: Key)
    ensures Latest(log, key).Some? ==> KeyOf(Latest(log, key).value) == Some(key)
  {
    if log != [] {
      LatestHasKey(log[..|log| - 1], key);
    }
  }

  lemma ListsOneMore(p: seq<Sse>, keys: set<Key>, c: Cache, k: Key, e: Option<Sse>)
    requires Lists(p, keys, c) && k !in keys
    requires forall key :: key in keys ==> Rank(key) <= Rank(k)
    requires e == c.Get(k) && (e.Some? ==> KeyOf(e.value) == Some(k))
    ensures Lists(if e.Some? then p + [e.value] else p, keys + {k}, c)
  {
    var q := if e.Some? then p + [e.value] else p;
    forall i, j | 0 <= i < j < |q|
      ensures KeyOf(q[i]) != KeyOf(q[j]) && Rank(KeyOf(q[i]).value) <= Rank(KeyOf(q[j]).value)
    {
      assert q[i] in p;
    }
  }

  /** The last event of a key in a listing is the one cached. */
  lemma {:induction false} LastWithListed(p: seq<Sse>, keys: set<Key>, c: Cache, key: Key)
    requires Lists(p, keys, c) && WellKeyed(c)
    ensures LastWith(p, key) == if key in keys then c.Get(key) else None
  {
    hide KeyOf, Rank, Cache.Get;
    LastWithFound(p, key);
    if LastWith(p, key).Some? {
      assert LastWith(p, key).value in p;
    }
  }

  lemma {:induction false} LastWithFound(s: seq<Sse>, key: Key)
    ensures LastWith(s, key).Some? ==> LastWith(s, key).value in s && KeyOf(LastWith(s, key).value) == Some(key)
    ensures LastWith(s, key) == None ==> forall e :: e in s ==> KeyOf(e) != Some(key)
  {
    if s != [] && KeyOf(s[|s| - 1]) != Some(key) {
      LastWithFound(s[..|s| - 1], key);
      assert s == s[..|s| - 1] + [s[|s| - 1]];
    }
  }

  lemma WantedAppend(packets: bool, log: seq<Sse>, since: nat, e: Sse)
    requires since <= |log|
    ensures Wanted(packets, (log + [e])[since..]) ==
      Wanted(packets, log[since..]) + if IsFor(packets, e) then [e] else []
  {
    assert (log + [e])[since..] == log[since..] + [e];
    assert (log[since..] + [e])[..|log| - since] == log[since..];
  }

  lemma LatestOneMore(log: seq<Sse>, e: Sse, key: Key)
    ensures Latest(log + [e], key) ==
      if KeyOf(e) == Some(key) then Some(e) else if Clears(e, key) then None else Latest(log, key)
  {
    hide KeyOf, Clears;
    assert (log + [e])[..|log|] == log;
  }

  lemma LastWithOneMore(s: seq<Sse>, e: Sse, key: Key)
    ensures LastWith(s + [e], key) == if KeyOf(e) == Some(key) then Some(e) else LastWith(s, key)
  {
    hide KeyOf;
    assert (s + [e])[..|s|] == s;
  }

  /** What a regular client has last of a key, once one more event is in the log. */
  lemma SentOneMore(prime: seq<Sse>, log: seq<Sse>, since: nat, e: Sse, key: Key)
    requires since <= |log|
    ensures LastWith(prime + Wanted(false, (log + [e])[since..]), key) ==
      if KeyOf(e) == Some(key) then Some(e) else LastWith(prime + Wanted(false, log[since..]), key)
  {
    assert IsFor(false, e) || KeyOf(e) == None;
    hide *;
    var sent := Wanted(false, log[since..]);
    WantedAppend(false, log, since, e);
    LastWithOneMore(prime + sent, e, key);
    assert prime + (sent + [e]) == prime + sent + [e] && sent + [] == sent;
  }

  lemma PrimedAtOnce(log: seq<Sse>, c: Cache, prime: seq<Sse>, key: Key)
    requires Agrees(c, log) && Primes(prime, c) && Latest(log, key).Some?
    ensures LastWith(prime, key) == Latest(log, key)
  {
    hide KeyOf, Rank, LastWith, Lists;
    var keys :| Lists(prime, keys, c) && Covers(keys, c);
    AgreeingIsWellKeyed(c, log);
    LastWithListed(prime, keys, c, key);
  }

  /** Agreement: whoever was primed with the cache at some time and then sent every regular event since has, of each
      key cached now, the event that is cached now as its last. */
  lemma {:induction false} PrimedAgrees(log: seq<Sse>, since: nat, c: Cache, prime: seq<Sse>, key: Key)
    requires since <= |log| && Agrees(c, log[..since]) && Primes(prime, c)
    requires Latest(log, key).Some?
    ensures LastWith(prime + Wanted(false, log[since..]), key) == Latest(log, key)
  {
    if since == |log| {
      assert log[..since] == log && prime + Wanted(false, log[since..]) == prime;
      PrimedAtOnce(log, c, prime, key);
    } else {
      hide *;
      var shorter, e := log[..|log| - 1], log[|log| - 1];
      assert log == shorter + [e] && log[..since] == shorter[..since];
      LatestOneMore(shorter, e, key);
      SentOneMore(prime, shorter, since, e, key);
      if KeyOf(e) != Some(key) {
        PrimedAgrees(shorter, since, c, prime, key);
      }
    }
  }

  /** What the cache says of the history, without replaying it: an entry is cached exactly when it is in the log, and
      nothing later has its key or makes it stale. */
  lemma {:induction false} CachedMeans(log: seq<Sse>, key: Key, e: Sse)
    ensures Latest(log, key) == Some(e) <==> exists i: nat :: LastFor(log, i, key, e)
  {
    if log != [] {
      var shorter, last := log[..|log| - 1], log[|log| - 1];
      hide KeyOf, Clears;
      CachedMeans(shorter, key, e);
      if Latest(log, key) == Some(e) {
        if KeyOf(last) == Some(key) {
          assert LastFor(log, |log| - 1, key, e);
        } else {
          var i: nat :| LastFor(shorter, i, key, e);
          assert LastFor(log, i, key, e);
        }
      }
      if i: nat :| LastFor(log, i, key, e) {
        if i < |shorter| {
          assert !Disturbs(last, key);
          assert LastFor(shorter, i, key, e);
        }
      }
    }
  }

  /** The event at `i` has the key, and nothing later has it or makes it stale. */
  predicate LastFor(log: seq<Sse>, i: nat, key: Key, e: Sse) {
    i < |log| && log[i] == e && KeyOf(e) == Some(key) && forall j :: i < j < |log| ==> !Disturbs(log[j], key)
  }

  predicate Disturbs(e: Sse, key: Key) {
    KeyOf(e) == Some(key) || Clears(e, key)
  }

  lemma Sticky(name: EventName)
    ensures name in STICKY_EVENTS <==> name !in {Log, Msg, MsgSend, Response, CorrPacket, Packet}
  {
    var all := STICKY_EVENTS;
    assert all[0] == State && all[1] == Receiver && all[2] == Speed && all[3] == Corrections && all[4] == InitialPos;
    assert all[5] == NMEAPosition && all[6] == Time && all[7] == EpochPVT && all[8] == BaseARP;
  }

  /** Which session events are cached: all but the log, packets and responses, and of the messages those of two
      kinds. */
  lemma CachedKinds(ev: Event)
    ensures !ev.MsgEvent? ==>
      (KeyOf(Session(ev)) == None <==> ev.Name() in {Log, Msg, MsgSend, Response, CorrPacket, Packet})
    ensures ev.MsgEvent? ==> (KeyOf(Session(ev)) == None <==> ev.kind != "leapSecond" && ev.kind != "survey")
  {
    Sticky(ev.Name());
  }

  /** Nothing from before the latest disconnect is cached but the connection state, the corrections state and the
      write seat; and no base position from before the corrections last started or stopped. */
  lemma CachedIsCurrent(log: seq<Sse>, key: Key, d: nat)
    requires d < |log| && Latest(log, key).Some?
    requires (IsDisconnect(log[d]) && key !in {Seat, Named(State), Named(Corrections)})
      || (StartsOrStopsCorrections(log[d]) && key == Named(BaseARP))
    ensures exists i :: d < i < |log| && log[i] == Latest(log, key).value
  {
    var e := Latest(log, key).value;
    CachedMeans(log, key, e);
    var i: nat :| LastFor(log, i, key, e);
    if d > i {
      assert Disturbs(log[d], key);
    }
  }
}
