/** Coordination of navigation epochs across protocols (gps/gpsprot/msg.go, NavEpochManager). */
module Epochs {
  import opened Options
  import opened EpochMerge

  /** A protocol processor. */
  type Processor = nat

  /** The processors with a contribution under way and the epoch each is for. */
  type Active = map<Processor, nat>

  /** `active`, `enders` and `last` are the manager's fields; `batches` are the contributions flushed together so far,
      `active` holding the epoch each contribution was started for. */
  datatype Manager = Manager(active: Active, enders: set<Processor>, last: Option<Processor>, batches: seq<Active>)

  const NEW_MANAGER := Manager(map[], {}, None, [])

  /** The sole contributor, if it is one that ends its own epochs. */
  function SoleEnder(a: Active, enders: set<Processor>): (r: Option<Processor>)
    ensures r.Some? ==> a.Keys == {r.value} && r.value in enders
    ensures r == None ==> forall f :: f in enders ==> a.Keys != {f}
  {
    if exists f :: f in enders && a.Keys == {f} then
      var f :| f in enders && a.Keys == {f}; Some(f)
    else None
  }

  /** All contributions under way are flushed together. */
  function Flush(m: Manager): Manager {
    Manager(map[], m.enders, SoleEnder(m.active, m.enders),
      if m.active == map[] then m.batches else m.batches + [m.active])
  }

  predicate StartFlushes(m: Manager, f: Processor) {
    f in m.active || (m.active != map[] && m.last == Some(f))
  }

  predicate EndFlushes(m: Manager, f: Processor) {
    m.active.Keys == {f} && m.last == Some(f)
  }

  /** What the start of an epoch of `f` leaves for its contribution to join. */
  function Joinable(m: Manager, f: Processor): Manager {
    if !StartFlushes(m, f) then m
    else if f in m.active then Flush(m)
    else Flush(m).(last := None)
  }

  function Start(m: Manager, f: Processor, epoch: nat): Manager {
    var n := Joinable(m, f);
    n.(active := n.active[f := epoch])
  }

  function EndProtocol(m: Manager, f: Processor): Manager {
    var n := m.(enders := m.enders + {f});
    if EndFlushes(m, f) then Flush(n) else n
  }

  class NavEpochManager {
    var active: set<Processor>
    var protocolEpochFlushers: set<Processor>
    var lastEpochSingleProtocol: Option<Processor>

    /** The epochs of the contributions under way, and what was flushed. */
    ghost var epochs: Active
    ghost var batches: seq<Active>

    ghost predicate Valid()
      reads this
    {
      active == epochs.Keys
    }

    ghost function State(): Manager
      reads this
    {
      Manager(epochs, protocolEpochFlushers, lastEpochSingleProtocol, batches)
    }

    constructor ()
      ensures Valid() && State() == NEW_MANAGER
    {
      active, protocolEpochFlushers, lastEpochSingleProtocol := {}, {}, None;
      epochs, batches := map[], [];
    }

    /** Here and below, `flushed` is what each processor returns if it is flushed, and `e` is what is emitted. */
    method EpochStarted(f: Processor, flushed: Processor -> Contribution, ghost epoch: nat)
      returns (e: Option<Emission>)
      requires Valid()
      modifies this
      ensures Valid() && State() == Start(old(State()), f, epoch)
      ensures if StartFlushes(old(State()), f) then Emits(old(active), flushed, e) else e == None
    {
      hide Joinable, StartFlushes, Emits;
      e := FlushBefore(f, flushed);
      active := active + {f};
      epochs := epochs[f := epoch];
    }

    method FlushBefore(f: Processor, flushed: Processor -> Contribution) returns (e: Option<Emission>)
      requires Valid()
      modifies this
      ensures Valid() && State() == Joinable(old(State()), f)
      ensures if StartFlushes(old(State()), f) then Emits(old(active), flushed, e) else e == None
    {
      NoKeys(epochs);
      hide Flush, Emits;
      e := None;
      if f in active {
        e := FlushActive(flushed);
      } else if |active| > 0 && lastEpochSingleProtocol == Some(f) {
        e := FlushActive(flushed);
        lastEpochSingleProtocol := None;
      }
    }

    method EndOfEpoch(flushed: Processor -> Contribution) returns (e: Option<Emission>)
      requires Valid()
      modifies this
      ensures Valid() && State() == Flush(old(State())) && Emits(old(active), flushed, e)
    {
      e := FlushActive(flushed);
    }

    method EndOfProtocolEpoch(f: Processor, flushed: Processor -> Contribution) returns (e: Option<Emission>)
      requires Valid()
      modifies this
      ensures Valid() && State() == EndProtocol(old(State()), f)
      ensures if EndFlushes(old(State()), f) then Emits(old(active), flushed, e) else e == None
    {
      hide Emits;
      protocolEpochFlushers := protocolEpochFlushers + {f};
      if f in active {
        SoleMember(active, f);
      }
      if f !in active || |active| != 1 || lastEpochSingleProtocol != Some(f) {
        return None;
      }
      e := FlushActive(flushed);
    }

    method FlushActive(flushed: Processor -> Contribution) returns (e: Option<Emission>)
      requires Valid()
      modifies this
      ensures Valid() && State() == Flush(old(State())) && Emits(old(active), flushed, e)
    {
      hide Emits;
      lastEpochSingleProtocol := None;
      NoKeys(epochs);
      if |active| == 1 {
        var f :| f in active;
        SoleMember(active, f);
        if f in protocolEpochFlushers {
          lastEpochSingleProtocol := Some(f);
        }
      }
      assert lastEpochSingleProtocol == SoleEnder(epochs, protocolEpochFlushers);
      batches := if active == {} then batches else batches + [epochs];
      e := FlushAndEmit(active, flushed);
      active, epochs := {}, map[];
    }
  }

  lemma NoKeys(a: Active)
    ensures a == map[] <==> |a.Keys| == 0
  {
    if |a.Keys| == 0 {
      assert a.Keys == {};
    }
  }

  lemma SoleMember(s: set<Processor>, f: Processor)
    requires f in s
    ensures |s| == 1 <==> s == {f}
  {
    if |s| == 1 {
      assert |s - {f}| == 0;
    }
  }

  // ---- Whole runs ----

  datatype Event = Started(f: Processor, epoch: nat) | ProtocolEnded(f: Processor) | EpochEnded

  function Apply(m: Manager, e: Event): Manager {
    match e
    case Started(f, epoch) => Start(m, f, epoch)
    case ProtocolEnded(f) => EndProtocol(m, f)
    case EpochEnded => Flush(m)
  }

  function Run(m: Manager, es: seq<Event>): Manager {
    if es == [] then m else Apply(Run(m, es[..|es| - 1]), es[|es| - 1])
  }

  /** The epochs processor `f` started contributions for, in order. */
  function StartsOf(es: seq<Event>, f: Processor): seq<nat> {
    if es == [] then []
    else
      var e := es[|es| - 1];
      StartsOf(es[..|es| - 1], f) + if e.Started? && e.f == f then [e.epoch] else []
  }

  /** The epochs of the contributions of `f` that were flushed, in order. */
  function FlushesOf(batches: seq<Active>, f: Processor): seq<nat> {
    if batches == [] then []
    else
      var b := batches[|batches| - 1];
      FlushesOf(batches[..|batches| - 1], f) + if f in b then [b[f]] else []
  }

  function Pending(m: Manager, f: Processor): seq<nat> {
    FlushesOf(m.batches, f) + if f in m.active then [m.active[f]] else []
  }

  /** Conservation: every contribution started is flushed exactly once and in order, but for one that may still be
      under way. */
  lemma {:induction false} ContributionsConserved(es: seq<Event>, f: Processor)
    ensures StartsOf(es, f) == Pending(Run(NEW_MANAGER, es), f)
  {
    if es != [] {
      ContributionsConserved(es[..|es| - 1], f);
      StepConserves(Run(NEW_MANAGER, es[..|es| - 1]), es[|es| - 1], f);
    }
  }

  lemma FlushConserves(m: Manager, f: Processor)
    ensures Pending(Flush(m), f) == Pending(m, f) && Flush(m).active == map[]
  {
    if m.active != map[] {
      assert (m.batches + [m.active])[..|m.batches|] == m.batches;
    }
  }

  lemma StepConserves(m: Manager, e: Event, f: Processor)
    ensures Pending(Apply(m, e), f) == Pending(m, f) + if e.Started? && e.f == f then [e.epoch] else []
  {
    FlushConserves(m, f);
    hide Flush, FlushesOf;
    if e.Started? {
      var n := if e.f in m.active || (m.active != map[] && m.last == Some(e.f)) then Flush(m) else m;
      assert Pending(n, f) == Pending(m, f) && e.f !in n.active;
      assert Apply(m, e).active == n.active[e.f := e.epoch] && Apply(m, e).batches == n.batches;
    } else if e.ProtocolEnded? {
      FlushConserves(m.(enders := m.enders + {e.f}), f);
    }
  }

  // ---- Recovery when a second protocol joins one that ends its own epochs ----

  function AloneEpoch(p: Processor, k: nat): seq<Event> {
    [Started(p, k), ProtocolEnded(p)]
  }

  function JointEpoch(p: Processor, n: Processor, k: nat): seq<Event> {
    [Started(p, k), ProtocolEnded(p), Started(n, k)]
  }

  /** `a` epochs of `p` alone and then `b` epochs of `p` and `n`. */
  function Epochs(p: Processor, n: Processor, a: nat, b: nat): seq<Event> {
    if b > 0 then Epochs(p, n, a, b - 1) + JointEpoch(p, n, a + b - 1)
    else if a > 0 then Epochs(p, n, a - 1, 0) + AloneEpoch(p, a - 1)
    else []
  }

  /** The contributions of `p` alone to the first `a` epochs. */
  function AloneBatches(p: Processor, a: nat): seq<Active> {
    if a == 0 then [] else AloneBatches(p, a - 1) + [map[p := a - 1]]
  }

  /** The joint contributions to epochs `from` up to `to`. */
  function JointBatches(p: Processor, n: Processor, from: nat, to: nat): seq<Active> {
    if to <= from then [] else JointBatches(p, n, from, to - 1) + [map[p := to - 1, n := to - 1]]
  }

  lemma {:induction false} RunConcat(m: Manager, a: seq<Event>, b: seq<Event>)
    ensures Run(m, a + b) == Run(Run(m, a), b)
  {
    if b == [] {
      assert a + b == a;
    } else {
      assert (a + b)[..|a + b| - 1] == a + b[..|b| - 1];
      RunConcat(m, a, b[..|b| - 1]);
    }
  }

  lemma RunOne(m: Manager, e: Event)
    ensures Run(m, [e]) == Apply(m, e)
  {
    assert [e][..0] == [];
  }

  lemma RunAlone(m: Manager, p: Processor, k: nat)
    ensures Run(m, AloneEpoch(p, k)) == EndProtocol(Start(m, p, k), p)
  {
    hide Start, EndProtocol;
    assert AloneEpoch(p, k) == [Started(p, k)] + [ProtocolEnded(p)];
    RunConcat(m, [Started(p, k)], [ProtocolEnded(p)]);
    RunOne(m, Started(p, k));
    RunOne(Start(m, p, k), ProtocolEnded(p));
  }

  lemma RunJoint(m: Manager, p: Processor, n: Processor, k: nat)
    ensures Run(m, JointEpoch(p, n, k)) == Start(EndProtocol(Start(m, p, k), p), n, k)
  {
    hide Start, EndProtocol;
    assert JointEpoch(p, n, k) == AloneEpoch(p, k) + [Started(n, k)];
    RunConcat(m, AloneEpoch(p, k), [Started(n, k)]);
    RunAlone(m, p, k);
    RunOne(EndProtocol(Start(m, p, k), p), Started(n, k));
  }

  /** The manager after `a` epochs of `p` alone and then `b` epochs of `p` and `n`. */
  function Expected(p: Processor, n: Processor, a: nat, b: nat): Manager {
    var last := a + b - 1;
    if a + b == 0 then NEW_MANAGER
    else if b == 0 then
      if a == 1 then Manager(map[p := 0], {p}, None, []) else Manager(map[], {p}, Some(p), AloneBatches(p, a))
    else if a == 0 then Manager(map[p := last, n := last], {p}, None, JointBatches(p, n, 0, last))
    else if b == 1 then Manager(map[n := a], {p}, Some(p), AloneBatches(p, a + 1))
    else
      Manager(map[p := last, n := last], {p}, None,
        AloneBatches(p, a + 1) + [map[n := a]] + JointBatches(p, n, a + 1, last))
  }

  lemma FlushSole(m: Manager, f: Processor)
    requires m.active.Keys == {f}
    ensures Flush(m) == Manager(map[], m.enders, if f in m.enders then Some(f) else None, m.batches + [m.active])
  {
    if f in m.enders {
      var g := SoleEnder(m.active, m.enders).value;
      assert g in m.active.Keys;
    }
  }

  lemma FlushTwo(m: Manager, f: Processor, g: Processor)
    requires f in m.active && g in m.active && f != g
    ensures Flush(m) == Manager(map[], m.enders, None, m.batches + [m.active])
  {
  }

  lemma AloneStep(p: Processor, n: Processor, a: nat)
    requires p != n && a > 0
    ensures EndProtocol(Start(Expected(p, n, a - 1, 0), p, a - 1), p) == Expected(p, n, a, 0)
  {
    hide Flush;
    var m := Expected(p, n, a - 1, 0);
    var started := Start(m, p, a - 1);
    assert AloneBatches(p, 1) == [map[p := 0]];
    if a == 2 {
      FlushSole(m, p);
      assert started == Manager(map[p := 1], {p}, Some(p), [map[p := 0]]);
    }
    if a >= 2 {
      FlushSole(started.(enders := started.enders + {p}), p);
      assert started.enders + {p} == {p};
    }
  }

  /** The two-protocol epochs when `p` was never alone. */
  lemma JointFromStart(p: Processor, n: Processor, b: nat)
    requires p != n && b > 0
    ensures Start(EndProtocol(Start(Expected(p, n, 0, b - 1), p, b - 1), p), n, b - 1) == Expected(p, n, 0, b)
  {
    hide Flush;
    var m := Expected(p, n, 0, b - 1);
    var started := Start(m, p, b - 1);
    if b > 1 {
      FlushTwo(m, p, n);
      assert started == Manager(map[p := b - 1], {p}, None, JointBatches(p, n, 0, b - 1));
    } else {
      assert started == Manager(map[p := 0], {}, None, []);
    }
    assert EndProtocol(started, p) == started.(enders := {p});
    assert map[p := b - 1][n := b - 1] == map[p := b - 1, n := b - 1];
  }

  /** The first two-protocol epoch after `p` was alone: it is split. */
  lemma FirstJoint(p: Processor, n: Processor, a: nat)
    requires p != n && a > 0
    ensures Start(EndProtocol(Start(Expected(p, n, a, 0), p, a), p), n, a) == Expected(p, n, a, 1)
  {
    hide Flush;
    var m := Expected(p, n, a, 0);
    var started := Start(m, p, a);
    assert AloneBatches(p, 1) == [map[p := 0]];
    if a == 1 {
      FlushSole(m, p);
    }
    assert started == Manager(map[p := a], {p}, Some(p), AloneBatches(p, a));
    assert {p} + {p} == {p};
    FlushSole(started, p);
    assert EndProtocol(started, p) == Manager(map[], {p}, Some(p), AloneBatches(p, a + 1));
  }

  /** The second one: the manager learns that both take part. */
  lemma SecondJoint(p: Processor, n: Processor, a: nat)
    requires p != n && a > 0
    ensures Start(EndProtocol(Start(Expected(p, n, a, 1), p, a + 1), p), n, a + 1) == Expected(p, n, a, 2)
  {
    hide Flush, AloneBatches;
    var m := Expected(p, n, a, 1);
    FlushSole(m, n);
    var batches := AloneBatches(p, a + 1) + [map[n := a]];
    assert Start(m, p, a + 1) == Manager(map[p := a + 1], {p}, None, batches);
    assert {p} + {p} == {p};
    assert batches + JointBatches(p, n, a + 1, a + 1) == batches;
    assert map[p := a + 1][n := a + 1] == map[p := a + 1, n := a + 1];
  }

  lemma LaterJoint(p: Processor, n: Processor, a: nat, b: nat)
    requires p != n && a > 0 && b > 2
    ensures Start(EndProtocol(Start(Expected(p, n, a, b - 1), p, a + b - 1), p), n, a + b - 1) == Expected(p, n, a, b)
  {
    hide Flush, AloneBatches;
    var k := a + b - 1;
    var m := Expected(p, n, a, b - 1);
    FlushTwo(m, p, n);
    var split := AloneBatches(p, a + 1) + [map[n := a]];
    assert split + JointBatches(p, n, a + 1, k) == m.batches + [m.active];
    assert Start(m, p, k) == Manager(map[p := k], {p}, None, split + JointBatches(p, n, a + 1, k));
    assert {p} + {p} == {p};
    assert map[p := k][n := k] == map[p := k, n := k];
  }

  lemma JointStep(p: Processor, n: Processor, a: nat, b: nat)
    requires p != n && b > 0
    ensures Start(EndProtocol(Start(Expected(p, n, a, b - 1), p, a + b - 1), p), n, a + b - 1) == Expected(p, n, a, b)
  {
    hide *;
    if a == 0 {
      JointFromStart(p, n, b);
    } else if b == 1 {
      FirstJoint(p, n, a);
    } else if b == 2 {
      SecondJoint(p, n, a);
    } else {
      LaterJoint(p, n, a, b);
    }
  }

  lemma {:induction false} RunOfEpochs(p: Processor, n: Processor, a: nat, b: nat)
    requires p != n
    ensures Run(NEW_MANAGER, Epochs(p, n, a, b)) == Expected(p, n, a, b)
  {
    hide Start, EndProtocol, Expected, AloneEpoch, JointEpoch;
    if b > 0 {
      RunOfEpochs(p, n, a, b - 1);
      RunConcat(NEW_MANAGER, Epochs(p, n, a, b - 1), JointEpoch(p, n, a + b - 1));
      RunJoint(Expected(p, n, a, b - 1), p, n, a + b - 1);
      JointStep(p, n, a, b);
    } else if a > 0 {
      RunOfEpochs(p, n, a - 1, 0);
      RunConcat(NEW_MANAGER, Epochs(p, n, a - 1, 0), AloneEpoch(p, a - 1));
      RunAlone(Expected(p, n, a - 1, 0), p, a - 1);
      AloneStep(p, n, a);
    } else {
      ExpectedAtStart(p, n);
    }
  }

  lemma ExpectedAtStart(p: Processor, n: Processor)
    ensures Expected(p, n, 0, 0) == NEW_MANAGER
  {
  }

  /** Recovery: only the first two-protocol epoch can be split, and only if `p` had been alone before it. Each later
      epoch's two contributions are flushed together, the last one's with the next boundary. */
  lemma OnlyFirstJointEpochIsSplit(p: Processor, n: Processor, a: nat, b: nat, k: nat)
    requires p != n && a <= k < a + b && (k > a || a == 0)
    ensures var m := Run(NEW_MANAGER, Epochs(p, n, a, b));
      if k < a + b - 1 then map[p := k, n := k] in m.batches else m.active == map[p := k, n := k]
  {
    RunOfEpochs(p, n, a, b);
    hide Run;
    if k < a + b - 1 {
      JointBatchIn(p, n, if a == 0 then 0 else a + 1, a + b - 1, k);
    }
  }

  lemma {:induction false} JointBatchIn(p: Processor, n: Processor, from: nat, to: nat, k: nat)
    requires from <= k < to
    ensures map[p := k, n := k] in JointBatches(p, n, from, to)
  {
    if k < to - 1 {
      JointBatchIn(p, n, from, to - 1, k);
    }
  }

  /** The first one is split when `p` had been alone: a batch of its own for `p`, and one for `n`. */
  lemma FirstJointEpochIsSplit(p: Processor, n: Processor, a: nat, b: nat)
    requires p != n && a > 0 && b > 0
    ensures var m := Run(NEW_MANAGER, Epochs(p, n, a, b));
      map[p := a] in m.batches && if b == 1 then m.active == map[n := a] else map[n := a] in m.batches
  {
    RunOfEpochs(p, n, a, b);
    hide Run;
    assert AloneBatches(p, a + 1)[|AloneBatches(p, a + 1)| - 1] == map[p := a];
  }

  // ---- Joint epochs from any state ----

  function Joint(m: Manager, p: Processor, n: Processor, k: nat): Manager {
    Start(EndProtocol(Start(m, p, k), p), n, k)
  }

  /** `b` joint epochs, numbered from `k`. */
  function JointEpochs(p: Processor, n: Processor, k: nat, b: nat): seq<Event> {
    if b == 0 then [] else JointEpochs(p, n, k, b - 1) + JointEpoch(p, n, k + b - 1)
  }

  /** `p` is not taking part and the manager takes what `n` has started, or will start next, for an epoch of its own:
      each contribution of `p` will be flushed with the one `n` made an epoch earlier. */
  predicate Behind(m: Manager, p: Processor, n: Processor) {
    p !in m.active && if n in m.active then m.last != Some(p) else m.last == Some(n)
  }

  /** The contributions of both to epoch `k` are under way, so the next boundary flushes them together. */
  predicate InStep(m: Manager, p: Processor, n: Processor, k: nat) {
    p in m.active && n in m.active && m.active[p] == m.active[n] == k
  }

  /** Only `n` is under way, but the manager knows that `p` ended the epoch before on its own. */
  predicate Split(m: Manager, p: Processor, n: Processor, k: nat) {
    m.active == map[n := k] && m.last == Some(p)
  }

  predicate OutOfStep(m: Manager, p: Processor, n: Processor, k: nat) {
    m.active == map[n := k] && m.last == None
  }

  lemma FlushAnything(m: Manager)
    ensures Flush(m).active == map[] && Flush(m).enders == m.enders
    ensures Flush(m).last.Some? ==> m.active.Keys == {Flush(m).last.value}
  {
  }

  /** What the part of `p` makes of any state. */
  lemma FirstPart(m: Manager, p: Processor, k: nat)
    ensures var r := EndProtocol(Start(m, p, k), p);
      if p in m.active && Flush(m).last == Some(p) then r.active == map[] && r.last == Some(p)
      else if p in m.active || (m.active != map[] && m.last == Some(p)) then r.active == map[p := k] && r.last == None
      else if m.active == map[] && m.last == Some(p) then r.active == map[] && r.last == Some(p)
      else r.active == m.active[p := k] && r.last == m.last
  {
    hide Flush;
    FlushAnything(m);
    var started := Start(m, p, k);
    if p in m.active && Flush(m).last.Some? {
      assert p in m.active.Keys;
    }
    if started.active.Keys == {p} {
      FlushSole(started.(enders := started.enders + {p}), p);
    }
    if m.active == map[] {
      assert m.active[p := k] == map[p := k];
    } else if p !in m.active && m.last != Some(p) {
      NoKeys(m.active);
      var q :| q in m.active;
      assert q in started.active.Keys;
    }
  }

  /** What one joint epoch makes of any state. */
  lemma OneJointEpoch(m: Manager, p: Processor, n: Processor, k: nat)
    requires p != n
    ensures Behind(m, p, n) ==> OutOfStep(Joint(m, p, n, k), p, n, k)
    ensures !Behind(m, p, n) ==> InStep(Joint(m, p, n, k), p, n, k) || Split(Joint(m, p, n, k), p, n, k)
  {
    FirstPart(m, p, k);
    var r := EndProtocol(Start(m, p, k), p);
    FlushAnything(r);
    if n in m.active && p !in m.active && m.last != Some(p) {
      FlushTwo(r, p, n);
    }
    assert map[][n := k] == map[n := k];
    hide Flush, EndProtocol;
  }

  lemma AfterInStep(m: Manager, p: Processor, n: Processor, k: nat)
    requires p != n && InStep(m, p, n, k)
    ensures Joint(m, p, n, k + 1).batches == m.batches + [m.active]
    ensures Joint(m, p, n, k + 1).active == map[p := k + 1, n := k + 1]
  {
    hide Flush;
    FlushTwo(m, p, n);
    var started := Start(m, p, k + 1);
    assert started == Manager(map[p := k + 1], m.enders, None, m.batches + [m.active]);
    assert map[p := k + 1][n := k + 1] == map[p := k + 1, n := k + 1];
  }

  lemma AfterSplit(m: Manager, p: Processor, n: Processor, k: nat)
    requires p != n && Split(m, p, n, k)
    ensures Joint(m, p, n, k + 1).active == map[p := k + 1, n := k + 1]
  {
    hide Flush;
    FlushSole(m, n);
    assert map[p := k + 1][n := k + 1] == map[p := k + 1, n := k + 1];
  }

  lemma AfterOutOfStep(m: Manager, p: Processor, n: Processor, k: nat)
    requires p != n && OutOfStep(m, p, n, k)
    ensures OutOfStep(Joint(m, p, n, k + 1), p, n, k + 1)
    ensures Joint(m, p, n, k + 1).batches == m.batches + [map[n := k, p := k + 1]]
  {
    hide Flush;
    var started := Start(m, p, k + 1);
    assert started.active == map[n := k, p := k + 1];
    assert n in started.active.Keys;
    var ended := EndProtocol(started, p);
    FlushTwo(ended, p, n);
    assert map[][n := k + 1] == map[n := k + 1];
  }

  lemma NextJointEpoch(m: Manager, p: Processor, n: Processor, k: nat, b: nat)
    ensures Run(m, JointEpochs(p, n, k, b + 1)) == Joint(Run(m, JointEpochs(p, n, k, b)), p, n, k + b)
  {
    hide Start, EndProtocol, JointEpoch;
    RunConcat(m, JointEpochs(p, n, k, b), JointEpoch(p, n, k + b));
    RunJoint(Run(m, JointEpochs(p, n, k, b)), p, n, k + b);
  }

  /** From a state that is behind, every contribution of `p` but the first is flushed with the one `n` made an epoch
      earlier. */
  lemma {:induction false} StaysBehind(m: Manager, p: Processor, n: Processor, k: nat, b: nat)
    requires p != n && Behind(m, p, n) && b > 0
    ensures OutOfStep(Run(m, JointEpochs(p, n, k, b)), p, n, k + b - 1)
    ensures b > 1 ==>
      (var last := Run(m, JointEpochs(p, n, k, b - 1)).batches;
       Run(m, JointEpochs(p, n, k, b)).batches == last + [map[n := k + b - 2, p := k + b - 1]])
  {
    hide *;
    NextJointEpoch(m, p, n, k, b - 1);
    if b == 1 {
      NoJointEpochs(m, p, n, k);
      OneJointEpoch(m, p, n, k);
    } else {
      StaysBehind(m, p, n, k, b - 1);
      AfterOutOfStep(Run(m, JointEpochs(p, n, k, b - 1)), p, n, k + b - 2);
    }
  }

  lemma NoJointEpochs(m: Manager, p: Processor, n: Processor, k: nat)
    ensures Run(m, JointEpochs(p, n, k, 0)) == m
  {
  }

  /** From any other state, the contributions to every epoch but the first are under way together when it ends, and
      are flushed together when the next one starts. */
  lemma {:induction false} StaysInStep(m: Manager, p: Processor, n: Processor, k: nat, b: nat)
    requires p != n && !Behind(m, p, n) && b > 0
    ensures var r := Run(m, JointEpochs(p, n, k, b));
      if b == 1 then InStep(r, p, n, k) || Split(r, p, n, k) else r.active == map[p := k + b - 1, n := k + b - 1]
    ensures b > 2 ==>
      (var last := Run(m, JointEpochs(p, n, k, b - 1)).batches;
       Run(m, JointEpochs(p, n, k, b)).batches == last + [map[p := k + b - 2, n := k + b - 2]])
  {
    hide Run, JointEpochs, Start, EndProtocol, Flush, Behind, Joint;
    NextJointEpoch(m, p, n, k, b - 1);
    if b == 1 {
      NoJointEpochs(m, p, n, k);
      OneJointEpoch(m, p, n, k);
    } else {
      StaysInStep(m, p, n, k, b - 1);
      var r := Run(m, JointEpochs(p, n, k, b - 1));
      if b == 2 && Split(r, p, n, k) {
        AfterSplit(r, p, n, k);
      } else {
        AfterInStep(r, p, n, k + b - 2);
      }
    }
  }

  /** Whatever came before, the contributions to every joint epoch after the first are kept together if and only if
      the manager is not behind when the joint epochs begin. */
  lemma TogetherUnlessBehind(m: Manager, p: Processor, n: Processor, k: nat)
    requires p != n
    ensures (forall b: nat :: b >= 2 ==> InStep(Run(m, JointEpochs(p, n, k, b)), p, n, k + b - 1)) <==> !Behind(m, p, n)
  {
    hide Run, JointEpochs, Behind;
    if Behind(m, p, n) {
      StaysBehind(m, p, n, k, 2);
      assert !InStep(Run(m, JointEpochs(p, n, k, 2)), p, n, k + 2 - 1);
    } else {
      forall b: nat | b >= 2 ensures InStep(Run(m, JointEpochs(p, n, k, b)), p, n, k + b - 1) {
        StaysInStep(m, p, n, k, b);
      }
    }
  }

  /** A start of `n` alone leaves a fresh manager behind. */
  lemma LoneStartLeavesBehind(p: Processor, n: Processor)
    requires p != n
    ensures Behind(Run(NEW_MANAGER, [Started(n, 0)]), p, n)
  {
    RunOne(NEW_MANAGER, Started(n, 0));
  }
}
