/** What several protocols contribute to one navigation epoch, merged and emitted (gps/gpsprot/msg.go, MergeNavEpoch and
    the end of flush). */
module EpochMerge {
  import opened Sequences
  import opened Options

  const FIX_LEVEL_CODE: nat := 4

  /** Zero and the empty tag mean unset; `optional` holds the optional fields that are set, by name; the masks are the
      sets of their bits. */
  datatype NavEpochMsg = NavEpochMsg(
    tag: string, fixLevel: nat, solutionDim: nat, optional: map<string, int>,
    correction: set<nat>, auxSrc: set<nat>, gnssUsed: set<nat>, bandsUsed: set<nat>)

  /** What a processor returns when it is flushed. */
  datatype Contribution = Contribution(msg: Option<NavEpochMsg>, priority: nat, handler: Option<nat>)

  datatype Emission = Emission(handler: nat, msg: NavEpochMsg)

  function Present(msgs: seq<Option<NavEpochMsg>>): seq<NavEpochMsg> {
    if msgs == [] then []
    else Present(msgs[..|msgs| - 1]) + match msgs[|msgs| - 1] case Some(m) => [m] case None => []
  }

  /** One message takes from another what it has not. */
  function FillIn(dst: NavEpochMsg, m: NavEpochMsg): NavEpochMsg {
    NavEpochMsg(
      if dst.tag == "" then m.tag else dst.tag,
      if dst.fixLevel == 0 then m.fixLevel else dst.fixLevel,
      if dst.solutionDim == 0 then m.solutionDim else dst.solutionDim,
      m.optional + dst.optional,
      dst.correction + m.correction, dst.auxSrc + m.auxSrc, dst.gnssUsed + m.gnssUsed, dst.bandsUsed + m.bandsUsed)
  }

  function Gathered(ms: seq<NavEpochMsg>): NavEpochMsg
    requires ms != []
  {
    if |ms| == 1 then ms[0] else FillIn(Gathered(ms[..|ms| - 1]), ms[|ms| - 1])
  }

  /** A solution dimension means nothing below a code solution. */
  function Merge(ms: seq<NavEpochMsg>): NavEpochMsg
    requires ms != []
  {
    var g := Gathered(ms);
    if g.fixLevel < FIX_LEVEL_CODE then g.(solutionDim := 0) else g
  }

  method MergeNavEpoch(msgs: seq<Option<NavEpochMsg>>) returns (dst: Option<NavEpochMsg>)
    ensures dst == if Present(msgs) == [] then None else Some(Merge(Present(msgs)))
  {
    dst := None;
    for i := 0 to |msgs|
      invariant dst == if Present(msgs[..i]) == [] then None else Some(Gathered(Present(msgs[..i])))
    {
      hide Gathered, FillIn;
      PresentOneMore(msgs, i);
      if msgs[i].Some? {
        GatheredOneMore(Present(msgs[..i]), msgs[i].value);
        dst := Some(if dst == None then msgs[i].value else FillIn(dst.value, msgs[i].value));
      }
    }
    assert msgs[..|msgs|] == msgs;
    if dst.Some? && dst.value.fixLevel < FIX_LEVEL_CODE {
      dst := Some(dst.value.(solutionDim := 0));
    }
  }

  lemma PresentOneMore(msgs: seq<Option<NavEpochMsg>>, i: nat)
    requires i < |msgs|
    ensures msgs[i] == None ==> Present(msgs[..i + 1]) == Present(msgs[..i])
    ensures msgs[i].Some? ==> Present(msgs[..i + 1]) == Present(msgs[..i]) + [msgs[i].value]
  {
    assert msgs[..i + 1][..i] == msgs[..i];
  }

  lemma GatheredOneMore(ms: seq<NavEpochMsg>, m: NavEpochMsg)
    ensures Gathered(ms + [m]) == if ms == [] then m else FillIn(Gathered(ms), m)
  {
    assert (ms + [m])[..|ms|] == ms;
  }

  /** `v` is the first of the values that is set. */
  ghost predicate FirstSet<T>(values: seq<T>, unset: T, v: T) {
    if v == unset then forall x :: x in values ==> x == unset
    else exists i :: 0 <= i < |values| && values[i] == v && forall x :: x in values[..i] ==> x == unset
  }

  lemma FirstSetOneMore<T>(values: seq<T>, x: T, unset: T, v: T)
    requires FirstSet(values, unset, v)
    ensures FirstSet(values + [x], unset, if v == unset then x else v)
  {
    var all := values + [x];
    if v != unset {
      var i :| 0 <= i < |values| && values[i] == v && forall y :: y in values[..i] ==> y == unset;
      assert all[i] == v && all[..i] == values[..i];
    } else if x != unset {
      assert all[|values|] == x && all[..|values|] == values;
    }
  }

  function Tags(ms: seq<NavEpochMsg>): seq<string> {
    seq(|ms|, i requires 0 <= i < |ms| => ms[i].tag)
  }

  function FixLevels(ms: seq<NavEpochMsg>): seq<nat> {
    seq(|ms|, i requires 0 <= i < |ms| => ms[i].fixLevel)
  }

  function SolutionDims(ms: seq<NavEpochMsg>): seq<nat> {
    seq(|ms|, i requires 0 <= i < |ms| => ms[i].solutionDim)
  }

  /** The optional field's value in each message, None where it is not set. */
  function Values(ms: seq<NavEpochMsg>, name: string): seq<Option<int>> {
    seq(|ms|, i requires 0 <= i < |ms| => ValueIn(ms[i], name))
  }

  function ValueIn(m: NavEpochMsg, name: string): Option<int> {
    if name in m.optional then Some(m.optional[name]) else None
  }

  /** What merging means: scalar and optional fields come from the first message that has them set, masks from all. */
  lemma {:induction false} GatheredMeans(ms: seq<NavEpochMsg>, name: string, bit: nat)
    requires ms != []
    ensures FirstSet(Tags(ms), "", Gathered(ms).tag) && FirstSet(FixLevels(ms), 0, Gathered(ms).fixLevel)
    ensures FirstSet(SolutionDims(ms), 0, Gathered(ms).solutionDim)
    ensures FirstSet(Values(ms, name), None, ValueIn(Gathered(ms), name))
    ensures bit in Gathered(ms).correction <==> exists m :: m in ms && bit in m.correction
    ensures bit in Gathered(ms).auxSrc <==> exists m :: m in ms && bit in m.auxSrc
    ensures bit in Gathered(ms).gnssUsed <==> exists m :: m in ms && bit in m.gnssUsed
    ensures bit in Gathered(ms).bandsUsed <==> exists m :: m in ms && bit in m.bandsUsed
  {
    if |ms| == 1 {
      OneMeans(ms[0], name);
      assert ms == [ms[0]];
    } else {
      var init, last := ms[..|ms| - 1], ms[|ms| - 1];
      GatheredMeans(init, name, bit);
      assert ms == init + [last];
      FieldsMean(init, last, Gathered(init), name);
      hide FirstSet;
      assert forall m :: m in ms <==> m in init || m == last;
    }
  }

  /** A solution dimension is kept only from fix level 4, a code solution, on; merging changes nothing else gathered. */
  lemma MergeMeans(ms: seq<NavEpochMsg>)
    requires ms != []
    ensures FirstSet(FixLevels(ms), 0, Merge(ms).fixLevel)
    ensures if Merge(ms).fixLevel >= 4 then FirstSet(SolutionDims(ms), 0, Merge(ms).solutionDim)
      else Merge(ms).solutionDim == 0
    ensures Merge(ms) == Gathered(ms).(solutionDim := Merge(ms).solutionDim)
  {
    GatheredMeans(ms, "", 0);
    hide FirstSet, Gathered;
  }

  lemma OneMeans(m: NavEpochMsg, name: string)
    ensures FirstSet(Tags([m]), "", m.tag) && FirstSet(FixLevels([m]), 0, m.fixLevel)
    ensures FirstSet(SolutionDims([m]), 0, m.solutionDim) && FirstSet(Values([m], name), None, ValueIn(m, name))
  {
    NoneSet("", m.tag);
    NoneSet(0, m.fixLevel);
    NoneSet(0, m.solutionDim);
    NoneSet(None, ValueIn(m, name));
    assert Tags([m]) == [m.tag] && FixLevels([m]) == [m.fixLevel] && SolutionDims([m]) == [m.solutionDim];
    assert Values([m], name) == [ValueIn(m, name)];
    hide FirstSet;
  }

  lemma NoneSet<T>(unset: T, v: T)
    ensures FirstSet([v], unset, v)
  {
    assert [v][0] == v && [v][..0] == [];
  }

  lemma FieldsMean(init: seq<NavEpochMsg>, last: NavEpochMsg, g: NavEpochMsg, name: string)
    requires FirstSet(Tags(init), "", g.tag) && FirstSet(FixLevels(init), 0, g.fixLevel)
    requires FirstSet(SolutionDims(init), 0, g.solutionDim) && FirstSet(Values(init, name), None, ValueIn(g, name))
    ensures var ms := init + [last]; var r := FillIn(g, last);
      && FirstSet(Tags(ms), "", r.tag) && FirstSet(FixLevels(ms), 0, r.fixLevel)
      && FirstSet(SolutionDims(ms), 0, r.solutionDim) && FirstSet(Values(ms, name), None, ValueIn(r, name))
  {
    hide FirstSet;
    var ms := init + [last];
    FirstSetOneMore(Tags(init), last.tag, "", g.tag);
    FirstSetOneMore(FixLevels(init), last.fixLevel, 0, g.fixLevel);
    FirstSetOneMore(SolutionDims(init), last.solutionDim, 0, g.solutionDim);
    FirstSetOneMore(Values(init, name), ValueIn(last, name), None, ValueIn(g, name));
    assert Tags(ms) == Tags(init) + [last.tag] && FixLevels(ms) == FixLevels(init) + [last.fixLevel];
    assert SolutionDims(ms) == SolutionDims(init) + [last.solutionDim];
    assert Values(ms, name) == Values(init, name) + [ValueIn(last, name)];
  }

  // ---- Emission ----

  /** The contributors that return a message, in falling priority. */
  ghost predicate InPriorityOrder(order: seq<nat>, active: set<nat>, flushed: nat -> Contribution) {
    && Distinct(order)
    && (forall f :: f in order <==> f in active && flushed(f).msg.Some?)
    && forall i, j :: 0 <= i < j < |order| ==> flushed(order[i]).priority >= flushed(order[j]).priority
  }

  function Messages(order: seq<nat>, flushed: nat -> Contribution): seq<Option<NavEpochMsg>> {
    seq(|order|, i requires 0 <= i < |order| => flushed(order[i]).msg)
  }

  /** The handler of the first contributor that has one. */
  function FirstHandler(order: seq<nat>, flushed: nat -> Contribution): Option<nat> {
    if order == [] then None
    else if flushed(order[0]).handler.Some? then flushed(order[0]).handler
    else FirstHandler(order[1..], flushed)
  }

  function EmissionOf(order: seq<nat>, flushed: nat -> Contribution): Option<Emission> {
    var ms := Present(Messages(order, flushed));
    match FirstHandler(order, flushed)
    case None => None
    case Some(h) => if ms == [] then None else Some(Emission(h, Merge(ms)))
  }

  /** One message is emitted, merged from all contributions with those of higher priority first. */
  ghost predicate Emits(active: set<nat>, flushed: nat -> Contribution, e: Option<Emission>) {
    exists order :: InPriorityOrder(order, active, flushed) && e == EmissionOf(order, flushed)
  }

  /** Processor `f` is flushed and returns a message. */
  predicate Speaks(active: set<nat>, flushed: nat -> Contribution, f: nat) {
    f in active && flushed(f).msg.Some?
  }

  /** Processor `f` returns a message and has a handler to emit it to. */
  predicate CanEmit(active: set<nat>, flushed: nat -> Contribution, f: nat) {
    Speaks(active, flushed, f) && flushed(f).handler.Some?
  }

  /** Processor `f` returns a message that has a fix level. */
  predicate HasFix(active: set<nat>, flushed: nat -> Contribution, f: nat) {
    Speaks(active, flushed, f) && flushed(f).msg.value.fixLevel != 0
  }

  /** What is emitted, and to whom: nothing if no contributor has a handler; else to the handler of one of the highest
      priority that has, a message with the fix level of one of the highest priority that has one, and with the
      corrections of all. */
  lemma EmissionMeans(active: set<nat>, flushed: nat -> Contribution, e: Option<Emission>, bit: nat)
    requires Emits(active, flushed, e)
    ensures e == None <==> forall f :: !CanEmit(active, flushed, f)
    ensures e.Some? ==>
      exists f :: CanEmit(active, flushed, f) && flushed(f).handler == Some(e.value.handler) &&
        forall g :: CanEmit(active, flushed, g) ==> flushed(g).priority <= flushed(f).priority
    ensures e.Some? && (exists f :: HasFix(active, flushed, f)) ==>
      exists f :: HasFix(active, flushed, f) && flushed(f).msg.value.fixLevel == e.value.msg.fixLevel &&
        forall g :: HasFix(active, flushed, g) ==> flushed(g).priority <= flushed(f).priority
    ensures e.Some? ==> (bit in e.value.msg.correction <==>
      exists f :: Speaks(active, flushed, f) && bit in flushed(f).msg.value.correction)
  {
    var order :| InPriorityOrder(order, active, flushed) && e == EmissionOf(order, flushed);
    PresentAll(order, flushed);
    hide *;
    EmittedTo(active, flushed, order);
    if e.Some? {
      EmittedIs(active, flushed, order, e.value, bit);
    }
    EmittedIf(active, flushed, order, e);
  }

  lemma {:induction false} PresentAll(order: seq<nat>, flushed: nat -> Contribution)
    requires forall f :: f in order ==> flushed(f).msg.Some?
    ensures var ms := Present(Messages(order, flushed));
      |ms| == |order| && forall i :: 0 <= i < |ms| ==> ms[i] == flushed(order[i]).msg.value
  {
    if order != [] {
      var init, last := order[..|order| - 1], order[|order| - 1];
      assert last in order && forall f :: f in init ==> f in order;
      PresentAll(init, flushed);
      assert Messages(order, flushed)[..|order| - 1] == Messages(init, flushed);
    }
  }

  lemma EmittedIf(active: set<nat>, flushed: nat -> Contribution, order: seq<nat>, e: Option<Emission>)
    requires InPriorityOrder(order, active, flushed) && e == EmissionOf(order, flushed)
    ensures e.Some? <==> FirstHandler(order, flushed).Some?
    ensures e.Some? ==> Some(e.value.handler) == FirstHandler(order, flushed)
  {
    PresentAll(order, flushed);
  }

  lemma EmittedTo(active: set<nat>, flushed: nat -> Contribution, order: seq<nat>)
    requires InPriorityOrder(order, active, flushed)
    ensures FirstHandler(order, flushed) == None <==> forall f :: !CanEmit(active, flushed, f)
    ensures FirstHandler(order, flushed).Some? ==>
      exists f :: CanEmit(active, flushed, f) && flushed(f).handler == FirstHandler(order, flushed) &&
        forall g :: CanEmit(active, flushed, g) ==> flushed(g).priority <= flushed(f).priority
  {
    var n := FirstHandlerAt(order, flushed);
    forall g | CanEmit(active, flushed, g) ensures exists j :: n <= j < |order| && order[j] == g {
      assert g in order;
    }
    if n < |order| {
      assert order[n] in order;
      assert CanEmit(active, flushed, order[n]);
    }
  }

  lemma {:induction false} FirstHandlerAt(order: seq<nat>, flushed: nat -> Contribution) returns (n: nat)
    ensures n <= |order| && forall j :: 0 <= j < n ==> flushed(order[j]).handler == None
    ensures FirstHandler(order, flushed) == if n < |order| then flushed(order[n]).handler else None
    ensures n < |order| ==> flushed(order[n]).handler.Some?
  {
    if order == [] || flushed(order[0]).handler.Some? {
      n := 0;
    } else {
      n := FirstHandlerAt(order[1..], flushed);
      n := n + 1;
    }
  }

  lemma EmittedIs(active: set<nat>, flushed: nat -> Contribution, order: seq<nat>, e: Emission, bit: nat)
    requires InPriorityOrder(order, active, flushed) && Some(e) == EmissionOf(order, flushed)
    ensures (exists f :: HasFix(active, flushed, f)) ==>
      exists f :: HasFix(active, flushed, f) && flushed(f).msg.value.fixLevel == e.msg.fixLevel &&
        forall g :: HasFix(active, flushed, g) ==> flushed(g).priority <= flushed(f).priority
    ensures bit in e.msg.correction <==>
      exists f :: Speaks(active, flushed, f) && bit in flushed(f).msg.value.correction
  {
    var ms := Present(Messages(order, flushed));
    PresentAll(order, flushed);
    GatheredMeans(ms, "", bit);
    hide Gathered, FirstSet, Present, FirstHandler, InPriorityOrder, HasFix, Speaks, FixLevels;
    FixIsFirst(active, flushed, order, ms, e.msg.fixLevel);
    BitIsAnyones(active, flushed, order, ms, bit);
  }

  lemma BitIsAnyones(active: set<nat>, flushed: nat -> Contribution, order: seq<nat>, ms: seq<NavEpochMsg>, bit: nat)
    requires InPriorityOrder(order, active, flushed) && |ms| == |order|
    requires forall i :: 0 <= i < |ms| ==> ms[i] == flushed(order[i]).msg.value
    ensures (exists m :: m in ms && bit in m.correction) <==>
      exists f :: Speaks(active, flushed, f) && bit in flushed(f).msg.value.correction
  {
    if m :| m in ms && bit in m.correction {
      var i :| 0 <= i < |ms| && ms[i] == m;
      assert order[i] in order && Speaks(active, flushed, order[i]);
    }
    if f :| Speaks(active, flushed, f) && bit in flushed(f).msg.value.correction {
      assert f in order;
      var i :| 0 <= i < |order| && order[i] == f;
      assert ms[i] in ms;
    }
  }

  lemma FixIsFirst(active: set<nat>, flushed: nat -> Contribution, order: seq<nat>, ms: seq<NavEpochMsg>, level: nat)
    requires InPriorityOrder(order, active, flushed) && |ms| == |order|
    requires forall i :: 0 <= i < |ms| ==> ms[i] == flushed(order[i]).msg.value
    requires FirstSet(FixLevels(ms), 0, level)
    ensures (exists f :: HasFix(active, flushed, f)) ==>
      exists f :: HasFix(active, flushed, f) && flushed(f).msg.value.fixLevel == level &&
        forall g :: HasFix(active, flushed, g) ==> flushed(g).priority <= flushed(f).priority
  {
    var levels := FixLevels(ms);
    if f :| HasFix(active, flushed, f) {
      assert f in order;
      var k :| 0 <= k < |order| && order[k] == f;
      assert levels[k] in levels;
      var i :| 0 <= i < |levels| && levels[i] == level && forall x :: x in levels[..i] ==> x == 0;
      assert order[i] in order && HasFix(active, flushed, order[i]);
      forall j | 0 <= j < i ensures levels[j] == 0 {
        assert levels[..i][j] in levels[..i];
      }
      forall g | HasFix(active, flushed, g) ensures flushed(g).priority <= flushed(order[i]).priority {
        assert g in order;
        var j :| 0 <= j < |order| && order[j] == g;
        assert levels[j] != 0 && i <= j;
      }
    }
  }

  /** Flushes every active processor, and emits what they return. */
  method FlushAndEmit(active: set<nat>, flushed: nat -> Contribution) returns (e: Option<Emission>)
    ensures Emits(active, flushed, e)
  {
    var todo := set f | f in active && flushed(f).msg.Some?;
    var order := ByPriority(todo, flushed);
    assert forall f :: f in order <==> f in Elements(order);
    assert InPriorityOrder(order, active, flushed);
    if order == [] {
      return None;
    }
    var merged := MergeNavEpoch(Messages(order, flushed));
    if merged == None {
      return None;
    }
    for i := 0 to |order|
      invariant FirstHandler(order, flushed) == FirstHandler(order[i..], flushed)
    {
      assert order[i..][0] == order[i] && order[i..][1..] == order[i + 1..];
      if flushed(order[i]).handler.Some? {
        return Some(Emission(flushed(order[i]).handler.value, merged.value));
      }
    }
    return None;
  }

  method ByPriority(fs: set<nat>, flushed: nat -> Contribution) returns (order: seq<nat>)
    ensures Distinct(order) && Elements(order) == fs
    ensures forall i, j :: 0 <= i < j < |order| ==> flushed(order[i]).priority >= flushed(order[j]).priority
  {
    order := [];
    var todo := fs;
    while todo != {}
      invariant todo <= fs && Distinct(order) && Elements(order) == fs - todo
      invariant forall i, j :: 0 <= i < j < |order| ==> flushed(order[i]).priority >= flushed(order[j]).priority
      invariant forall i, f :: 0 <= i < |order| && f in todo ==> flushed(order[i]).priority >= flushed(f).priority
    {
      var best := Highest(todo, flushed);
      assert best !in Elements(order);
      assert Elements(order + [best]) == Elements(order) + {best};
      order := order + [best];
      todo := todo - {best};
    }
  }

  method Highest(fs: set<nat>, flushed: nat -> Contribution) returns (best: nat)
    requires fs != {}
    ensures best in fs && forall f :: f in fs ==> flushed(f).priority <= flushed(best).priority
  {
    best :| best in fs;
    var todo := fs - {best};
    while todo != {}
      invariant todo <= fs && best in fs
      invariant forall f :: f in fs && f !in todo ==> flushed(f).priority <= flushed(best).priority
    {
      var f :| f in todo;
      todo := todo - {f};
      if flushed(f).priority > flushed(best).priority {
        best := f;
      }
    }
  }

  /** With no two contributors of one priority, what is emitted is determined. */
  lemma OneEmission(active: set<nat>, flushed: nat -> Contribution, e: Option<Emission>, e': Option<Emission>)
    requires Emits(active, flushed, e) && Emits(active, flushed, e')
    requires forall f, g :: f in active && g in active && f != g ==> flushed(f).priority != flushed(g).priority
    ensures e == e'
  {
    hide EmissionOf;
    var s :| InPriorityOrder(s, active, flushed) && e == EmissionOf(s, flushed);
    var t :| InPriorityOrder(t, active, flushed) && e' == EmissionOf(t, flushed);
    OneOrder(active, flushed, s, t);
  }

  lemma {:induction false} OneOrder(active: set<nat>, flushed: nat -> Contribution, s: seq<nat>, t: seq<nat>)
    requires InPriorityOrder(s, active, flushed) && InPriorityOrder(t, active, flushed)
    requires forall f, g :: f in active && g in active && f != g ==> flushed(f).priority != flushed(g).priority
    ensures s == t
    decreases |s|
  {
    hide InPriorityOrder, Distinct;
    SameFirst(active, flushed, s, t);
    if s != [] {
      WithoutFirst(active, flushed, s);
      WithoutFirst(active, flushed, t);
      OneOrder(active - {s[0]}, flushed, s[1..], t[1..]);
      assert s == [s[0]] + s[1..] && t == [t[0]] + t[1..];
    }
  }

  lemma SameFirst(active: set<nat>, flushed: nat -> Contribution, s: seq<nat>, t: seq<nat>)
    requires InPriorityOrder(s, active, flushed) && InPriorityOrder(t, active, flushed)
    requires forall f, g :: f in active && g in active && f != g ==> flushed(f).priority != flushed(g).priority
    ensures s == [] <==> t == []
    ensures s != [] && t != [] ==> s[0] == t[0]
  {
    hide InPriorityOrder;
    FirstIsHighest(active, flushed, s);
    FirstIsHighest(active, flushed, t);
  }

  lemma FirstIsHighest(active: set<nat>, flushed: nat -> Contribution, s: seq<nat>)
    requires InPriorityOrder(s, active, flushed)
    ensures s == [] <==> forall f :: f in active ==> flushed(f).msg == None
    ensures s != [] ==> s[0] in active && flushed(s[0]).msg.Some?
    ensures s != [] ==>
      forall f :: f in active && flushed(f).msg.Some? ==> flushed(f).priority <= flushed(s[0]).priority
  {
    hide Distinct;
    if s != [] {
      assert s[0] in s;
    }
    forall f | f in active && flushed(f).msg.Some? ensures s != [] && flushed(f).priority <= flushed(s[0]).priority {
      NotBeforeFirst(active, flushed, s, f);
    }
  }

  lemma NotBeforeFirst(active: set<nat>, flushed: nat -> Contribution, s: seq<nat>, f: nat)
    requires InPriorityOrder(s, active, flushed) && f in active && flushed(f).msg.Some?
    ensures s != [] && flushed(f).priority <= flushed(s[0]).priority
  {
    assert f in s;
    var i :| 0 <= i < |s| && s[i] == f;
    assert i > 0 ==> flushed(s[0]).priority >= flushed(s[i]).priority;
  }

  lemma WithoutFirst(active: set<nat>, flushed: nat -> Contribution, s: seq<nat>)
    requires InPriorityOrder(s, active, flushed) && s != []
    ensures InPriorityOrder(s[1..], active - {s[0]}, flushed)
  {
    assert forall f :: f in s[1..] <==> f in s && f != s[0];
  }
}
