/** The partial order of correction kinds (gps/gpsprot/msg.go, CorrKind). A kind's bits are the set of their indices. */
module CorrKinds {
  import opened Options

  const WIDTH: nat := 16

  /** A bit, its name, and the one bit it implies directly, if any. */
  datatype Entry = Entry(bit: nat, name: string, implies: Option<nat>)

  type Kinds = set<nat>

  /** The rank of a bit is its place in the table. */
  predicate IsAt(table: seq<Entry>, i: nat, bit: nat) {
    i < |table| && table[i].bit == bit
  }

  /** Bits and names occur once, and every bit follows the one it implies. */
  predicate WellFormed(table: seq<Entry>) {
    && (forall i :: 0 <= i < |table| ==> table[i].bit < WIDTH)
    && (forall i, j :: 0 <= i < j < |table| ==> table[i].bit != table[j].bit && table[i].name != table[j].name)
    && (forall i :: 0 <= i < |table| && table[i].implies.Some? ==> DeclaredBefore(table, i, table[i].implies.value))
  }

  predicate DeclaredBefore(table: seq<Entry>, i: nat, bit: nat) {
    exists j: nat :: j < i && IsAt(table, j, bit)
  }

  /** `b` is the immediate parent of `a`. */
  ghost predicate Parent(table: seq<Entry>, a: nat, b: nat) {
    exists i: nat :: IsAt(table, i, a) && table[i].implies == Some(b)
  }

  ghost predicate Chain(table: seq<Entry>, c: seq<nat>) {
    c != [] && forall i :: 0 <= i < |c| - 1 ==> Parent(table, c[i], c[i + 1])
  }

  ghost predicate ChainBetween(table: seq<Entry>, c: seq<nat>, a: nat, b: nat) {
    Chain(table, c) && c[0] == a && c[|c| - 1] == b
  }

  /** The partial order: `a` implies `b`, directly or not. */
  ghost predicate Implies(table: seq<Entry>, a: nat, b: nat) {
    exists c :: ChainBetween(table, c, a, b)
  }

  ghost predicate InTable(table: seq<Entry>, bit: nat) {
    exists i: nat :: IsAt(table, i, bit)
  }

  lemma ImpliesItself(table: seq<Entry>, a: nat)
    ensures Implies(table, a, a)
  {
    assert ChainBetween(table, [a], a, a);
  }

  lemma ImpliesThroughParent(table: seq<Entry>, a: nat, b: nat, c: nat)
    requires Parent(table, a, b) && Implies(table, b, c)
    ensures Implies(table, a, c)
  {
    var s :| ChainBetween(table, s, b, c);
    var t := [a] + s;
    assert forall i :: 0 <= i < |s| - 1 ==> Parent(table, s[i], s[i + 1]);
    assert forall i :: 1 <= i < |t| - 1 ==> t[i] == s[i - 1] && t[i + 1] == s[i];
    assert ChainBetween(table, t, a, c);
  }

  lemma {:induction false} ImpliesAlong(table: seq<Entry>, s: seq<nat>, c: nat)
    requires Chain(table, s) && Implies(table, s[|s| - 1], c)
    ensures Implies(table, s[0], c)
  {
    if |s| > 1 {
      assert Parent(table, s[0], s[1]);
      ImpliesAlong(table, s[1..], c);
      ImpliesThroughParent(table, s[0], s[1], c);
    }
  }

  lemma ImpliesThrough(table: seq<Entry>, a: nat, b: nat, c: nat)
    requires Implies(table, a, b) && Implies(table, b, c)
    ensures Implies(table, a, c)
  {
    var s :| ChainBetween(table, s, a, b);
    ImpliesAlong(table, s, c);
  }

  /** What a bit implies: itself, or what its one parent implies. */
  lemma ImpliesByParent(table: seq<Entry>, i: nat, b: nat)
    requires WellFormed(table) && i < |table|
    ensures Implies(table, table[i].bit, b) <==>
      (b == table[i].bit || (table[i].implies.Some? && Implies(table, table[i].implies.value, b)))
  {
    var a := table[i].bit;
    if b != a && Implies(table, a, b) {
      var c :| ChainBetween(table, c, a, b);
      assert Parent(table, c[0], c[1]);
      assert ChainBetween(table, c[1..], c[1], b);
    }
    if table[i].implies.Some? && Implies(table, table[i].implies.value, b) {
      assert IsAt(table, i, a);
      ImpliesThroughParent(table, a, table[i].implies.value, b);
    }
    ImpliesItself(table, a);
  }

  /** No bit but itself implies a bit that implies it: implied bits are declared earlier. */
  lemma {:induction false} ImpliedIsEarlier(table: seq<Entry>, i: nat, b: nat)
    requires WellFormed(table) && i < |table| && Implies(table, table[i].bit, b)
    ensures b == table[i].bit || DeclaredBefore(table, i, b)
  {
    ImpliesByParent(table, i, b);
    if b != table[i].bit {
      var j: nat :| j < i && IsAt(table, j, table[i].implies.value);
      ImpliedIsEarlier(table, j, b);
    }
  }

  lemma ImpliesIsAntisymmetric(table: seq<Entry>, a: nat, b: nat)
    requires WellFormed(table) && InTable(table, a) && Implies(table, a, b) && Implies(table, b, a)
    ensures a == b
  {
    var i: nat :| IsAt(table, i, a);
    ImpliedIsEarlier(table, i, b);
    if a != b {
      var j: nat :| j < i && IsAt(table, j, b);
      ImpliedIsEarlier(table, j, a);
      assert false;
    }
  }

  /** The kinds consist of bits of the table. */
  ghost predicate Of(table: seq<Entry>, c: Kinds) {
    forall b :: b in c ==> InTable(table, b)
  }

  /** Some bit of `c` implies `b`. */
  ghost predicate Above(table: seq<Entry>, c: Kinds, b: nat) {
    exists a :: a in c && Implies(table, a, b)
  }

  /** All that `c` implies. */
  ghost function Up(table: seq<Entry>, c: Kinds): Kinds {
    set b: nat | b < WIDTH && Above(table, c, b)
  }

  /** The bits of `c` that no other bit of `c` implies. */
  ghost function Tips(table: seq<Entry>, c: Kinds): Kinds {
    set b | b in c && !Above(table, c - {b}, b)
  }

  lemma ImpliedInTable(table: seq<Entry>, a: nat, b: nat)
    requires WellFormed(table) && InTable(table, a) && Implies(table, a, b)
    ensures InTable(table, b) && b < WIDTH
  {
    var i: nat :| IsAt(table, i, a);
    ImpliedIsEarlier(table, i, b);
    if a != b {
      var j: nat :| j < i && IsAt(table, j, b);
    }
  }

  lemma InUp(table: seq<Entry>, c: Kinds, b: nat)
    requires WellFormed(table) && Of(table, c)
    ensures b in Up(table, c) <==> Above(table, c, b)
    ensures b in Up(table, c) ==> InTable(table, b)
    ensures b in c ==> b in Up(table, c)
  {
    hide Implies, WellFormed;
    if Above(table, c, b) {
      var a :| a in c && Implies(table, a, b);
      ImpliedInTable(table, a, b);
    }
    if b in c {
      ImpliesItself(table, b);
      ImpliedInTable(table, b, b);
    }
  }

  lemma UpOf(table: seq<Entry>, c: Kinds)
    requires WellFormed(table) && Of(table, c)
    ensures c <= Up(table, c) && Of(table, Up(table, c))
  {
    forall b ensures (b in c ==> b in Up(table, c)) && (b in Up(table, c) ==> InTable(table, b)) {
      InUp(table, c, b);
    }
    hide Up;
  }

  /** Expanding is extensive, monotone and idempotent: a closure operator. */
  lemma UpIsClosure(table: seq<Entry>, c: Kinds, d: Kinds)
    requires WellFormed(table) && Of(table, c) && Of(table, d)
    ensures c <= Up(table, c)
    ensures c <= d ==> Up(table, c) <= Up(table, d)
    ensures Up(table, Up(table, c)) == Up(table, c)
  {
    hide *;
    UpOf(table, c);
    UpOf(table, Up(table, c));
    if c <= d {
      UpGrows(table, c, d);
    }
    UpUp(table, c);
  }

  lemma UpGrows(table: seq<Entry>, c: Kinds, d: Kinds)
    requires c <= d
    ensures Up(table, c) <= Up(table, d)
  {
    hide Implies;
  }

  lemma UpUp(table: seq<Entry>, c: Kinds)
    ensures Up(table, Up(table, c)) <= Up(table, c)
  {
    hide Implies;
    forall b | b in Up(table, Up(table, c)) ensures b in Up(table, c) {
      var a :| a in Up(table, c) && Implies(table, a, b);
      var z :| z in c && Implies(table, z, a);
      ImpliesThrough(table, z, a, b);
    }
  }

  /** Every bit is implied by a tip. */
  lemma {:induction false} TipBelow(table: seq<Entry>, c: Kinds, i: nat)
    requires WellFormed(table) && Of(table, c) && i < |table| && table[i].bit in c
    ensures Above(table, Tips(table, c), table[i].bit)
    decreases |table| - i
  {
    var b := table[i].bit;
    if Above(table, c - {b}, b) {
      var a :| a in c - {b} && Implies(table, a, b);
      var k := LaterPlace(table, c, a, i);
      TipBelow(table, c, k);
      var t :| t in Tips(table, c) && Implies(table, t, a);
      ImpliesThrough(table, t, a, b);
    } else {
      ImpliesItself(table, b);
      assert b in Tips(table, c);
    }
  }

  lemma LaterPlace(table: seq<Entry>, c: Kinds, a: nat, i: nat) returns (k: nat)
    requires WellFormed(table) && Of(table, c) && a in c && i < |table|
    requires a != table[i].bit && Implies(table, a, table[i].bit)
    ensures i < k && IsAt(table, k, a)
  {
    assert InTable(table, a);
    k :| IsAt(table, k, a);
    ImpliedIsEarlier(table, k, table[i].bit);
    var j: nat :| j < k && IsAt(table, j, table[i].bit);
  }

  /** The tips imply all that the kinds do. */
  lemma UpOfTips(table: seq<Entry>, c: Kinds)
    requires WellFormed(table) && Of(table, c)
    ensures Tips(table, c) <= c && Up(table, Tips(table, c)) == Up(table, c)
  {
    UpIsClosure(table, Tips(table, c), c);
    forall b | b in Up(table, c) ensures b in Up(table, Tips(table, c)) {
      var a :| a in c && Implies(table, a, b);
      assert InTable(table, a);
      var i: nat :| IsAt(table, i, a);
      TipBelow(table, c, i);
      var t :| t in Tips(table, c) && Implies(table, t, a);
      ImpliesThrough(table, t, a, b);
    }
  }

  /** Expanding adds no tips. */
  lemma TipsOfUp(table: seq<Entry>, c: Kinds)
    requires WellFormed(table) && Of(table, c)
    ensures Tips(table, Up(table, c)) == Tips(table, c)
  {
    UpOf(table, c);
    forall b ensures b in Tips(table, Up(table, c)) <==> b in Tips(table, c) {
      if b in Tips(table, Up(table, c)) {
        TipOfUpIsTip(table, c, b);
      }
      if b in Tips(table, c) {
        TipIsTipOfUp(table, c, b);
      }
    }
  }

  lemma TipOfUpIsTip(table: seq<Entry>, c: Kinds, b: nat)
    requires WellFormed(table) && Of(table, c) && b in Tips(table, Up(table, c))
    ensures b in Tips(table, c)
  {
    UpOf(table, c);
    var a :| a in c && Implies(table, a, b);
    assert a == b || a in Up(table, c) - {b};
    MoreAbove(table, c - {b}, Up(table, c) - {b}, b);
  }

  lemma MoreAbove(table: seq<Entry>, c: Kinds, d: Kinds, b: nat)
    requires c <= d
    ensures Above(table, c, b) ==> Above(table, d, b)
  {
  }

  lemma TipIsTipOfUp(table: seq<Entry>, c: Kinds, b: nat)
    requires WellFormed(table) && Of(table, c) && b in Tips(table, c)
    ensures b in Tips(table, Up(table, c))
  {
    UpOf(table, c);
    OthersAbove(table, c, b);
  }

  lemma OthersAbove(table: seq<Entry>, c: Kinds, b: nat)
    requires WellFormed(table) && Of(table, c) && b in c
    ensures Above(table, Up(table, c) - {b}, b) ==> Above(table, c - {b}, b)
  {
    if Above(table, Up(table, c) - {b}, b) {
      var a :| a in Up(table, c) - {b} && Implies(table, a, b);
      var d :| d in c && Implies(table, d, a);
      ImpliesThrough(table, d, a, b);
      if d == b {
        ImpliesIsAntisymmetric(table, b, a);
      } else {
        assert d in c - {b};
      }
    }
  }

  // ---- The code ----

  /** The entry for each bit of the table holds what the bit implies. */
  ghost predicate IsClosure(table: seq<Entry>, cl: seq<Kinds>) {
    && |cl| == WIDTH
    && forall i :: 0 <= i < |table| && table[i].bit < WIDTH ==> ClosedAt(table, cl[table[i].bit], table[i].bit)
  }

  ghost predicate ClosedAt(table: seq<Entry>, kinds: Kinds, a: nat) {
    forall b :: b in kinds <==> Implies(table, a, b)
  }

  /** One pass over the table computes the whole transitive closure. */
  method Closure(table: seq<Entry>) returns (cl: seq<Kinds>)
    requires WellFormed(table)
    ensures IsClosure(table, cl)
  {
    hide Implies, ClosedAt;
    cl := seq(WIDTH, _ => {});
    for i := 0 to |table|
      invariant |cl| == WIDTH
      invariant forall j :: 0 <= j < i ==> ClosedAt(table, cl[table[j].bit], table[j].bit)
    {
      var bit := table[i].bit;
      var kinds: Kinds := {bit};
      if table[i].implies.Some? {
        ghost var j: nat :| j < i && IsAt(table, j, table[i].implies.value);
        kinds := kinds + cl[table[i].implies.value];
        ClosedByParent(table, i, cl[table[i].implies.value]);
      } else {
        ClosedAlone(table, i);
      }
      cl := cl[bit := kinds];
    }
  }

  lemma ClosedByParent(table: seq<Entry>, i: nat, above: Kinds)
    requires WellFormed(table) && i < |table| && table[i].implies.Some?
    requires ClosedAt(table, above, table[i].implies.value)
    ensures ClosedAt(table, {table[i].bit} + above, table[i].bit)
  {
    forall b ensures b in {table[i].bit} + above <==> Implies(table, table[i].bit, b) {
      ImpliesByParent(table, i, b);
    }
  }

  lemma ClosedAlone(table: seq<Entry>, i: nat)
    requires WellFormed(table) && i < |table| && table[i].implies == None
    ensures ClosedAt(table, {table[i].bit}, table[i].bit)
  {
    forall b ensures b in {table[i].bit} <==> Implies(table, table[i].bit, b) {
      ImpliesByParent(table, i, b);
    }
  }

  method Expand(ghost table: seq<Entry>, cl: seq<Kinds>, c: Kinds) returns (result: Kinds)
    requires WellFormed(table) && IsClosure(table, cl) && Of(table, c)
    ensures result == Up(table, c)
  {
    hide *;
    result := c;
    var v := c;
    ExpandBegun(table, c);
    while v != {}
      invariant v <= c && Of(table, c)
      invariant ExpandedBut(table, c, v, result)
    {
      var bit := Lowest(v);
      BitClosed(table, cl, c, bit);
      ExpandOne(table, c, v, bit, result, cl[bit]);
      result := result + cl[bit];
      v := v - {bit};
    }
    ExpandDone(table, c, result);
  }

  /** `v & -v`. */
  method Lowest(v: Kinds) returns (bit: nat)
    requires v != {}
    ensures bit in v && forall b :: b in v ==> bit <= b
  {
    bit :| bit in v;
    var rest := v - {bit};
    while rest != {}
      invariant rest <= v && bit in v && forall b :: b in v && b !in rest ==> bit <= b
    {
      var b :| b in rest;
      rest := rest - {b};
      if b < bit {
        bit := b;
      }
    }
  }

  ghost predicate ExpandedBut(table: seq<Entry>, c: Kinds, v: Kinds, result: Kinds) {
    forall b :: b in result <==> b in c || Above(table, c - v, b)
  }

  lemma ExpandBegun(table: seq<Entry>, c: Kinds)
    ensures ExpandedBut(table, c, c, c)
  {
  }

  lemma BitClosed(table: seq<Entry>, cl: seq<Kinds>, c: Kinds, bit: nat)
    requires WellFormed(table) && IsClosure(table, cl) && Of(table, c) && bit in c
    ensures bit < |cl| && ClosedAt(table, cl[bit], bit)
  {
    assert InTable(table, bit);
    var i: nat :| IsAt(table, i, bit);
  }

  lemma ExpandOne(table: seq<Entry>, c: Kinds, v: Kinds, bit: nat, result: Kinds, above: Kinds)
    requires v <= c && bit in v && ExpandedBut(table, c, v, result) && ClosedAt(table, above, bit)
    ensures ExpandedBut(table, c, v - {bit}, result + above)
  {
    hide Implies;
    forall b ensures Above(table, c - (v - {bit}), b) <==> Above(table, c - v, b) || Implies(table, bit, b) {
      if Above(table, c - v, b) {
        var a :| a in c - v && Implies(table, a, b);
        assert a in c - (v - {bit});
      }
      if Implies(table, bit, b) {
        assert bit in c - (v - {bit});
      }
    }
    hide Above;
  }

  lemma ExpandDone(table: seq<Entry>, c: Kinds, result: Kinds)
    requires WellFormed(table) && Of(table, c) && ExpandedBut(table, c, {}, result)
    ensures result == Up(table, c)
  {
    assert c - {} == c;
    forall b ensures b in result <==> b in Up(table, c) {
      InUp(table, c, b);
    }
  }

  method Leaves(ghost table: seq<Entry>, cl: seq<Kinds>, c: Kinds) returns (result: Kinds)
    requires WellFormed(table) && IsClosure(table, cl) && Of(table, c)
    ensures result == Tips(table, c)
  {
    hide *;
    result := c;
    var v := c;
    while v != {}
      invariant v <= c && result <= c
      invariant forall b :: b in c ==> (b in result <==> b in v || !Above(table, c - {b}, b))
    {
      var bit := Lowest(v);
      var rest := c - {bit};
      SomeOf(table, c, rest);
      var implied := false;
      if rest != {} {
        var expanded := Expand(table, cl, rest);
        InUp(table, rest, bit);
        implied := bit in expanded;
      } else {
        NothingAbove(table, bit);
      }
      if implied {
        result := result - {bit};
      }
      v := v - {bit};
    }
    AreTips(table, c, result);
  }

  lemma SomeOf(table: seq<Entry>, c: Kinds, some: Kinds)
    requires Of(table, c) && some <= c
    ensures Of(table, some)
  {
  }

  lemma NothingAbove(table: seq<Entry>, b: nat)
    ensures !Above(table, {}, b)
  {
  }

  lemma AreTips(table: seq<Entry>, c: Kinds, result: Kinds)
    requires result <= c && forall b :: b in c ==> (b in result <==> !Above(table, c - {b}, b))
    ensures result == Tips(table, c)
  {
  }

  // ---- Encoding as names ----

  /** The names of the kinds, in declaration order. */
  function NamesOf(table: seq<Entry>, c: Kinds): seq<string> {
    if table == [] then []
    else
      var last := table[|table| - 1];
      NamesOf(table[..|table| - 1], c) + if last.bit in c then [last.name] else []
  }

  method Names(table: seq<Entry>, c: Kinds) returns (names: seq<string>)
    ensures names == NamesOf(table, c)
  {
    names := [];
    for i := 0 to |table|
      invariant names == NamesOf(table[..i], c)
    {
      assert table[..i + 1][..i] == table[..i];
      if table[i].bit in c {
        names := names + [table[i].name];
      }
    }
    assert table[..|table|] == table;
  }

  ghost predicate Named(table: seq<Entry>, name: string, bit: nat) {
    exists i: nat :: IsAt(table, i, bit) && table[i].name == name
  }

  /** The kinds are those the names name, all of which are known. */
  ghost predicate NamedBy(table: seq<Entry>, names: seq<string>, c: Kinds) {
    && (forall name :: name in names ==> Known(table, name))
    && (forall bit :: bit in c <==> exists name :: name in names && Named(table, name, bit))
  }

  /** corrKindFromName. */
  method KindFromName(table: seq<Entry>, name: string) returns (bit: Option<nat>)
    requires WellFormed(table)
    ensures bit == None ==> forall b: nat :: !Named(table, name, b)
    ensures bit.Some? ==> forall b: nat :: Named(table, name, b) <==> b == bit.value
  {
    for i := 0 to |table|
      invariant forall j :: 0 <= j < i ==> table[j].name != name
    {
      if table[i].name == name {
        assert IsAt(table, i, table[i].bit);
        return Some(table[i].bit);
      }
    }
    return None;
  }

  ghost predicate Known(table: seq<Entry>, name: string) {
    exists bit :: Named(table, name, bit)
  }

  /** None exactly if a name is unknown, else all that the named kinds imply. */
  ghost predicate Decodes(table: seq<Entry>, names: seq<string>, r: Option<Kinds>) {
    && (r.Some? <==> forall name :: name in names ==> Known(table, name))
    && (r.Some? ==> exists c :: NamedBy(table, names, c) && r.value == Up(table, c))
  }

  /** UnmarshalJSON: fails on an unknown name, else takes all that the named kinds imply. */
  method Decode(table: seq<Entry>, cl: seq<Kinds>, names: seq<string>) returns (r: Option<Kinds>)
    requires WellFormed(table) && IsClosure(table, cl)
    ensures Decodes(table, names, r)
  {
    var result: Kinds := {};
    hide IsClosure, Named, WellFormed;
    for i := 0 to |names|
      invariant NamedBy(table, names[..i], result)
    {
      var bit := KindFromName(table, names[i]);
      assert names[i] in names;
      if bit == None {
        assert !Known(table, names[i]);
        return None;
      }
      assert Named(table, names[i], bit.value);
      assert forall name :: name in names[..i + 1] <==> name in names[..i] || name == names[i];
      result := result + {bit.value};
    }
    assert names[..|names|] == names;
    NamedOf(table, names, result);
    var expanded := Expand(table, cl, result);
    return Some(expanded);
  }

  lemma NamedOf(table: seq<Entry>, names: seq<string>, c: Kinds)
    requires NamedBy(table, names, c)
    ensures Of(table, c)
  {
    forall b | b in c ensures InTable(table, b) {
      var name :| name in names && Named(table, name, b);
      var i: nat :| IsAt(table, i, b) && table[i].name == name;
    }
  }

  /** MarshalJSON. */
  method Encode(table: seq<Entry>, cl: seq<Kinds>, c: Kinds) returns (names: seq<string>)
    requires WellFormed(table) && IsClosure(table, cl) && Of(table, c)
    ensures names == NamesOf(table, Tips(table, c))
  {
    var leaves := Leaves(table, cl, c);
    names := Names(table, leaves);
  }

  /** The encoding holds a name exactly when it is that of a bit of the kinds. */
  lemma {:induction false} NameIn(table: seq<Entry>, c: Kinds, name: string)
    ensures name in NamesOf(table, c) <==> exists bit :: bit in c && Named(table, name, bit)
  {
    if table != [] {
      var n := |table| - 1;
      NameIn(table[..n], c, name);
      forall bit
        ensures Named(table, name, bit) <==>
          Named(table[..n], name, bit) || (table[n].bit == bit && table[n].name == name)
      {
        if Named(table, name, bit) {
          var i: nat :| IsAt(table, i, bit) && table[i].name == name;
          assert i < n ==> IsAt(table[..n], i, bit);
        }
        if Named(table[..n], name, bit) {
          var i: nat :| IsAt(table[..n], i, bit) && table[..n][i].name == name;
          assert IsAt(table, i, bit);
        }
        assert IsAt(table, n, table[n].bit);
      }
      hide Named;
    }
  }

  /** Whatever is decoded from the names of `c` is `c`. */
  lemma NamesNameThem(table: seq<Entry>, c: Kinds, d: Kinds)
    requires WellFormed(table) && Of(table, c) && NamedBy(table, NamesOf(table, c), d)
    ensures d == c
  {
    forall b ensures b in d <==> b in c {
      if b in c {
        assert InTable(table, b);
        var i: nat :| IsAt(table, i, b);
        NameIn(table, c, table[i].name);
        assert Named(table, table[i].name, b);
      }
      if b in d {
        var name :| name in NamesOf(table, c) && Named(table, name, b);
        NameIn(table, c, name);
        var e :| e in c && Named(table, name, e);
        OneBitNamed(table, name, b, e);
      }
    }
  }

  lemma OneBitNamed(table: seq<Entry>, name: string, a: nat, b: nat)
    requires WellFormed(table) && Named(table, name, a) && Named(table, name, b)
    ensures a == b
  {
  }

  /** Round trip: decoding what was encoded gives all that the kinds imply. */
  lemma DecodedIsExpanded(table: seq<Entry>, c: Kinds, r: Option<Kinds>)
    requires WellFormed(table) && Of(table, c) && Decodes(table, NamesOf(table, Tips(table, c)), r)
    ensures r == Some(Up(table, c))
  {
    hide WellFormed, Of, Tips, Up, NamesOf, Named, NamedBy;
    var tips := Tips(table, c);
    UpOfTips(table, c);
    SomeOf(table, c, tips);
    NamesAreKnown(table, tips);
    assert r.Some?;
    var d :| NamedBy(table, NamesOf(table, tips), d) && r.value == Up(table, d);
    NamesNameThem(table, tips, d);
  }

  lemma NamesAreKnown(table: seq<Entry>, c: Kinds)
    ensures forall name :: name in NamesOf(table, c) ==> Known(table, name)
  {
    forall name | name in NamesOf(table, c) ensures Known(table, name) {
      NameIn(table, c, name);
    }
  }

  // ---- The table ----

  const CORR_KIND_BITS: seq<Entry> := [
    Entry(0, "used", None),
    Entry(1, "OSR", Some(0)),
    Entry(2, "SSR", Some(0)),
    Entry(3, "RTCM", Some(0)),
    Entry(4, "partialDualFreq", Some(1)),
    Entry(5, "fullDualFreq", Some(4)),
    Entry(6, "SBAS", Some(2)),
    Entry(7, "CLAS", Some(2)),
    Entry(8, "SPARTN", Some(2)),
    Entry(9, "PPP", Some(2)),
    Entry(10, "PPP-RTK", Some(9)),
    Entry(11, "PPPConverging", Some(9)),
    Entry(12, "PPPConverged", Some(9)),
    Entry(13, "PPP-HAS", Some(9)),
    Entry(14, "PPP-MDC", Some(9)),
    Entry(15, "PPP-B2b", Some(9))]

  /** What tells the names apart: length, first and last character. */
  function Signature(name: string): (nat, char, char)
    requires name != ""
  {
    (|name|, name[0], name[|name| - 1])
  }

  const SIGNATURES: seq<(nat, char, char)> := [
    (4, 'u', 'd'), (3, 'O', 'R'), (3, 'S', 'R'), (4, 'R', 'M'), (15, 'p', 'q'), (12, 'f', 'q'), (4, 'S', 'S'),
    (4, 'C', 'S'), (6, 'S', 'N'), (3, 'P', 'P'), (7, 'P', 'K'), (13, 'P', 'g'), (12, 'P', 'd'), (7, 'P', 'S'),
    (7, 'P', 'C'), (7, 'P', 'b')]

  lemma SignaturesTell(i: nat)
    requires i < |CORR_KIND_BITS|
    ensures |SIGNATURES| == |CORR_KIND_BITS| == WIDTH && CORR_KIND_BITS[i].bit == i
    ensures CORR_KIND_BITS[i].name != "" && Signature(CORR_KIND_BITS[i].name) == SIGNATURES[i]
    ensures CORR_KIND_BITS[i].implies.Some? ==> CORR_KIND_BITS[i].implies.value < i
    ensures forall j :: 0 <= j < i ==> SIGNATURES[j] != SIGNATURES[i]
  {
  }

  /** The program's table satisfies all that the laws above ask, and every bit of the mask is in it. */
  lemma TableIsWellFormed()
    ensures WellFormed(CORR_KIND_BITS)
    ensures forall b: nat :: b < WIDTH ==> InTable(CORR_KIND_BITS, b)
  {
    forall i: nat | i < |CORR_KIND_BITS|
      ensures CORR_KIND_BITS[i].bit == i < WIDTH && IsAt(CORR_KIND_BITS, i, i)
      ensures CORR_KIND_BITS[i].implies.Some? ==> DeclaredBefore(CORR_KIND_BITS, i, CORR_KIND_BITS[i].implies.value)
    {
      SignaturesTell(i);
      if CORR_KIND_BITS[i].implies.Some? {
        SignaturesTell(CORR_KIND_BITS[i].implies.value);
        assert IsAt(CORR_KIND_BITS, CORR_KIND_BITS[i].implies.value, CORR_KIND_BITS[i].implies.value);
      }
    }
    assert |CORR_KIND_BITS| == WIDTH;
    forall b: nat | b < WIDTH ensures InTable(CORR_KIND_BITS, b) {
      assert IsAt(CORR_KIND_BITS, b, b);
    }
    forall i: nat, j: nat | i < j && j < |CORR_KIND_BITS|
      ensures CORR_KIND_BITS[i].bit != CORR_KIND_BITS[j].bit && CORR_KIND_BITS[i].name != CORR_KIND_BITS[j].name
    {
      SignaturesTell(i);
      SignaturesTell(j);
    }
  }
}
