/** Characterizing how a receiver saves its properties (gpshwtest/characterize.py, partition_consistent and
    characterize_save). */
module SaveCharacter {
  import opened Sequences
  import opened SaveGroups

  function Restrict(together: Together, props: set<string>): (rel: Together)
    ensures TruePairsWithin(rel, props)
  {
    map k | k in together && k.0 in props && k.1 in props :: together[k]
  }

  /** Assigning properties to groups explains the observations: what was seen together is in one group,
      what was seen apart in two. */
  ghost predicate Explains(group: string -> int, props: set<string>, together: Together) {
    forall k :: k in together && k.0 in props && k.1 in props ==>
      && (together[k] ==> group(k.0) == group(k.1))
      && (!together[k] && k.0 != k.1 ==> group(k.0) != group(k.1))
  }

  /** Some partition of `props` explains the observations. */
  ghost predicate Consistent(props: set<string>, together: Together) {
    exists group: string -> int :: Explains(group, props, together)
  }

  predicate SeenApart(rel: Together, a: string, b: string) {
    a != b && Key(a, b) in rel && !rel[Key(a, b)]
  }

  predicate NoneApart(groups: seq<set<string>>, rel: Together) {
    forall g :: g in groups ==> !HoldsApart(g, rel)
  }

  predicate HoldsApart(g: set<string>, rel: Together) {
    exists a, b :: a in g && b in g && SeenApart(rel, a, b)
  }

  method PartitionConsistent(props: set<string>, together: Together) returns (consistent: bool)
    requires Ordered(together)
    ensures consistent <==> Consistent(props, together)
  {
    hide *;
    var rel := Restrict(together, props);
    var groups := MergeGroups(props, rel);
    consistent := NoneApart(groups, rel);
    if consistent {
      GroupsExplain(groups, props, together);
    } else {
      NothingExplains(groups, props, together);
    }
  }

  function GroupIndex(groups: seq<set<string>>, p: string): (i: int)
    ensures 0 <= i <= |groups|
    ensures i < |groups| ==> p in groups[i]
    ensures forall j :: 0 <= j < i ==> p !in groups[j]
  {
    if groups == [] || p in groups[0] then 0 else 1 + GroupIndex(groups[1..], p)
  }

  lemma IndexOfGroup(groups: seq<set<string>>, props: set<string>, g: set<string>, a: string)
    requires Partitions(groups, props) && g in groups && a in g
    ensures GroupIndex(groups, a) < |groups| && groups[GroupIndex(groups, a)] == g
  {
    hide Distinct, SameGroup;
    var m :| 0 <= m < |groups| && groups[m] == g;
    var i := GroupIndex(groups, a);
    assert i <= m;
    assert groups[i] in groups;
  }

  lemma SameIndex(groups: seq<set<string>>, props: set<string>, a: string, b: string)
    requires Partitions(groups, props) && a in props && b in props
    ensures SameGroup(groups, a, b) <==> GroupIndex(groups, a) == GroupIndex(groups, b)
  {
    assert SameGroup(groups, a, a);
    hide GroupIndex, Partitions;
    var g :| g in groups && a in g && a in g;
    IndexOfGroup(groups, props, g, a);
    if SameGroup(groups, a, b) {
      var h :| h in groups && a in h && b in h;
      IndexOfGroup(groups, props, h, a);
      IndexOfGroup(groups, props, h, b);
      DifferentGroups(groups, props, GroupIndex(groups, a), GroupIndex(groups, b));
    }
  }

  lemma DifferentGroups(groups: seq<set<string>>, props: set<string>, i: int, j: int)
    requires Partitions(groups, props) && 0 <= i < |groups| && 0 <= j < |groups| && groups[i] == groups[j]
    ensures i == j
  {
  }

  lemma GroupsExplain(groups: seq<set<string>>, props: set<string>, together: Together)
    requires Components(groups, props, Restrict(together, props)) && Ordered(together)
    requires NoneApart(groups, Restrict(together, props))
    ensures Consistent(props, together)
  {
    var group := p => GroupIndex(groups, p);
    hide GroupIndex, Partitions, NoneApart, Ordered, Key, Connected, SameGroup;
    forall k | k in together && k.0 in props && k.1 in props
      ensures together[k] ==> group(k.0) == group(k.1)
      ensures !together[k] && k.0 != k.1 ==> group(k.0) != group(k.1)
    {
      SameIndex(groups, props, k.0, k.1);
      PairExplained(groups, props, together, k);
    }
    assert Explains(group, props, together);
  }

  lemma PairExplained(groups: seq<set<string>>, props: set<string>, together: Together, k: (string, string))
    requires Components(groups, props, Restrict(together, props)) && Ordered(together)
    requires NoneApart(groups, Restrict(together, props))
    requires k in together && k.0 in props && k.1 in props
    ensures together[k] ==> SameGroup(groups, k.0, k.1)
    ensures !together[k] && k.0 != k.1 ==> !SameGroup(groups, k.0, k.1)
  {
    var rel := Restrict(together, props);
    assert k in rel && rel[k] == together[k] && k == Key(k.0, k.1);
    hide Partitions, Ordered, Key, Connected;
    if together[k] {
      JoinedIsConnected(rel, k.0, k.1);
    } else if k.0 != k.1 {
      assert SeenApart(rel, k.0, k.1);
      forall g | g in groups ensures !(k.0 in g && k.1 in g) {
        assert !HoldsApart(g, rel);
      }
    }
  }

  lemma JoinedIsConnected(rel: Together, a: string, b: string)
    requires Joins(rel, a, b)
    ensures Connected(rel, a, b)
  {
    assert PathBetween(rel, [a, b], a, b);
  }

  lemma NothingExplains(groups: seq<set<string>>, props: set<string>, together: Together)
    requires Components(groups, props, Restrict(together, props))
    requires !NoneApart(groups, Restrict(together, props))
    ensures !Consistent(props, together)
  {
    hide Partitions, Restrict, Explains, Connected, SameGroup, SeenApart;
    var rel := Restrict(together, props);
    var g :| g in groups && HoldsApart(g, rel);
    var a, b :| a in g && b in g && SeenApart(rel, a, b);
    Grouped(groups, props, rel, g, a, b);
    forall group: string -> int | Explains(group, props, together) ensures false {
      ApartNotExplained(group, props, together, a, b);
    }
  }

  lemma Grouped(groups: seq<set<string>>, props: set<string>, rel: Together, g: set<string>, a: string, b: string)
    requires Components(groups, props, rel) && g in groups && a in g && b in g
    ensures Connected(rel, a, b)
  {
    assert SameGroup(groups, a, b);
    hide SameGroup, Connected, Distinct;
    assert a in props && b in props;
  }

  lemma ApartNotExplained(group: string -> int, props: set<string>, together: Together, a: string, b: string)
    requires Connected(Restrict(together, props), a, b) && SeenApart(Restrict(together, props), a, b)
    ensures !Explains(group, props, together)
  {
    if Explains(group, props, together) {
      var p :| PathBetween(Restrict(together, props), p, a, b);
      OneGroupAlong(group, props, together, p);
    }
  }

  lemma {:induction false} OneGroupAlong(group: string -> int, props: set<string>, together: Together, p: seq<string>)
    requires Explains(group, props, together) && Path(Restrict(together, props), p)
    ensures group(p[0]) == group(p[|p| - 1])
  {
    if |p| > 1 {
      assert Joins(Restrict(together, props), p[0], p[1]);
      OneGroupAlong(group, props, together, p[1..]);
    }
  }

  // ---- The smallest set of properties without which the observations are consistent ----

  function Prepend(x: string, cs: seq<seq<string>>): (r: seq<seq<string>>)
    ensures |r| == |cs| && forall i :: 0 <= i < |cs| ==> r[i] == [x] + cs[i]
  {
    seq(|cs|, i requires 0 <= i < |cs| => [x] + cs[i])
  }

  /** All selections of `k` of the names, in the order of the names. */
  function Combinations(s: seq<string>, k: nat): seq<seq<string>> {
    if k == 0 then [[]]
    else if s == [] then []
    else Prepend(s[0], Combinations(s[1..], k - 1)) + Combinations(s[1..], k)
  }

  lemma {:induction false} CombinationsAreSubsets(s: seq<string>, k: nat, c: seq<string>)
    requires Distinct(s) && c in Combinations(s, k)
    ensures Elements(c) <= Elements(s) && |Elements(c)| == k
  {
    hide *;
    if k == 0 {
      NoneSelected(s, c);
    } else {
      SomeSelected(s, k, c);
      RestElements(s);
      if c !in Combinations(s[1..], k) {
        CombinationsAreSubsets(s[1..], k - 1, c[1..]);
        ElementsCons(s[0], c[1..]);
      } else {
        CombinationsAreSubsets(s[1..], k, c);
      }
    }
  }

  lemma NoneSelected(s: seq<string>, c: seq<string>)
    requires c in Combinations(s, 0)
    ensures Elements(c) == {}
  {
  }

  /** A selection is one of the other names, or the first name with a smaller selection of the others. */
  lemma SomeSelected(s: seq<string>, k: nat, c: seq<string>)
    requires c in Combinations(s, k) && k > 0
    ensures s != []
    ensures c !in Combinations(s[1..], k) ==> c != [] && c == [s[0]] + c[1..] && c[1..] in Combinations(s[1..], k - 1)
  {
    var with := Prepend(s[0], Combinations(s[1..], k - 1));
    assert c in with || c in Combinations(s[1..], k);
    if c in with {
      var i :| 0 <= i < |with| && with[i] == c;
      assert c[1..] == Combinations(s[1..], k - 1)[i];
    }
  }

  lemma ElementsCons(x: string, s: seq<string>)
    ensures Elements([x] + s) == {x} + Elements(s)
  {
  }

  lemma RestElements(s: seq<string>)
    requires Distinct(s) && s != []
    ensures Elements(s) == {s[0]} + Elements(s[1..]) && s[0] !in Elements(s[1..]) && Distinct(s[1..])
  {
    assert s == [s[0]] + s[1..];
  }

  /** Every subset is among the selections. */
  lemma {:induction false} CombinationsAreAll(s: seq<string>, some: set<string>) returns (c: seq<string>)
    requires Distinct(s) && some <= Elements(s)
    ensures c in Combinations(s, |some|) && Elements(c) == some
  {
    hide *;
    if some == {} {
      c := [];
      NothingSelected(s);
    } else {
      NotEmpty(s, some);
      RestElements(s);
      if s[0] in some {
        var others := some - {s[0]};
        assert some == {s[0]} + others;
        var d := CombinationsAreAll(s[1..], others);
        c := [s[0]] + d;
        ElementsCons(s[0], d);
        Selected(s, |some|, d);
      } else {
        c := CombinationsAreAll(s[1..], some);
        Selected(s, |some|, c);
      }
    }
  }

  lemma NothingSelected(s: seq<string>)
    ensures [] in Combinations(s, 0) && Elements<string>([]) == {}
  {
  }

  lemma NotEmpty(s: seq<string>, some: set<string>)
    requires some <= Elements(s) && some != {}
    ensures s != []
  {
  }

  lemma Selected(s: seq<string>, k: nat, c: seq<string>)
    requires s != [] && k > 0
    ensures c in Combinations(s[1..], k - 1) ==> [s[0]] + c in Combinations(s, k)
    ensures c in Combinations(s[1..], k) ==> c in Combinations(s, k)
  {
    var fewer := Combinations(s[1..], k - 1);
    if c in fewer {
      var i :| 0 <= i < |fewer| && fewer[i] == c;
      assert Prepend(s[0], fewer)[i] == [s[0]] + c;
    }
  }

  /** The set whose removal makes the rest consistent, no smaller set doing so. */
  ghost predicate LeastAnomalous(anomalous: set<string>, all: set<string>, together: Together) {
    && anomalous <= all && Consistent(all - anomalous, together)
    && NoneSmaller(all, together, |anomalous|)
  }

  ghost predicate NoneSmaller(all: set<string>, together: Together, k: nat) {
    forall some: set<string> :: some <= all && |some| < k ==> !Consistent(all - some, together)
  }

  method FindAnomalous(classified: seq<string>, together: Together) returns (anomalous: set<string>)
    requires Distinct(classified) && Ordered(together)
    ensures LeastAnomalous(anomalous, Elements(classified), together)
  {
    hide Combinations, Consistent, Ordered, Distinct;
    for k := 0 to |classified| + 1
      invariant NoneSmaller(Elements(classified), together, k)
    {
      var combos := Combinations(classified, k);
      for j := 0 to |combos|
        invariant forall i :: 0 <= i < j ==> !Consistent(Elements(classified) - Elements(combos[i]), together)
      {
        var combo := combos[j];
        var remaining := Elements(classified) - Elements(combo);
        var consistent := PartitionConsistent(remaining, together);
        if consistent {
          CombinationsAreSubsets(classified, k, combo);
          return Elements(combo);
        }
      }
      NoneOfSize(classified, together, k);
    }
    AllRemoved(classified, together);
    assert false;
    return {};
  }

  lemma NoneOfSize(classified: seq<string>, together: Together, k: nat)
    requires Distinct(classified) && NoneSmaller(Elements(classified), together, k)
    requires forall c :: c in Combinations(classified, k) ==> !Consistent(Elements(classified) - Elements(c), together)
    ensures NoneSmaller(Elements(classified), together, k + 1)
  {
    forall some: set<string> | some <= Elements(classified) && |some| < k + 1
      ensures !Consistent(Elements(classified) - some, together)
    {
      if |some| == k {
        var c := CombinationsAreAll(classified, some);
      }
    }
  }

  lemma AllRemoved(classified: seq<string>, together: Together)
    ensures !NoneSmaller(Elements(classified), together, |classified| + 1)
  {
    NothingIsConsistent(together);
    ElementsCount(classified);
    assert Elements(classified) - Elements(classified) == {};
  }

  lemma NothingIsConsistent(together: Together)
    ensures Consistent({}, together)
  {
    assert Explains(p => 0, {}, together);
  }

  lemma {:induction false} ElementsCount(s: seq<string>)
    ensures |Elements(s)| <= |s|
  {
    if s != [] {
      ElementsCount(s[1..]);
      assert s == [s[0]] + s[1..];
      assert Elements(s) == {s[0]} + Elements(s[1..]);
    }
  }
}
