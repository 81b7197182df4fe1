/** Which properties a receiver saves together (gpshwtest/characterize.py, merge_groups and partition_consistent). */
module SaveGroups {
  import opened Sequences

  /** For pairs of properties, the smaller name first, whether they were observed to persist together. */
  type Together = map<(string, string), bool>

  /** Lexicographic order of names. */
  predicate Less(a: string, b: string) {
    if b == "" then false
    else if a == "" then true
    else a[0] < b[0] || (a[0] == b[0] && Less(a[1..], b[1..]))
  }

  function Key(a: string, b: string): (string, string) {
    if Less(b, a) then (b, a) else (a, b)
  }

  predicate Ordered(together: Together) {
    forall k :: k in together ==> k == Key(k.0, k.1)
  }

  lemma {:induction false} LessIsTotal(a: string, b: string)
    ensures Less(a, b) || Less(b, a) || a == b
    ensures !(Less(a, b) && Less(b, a))
  {
    if a != "" && b != "" && a[0] == b[0] {
      LessIsTotal(a[1..], b[1..]);
      assert a == [a[0]] + a[1..] && b == [b[0]] + b[1..];
    }
  }

  lemma KeyIsSymmetric(a: string, b: string)
    ensures Key(a, b) == Key(b, a)
  {
    LessIsTotal(a, b);
  }

  predicate Joins(together: Together, a: string, b: string) {
    || ((a, b) in together && together[(a, b)])
    || ((b, a) in together && together[(b, a)])
  }

  predicate Path(together: Together, p: seq<string>) {
    |p| >= 1 && forall i :: 0 <= i < |p| - 1 ==> Joins(together, p[i], p[i + 1])
  }

  ghost predicate PathBetween(together: Together, p: seq<string>, a: string, b: string) {
    Path(together, p) && p[0] == a && p[|p| - 1] == b
  }

  ghost predicate Connected(together: Together, a: string, b: string) {
    exists p :: PathBetween(together, p, a, b)
  }

  predicate SameGroup(groups: seq<set<string>>, a: string, b: string) {
    exists g :: g in groups && a in g && b in g
  }

  /** The groups are disjoint, not empty, and hold just the properties. */
  predicate Partitions(groups: seq<set<string>>, props: set<string>) {
    && Distinct(groups)
    && (forall g :: g in groups ==> g != {} && g <= props)
    && (forall g, h :: g in groups && h in groups && g != h ==> g !! h)
    && (forall p :: p in props ==> SameGroup(groups, p, p))
  }

  ghost predicate Components(groups: seq<set<string>>, props: set<string>, together: Together) {
    && Partitions(groups, props)
    && forall a, b :: a in props && b in props ==> (SameGroup(groups, a, b) <==> Connected(together, a, b))
  }

  function Merged(groups: seq<set<string>>, i: nat, j: nat): seq<set<string>>
    requires i < |groups| && j < |groups|
  {
    var joined := groups[i := groups[i] + groups[j]];
    joined[..j] + joined[j + 1..]
  }

  /** The groups after a merge: the joined one and all others but the two. */
  ghost predicate MergesTo(groups: seq<set<string>>, ga: set<string>, gb: set<string>, after: seq<set<string>>) {
    forall g :: g in after <==> g == ga + gb || (g in groups && g != ga && g != gb)
  }

  lemma MergedMembers(groups: seq<set<string>>, i: nat, j: nat)
    requires Distinct(groups) && i < |groups| && j < |groups| && i != j
    ensures MergesTo(groups, groups[i], groups[j], Merged(groups, i, j))
  {
    var ga, gb := groups[i], groups[j];
    var after := Merged(groups, i, j);
    assert after[if i < j then i else i - 1] == ga + gb;
    forall g | g in groups && g != ga && g != gb ensures g in after {
      var m :| 0 <= m < |groups| && groups[m] == g;
      assert after[if m < j then m else m - 1] == g;
    }
  }

  lemma MergedDistinct(groups: seq<set<string>>, i: nat, j: nat)
    requires Distinct(groups) && i < |groups| && j < |groups| && i != j
    requires forall g :: g in groups && g != groups[i] ==> g != groups[i] + groups[j]
    ensures Distinct(Merged(groups, i, j))
  {
    var after := Merged(groups, i, j);
    var k := if i < j then i else i - 1;
    assert forall m :: 0 <= m < |after| && m != k ==> after[m] == groups[if m < j then m else m + 1];
    assert after[k] == groups[i] + groups[j];
    forall m, n | 0 <= m < n < |after| ensures after[m] != after[n] {
      assert m != k ==> after[m] in groups && after[m] != groups[i];
      assert n != k ==> after[n] in groups && after[n] != groups[i];
    }
  }

  lemma UnionIsNew(groups: seq<set<string>>, props: set<string>, i: nat, j: nat)
    requires Partitions(groups, props) && i < |groups| && j < |groups| && i != j
    ensures Distinct(groups) && groups[i] in groups && groups[j] in groups
    ensures forall g :: g in groups && g != groups[i] ==> g != groups[i] + groups[j]
    ensures forall p :: p in props ==> SameGroup(groups, p, p)
  {
    hide SameGroup, Distinct;
    assert groups[i] in groups && groups[j] in groups;
    forall g | g in groups && g != groups[i] ensures g != groups[i] + groups[j] {
      assert g !! groups[i] && groups[i] != {};
    }
  }

  lemma MergedPartitions(groups: seq<set<string>>, props: set<string>, i: nat, j: nat)
    requires Partitions(groups, props) && i < |groups| && j < |groups| && i != j
    ensures Partitions(Merged(groups, i, j), props)
    ensures forall x, y :: SameGroup(Merged(groups, i, j), x, y) <==>
      (SameGroup(groups, x, y) || (x in groups[i] && y in groups[j]) || (x in groups[j] && y in groups[i]))
  {
    hide *;
    var ga, gb := groups[i], groups[j];
    var after := Merged(groups, i, j);
    UnionIsNew(groups, props, i, j);
    MergedMembers(groups, i, j);
    MergedDistinct(groups, i, j);
    MergedDisjoint(groups, props, ga, gb, after);
    forall x, y ensures SameGroup(after, x, y) <==>
      (SameGroup(groups, x, y) || (x in ga && y in gb) || (x in gb && y in ga))
    {
      SameAfterMerge(groups, ga, gb, after, x, y);
    }
    IsPartition(after, props);
  }

  lemma IsPartition(groups: seq<set<string>>, props: set<string>)
    requires Distinct(groups)
    requires forall g :: g in groups ==> g != {} && g <= props
    requires forall g, h :: g in groups && h in groups && g != h ==> g !! h
    requires forall p :: p in props ==> SameGroup(groups, p, p)
    ensures Partitions(groups, props)
  {
  }

  lemma MergedDisjoint(groups: seq<set<string>>, props: set<string>, ga: set<string>, gb: set<string>,
    after: seq<set<string>>)
    requires Partitions(groups, props) && ga in groups && gb in groups && MergesTo(groups, ga, gb, after)
    ensures forall g :: g in after ==> g != {} && g <= props
    ensures forall g, h :: g in after && h in after && g != h ==> g !! h
  {
    hide Distinct, SameGroup;
  }

  lemma SameAfterMerge(groups: seq<set<string>>, ga: set<string>, gb: set<string>, after: seq<set<string>>,
    x: string, y: string)
    requires ga in groups && gb in groups && MergesTo(groups, ga, gb, after)
    ensures SameGroup(after, x, y) <==>
      (SameGroup(groups, x, y) || (x in ga && y in gb) || (x in gb && y in ga))
  {
    if SameGroup(groups, x, y) {
      var g :| g in groups && x in g && y in g;
      assert (if g == ga || g == gb then ga + gb else g) in after;
    }
    if (x in ga && y in gb) || (x in gb && y in ga) {
      assert ga + gb in after;
    }
    if SameGroup(after, x, y) {
      var g :| g in after && x in g && y in g;
    }
  }

  lemma ConnectedOneMore(together: Together, a: string, b: string, c: string)
    requires Connected(together, a, b) && Joins(together, b, c)
    ensures Connected(together, a, c)
  {
    var p :| PathBetween(together, p, a, b);
    assert PathBetween(together, p + [c], a, c);
  }

  lemma ConnectedToItself(together: Together, a: string)
    ensures Connected(together, a, a)
  {
    assert PathBetween(together, [a], a, a);
  }

  lemma {:induction false} ConnectedAlong(together: Together, a: string, p: seq<string>)
    requires Path(together, p) && Connected(together, a, p[0])
    ensures Connected(together, a, p[|p| - 1])
  {
    if |p| > 1 {
      assert Joins(together, p[0], p[1]);
      ConnectedOneMore(together, a, p[0], p[1]);
      ConnectedAlong(together, a, p[1..]);
    }
  }

  lemma ConnectedThrough(together: Together, a: string, b: string, c: string)
    requires Connected(together, a, b) && Connected(together, b, c)
    ensures Connected(together, a, c)
  {
    var p :| PathBetween(together, p, b, c);
    ConnectedAlong(together, a, p);
  }

  lemma {:induction false} ConnectedBackAlong(together: Together, p: seq<string>)
    requires Path(together, p)
    ensures Connected(together, p[|p| - 1], p[0])
  {
    if |p| == 1 {
      ConnectedToItself(together, p[0]);
    } else {
      ConnectedBackAlong(together, p[1..]);
      assert Joins(together, p[0], p[1]);
      ConnectedOneMore(together, p[|p| - 1], p[1], p[0]);
    }
  }

  lemma ConnectedBack(together: Together, a: string, b: string)
    requires Connected(together, a, b)
    ensures Connected(together, b, a)
  {
    var p :| PathBetween(together, p, a, b);
    ConnectedBackAlong(together, p);
  }

  /** Whoever puts every joined pair together puts all that is connected together. */
  lemma {:induction false} SameAlong(together: Together, groups: seq<set<string>>, props: set<string>, p: seq<string>)
    requires Partitions(groups, props) && Path(together, p) && p[0] in props
    requires forall k :: k in together && together[k] ==> SameGroup(groups, k.0, k.1)
    ensures SameGroup(groups, p[0], p[|p| - 1])
  {
    if |p| > 1 {
      assert Joins(together, p[0], p[1]);
      assert SameGroup(groups, p[0], p[1]);
      SameAlong(together, groups, props, p[1..]);
      SameThrough(groups, props, p[0], p[1], p[|p| - 1]);
    }
  }

  lemma SameThrough(groups: seq<set<string>>, props: set<string>, a: string, b: string, c: string)
    requires Partitions(groups, props) && SameGroup(groups, a, b) && SameGroup(groups, b, c)
    ensures SameGroup(groups, a, c)
  {
    var g :| g in groups && a in g && b in g;
    var h :| h in groups && b in h && c in h;
  }

  method FindGroup(groups: seq<set<string>>, p: string) returns (i: nat)
    requires SameGroup(groups, p, p)
    ensures i < |groups| && p in groups[i]
  {
    i := 0;
    while p !in groups[i]
      invariant i < |groups| && forall j :: 0 <= j < i ==> p !in groups[j]
      decreases |groups| - i
    {
      ghost var g :| g in groups && p in g;
      ghost var m :| 0 <= m < |groups| && groups[m] == g;
      i := i + 1;
    }
  }

  /** Everything true was observed of properties among `props`. */
  predicate TruePairsWithin(together: Together, props: set<string>) {
    forall k :: k in together && together[k] ==> k.0 in props && k.1 in props
  }

  /** What merge_groups has done when it has seen all pairs but `todo`. */
  ghost predicate MergedBut(groups: seq<set<string>>, props: set<string>, together: Together,
    todo: set<(string, string)>)
  {
    && Partitions(groups, props)
    && (forall a, b :: SameGroup(groups, a, b) ==> Connected(together, a, b))
    && (forall k :: k in together && k !in todo && together[k] ==> SameGroup(groups, k.0, k.1))
  }

  /** Two properties end in one group exactly when a path of true pairs joins them, whatever the order of the pairs. */
  method MergeGroups(props: set<string>, together: Together) returns (groups: seq<set<string>>)
    requires TruePairsWithin(together, props)
    ensures Components(groups, props, together)
  {
    hide *;
    groups := Singletons(props);
    var todo := together.Keys;
    Unmerged(groups, props, together);
    while todo != {}
      invariant todo <= together.Keys
      invariant MergedBut(groups, props, together, todo)
    {
      var k :| k in todo;
      if !together[k] {
        NothingToMerge(groups, props, together, todo, k);
      } else {
        EndsGrouped(groups, props, together, todo, k);
        var ga := FindGroup(groups, k.0);
        var gb := FindGroup(groups, k.1);
        MergeStep(groups, props, together, todo, k, ga, gb);
        if ga != gb {
          groups := Merged(groups, ga, gb);
        }
      }
      todo := todo - {k};
    }
    AllPairsMerged(groups, props, together);
  }

  method Singletons(props: set<string>) returns (groups: seq<set<string>>)
    ensures forall g :: g in groups <==> exists p :: p in props && g == {p}
    ensures Distinct(groups)
  {
    groups := [];
    var todo := props;
    while todo != {}
      invariant todo <= props
      invariant forall g :: g in groups <==> exists p :: p in props - todo && g == {p}
      invariant Distinct(groups)
    {
      var p :| p in todo;
      assert {p} !in groups;
      groups := groups + [{p}];
      todo := todo - {p};
    }
  }

  lemma Unmerged(groups: seq<set<string>>, props: set<string>, together: Together)
    requires Distinct(groups) && forall g :: g in groups <==> exists p :: p in props && g == {p}
    ensures MergedBut(groups, props, together, together.Keys)
  {
    forall a, b | SameGroup(groups, a, b) ensures Connected(together, a, b) {
      ConnectedToItself(together, a);
    }
    forall p | p in props ensures SameGroup(groups, p, p) {
      assert {p} in groups;
    }
  }

  lemma NothingToMerge(groups: seq<set<string>>, props: set<string>, together: Together, todo: set<(string, string)>,
    k: (string, string))
    requires MergedBut(groups, props, together, todo) && k in together && !together[k]
    ensures MergedBut(groups, props, together, todo - {k})
  {
  }

  lemma EndsGrouped(groups: seq<set<string>>, props: set<string>, together: Together, todo: set<(string, string)>,
    k: (string, string))
    requires MergedBut(groups, props, together, todo) && TruePairsWithin(together, props)
    requires k in together && together[k]
    ensures SameGroup(groups, k.0, k.0) && SameGroup(groups, k.1, k.1)
  {
  }

  lemma MergeStep(groups: seq<set<string>>, props: set<string>, together: Together, todo: set<(string, string)>,
    k: (string, string), i: nat, j: nat)
    requires MergedBut(groups, props, together, todo) && k in together && together[k]
    requires i < |groups| && j < |groups| && k.0 in groups[i] && k.1 in groups[j]
    ensures MergedBut(if i == j then groups else Merged(groups, i, j), props, together, todo - {k})
  {
    hide *;
    if i == j {
      AlreadyMerged(groups, props, together, todo, k, i);
    } else {
      MergedParts(groups, props, together, todo);
      MergedPartitions(groups, props, i, j);
      forall a, b | SameGroup(Merged(groups, i, j), a, b) ensures Connected(together, a, b) {
        if a in groups[i] && b in groups[j] {
          Bridged(groups, together, k, i, j, a, b);
        } else if a in groups[j] && b in groups[i] {
          Bridged(groups, together, k, i, j, b, a);
          ConnectedBack(together, b, a);
        }
      }
      IsMergedBut(Merged(groups, i, j), props, together, todo - {k});
    }
  }

  lemma AlreadyMerged(groups: seq<set<string>>, props: set<string>, together: Together, todo: set<(string, string)>,
    k: (string, string), i: nat)
    requires MergedBut(groups, props, together, todo)
    requires i < |groups| && k.0 in groups[i] && k.1 in groups[i]
    ensures MergedBut(groups, props, together, todo - {k})
  {
    assert SameGroup(groups, k.0, k.1);
    hide SameGroup, Connected, Partitions;
  }

  lemma MergedParts(groups: seq<set<string>>, props: set<string>, together: Together, todo: set<(string, string)>)
    requires MergedBut(groups, props, together, todo)
    ensures Partitions(groups, props)
    ensures forall a, b :: SameGroup(groups, a, b) ==> Connected(together, a, b)
    ensures forall k :: k in together && k !in todo && together[k] ==> SameGroup(groups, k.0, k.1)
  {
  }

  lemma IsMergedBut(groups: seq<set<string>>, props: set<string>, together: Together, todo: set<(string, string)>)
    requires Partitions(groups, props)
    requires forall a, b :: SameGroup(groups, a, b) ==> Connected(together, a, b)
    requires forall k :: k in together && k !in todo && together[k] ==> SameGroup(groups, k.0, k.1)
    ensures MergedBut(groups, props, together, todo)
  {
  }

  lemma Bridged(groups: seq<set<string>>, together: Together, k: (string, string), i: nat, j: nat, a: string, b: string)
    requires forall x, y :: SameGroup(groups, x, y) ==> Connected(together, x, y)
    requires k in together && together[k]
    requires i < |groups| && j < |groups| && k.0 in groups[i] && k.1 in groups[j]
    requires a in groups[i] && b in groups[j]
    ensures Connected(together, a, b)
  {
    assert SameGroup(groups, a, k.0) && SameGroup(groups, k.1, b);
    ConnectedOneMore(together, a, k.0, k.1);
    ConnectedThrough(together, a, k.1, b);
  }

  lemma AllPairsMerged(groups: seq<set<string>>, props: set<string>, together: Together)
    requires MergedBut(groups, props, together, {})
    ensures Components(groups, props, together)
  {
    forall a, b | a in props && Connected(together, a, b) ensures SameGroup(groups, a, b) {
      var p :| PathBetween(together, p, a, b);
      SameAlong(together, groups, props, p);
    }
  }
}
