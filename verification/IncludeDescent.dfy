/** Descent in a tree of message files is inclusion, directly or not. */
module IncludeDescent {
  import opened Sequences
  import opened Options
  import opened IncludeTrees

  /** The subtree reached by following the includes of `address`, one at each level. */
  function At(t: Tree, address: seq<nat>): Option<Tree> {
    if address == [] then Some(t)
    else if address[0] < |t.children| then At(t.children[address[0]], address[1..])
    else None
  }

  /** The address of an index leads to the file at that index, and its interval is as long as its tree. */
  lemma {:induction false} AddressLeads(t: Tree, base: nat, i: nat)
    requires i < Size(t)
    ensures var u := At(t, Address(t, i));
      u.Some? && Flatten(t, base)[i] == LoadedFile(u.value.path, base + i + Size(u.value), u.value.file.content)
  {
    if i > 0 {
      AddressLeadsIn(t.children, base + 1, i - 1);
    }
  }

  lemma {:induction false} AddressLeadsIn(ts: seq<Tree>, base: nat, i: nat)
    requires i < Sizes(ts)
    ensures var a := AddressIn(ts, i); var u := At(ts[a[0]], a[1..]);
      u.Some? && FlattenAll(ts, base)[i] == LoadedFile(u.value.path, base + i + Size(u.value), u.value.file.content)
  {
    InForest(ts, base, i);
    hide Flatten, FlattenAll, Address, AddressIn, Size, Sizes, At;
    var n := |ts| - 1;
    var before := Sizes(ts[..n]);
    if i < before {
      AddressLeadsIn(ts[..n], base, i);
    } else {
      AddressLeads(ts[n], base + before, i - before);
      assert AddressIn(ts, i)[1..] == Address(ts[n], i - before);
    }
  }

  /** Every address that leads somewhere is that of an index. */
  lemma {:induction false} IndexAt(t: Tree, address: seq<nat>) returns (i: nat)
    requires At(t, address).Some?
    ensures i < Size(t) && Address(t, i) == address
    decreases t, 0
  {
    if address == [] {
      i := 0;
    } else {
      var j := IndexIn(t.children, address);
      i := j + 1;
    }
  }

  lemma {:induction false} IndexIn(ts: seq<Tree>, address: seq<nat>) returns (i: nat)
    requires address != [] && address[0] < |ts| && At(ts[address[0]], address[1..]).Some?
    ensures i < Sizes(ts) && AddressIn(ts, i) == address
    decreases ts, 0
  {
    var n := |ts| - 1;
    if address[0] == n {
      var j := IndexAt(ts[n], address[1..]);
      i := Sizes(ts[..n]) + j;
    } else {
      i := IndexIn(ts[..n], address);
    }
  }

  lemma {:induction false} AtPrefix(t: Tree, address: seq<nat>, k: nat)
    requires At(t, address + [k]).Some?
    ensures At(t, address).Some? && k < |At(t, address).value.children|
    ensures At(t, address + [k]) == Some(At(t, address).value.children[k])
  {
    if address != [] {
      assert (address + [k])[1..] == address[1..] + [k];
      AtPrefix(t.children[address[0]], address[1..], k);
    } else {
      assert (address + [k])[1..] == [];
    }
  }

  lemma {:induction false} AtChild(t: Tree, address: seq<nat>, k: nat)
    requires At(t, address).Some? && k < |At(t, address).value.children|
    ensures At(t, address + [k]) == Some(At(t, address).value.children[k])
  {
    if address != [] {
      assert (address + [k])[1..] == address[1..] + [k];
      AtChild(t.children[address[0]], address[1..], k);
    } else {
      assert (address + [k])[1..] == [];
    }
  }

  /** The files found under their paths, the root's among them: it may come from standard input. */
  function WithRoot(fs: FileSystem, t: Tree): FileSystem {
    FileSystem(fs.files[t.path := t.file], fs.resolve)
  }

  /** A tree in which every file's children are what it includes, the file being the one found under its path. */
  lemma {:induction false} SubtreeFollows(fs: FileSystem, t: Tree, address: seq<nat>)
    requires Follows(fs, t) && At(t, address).Some?
    ensures var u := At(t, address).value;
      Follows(fs, u) && (address != [] ==> u.path in fs.files && u.file == fs.files[u.path])
  {
    if address != [] {
      assert FollowsUpTo(fs, t.path, t.file.includes, t.children);
      assert IncludedAs(fs, t.path, t.file.includes[address[0]], t.children[address[0]]);
      SubtreeFollows(fs, t.children[address[0]], address[1..]);
    }
  }

  /** The node at index `i`: its path is the one there, and its file is the one found under it. */
  lemma NodeAt(fs: FileSystem, t: Tree, i: nat) returns (u: Tree)
    requires Follows(fs, t) && Distinct(TreePaths(t)) && i < Size(t)
    ensures At(t, Address(t, i)) == Some(u) && Follows(fs, u) && |TreePaths(t)| == Size(t) && TreePaths(t)[i] == u.path
    ensures u.path in WithRoot(fs, t).files && WithRoot(fs, t).files[u.path] == u.file
  {
    AddressLeads(t, 0, i);
    u := At(t, Address(t, i)).value;
    SubtreeFollows(fs, t, Address(t, i));
    PathsFlattened(t, 0);
    assert PathsOf(Flatten(t, 0))[i] == u.path;
    assert PathsOf(Flatten(t, 0))[0] == t.path;
    assert i == 0 ==> u == t;
    hide *;
  }

  lemma SameIndex(paths: seq<string>, i: nat, j: nat)
    requires Distinct(paths) && i < |paths| && j < |paths| && paths[i] == paths[j]
    ensures i == j
  {
  }

  /** What a node includes are its children. */
  lemma ChildIncluded(fs: FileSystem, t: Tree, u: Tree, next: string) returns (k: nat)
    requires Follows(fs, u) && u.path in WithRoot(fs, t).files && WithRoot(fs, t).files[u.path] == u.file
    requires Includes(WithRoot(fs, t), u.path, next)
    ensures k < |u.children| && u.children[k].path == next
  {
    var r := WithRoot(fs, t);
    k :| 0 <= k < |r.files[u.path].includes| && Names(r, u.path, r.files[u.path].includes[k], next);
    assert FollowsUpTo(fs, u.path, u.file.includes, u.children);
    assert IncludedAs(fs, u.path, u.file.includes[k], u.children[k]);
  }

  lemma ChildIncludes(fs: FileSystem, t: Tree, u: Tree, k: nat)
    requires Follows(fs, u) && u.path in WithRoot(fs, t).files && WithRoot(fs, t).files[u.path] == u.file
    requires k < |u.children|
    ensures Includes(WithRoot(fs, t), u.path, u.children[k].path)
  {
    var r := WithRoot(fs, t);
    assert FollowsUpTo(fs, u.path, u.file.includes, u.children);
    assert IncludedAs(fs, u.path, u.file.includes[k], u.children[k]);
    assert Names(r, u.path, r.files[u.path].includes[k], u.children[k].path);
  }

  /** A descendant is included, directly or not. */
  lemma {:induction false} DescentIncludes(fs: FileSystem, t: Tree, i: nat, j: nat)
    requires Follows(fs, t) && Distinct(TreePaths(t)) && i < Size(t) && j < Size(t) && Descendant(t, i, j)
    ensures |TreePaths(t)| == Size(t) && IncludesAlong(WithRoot(fs, t), TreePaths(t)[i], TreePaths(t)[j])
    decreases |Address(t, j)|
  {
    hide Follows, TreePaths, Address, At, Size, Includes, Distinct;
    var a, b := Address(t, i), Address(t, j);
    var u := NodeAt(fs, t, i);
    var v := NodeAt(fs, t, j);
    var p, k := b[..|b| - 1], b[|b| - 1];
    assert b == p + [k];
    AtPrefix(t, p, k);
    var m := IndexAt(t, p);
    var w := NodeAt(fs, t, m);
    ChildIncludes(fs, t, w, k);
    assert p[..|a|] == a;
    if |p| == |a| {
      assert p == a;
      Direct(WithRoot(fs, t), u.path, v.path);
    } else {
      DescentIncludes(fs, t, i, m);
      Onward(WithRoot(fs, t), u.path, w.path, v.path);
    }
  }

  lemma Direct(fs: FileSystem, a: string, b: string)
    requires Includes(fs, a, b)
    ensures IncludesAlong(fs, a, b)
  {
    assert Leads(fs, [a, b], a, b);
  }

  lemma Onward(fs: FileSystem, a: string, b: string, c: string)
    requires IncludesAlong(fs, a, b) && Includes(fs, b, c)
    ensures IncludesAlong(fs, a, c)
  {
    var chain :| Leads(fs, chain, a, b);
    assert Leads(fs, chain + [c], a, c);
  }

  /** What is included, directly or not, is a descendant. */
  lemma {:induction false} ChainDescends(fs: FileSystem, t: Tree, i: nat, j: nat, chain: seq<string>)
    requires Follows(fs, t) && Distinct(TreePaths(t)) && i < Size(t) && j < Size(t) && |TreePaths(t)| == Size(t)
    requires Leads(WithRoot(fs, t), chain, TreePaths(t)[i], TreePaths(t)[j])
    ensures Descendant(t, i, j)
    decreases |chain|
  {
    hide Follows, TreePaths, Address, At, Size, Includes, Distinct;
    var u := NodeAt(fs, t, i);
    assert Includes(WithRoot(fs, t), chain[0], chain[1]);
    var k := ChildIncluded(fs, t, u, chain[1]);
    var a := Address(t, i);
    AtChild(t, a, k);
    var m := IndexAt(t, a + [k]);
    var w := NodeAt(fs, t, m);
    if |chain| == 2 {
      SameIndex(TreePaths(t), m, j);
      assert (a + [k])[..|a|] == a;
    } else {
      assert Leads(WithRoot(fs, t), chain[1..], TreePaths(t)[m], TreePaths(t)[j]);
      ChainDescends(fs, t, m, j, chain[1..]);
      PrefixOfPrefix(a, k, Address(t, j));
    }
  }

  lemma PrefixOfPrefix(a: seq<nat>, k: nat, b: seq<nat>)
    requires ProperPrefix(a + [k], b)
    ensures ProperPrefix(a, b)
  {
    assert b[..|a|] == b[..|a| + 1][..|a|] == (a + [k])[..|a|];
  }

  /** In a tree that follows its includes and repeats no path, a file's descendants are exactly what it includes,
      directly or not. */
  lemma DescentIsInclusion(fs: FileSystem, t: Tree, i: nat, j: nat)
    requires Follows(fs, t) && Distinct(TreePaths(t)) && i < Size(t) && j < Size(t)
    ensures |TreePaths(t)| == Size(t)
    ensures Descendant(t, i, j) <==> IncludesAlong(WithRoot(fs, t), TreePaths(t)[i], TreePaths(t)[j])
  {
    hide *;
    var _ := NodeAt(fs, t, i);
    if Descendant(t, i, j) {
      DescentIncludes(fs, t, i, j);
    }
    AlongDescends(fs, t, i, j);
  }

  lemma AlongDescends(fs: FileSystem, t: Tree, i: nat, j: nat)
    requires Follows(fs, t) && Distinct(TreePaths(t)) && i < Size(t) && j < Size(t) && |TreePaths(t)| == Size(t)
    ensures IncludesAlong(WithRoot(fs, t), TreePaths(t)[i], TreePaths(t)[j]) ==> Descendant(t, i, j)
  {
    hide Follows, TreePaths, Descendant, Leads, Distinct;
    if IncludesAlong(WithRoot(fs, t), TreePaths(t)[i], TreePaths(t)[j]) {
      var chain :| Leads(WithRoot(fs, t), chain, TreePaths(t)[i], TreePaths(t)[j]);
      ChainDescends(fs, t, i, j, chain);
    }
  }
}
