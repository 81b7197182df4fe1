/** Loading a message file with all it includes (gps/msgfile/msgfile.go, loadTree and processFile). */
module IncludeLoader {
  import opened Sequences
  import opened Options
  import opened IncludeTrees

  /** The tree of the file at `name`. */
  ghost predicate TreeOf(fs: FileSystem, name: string, t: Tree) {
    name in fs.files && TreeOfFile(fs, fs.files[name], name, t)
  }

  ghost predicate TreeOfFile(fs: FileSystem, mf: MsgFile, name: string, t: Tree) {
    t.path == name && t.file == mf && Follows(fs, t)
  }

  /** The paths not loaded yet; the empty path stands for standard input. */
  function Unloaded(fs: FileSystem, files: seq<LoadedFile>): set<string> {
    fs.files.Keys + {""} - Elements(PathsOf(files))
  }

  class Loader {
    const fs: FileSystem
    var files: seq<LoadedFile>

    constructor (fs: FileSystem)
      ensures this.fs == fs && files == []
    {
      this.fs, files := fs, [];
    }

    method CheckUnique(path: string) returns (unique: bool)
      ensures unique <==> path !in PathsOf(files)
    {
      for i := 0 to |files|
        invariant path !in PathsOf(files)[..i]
      {
        if files[i].path == path {
          assert path == PathsOf(files)[i];
          return false;
        }
      }
      return true;
    }

    /** Appends the tree of the file at `name`, if the includes make one that holds no path twice. It ends even when
        files include each other in a circle. */
    method LoadTree(name: string) returns (ok: bool, ghost t: Tree)
      requires Distinct(PathsOf(files)) && name !in PathsOf(files)
      modifies this
      ensures ok ==> TreeOf(fs, name, t) && Distinct(PathsOf(old(files)) + TreePaths(t))
      ensures ok ==> files == old(files) + Flatten(t, |old(files)|)
      ensures !ok ==> forall u: Tree :: TreeOf(fs, name, u) ==> !Distinct(PathsOf(old(files)) + TreePaths(u))
      decreases |Unloaded(fs, files)|, 2
    {
      t := *;
      if name !in fs.files {
        return false, t;
      }
      ok, t := ProcessFile(fs.files[name], name);
    }

    method ProcessFile(mf: MsgFile, name: string) returns (ok: bool, ghost t: Tree)
      requires Distinct(PathsOf(files)) && name !in PathsOf(files) && (name == "" || name in fs.files)
      modifies this
      ensures ok ==> TreeOfFile(fs, mf, name, t) && Distinct(PathsOf(old(files)) + TreePaths(t))
      ensures ok ==> files == old(files) + Flatten(t, |old(files)|)
      ensures !ok ==> NoTree(fs, mf, name, PathsOf(old(files)))
      decreases |Unloaded(fs, files)|, 1
    {
      t := *;
      var idx := |files|;
      ghost var before := files;
      ghost var ts: seq<Tree> := [];
      Begun(fs, before, name, mf);
      files := files + [LoadedFile(name, 0, mf.content)];
      hide Partway, PathsOf, Distinct, NoTree, TreeOfFile, Flatten, Unloaded;
      for k := 0 to |mf.includes|
        invariant |ts| == k && Partway(fs, before, name, mf, ts, files)
      {
        ghost var child: Tree;
        ok, child := IncludeNext(mf, name, k, before, ts);
        if !ok {
          return false, t;
        }
        ts := ts + [child];
      }
      WholeTree(fs, before, name, mf, ts, files);
      files := files[idx := files[idx].(out := |files|)];
      t := Tree(name, mf, ts);
      return true, t;
    }

    /** Loads include `k` of the file at `name`; `ts` are the trees of those before it. */
    method IncludeNext(mf: MsgFile, name: string, k: nat, ghost before: seq<LoadedFile>, ghost ts: seq<Tree>)
      returns (ok: bool, ghost child: Tree)
      requires |ts| == k < |mf.includes| && Partway(fs, before, name, mf, ts, files)
      requires name !in PathsOf(before) && (name == "" || name in fs.files)
      modifies this
      ensures ok ==> Partway(fs, before, name, mf, ts + [child], files)
      ensures !ok ==> NoTree(fs, mf, name, PathsOf(before))
      decreases |Unloaded(fs, before)|, 0
    {
      child := *;
      var src := mf.includes[k];
      var inc := if src == "" then None else fs.resolve(name, src);
      if inc == None {
        CannotInclude(fs, before, mf, name, ts, files);
        return false, child;
      }
      var unique := CheckUnique(inc.value);
      if !unique {
        Repeated(PathsOf(files), inc.value);
        CannotInclude(fs, before, mf, name, ts, files);
        return false, child;
      }
      FewerUnloaded(fs, before, files, name);
      ghost var loaded := files;
      hide FollowsUpTo, Flatten, FlattenAll, ForestPaths, TreePaths, PathsOf, Distinct, Unloaded, Follows;
      ok, child := LoadTree(inc.value);
      if ok {
        NextLoaded(fs, before, name, mf, ts, child, loaded);
      } else {
        CannotInclude(fs, before, mf, name, ts, loaded);
      }
    }
  }

  /** After `before`, the file at `name` is being loaded, and so far its first |ts| includes are. */
  ghost predicate Partway(fs: FileSystem, before: seq<LoadedFile>, name: string, mf: MsgFile, ts: seq<Tree>,
    files: seq<LoadedFile>)
  {
    && FollowsUpTo(fs, name, mf.includes, ts)
    && files == before + [LoadedFile(name, 0, mf.content)] + FlattenAll(ts, |before| + 1)
    && PathsOf(files) == PathsOf(before) + [name] + ForestPaths(ts)
    && Distinct(PathsOf(files))
  }

  /** No tree of the file can be added to `paths` without repeating a path. */
  ghost predicate NoTree(fs: FileSystem, mf: MsgFile, name: string, paths: seq<string>) {
    forall u: Tree :: TreeOfFile(fs, mf, name, u) ==> !Distinct(paths + TreePaths(u))
  }

  lemma Begun(fs: FileSystem, before: seq<LoadedFile>, name: string, mf: MsgFile)
    requires Distinct(PathsOf(before)) && name !in PathsOf(before)
    ensures Partway(fs, before, name, mf, [], before + [LoadedFile(name, 0, mf.content)])
  {
    var head := [LoadedFile(name, 0, mf.content)];
    PathsOfConcat(before, head);
    assert PathsOf(head) == [name];
    assert before + head + FlattenAll([], |before| + 1) == before + head;
    assert PathsOf(before) + [name] + ForestPaths([]) == PathsOf(before) + [name];
  }

  lemma FewerUnloaded(fs: FileSystem, before: seq<LoadedFile>, after: seq<LoadedFile>, name: string)
    requires name !in PathsOf(before) && (name == "" || name in fs.files)
    requires |before| < |after| && after[|before|].path == name
    requires forall i :: 0 <= i < |before| ==> after[i].path == before[i].path
    ensures |Unloaded(fs, after)| < |Unloaded(fs, before)|
  {
    var a, b := Unloaded(fs, after), Unloaded(fs, before);
    assert PathsOf(after)[|before|] == name;
    forall p | p in PathsOf(before) ensures p in PathsOf(after) {
      var i :| 0 <= i < |before| && PathsOf(before)[i] == p;
      assert PathsOf(after)[i] == p;
    }
    assert name in b - a && a <= b;
    assert |b - a| == |b| - |a|;
  }

  /** A file that was loaded cannot be included again. */
  lemma Repeated(paths: seq<string>, path: string)
    requires path in paths
    ensures forall c: Tree :: c.path == path ==> !Distinct(paths + TreePaths(c))
  {
    forall c: Tree | c.path == path ensures !Distinct(paths + TreePaths(c)) {
      var i :| 0 <= i < |paths| && paths[i] == path;
      assert (paths + TreePaths(c))[i] == (paths + TreePaths(c))[|paths|];
    }
  }

  /** When the next include cannot be loaded, nor can the file. */
  lemma CannotInclude(fs: FileSystem, before: seq<LoadedFile>, mf: MsgFile, name: string, ts: seq<Tree>,
    files: seq<LoadedFile>)
    requires |ts| < |mf.includes| && Partway(fs, before, name, mf, ts, files)
    requires forall c: Tree :: IncludedAs(fs, name, mf.includes[|ts|], c) ==> !Distinct(PathsOf(files) + TreePaths(c))
    ensures NoTree(fs, mf, name, PathsOf(before))
  {
    forall u: Tree | TreeOfFile(fs, mf, name, u) ensures !Distinct(PathsOf(before) + TreePaths(u)) {
      var k := |ts|;
      var cs := u.children[..k + 1];
      assert FollowsUpTo(fs, name, mf.includes, u.children);
      OneForest(fs, name, mf.includes, ts, u.children[..k]);
      assert cs[..k] == ts;
      assert IncludedAs(fs, name, mf.includes[k], u.children[k]);
      var head := PathsOf(before) + [name];
      assert head + ForestPaths(cs) == PathsOf(files) + TreePaths(u.children[k]);
      if Distinct(PathsOf(before) + TreePaths(u)) {
        assert PathsOf(before) + TreePaths(u) == head + ForestPaths(u.children);
        DistinctUpTo(head, u.children, k + 1);
        assert false;
      }
    }
  }

  lemma OneMoreChild(before: seq<LoadedFile>, name: string, mf: MsgFile, ts: seq<Tree>, child: Tree,
    files: seq<LoadedFile>)
    requires files == before + [LoadedFile(name, 0, mf.content)] + FlattenAll(ts, |before| + 1)
    requires PathsOf(files) == PathsOf(before) + [name] + ForestPaths(ts)
    ensures files + Flatten(child, |files|) ==
      before + [LoadedFile(name, 0, mf.content)] + FlattenAll(ts + [child], |before| + 1)
    ensures PathsOf(files + Flatten(child, |files|)) == PathsOf(files) + TreePaths(child)
    ensures PathsOf(files) + TreePaths(child) == PathsOf(before) + [name] + ForestPaths(ts + [child])
  {
    hide PathsOf, Flatten, FlattenAll, ForestPaths, TreePaths, Size, Sizes;
    var n := |before| + 1;
    ChildAppended(ts, child, n);
    assert |files| == n + Sizes(ts);
    PathsOfConcat(files, Flatten(child, |files|));
    PathsFlattened(child, |files|);
    Associates(before + [LoadedFile(name, 0, mf.content)], FlattenAll(ts, n), Flatten(child, n + Sizes(ts)));
    Associates(PathsOf(before) + [name], ForestPaths(ts), TreePaths(child));
  }

  lemma ChildAppended(ts: seq<Tree>, child: Tree, base: nat)
    ensures FlattenAll(ts + [child], base) == FlattenAll(ts, base) + Flatten(child, base + Sizes(ts))
    ensures ForestPaths(ts + [child]) == ForestPaths(ts) + TreePaths(child)
  {
    assert (ts + [child])[..|ts|] == ts;
  }

  lemma FollowsOneMore(fs: FileSystem, path: string, includes: seq<string>, ts: seq<Tree>, child: Tree)
    requires FollowsUpTo(fs, path, includes, ts) && |ts| < |includes|
    requires IncludedAs(fs, path, includes[|ts|], child)
    ensures FollowsUpTo(fs, path, includes, ts + [child])
  {
    forall k | 0 <= k < |ts| + 1 ensures IncludedAs(fs, path, includes[k], (ts + [child])[k]) {
      assert k < |ts| ==> (ts + [child])[k] == ts[k];
    }
  }

  lemma NextLoaded(fs: FileSystem, before: seq<LoadedFile>, name: string, mf: MsgFile, ts: seq<Tree>, child: Tree,
    files: seq<LoadedFile>)
    requires |ts| < |mf.includes| && Partway(fs, before, name, mf, ts, files)
    requires IncludedAs(fs, name, mf.includes[|ts|], child) && Distinct(PathsOf(files) + TreePaths(child))
    ensures Partway(fs, before, name, mf, ts + [child], files + Flatten(child, |files|))
  {
    OneMoreChild(before, name, mf, ts, child, files);
    FollowsOneMore(fs, name, mf.includes, ts, child);
    hide FollowsUpTo, Flatten, FlattenAll, ForestPaths, TreePaths, PathsOf, Distinct;
  }

  /** When all includes are loaded, the file's whole tree is. */
  lemma WholeTree(fs: FileSystem, before: seq<LoadedFile>, name: string, mf: MsgFile, ts: seq<Tree>,
    files: seq<LoadedFile>)
    requires |ts| == |mf.includes| && Partway(fs, before, name, mf, ts, files)
    ensures TreeOfFile(fs, mf, name, Tree(name, mf, ts))
    ensures Distinct(PathsOf(before) + TreePaths(Tree(name, mf, ts)))
    ensures |before| < |files| && files[|before|] == LoadedFile(name, 0, mf.content)
    ensures files[|before| := LoadedFile(name, |files|, mf.content)] == before + Flatten(Tree(name, mf, ts), |before|)
  {
    hide Follows, FollowsUpTo, Flatten, FlattenAll, TreePaths, ForestPaths, PathsOf, Distinct, Size, Sizes;
    RootFlattened(fs, Tree(name, mf, ts), |before|);
    Associates(PathsOf(before), [name], ForestPaths(ts));
    ReplaceHead(before, LoadedFile(name, 0, mf.content), LoadedFile(name, |files|, mf.content),
      FlattenAll(ts, |before| + 1), files);
    hide *;
  }

  lemma RootFlattened(fs: FileSystem, t: Tree, base: nat)
    requires |t.children| == |t.file.includes| && FollowsUpTo(fs, t.path, t.file.includes, t.children)
    ensures Follows(fs, t) && TreePaths(t) == [t.path] + ForestPaths(t.children)
    ensures Flatten(t, base) ==
      [LoadedFile(t.path, base + 1 + Sizes(t.children), t.file.content)] + FlattenAll(t.children, base + 1)
  {
  }

  lemma ReplaceHead<T>(a: seq<T>, x: T, y: T, b: seq<T>, s: seq<T>)
    requires s == a + [x] + b
    ensures |s| == |a| + 1 + |b| && s[|a|] == x && s[|a| := y] == a + ([y] + b)
  {
  }

  lemma {:induction false} SubtreeAlong(fs: FileSystem, chain: seq<string>, t: Tree) returns (u: Tree)
    requires |chain| >= 2 && IncludeChain(fs, chain)
    requires TreeOf(fs, chain[0], t)
    ensures TreeOf(fs, chain[|chain| - 1], u) && Size(u) < Size(t)
  {
    assert Includes(fs, chain[0], chain[1]);
    var k :| 0 <= k < |t.file.includes| && Names(fs, chain[0], t.file.includes[k], chain[1]);
    assert FollowsUpTo(fs, t.path, t.file.includes, t.children);
    assert IncludedAs(fs, t.path, t.file.includes[k], t.children[k]);
    ChildIsSmaller(t.children, k);
    u := t.children[k];
    if |chain| > 2 {
      u := SubtreeAlong(fs, chain[1..], u);
    }
  }

  lemma {:induction false} ChildIsSmaller(ts: seq<Tree>, k: nat)
    requires k < |ts|
    ensures Size(ts[k]) <= Sizes(ts)
  {
    if k < |ts| - 1 {
      ChildIsSmaller(ts[..|ts| - 1], k);
    }
  }

  /** Files that include each other in a circle have no tree, so loading one ends in an error. */
  lemma CyclesHaveNoTree(fs: FileSystem, chain: seq<string>, t: Tree)
    requires |chain| >= 2 && IncludeChain(fs, chain)
    requires chain[|chain| - 1] == chain[0]
    ensures !TreeOf(fs, chain[0], t)
  {
    if TreeOf(fs, chain[0], t) {
      var u := SubtreeAlong(fs, chain, t);
      OneTree(fs, t, u);
    }
  }
}
