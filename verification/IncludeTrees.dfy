/** Message files and the trees their includes make (gps/msgfile/msgfile.go). */
module IncludeTrees {
  import Sequences
  import opened Options

  datatype Kind = Line | Binary | NMEA | CASBIN | ASBIN | SDBP | UBX | UBXVal | UBXValPort

  datatype Msg = Msg(tag: string, body: string)

  /** The content of one file, its defaults applied; or the merged content of several. */
  datatype Parsed = Parsed(
    defaults: string, line: seq<Msg>, binary: seq<Msg>, nmea: seq<Msg>, casbin: seq<Msg>, asbin: seq<Msg>,
    sdbp: seq<Msg>, ubx: seq<Msg>, ubxVal: seq<Msg>, ubxValPort: seq<Msg>)
  {
    function Of(kind: Kind): seq<Msg> {
      match kind
      case Line => line
      case Binary => binary
      case NMEA => nmea
      case CASBIN => casbin
      case ASBIN => asbin
      case SDBP => sdbp
      case UBX => ubx
      case UBXVal => ubxVal
      case UBXValPort => ubxValPort
    }
  }

  datatype MsgFile = MsgFile(content: Parsed, includes: seq<string>)

  /** A loaded file: its index in the list is its depth-first in-index, `out` its out-index. */
  datatype LoadedFile = LoadedFile(path: string, out: nat, p: Parsed)

  /** Where files are found: the readable, well-formed ones by path, and what an include names. */
  datatype FileSystem = FileSystem(files: map<string, MsgFile>, resolve: (string, string) -> Option<string>)

  /** A file with the files it includes, in order. */
  datatype Tree = Tree(path: string, file: MsgFile, children: seq<Tree>)

  /** The tree holds just what the includes of its files name. */
  ghost predicate Follows(fs: FileSystem, t: Tree)
    decreases t, 0
  {
    |t.children| == |t.file.includes| && FollowsUpTo(fs, t.path, t.file.includes, t.children)
  }

  /** `ts` are the trees of the first |ts| includes of the file at `path`. */
  ghost predicate FollowsUpTo(fs: FileSystem, path: string, includes: seq<string>, ts: seq<Tree>)
    decreases ts, 0
  {
    && |ts| <= |includes|
    && forall k :: 0 <= k < |ts| ==> IncludedAs(fs, path, includes[k], ts[k])
  }

  ghost predicate IncludedAs(fs: FileSystem, path: string, src: string, t: Tree)
    decreases t, 1
  {
    && src != "" && fs.resolve(path, src) == Some(t.path)
    && t.path in fs.files && t.file == fs.files[t.path] && Follows(fs, t)
  }

  /** The file at `path` includes the one at `next`. */
  ghost predicate Includes(fs: FileSystem, path: string, next: string) {
    path in fs.files &&
    exists k :: 0 <= k < |fs.files[path].includes| && Names(fs, path, fs.files[path].includes[k], next)
  }

  ghost predicate Names(fs: FileSystem, path: string, src: string, next: string) {
    src != "" && fs.resolve(path, src) == Some(next)
  }

  ghost predicate IncludeChain(fs: FileSystem, chain: seq<string>) {
    forall i :: 0 <= i < |chain| - 1 ==> Includes(fs, chain[i], chain[i + 1])
  }

  /** The file at `a` includes the one at `b`, directly or not. */
  ghost predicate IncludesAlong(fs: FileSystem, a: string, b: string) {
    exists chain :: Leads(fs, chain, a, b)
  }

  ghost predicate Leads(fs: FileSystem, chain: seq<string>, a: string, b: string) {
    |chain| >= 2 && IncludeChain(fs, chain) && chain[0] == a && chain[|chain| - 1] == b
  }

  function Size(t: Tree): (n: nat)
    ensures n >= 1
  {
    1 + Sizes(t.children)
  }

  function Sizes(ts: seq<Tree>): nat {
    if ts == [] then 0 else Sizes(ts[..|ts| - 1]) + Size(ts[|ts| - 1])
  }

  /** The files of a tree, depth first, where `base` files precede them. */
  function Flatten(t: Tree, base: nat): (s: seq<LoadedFile>)
    ensures |s| == Size(t)
  {
    [LoadedFile(t.path, base + Size(t), t.file.content)] + FlattenAll(t.children, base + 1)
  }

  function FlattenAll(ts: seq<Tree>, base: nat): (s: seq<LoadedFile>)
    ensures |s| == Sizes(ts)
  {
    if ts == [] then []
    else FlattenAll(ts[..|ts| - 1], base) + Flatten(ts[|ts| - 1], base + Sizes(ts[..|ts| - 1]))
  }

  /** How the file at index `i` is reached from the root: which include at each level. */
  function Address(t: Tree, i: nat): seq<nat>
    requires i < Size(t)
  {
    if i == 0 then [] else AddressIn(t.children, i - 1)
  }

  function AddressIn(ts: seq<Tree>, i: nat): (a: seq<nat>)
    requires i < Sizes(ts)
    ensures a != [] && a[0] < |ts|
  {
    var n := |ts| - 1;
    if i < Sizes(ts[..n]) then AddressIn(ts[..n], i) else [n] + Address(ts[n], i - Sizes(ts[..n]))
  }

  predicate ProperPrefix(a: seq<nat>, b: seq<nat>) {
    |a| < |b| && b[..|a|] == a
  }

  /** The file at `j` is included, directly or not, by the file at `i`. */
  predicate Descendant(t: Tree, i: nat, j: nat)
    requires i < Size(t) && j < Size(t)
  {
    ProperPrefix(Address(t, i), Address(t, j))
  }

  lemma {:induction false} OutInRange(t: Tree, base: nat, i: nat)
    requires i < Size(t)
    ensures base + i < Flatten(t, base)[i].out <= base + Size(t)
  {
    if i > 0 {
      OutInRangeAll(t.children, base + 1, i - 1);
    }
  }

  lemma SizesSplit(ts: seq<Tree>)
    requires ts != []
    ensures Sizes(ts) == Sizes(ts[..|ts| - 1]) + Size(ts[|ts| - 1])
  {
  }

  lemma {:induction false} OutInRangeAll(ts: seq<Tree>, base: nat, i: nat)
    requires i < Sizes(ts)
    ensures base + i < FlattenAll(ts, base)[i].out <= base + Sizes(ts)
  {
    InForest(ts, base, i);
    SizesSplit(ts);
    hide Flatten, FlattenAll, Address, AddressIn, Size, Sizes;
    var n := |ts| - 1;
    if i < Sizes(ts[..n]) {
      OutInRangeAll(ts[..n], base, i);
    } else {
      OutInRange(ts[n], base + Sizes(ts[..n]), i - Sizes(ts[..n]));
    }
  }

  /** Interval labels decide ancestry: an index lies strictly inside a file's interval exactly when it is that of a
      proper descendant. */
  lemma {:induction false} IntervalsAreDescent(t: Tree, base: nat, i: nat, j: nat)
    requires i < Size(t) && j < Size(t)
    ensures i < j && base + j < Flatten(t, base)[i].out <==> Descendant(t, i, j)
  {
    if i > 0 && j > 0 {
      IntervalsAreDescentIn(t.children, base + 1, i - 1, j - 1);
    }
  }

  lemma {:induction false} IntervalsAreDescentIn(ts: seq<Tree>, base: nat, i: nat, j: nat)
    requires i < Sizes(ts) && j < Sizes(ts)
    ensures i < j && base + j < FlattenAll(ts, base)[i].out <==> ProperPrefix(AddressIn(ts, i), AddressIn(ts, j))
  {
    var n := |ts| - 1;
    var before := Sizes(ts[..n]);
    InForest(ts, base, i);
    InForest(ts, base, j);
    hide Flatten, FlattenAll, Address, AddressIn, ProperPrefix, Size, Sizes;
    var a, b := AddressIn(ts, i), AddressIn(ts, j);
    if i < before && j < before {
      IntervalsAreDescentIn(ts[..n], base, i, j);
    } else if i < before {
      OutInRangeAll(ts[..n], base, i);
      DifferentHeads(a, b);
    } else if j < before {
      DifferentHeads(a, b);
    } else {
      IntervalsAreDescent(ts[n], base + before, i - before, j - before);
      PrefixUnder(n, Address(ts[n], i - before), Address(ts[n], j - before));
    }
  }

  /** Where index `i` of a forest is: in the last tree or in the others. */
  lemma InForest(ts: seq<Tree>, base: nat, i: nat)
    requires i < Sizes(ts)
    ensures ts != [] && i - Sizes(ts[..|ts| - 1]) < Size(ts[|ts| - 1])
    ensures var n := |ts| - 1; var before := Sizes(ts[..n]);
      if i < before then
        && AddressIn(ts, i) == AddressIn(ts[..n], i)
        && FlattenAll(ts, base)[i] == FlattenAll(ts[..n], base)[i]
      else
        && AddressIn(ts, i) == [n] + Address(ts[n], i - before)
        && FlattenAll(ts, base)[i] == Flatten(ts[n], base + before)[i - before]
  {
    hide Flatten, Address, Size;
  }

  lemma DifferentHeads(a: seq<nat>, b: seq<nat>)
    requires a != [] && b != [] && a[0] != b[0]
    ensures !ProperPrefix(a, b)
  {
    if |a| <= |b| {
      assert b[..|a|][0] == b[0];
    }
  }

  lemma PrefixUnder(k: nat, a: seq<nat>, b: seq<nat>)
    ensures ProperPrefix([k] + a, [k] + b) <==> ProperPrefix(a, b)
  {
    if |a| < |b| {
      assert ([k] + b)[..1 + |a|] == [k] + b[..|a|];
      assert ([k] + a)[1..] == a && ([k] + b[..|a|])[1..] == b[..|a|];
    }
  }

  /** There is only one tree to follow. */
  lemma {:induction false} OneTree(fs: FileSystem, s: Tree, t: Tree)
    requires s.path == t.path && s.file == t.file && Follows(fs, s) && Follows(fs, t)
    ensures s == t
    decreases s
  {
    OneForest(fs, s.path, s.file.includes, s.children, t.children);
  }

  lemma {:induction false} OneForest(fs: FileSystem, path: string, includes: seq<string>, ss: seq<Tree>, ts: seq<Tree>)
    requires FollowsUpTo(fs, path, includes, ss) && FollowsUpTo(fs, path, includes, ts) && |ss| == |ts|
    ensures ss == ts
    decreases ss
  {
    if ss != [] {
      var n := |ss| - 1;
      OneForest(fs, path, includes, ss[..n], ts[..n]);
      assert IncludedAs(fs, path, includes[n], ss[n]) && IncludedAs(fs, path, includes[n], ts[n]);
      OneTree(fs, ss[n], ts[n]);
      assert ss == ss[..n] + [ss[n]] && ts == ts[..n] + [ts[n]];
    }
  }

  function TreePaths(t: Tree): seq<string> {
    [t.path] + ForestPaths(t.children)
  }

  function ForestPaths(ts: seq<Tree>): seq<string> {
    if ts == [] then [] else ForestPaths(ts[..|ts| - 1]) + TreePaths(ts[|ts| - 1])
  }

  function PathsOf(files: seq<LoadedFile>): seq<string> {
    seq(|files|, i requires 0 <= i < |files| => files[i].path)
  }

  lemma PathsOfConcat(a: seq<LoadedFile>, b: seq<LoadedFile>)
    ensures PathsOf(a + b) == PathsOf(a) + PathsOf(b)
  {
  }

  lemma {:induction false} PathsFlattened(t: Tree, base: nat)
    ensures PathsOf(Flatten(t, base)) == TreePaths(t)
  {
    PathsFlattenedAll(t.children, base + 1);
    var head := [LoadedFile(t.path, base + Size(t), t.file.content)];
    PathsOfConcat(head, FlattenAll(t.children, base + 1));
    assert PathsOf(head) == [t.path];
  }

  lemma {:induction false} PathsFlattenedAll(ts: seq<Tree>, base: nat)
    ensures PathsOf(FlattenAll(ts, base)) == ForestPaths(ts)
  {
    if ts != [] {
      var init, last := ts[..|ts| - 1], ts[|ts| - 1];
      PathsFlattenedAll(init, base);
      PathsFlattened(last, base + Sizes(init));
      PathsOfConcat(FlattenAll(init, base), Flatten(last, base + Sizes(init)));
    }
  }

  lemma {:induction false} DistinctUpTo(before: seq<string>, ts: seq<Tree>, m: nat)
    requires m <= |ts| && Sequences.Distinct(before + ForestPaths(ts))
    ensures Sequences.Distinct(before + ForestPaths(ts[..m]))
  {
    if m == |ts| {
      assert ts[..m] == ts;
    } else {
      var n := |ts| - 1;
      var whole, part := before + ForestPaths(ts), before + ForestPaths(ts[..n]);
      assert whole == part + TreePaths(ts[n]);
      assert forall i :: 0 <= i < |part| ==> part[i] == whole[i];
      DistinctUpTo(before, ts[..n], m);
      assert ts[..n][..m] == ts[..m];
    }
  }
}
