/** Merging loaded files: which file owns a tag (gps/msgfile/msgfile.go, fileTags, mergeFiles and Load). */
module TagOwnership {
  import opened Sequences
  import opened Options
  import opened IncludeTrees
  import opened IncludeDescent
  import opened IncludeLoader

  function TagsOf(msgs: seq<Msg>): set<string> {
    set m | m in msgs :: m.tag
  }

  predicate Defines(p: Parsed, tag: string) {
    exists kind: Kind :: tag in TagsOf(p.Of(kind))
  }

  /** The first file in depth-first order that defines the tag; |files| if none does. */
  function Owner(files: seq<LoadedFile>, tag: string): (i: nat)
    ensures i <= |files| && (i < |files| ==> Defines(files[i].p, tag))
    ensures forall j :: 0 <= j < i ==> !Defines(files[j].p, tag)
  {
    if files == [] || Defines(files[0].p, tag) then 0 else 1 + Owner(files[1..], tag)
  }

  /** The owner's interval takes in every other file that defines the tag. */
  predicate Nested(files: seq<LoadedFile>, tag: string) {
    forall i: nat :: i < |files| && Defines(files[i].p, tag) ==> NestedAt(files, tag, i)
  }

  predicate NestedAt(files: seq<LoadedFile>, tag: string, i: nat) {
    var owner := Owner(files, tag);
    owner == i || (owner < |files| && i < files[owner].out)
  }

  /** The messages among `msgs`, from file `i`, whose tag that file owns. */
  function OwnedFrom(files: seq<LoadedFile>, i: nat, msgs: seq<Msg>): seq<Msg> {
    if msgs == [] then []
    else
      var last := msgs[|msgs| - 1];
      OwnedFrom(files, i, msgs[..|msgs| - 1]) + if Owner(files, last.tag) == i then [last] else []
  }

  /** What the first `n` files own, in depth-first order. */
  function Owned(files: seq<LoadedFile>, kind: Kind, n: nat): seq<Msg>
    requires n <= |files|
  {
    if n == 0 then [] else Owned(files, kind, n - 1) + OwnedFrom(files, n - 1, files[n - 1].p.Of(kind))
  }

  ghost predicate Merges(files: seq<LoadedFile>, p: Parsed)
    requires files != []
  {
    p.defaults == files[0].p.defaults && forall kind: Kind :: p.Of(kind) == Owned(files, kind, |files|)
  }

  method CollectTags(tags: set<string>, msgs: seq<Msg>) returns (r: set<string>)
    ensures r == tags + TagsOf(msgs)
  {
    r := tags;
    for i := 0 to |msgs|
      invariant r == tags + TagsOf(msgs[..i])
    {
      r := r + {msgs[i].tag};
      assert msgs[..i + 1] == msgs[..i] + [msgs[i]];
    }
    assert msgs[..|msgs|] == msgs;
  }

  method FileTags(p: Parsed) returns (tags: set<string>)
    ensures Definitions(p, tags)
  {
    tags := CollectTags({}, p.line);
    tags := CollectTags(tags, p.binary);
    tags := CollectTags(tags, p.nmea);
    tags := CollectTags(tags, p.casbin);
    tags := CollectTags(tags, p.asbin);
    tags := CollectTags(tags, p.sdbp);
    tags := CollectTags(tags, p.ubx);
    tags := CollectTags(tags, p.ubxVal);
    tags := CollectTags(tags, p.ubxValPort);
    assert tags == TagsOf(p.Of(Line)) + TagsOf(p.Of(Binary)) + TagsOf(p.Of(NMEA)) + TagsOf(p.Of(CASBIN))
      + TagsOf(p.Of(ASBIN)) + TagsOf(p.Of(SDBP)) + TagsOf(p.Of(UBX)) + TagsOf(p.Of(UBXVal)) + TagsOf(p.Of(UBXValPort));
  }

  /** The owners of all tags, or None if a tag is defined twice with no override. */
  method TagOwners(files: seq<LoadedFile>) returns (r: Option<map<string, nat>>)
    ensures r.Some? <==> forall tag :: Nested(files, tag)
    ensures r.Some? ==> OwnersOf(files, r.value, |files|)
  {
    hide *;
    var tagOwner: map<string, nat> := map[];
    NothingOwned(files);
    for i := 0 to |files|
      invariant OwnersOf(files, tagOwner, i) && NestedUpTo(files, i)
    {
      var tags := FileTags(files[i].p);
      var after := ClaimTags(files, i, tags, tagOwner);
      NextFileNested(files, i, tags);
      if after == None {
        return None;
      }
      NextFileOwned(files, tagOwner, after.value, i);
      tagOwner := after.value;
    }
    AllFilesNested(files);
    return Some(tagOwner);
  }

  ghost predicate NestedUpTo(files: seq<LoadedFile>, n: nat)
    requires n <= |files|
  {
    forall tag, j: nat :: j < n && Defines(files[j].p, tag) ==> NestedAt(files, tag, j)
  }

  lemma NothingOwned(files: seq<LoadedFile>)
    ensures OwnersOf(files, map[], 0) && NestedUpTo(files, 0)
  {
  }

  lemma NextFileNested(files: seq<LoadedFile>, i: nat, tags: set<string>)
    requires i < |files| && NestedUpTo(files, i) && Definitions(files[i].p, tags)
    ensures (forall tag :: tag in tags ==> NestedAt(files, tag, i)) ==> NestedUpTo(files, i + 1)
    ensures !(forall tag :: tag in tags ==> NestedAt(files, tag, i)) ==> exists tag :: !Nested(files, tag)
  {
    hide NestedAt, Defines;
    if tag :| tag in tags && !NestedAt(files, tag, i) {
      assert !Nested(files, tag);
    }
  }

  lemma AllFilesNested(files: seq<LoadedFile>)
    requires NestedUpTo(files, |files|)
    ensures forall tag :: Nested(files, tag)
  {
    hide NestedAt, Defines;
  }

  /** File `i` claims those of its tags that no earlier file has; it must be nested in the owners of the others. */
  method ClaimTags(files: seq<LoadedFile>, i: nat, tags: set<string>, tagOwner: map<string, nat>)
    returns (r: Option<map<string, nat>>)
    requires i < |files| && OwnersOf(files, tagOwner, i) && Definitions(files[i].p, tags)
    ensures r.Some? <==> forall tag :: tag in tags ==> NestedAt(files, tag, i)
    ensures r.Some? ==> Claimed(files, i, tags, tagOwner, r.value)
  {
    var owners: map<string, nat> := tagOwner;
    var todo := tags;
    NoneClaimed(files, i, tagOwner);
    assert tags - todo == {};
    hide Owner, Defines, DefinedBefore, OwnersOf, Definitions, Claimed;
    while todo != {}
      invariant todo <= tags
      invariant Claimed(files, i, tags - todo, tagOwner, owners)
      invariant forall tag :: tag in tags - todo ==> NestedAt(files, tag, i)
    {
      var tag :| tag in todo;
      DefinesIt(files[i].p, tags, tag);
      ClaimOne(files, i, tags - todo, tag, tagOwner, owners);
      assert tags - todo + {tag} == tags - (todo - {tag});
      if tag !in owners {
        owners := owners[tag := i];
      } else if !(files[owners[tag]].out > i) {
        assert !NestedAt(files, tag, i);
        return None;
      }
      todo := todo - {tag};
    }
    assert tags - todo == tags;
    return Some(owners);
  }

  lemma DefinesIt(p: Parsed, tags: set<string>, tag: string)
    requires Definitions(p, tags) && tag in tags
    ensures Defines(p, tag)
  {
  }

  lemma NoneClaimed(files: seq<LoadedFile>, i: nat, tagOwner: map<string, nat>)
    requires i < |files| && OwnersOf(files, tagOwner, i)
    ensures Claimed(files, i, {}, tagOwner, tagOwner)
  {
    FirstHere(files, tagOwner, i);
  }

  lemma ClaimOne(files: seq<LoadedFile>, i: nat, done: set<string>, tag: string, before: map<string, nat>,
    after: map<string, nat>)
    requires i < |files| && OwnersOf(files, before, i) && Claimed(files, i, done, before, after)
    requires tag !in done && Defines(files[i].p, tag)
    ensures tag in after ==> after[tag] == Owner(files, tag) < i && Claimed(files, i, done + {tag}, before, after)
    ensures tag !in after ==> Owner(files, tag) == i && Claimed(files, i, done + {tag}, before, after[tag := i])
  {
    FirstHere(files, before, i);
    assert ClaimedAt(files, i, tag, false, before, after);
    hide Owner, Defines, DefinedBefore, OwnersOf;
    var owners := if tag in after then after else after[tag := i];
    forall other ensures ClaimedAt(files, i, other, other in done + {tag}, before, owners) {
      assert ClaimedAt(files, i, other, other in done, before, after);
    }
  }

  ghost predicate Claimed(files: seq<LoadedFile>, i: nat, tags: set<string>, before: map<string, nat>,
    after: map<string, nat>)
  {
    forall tag :: ClaimedAt(files, i, tag, tag in tags, before, after)
  }

  ghost predicate ClaimedAt(files: seq<LoadedFile>, i: nat, tag: string, isOwn: bool, before: map<string, nat>,
    after: map<string, nat>)
  {
    && (tag in after <==> tag in before || isOwn)
    && (tag in after ==> after[tag] == Owner(files, tag) && if tag in before then after[tag] < i else after[tag] == i)
  }

  lemma FirstHere(files: seq<LoadedFile>, tagOwner: map<string, nat>, i: nat)
    requires i < |files| && OwnersOf(files, tagOwner, i)
    ensures forall tag :: Defines(files[i].p, tag) && tag !in tagOwner ==> Owner(files, tag) == i
    ensures forall tag :: tag in tagOwner ==> tagOwner[tag] < i
  {
    forall tag | Defines(files[i].p, tag) && tag !in tagOwner ensures Owner(files, tag) == i {
      if Owner(files, tag) < i {
        assert DefinedBefore(files, tag, i);
      }
    }
  }

  lemma NextFileOwned(files: seq<LoadedFile>, before: map<string, nat>, after: map<string, nat>, i: nat)
    requires i < |files| && OwnersOf(files, before, i)
    requires exists tags :: Claimed(files, i, tags, before, after) && Definitions(files[i].p, tags)
    ensures OwnersOf(files, after, i + 1)
  {
    var tags :| Claimed(files, i, tags, before, after) && Definitions(files[i].p, tags);
    hide Owner, Defines;
    forall tag ensures tag in after <==> DefinedBefore(files, tag, i + 1) {
      assert ClaimedAt(files, i, tag, tag in tags, before, after);
      if DefinedBefore(files, tag, i) {
        var j :| 0 <= j < i && Defines(files[j].p, tag);
        assert DefinedBefore(files, tag, i + 1);
      }
      assert tag in tags <==> Defines(files[i].p, tag);
    }
    forall tag | tag in after ensures after[tag] == Owner(files, tag) {
      assert ClaimedAt(files, i, tag, tag in tags, before, after);
    }
  }

  ghost predicate Definitions(p: Parsed, tags: set<string>) {
    forall tag :: tag in tags <==> Defines(p, tag)
  }

  predicate DefinedBefore(files: seq<LoadedFile>, tag: string, n: nat)
    requires n <= |files|
  {
    exists j :: 0 <= j < n && Defines(files[j].p, tag)
  }

  /** The map holds just the owners of the tags in the first `n` files. */
  ghost predicate OwnersOf(files: seq<LoadedFile>, tagOwner: map<string, nat>, n: nat)
    requires n <= |files|
  {
    && (forall tag :: tag in tagOwner <==> DefinedBefore(files, tag, n))
    && (forall tag :: tag in tagOwner ==> tagOwner[tag] == Owner(files, tag))
  }

  method MergeOwnedMsgs(dst: seq<Msg>, src: seq<Msg>, owner: nat, tagOwner: map<string, nat>,
    ghost files: seq<LoadedFile>) returns (r: seq<Msg>)
    requires Known(files, tagOwner, src)
    ensures r == dst + OwnedFrom(files, owner, src)
  {
    r := dst;
    for j := 0 to |src|
      invariant r == dst + OwnedFrom(files, owner, src[..j])
    {
      assert src[j] in src && src[..j + 1][..j] == src[..j];
      if tagOwner[src[j].tag] == owner {
        r := r + [src[j]];
      }
    }
    assert src[..|src|] == src;
  }

  method MergeFiles(files: seq<LoadedFile>) returns (r: Option<Parsed>)
    requires files != []
    ensures r.Some? <==> forall tag :: Nested(files, tag)
    ensures r.Some? ==> Merges(files, r.value)
  {
    hide Owner, Defines, Nested, NestedAt, Owned, OwnersOf, Merges, MergedUpTo;
    if |files| == 1 {
      OnlyFile(files);
      AloneIsNested(files);
      return Some(files[0].p);
    }
    var owners := TagOwners(files);
    if owners == None {
      return None;
    }
    var p := Parsed(files[0].p.defaults, [], [], [], [], [], [], [], [], []);
    NothingMerged(files, p);
    for i := 0 to |files|
      invariant MergedUpTo(files, p, i)
    {
      p := MergeFile(p, files, i, owners.value);
    }
    AllMerged(files, p);
    return Some(p);
  }

  ghost predicate MergedUpTo(files: seq<LoadedFile>, p: Parsed, i: nat)
    requires files != [] && i <= |files|
  {
    p.defaults == files[0].p.defaults && forall kind: Kind :: p.Of(kind) == Owned(files, kind, i)
  }

  lemma NothingMerged(files: seq<LoadedFile>, p: Parsed)
    requires files != [] && p == Parsed(files[0].p.defaults, [], [], [], [], [], [], [], [], [])
    ensures MergedUpTo(files, p, 0)
  {
  }

  lemma AllMerged(files: seq<LoadedFile>, p: Parsed)
    requires files != [] && MergedUpTo(files, p, |files|)
    ensures Merges(files, p)
  {
  }

  method MergeFile(p: Parsed, files: seq<LoadedFile>, i: nat, tagOwner: map<string, nat>) returns (r: Parsed)
    requires i < |files| && OwnersOf(files, tagOwner, |files|) && MergedUpTo(files, p, i)
    ensures MergedUpTo(files, r, i + 1)
  {
    var q := files[i].p;
    TagsKnown(files, tagOwner, q, i);
    hide Owner, OwnersOf, OwnedFrom, TagsOf, MergedUpTo;
    var line := MergeOwnedMsgs(p.line, q.Of(Line), i, tagOwner, files);
    var binary := MergeOwnedMsgs(p.binary, q.Of(Binary), i, tagOwner, files);
    var nmea := MergeOwnedMsgs(p.nmea, q.Of(NMEA), i, tagOwner, files);
    var casbin := MergeOwnedMsgs(p.casbin, q.Of(CASBIN), i, tagOwner, files);
    var asbin := MergeOwnedMsgs(p.asbin, q.Of(ASBIN), i, tagOwner, files);
    var sdbp := MergeOwnedMsgs(p.sdbp, q.Of(SDBP), i, tagOwner, files);
    var ubx := MergeOwnedMsgs(p.ubx, q.Of(UBX), i, tagOwner, files);
    var ubxVal := MergeOwnedMsgs(p.ubxVal, q.Of(UBXVal), i, tagOwner, files);
    var ubxValPort := MergeOwnedMsgs(p.ubxValPort, q.Of(UBXValPort), i, tagOwner, files);
    r := Parsed(p.defaults, line, binary, nmea, casbin, asbin, sdbp, ubx, ubxVal, ubxValPort);
    forall kind: Kind ensures r.Of(kind) == p.Of(kind) + OwnedFrom(files, i, q.Of(kind)) {
      match kind {
        case Line =>
        case Binary =>
        case NMEA =>
        case CASBIN =>
        case ASBIN =>
        case SDBP =>
        case UBX =>
        case UBXVal =>
        case UBXValPort =>
      }
    }
    NextMerged(files, p, r, i);
  }

  lemma NextMerged(files: seq<LoadedFile>, p: Parsed, r: Parsed, i: nat)
    requires i < |files| && MergedUpTo(files, p, i) && r.defaults == p.defaults
    requires forall kind: Kind :: r.Of(kind) == p.Of(kind) + OwnedFrom(files, i, files[i].p.Of(kind))
    ensures MergedUpTo(files, r, i + 1)
  {
    hide Owner, OwnedFrom, Parsed.Of;
  }

  ghost predicate Known(files: seq<LoadedFile>, tagOwner: map<string, nat>, msgs: seq<Msg>) {
    forall m :: m in msgs ==> m.tag in tagOwner && tagOwner[m.tag] == Owner(files, m.tag)
  }

  lemma TagsKnown(files: seq<LoadedFile>, tagOwner: map<string, nat>, p: Parsed, i: nat)
    requires i < |files| && p == files[i].p && OwnersOf(files, tagOwner, |files|)
    ensures forall kind: Kind :: Known(files, tagOwner, p.Of(kind))
  {
    forall kind: Kind, m | m in p.Of(kind) ensures m.tag in tagOwner {
      assert m.tag in TagsOf(p.Of(kind));
      assert DefinedBefore(files, m.tag, |files|);
    }
  }

  lemma OnlyFile(files: seq<LoadedFile>)
    requires |files| == 1
    ensures Merges(files, files[0].p)
  {
    forall kind: Kind ensures files[0].p.Of(kind) == Owned(files, kind, 1) {
      var msgs := files[0].p.Of(kind);
      forall m | m in msgs ensures Owner(files, m.tag) == 0 {
        assert m.tag in TagsOf(msgs);
        assert Defines(files[0].p, m.tag);
      }
      AllOwned(files, msgs);
      assert Owned(files, kind, 1) == [] + msgs;
    }
  }

  lemma {:induction false} AllOwned(files: seq<LoadedFile>, msgs: seq<Msg>)
    requires forall m :: m in msgs ==> Owner(files, m.tag) == 0
    ensures OwnedFrom(files, 0, msgs) == msgs
  {
    if msgs != [] {
      AllOwned(files, msgs[..|msgs| - 1]);
    }
  }

  function WithTag(msgs: seq<Msg>, tag: string): seq<Msg> {
    if msgs == [] then []
    else
      var last := msgs[|msgs| - 1];
      WithTag(msgs[..|msgs| - 1], tag) + if last.tag == tag then [last] else []
  }

  lemma {:induction false} WithTagConcat(a: seq<Msg>, b: seq<Msg>, tag: string)
    ensures WithTag(a + b, tag) == WithTag(a, tag) + WithTag(b, tag)
  {
    if b == [] {
      assert a + b == a;
    } else {
      var n := |b| - 1;
      WithTagConcat(a, b[..n], tag);
      assert (a + b)[..|a + b| - 1] == a + b[..n];
    }
  }

  lemma {:induction false} OwnedFromWithTag(files: seq<LoadedFile>, i: nat, msgs: seq<Msg>, tag: string)
    ensures WithTag(OwnedFrom(files, i, msgs), tag) == if Owner(files, tag) == i then WithTag(msgs, tag) else []
  {
    if msgs != [] {
      var init, last := msgs[..|msgs| - 1], msgs[|msgs| - 1];
      OwnedFromWithTag(files, i, init, tag);
      var kept := if Owner(files, last.tag) == i then [last] else [];
      WithTagConcat(OwnedFrom(files, i, init), kept, tag);
      assert [last][..0] == [];
    }
  }

  /** Of each tag, the merged file holds exactly the messages of the file that owns it. */
  lemma {:induction false} OneFilePerTag(files: seq<LoadedFile>, kind: Kind, n: nat, tag: string)
    requires n <= |files|
    ensures Owner(files, tag) < n ==>
      WithTag(Owned(files, kind, n), tag) == WithTag(files[Owner(files, tag)].p.Of(kind), tag)
    ensures Owner(files, tag) >= n ==> WithTag(Owned(files, kind, n), tag) == []
  {
    hide *;
    if n == 0 {
      NoFileWithTag(files, kind, tag);
    } else {
      OneFilePerTag(files, kind, n - 1, tag);
      NextFileWithTag(files, kind, n - 1, tag);
      EmptyFirst(WithTag(files[n - 1].p.Of(kind), tag));
    }
  }

  lemma NoFileWithTag(files: seq<LoadedFile>, kind: Kind, tag: string)
    ensures WithTag(Owned(files, kind, 0), tag) == []
  {
  }

  lemma NextFileWithTag(files: seq<LoadedFile>, kind: Kind, i: nat, tag: string)
    requires i < |files|
    ensures Owner(files, tag) == i ==>
      WithTag(Owned(files, kind, i + 1), tag) == WithTag(Owned(files, kind, i), tag) + WithTag(files[i].p.Of(kind), tag)
    ensures Owner(files, tag) != i ==> WithTag(Owned(files, kind, i + 1), tag) == WithTag(Owned(files, kind, i), tag)
  {
    var msgs := files[i].p.Of(kind);
    var before, own := Owned(files, kind, i), OwnedFrom(files, i, msgs);
    assert Owned(files, kind, i + 1) == before + own;
    hide *;
    OwnedFromWithTag(files, i, msgs, tag);
    WithTagConcat(before, own, tag);
    EmptyLast(WithTag(before, tag));
  }

  lemma EmptyFirst(s: seq<Msg>)
    ensures [] + s == s
  {
  }

  lemma EmptyLast(s: seq<Msg>)
    ensures s + [] == s
  {
  }

  /** Every file that defines a tag is the first to do so, or is included, directly or not, by the first. */
  ghost predicate Overridden(fs: FileSystem, t: Tree) {
    var files := Flatten(t, 0);
    forall tag, i: nat :: i < |files| && Defines(files[i].p, tag) ==> OverriddenAt(fs, files, tag, i)
  }

  ghost predicate OverriddenAt(fs: FileSystem, files: seq<LoadedFile>, tag: string, i: nat)
    requires i < |files|
  {
    var owner := Owner(files, tag);
    owner == i || (owner < |files| && IncludesAlong(fs, files[owner].path, files[i].path))
  }

  /** The interval test of the merge decides just that. */
  lemma NestedIsOverridden(fs: FileSystem, t: Tree, files: seq<LoadedFile>)
    requires Follows(fs, t) && Distinct(TreePaths(t)) && files == Flatten(t, 0)
    ensures Overridden(WithRoot(fs, t), t) <==> forall tag :: Nested(files, tag)
  {
    hide Follows, Distinct, TreePaths, OverriddenAt, NestedAt, Defines;
    if Overridden(WithRoot(fs, t), t) {
      forall tag ensures Nested(files, tag) {
        forall i: nat | i < |files| && Defines(files[i].p, tag) ensures NestedAt(files, tag, i) {
          NestedIsOverriddenAt(fs, t, files, tag, i);
        }
      }
    }
    if forall tag :: Nested(files, tag) {
      forall tag, i: nat | i < |files| && Defines(files[i].p, tag)
        ensures OverriddenAt(WithRoot(fs, t), files, tag, i)
      {
        assert Nested(files, tag);
        NestedIsOverriddenAt(fs, t, files, tag, i);
      }
      assert Overridden(WithRoot(fs, t), t);
    }
  }

  lemma NestedIsOverriddenAt(fs: FileSystem, t: Tree, files: seq<LoadedFile>, tag: string, i: nat)
    requires Follows(fs, t) && Distinct(TreePaths(t)) && files == Flatten(t, 0)
    requires i < |files| && Defines(files[i].p, tag)
    ensures NestedAt(files, tag, i) <==> OverriddenAt(WithRoot(fs, t), files, tag, i)
  {
    hide Follows, Distinct, TreePaths, Flatten, Defines, IncludesAlong, Descendant;
    var owner := Owner(files, tag);
    assert owner <= i;
    IntervalsAreDescent(t, 0, owner, i);
    DescentIsInclusion(fs, t, owner, i);
    PathsFlattened(t, 0);
    assert PathsOf(files)[owner] == files[owner].path && PathsOf(files)[i] == files[i].path;
  }

  /** A file found under its path is found there as the root, too. */
  lemma RootIsFound(fs: FileSystem, name: string, t: Tree)
    requires TreeOf(fs, name, t)
    ensures WithRoot(fs, t) == fs
  {
    assert fs.files[t.path := t.file] == fs.files;
  }

  lemma AloneIsNested(files: seq<LoadedFile>)
    requires |files| == 1
    ensures forall tag :: Nested(files, tag)
  {
    assert forall tag :: Defines(files[0].p, tag) ==> Owner(files, tag) == 0;
  }

  /** Loading a file succeeds exactly when its includes make a tree that holds no path twice and every tag's first
      file includes all others that define the tag; and then yields what the tags' owners hold, in order. */
  method Load(fs: FileSystem, name: string) returns (r: Option<Parsed>)
    ensures r.Some? <==> exists t: Tree :: TreeOf(fs, name, t) && Distinct(TreePaths(t)) && Overridden(fs, t)
    ensures r.Some? ==> exists t: Tree ::
      TreeOf(fs, name, t) && Distinct(TreePaths(t)) && Merges(Flatten(t, 0), r.value)
  {
    var loader := new Loader(fs);
    assert forall s: seq<string> :: PathsOf([]) + s == s;
    var ok, t := loader.LoadTree(name);
    if !ok {
      return None;
    }
    assert loader.files == Flatten(t, 0);
    r := MergeFiles(loader.files);
    NestedIsOverridden(fs, t, loader.files);
    RootIsFound(fs, name, t);
    hide Follows, Flatten, Distinct, Overridden, TreePaths, Merges, PathsOf, Nested;
    forall u: Tree | TreeOf(fs, name, u) ensures u == t {
      OneTree(fs, t, u);
    }
  }

  /** The same for a file read from standard input. */
  method LoadStdin(fs: FileSystem, mf: MsgFile) returns (r: Option<Parsed>)
    ensures r.Some? <==> exists t: Tree ::
      TreeOfFile(fs, mf, "", t) && Distinct(TreePaths(t)) && Overridden(WithRoot(fs, t), t)
    ensures r.Some? ==> exists t: Tree ::
      TreeOfFile(fs, mf, "", t) && Distinct(TreePaths(t)) && Merges(Flatten(t, 0), r.value)
  {
    var loader := new Loader(fs);
    assert forall s: seq<string> :: PathsOf([]) + s == s;
    var ok, t := loader.ProcessFile(mf, "");
    if !ok {
      return None;
    }
    assert loader.files == Flatten(t, 0);
    r := MergeFiles(loader.files);
    NestedIsOverridden(fs, t, loader.files);
    hide Follows, Flatten, Distinct, Overridden, TreePaths, Merges, PathsOf, Nested;
    forall u: Tree | TreeOfFile(fs, mf, "", u) ensures u == t {
      OneTree(fs, t, u);
    }
  }
}
