/** Resetting the file system to a captured skeleton (blink-js/src/file-system.ts). */
module FileReset {

  import opened Options
  import opened Sets
  import opened FileTree

  const PROJECT: Path := ["project"]

  // ---------------------------------------------------------------------------------------------
  // Removing
  // ---------------------------------------------------------------------------------------------

  /** What is below p under one of the names. */
  predicate IsUnder(p: Path, names: seq<string>, q: Path) {
    p < q && q[|p|] in names
  }

  predicate IsUnmounted(mounts: set<Path>, p: Path) {
    forall m :: m in mounts ==> !(p <= m)
  }

  /** A tree in which some of the children of p are gone, and its permissions may have changed. */
  ghost predicate LostChildren(t: Tree, u: Tree, p: Path, names: seq<string>) {
    && p in u && p in t && u[p].kind == t[p].kind
    && forall q :: q != p ==> At(u, q) == if IsUnder(p, names, q) then None else At(t, q)
  }

  ghost function Subtree(t: Tree, p: Path): set<Path> {
    set q | q in t && p <= q
  }

  lemma ChildIsSmaller(t: Tree, u: Tree, p: Path, names: seq<string>, name: string)
    requires LostChildren(t, u, p, names)
    ensures |Subtree(u, p + [name])| < |Subtree(t, p)|
  {
    var sub, all := Subtree(u, p + [name]), Subtree(t, p);
    assert p !in sub && p in all;
    forall q | q in sub
      ensures q in all
    {
      Above(p, name, q);
      assert At(u, q) == if IsUnder(p, names, q) then None else At(t, q);
    }
    Cardinality(sub, all);
  }

  /** What is at or below a child. */
  lemma Above(p: Path, name: string, q: Path)
    ensures p + [name] <= q <==> p < q && q[|p|] == name
  {
    if p < q && q[|p|] == name {
      assert q[..|p| + 1] == p + [name];
    }
    if p + [name] <= q {
      assert q[|p|] == (p + [name])[|p|];
      assert q[..|p|] == (p + [name])[..|p|] == p;
    }
  }

  lemma NextChildLost(t: Tree, u: Tree, p: Path, names: seq<string>, i: nat)
    requires i < |names| && LostChildren(t, u, p, names[..i])
    ensures LostChildren(t, Without(u, p + [names[i]]), p, names[..i + 1])
  {
    var v := Without(u, p + [names[i]]);
    assert !(p + [names[i]] <= p);
    forall q | q != p
      ensures At(v, q) == if IsUnder(p, names[..i + 1], q) then None else At(t, q)
    {
      Above(p, names[i], q);
      assert At(u, q) == if IsUnder(p, names[..i], q) then None else At(t, q);
    }
  }

  /** Once every child is gone the node is all there is to remove. */
  lemma AllLost(t: Tree, mounts: set<Path>, u: Tree, p: Path, names: seq<string>)
    requires IsTree(t, mounts) && LostChildren(t, u, p, names)
    requires forall name :: p + [name] in t ==> name in names
    ensures IsEmpty(u, p) && Without(u, p) == Without(t, p)
  {
    forall q | p < q
      ensures q !in u
    {
      assert At(u, q) == if IsUnder(p, names, q) then None else At(t, q);
      if q in t {
        var c := p + [q[|p|]];
        Above(p, q[|p|], q);
        ChildInTree(t, mounts, c, q);
      }
    }
    forall q
      ensures At(Without(u, p), q) == At(Without(t, p), q)
    {
      if q != p {
        assert At(u, q) == if IsUnder(p, names, q) then None else At(t, q);
      }
    }
    SameTree(Without(u, p), Without(t, p));
  }

  lemma ChildInTree(t: Tree, mounts: set<Path>, c: Path, q: Path)
    requires IsTree(t, mounts) && q in t && c <= q
    ensures c in t
  {
    if c < q {
      AncestorHolds(t, mounts, c, q);
    } else {
      assert c == q;
    }
  }

  lemma ChildIsThere(t: Tree, u: Tree, p: Path, names: seq<string>, i: nat)
    requires i < |names| && LostChildren(t, u, p, names[..i]) && p + [names[i]] in t
    requires forall j :: 0 <= j < i ==> names[j] != names[i]
    ensures p + [names[i]] in u
  {
    var c := p + [names[i]];
    assert At(u, c) == if IsUnder(p, names[..i], c) then None else At(t, c);
  }

  method RemoveTree(fs: FileSystem, p: Path)
    requires fs.Valid() && p in fs.nodes && p != [] && (p in fs.mounts || IsUnmounted(fs.mounts, p))
    modifies fs`nodes
    ensures fs.Valid() && fs.nodes == if p in fs.mounts then old(fs.nodes) else Without(old(fs.nodes), p)
    decreases |Subtree(fs.nodes, p)|
  {
    if fs.nodes[p].kind != Directory {
      fs.Unlink(p);
      return;
    }
    if p in fs.mounts {
      return;
    }
    ghost var t := fs.nodes;
    fs.Chmod(p, 0x1ff);
    var names := fs.Readdir(p);
    for i := 0 to |names|
      invariant fs.Valid() && LostChildren(t, fs.nodes, p, names[..i])
    {
      ghost var u := fs.nodes;
      ChildIsThere(t, u, p, names, i);
      ChildIsSmaller(t, u, p, names[..i], names[i]);
      BelowUnmounted(fs.mounts, p, names[i]);
      RemoveTree(fs, p + [names[i]]);
      NextChildLost(t, u, p, names, i);
    }
    assert names[..|names|] == names;
    AllLost(t, fs.mounts, fs.nodes, p, names);
    fs.Rmdir(p);
  }

  lemma BelowUnmounted(mounts: set<Path>, p: Path, name: string)
    requires IsUnmounted(mounts, p)
    ensures IsUnmounted(mounts, p + [name])
  {
    forall m | m in mounts
      ensures !(p + [name] <= m)
    {
      Above(p, name, m);
    }
  }

  // ---------------------------------------------------------------------------------------------
  // Pruning
  // ---------------------------------------------------------------------------------------------

  /** What the skeleton has at each of its paths. */
  type Kept = map<Path, Node>

  /** The mounts a reset can meet: the working directory, and directories of the skeleton. */
  ghost predicate KeepsMounts(kept: Kept, mounts: set<Path>) {
    && PROJECT !in kept
    && (forall p :: p in kept ==> IsPlain(kept[p]))
    && (forall m, n :: m in mounts && m != PROJECT && 0 < n <= |m| ==> m[..n] in kept && kept[m[..n]].kind == Directory)
  }

  /** The node is the skeleton's, whatever its permissions. */
  predicate Matches(n: Node, e: Node) {
    n.(perm := e.perm) == e
  }

  predicate Stays(t: Tree, kept: Kept, mounts: set<Path>, q: Path) {
    (q == PROJECT && q in mounts) || (q in kept && q in t && Matches(t[q], kept[q]))
  }

  /** The node stays, with all that it is in, from the one at depth `from` on. */
  predicate Survives(t: Tree, kept: Kept, mounts: set<Path>, from: nat, q: Path) {
    forall n :: from < n <= |q| ==> Stays(t, kept, mounts, q[..n])
  }

  /** A link's own permissions mean nothing, and are left. */
  function Fixed(kept: Kept, q: Path, n: Node): Node {
    if q in kept && n.kind != Link then n.(perm := kept[q].perm) else n
  }

  function Pruned(t: Tree, kept: Kept, mounts: set<Path>, from: nat, q: Path): Option<Node> {
    if q in t && Survives(t, kept, mounts, from, q) then Some(Fixed(kept, q, t[q])) else None
  }

  ghost predicate PrunedUnder(t: Tree, u: Tree, kept: Kept, mounts: set<Path>, p: Path, names: seq<string>) {
    forall q :: At(u, q) == if IsUnder(p, names, q) then Pruned(t, kept, mounts, |p|, q) else At(t, q)
  }

  ghost predicate PrunedBelow(t: Tree, u: Tree, kept: Kept, mounts: set<Path>, p: Path) {
    forall q :: At(u, q) == if p < q then Pruned(t, kept, mounts, |p|, q) else At(t, q)
  }

  ghost predicate PrunedFrom(t: Tree, u: Tree, kept: Kept, mounts: set<Path>, c: Path)
    requires c != []
  {
    forall q :: At(u, q) == if c <= q then Pruned(t, kept, mounts, |c| - 1, q) else At(t, q)
  }

  /** A node that does not stay takes all below it with it, and holds no mount. */
  lemma MismatchIsUnmounted(t: Tree, kept: Kept, mounts: set<Path>, c: Path)
    requires IsTree(t, mounts) && KeepsMounts(kept, mounts) && c in t && c != [] && !Stays(t, kept, mounts, c)
    ensures IsUnmounted(mounts, c)
  {
    forall m | m in mounts
      ensures !(c <= m)
    {
      assert c <= m ==> m[..|c|] == c && (c < m || c == m);
      if c < m {
        AncestorHolds(t, mounts, c, m);
      }
    }
  }

  lemma RemovedIsPruned(t: Tree, kept: Kept, mounts: set<Path>, c: Path)
    requires c != [] && !Stays(t, kept, mounts, c)
    ensures PrunedFrom(t, Without(t, c), kept, mounts, c)
  {
    var u := Without(t, c);
    forall q
      ensures At(u, q) == if c <= q then Pruned(t, kept, mounts, |c| - 1, q) else At(t, q)
    {
      if c <= q {
        assert q[..|c|] == c;
      }
    }
  }

  /** A node with nothing below it that stays is only given its permissions. */
  lemma LeafIsPruned(t: Tree, kept: Kept, mounts: set<Path>, c: Path)
    requires c in t && c != [] && Stays(t, kept, mounts, c) && IsEmpty(t, c)
    ensures PrunedFrom(t, t[c := Fixed(kept, c, t[c])], kept, mounts, c)
  {
    var u := t[c := Fixed(kept, c, t[c])];
    forall q
      ensures At(u, q) == if c <= q then Pruned(t, kept, mounts, |c| - 1, q) else At(t, q)
    {
      if c <= q {
        assert c == q || c < q;
        assert c[..|c|] == c;
      }
    }
  }

  /** A directory that stays, once what is below it is pruned. */
  lemma DirectoryIsPruned(t: Tree, kept: Kept, mounts: set<Path>, c: Path, u: Tree)
    requires c in t && c != [] && Stays(t, kept, mounts, c)
    requires PrunedBelow(t[c := Fixed(kept, c, t[c])], u, kept, mounts, c)
    ensures PrunedFrom(t, u, kept, mounts, c)
  {
    var v := t[c := Fixed(kept, c, t[c])];
    forall q
      ensures At(u, q) == if c <= q then Pruned(t, kept, mounts, |c| - 1, q) else At(t, q)
    {
      assert At(u, q) == if c < q then Pruned(v, kept, mounts, |c|, q) else At(v, q);
      if c < q {
        SurvivesBelow(t, v, kept, mounts, c, q);
      } else if c <= q {
        assert c == q && c[..|c|] == c;
      }
    }
  }

  lemma SurvivesBelow(t: Tree, v: Tree, kept: Kept, mounts: set<Path>, c: Path, q: Path)
    requires c in t && c != [] && Stays(t, kept, mounts, c) && c < q && v == t[c := Fixed(kept, c, t[c])]
    ensures Survives(t, kept, mounts, |c| - 1, q) <==> Survives(v, kept, mounts, |c|, q)
  {
    assert q[..|c|] == c;
    forall n | |c| < n <= |q|
      ensures Stays(t, kept, mounts, q[..n]) <==> Stays(v, kept, mounts, q[..n])
    {
      assert q[..n] != c;
    }
  }

  /** One child more. */
  lemma NextChildPruned(t: Tree, u: Tree, w: Tree, kept: Kept, mounts: set<Path>, p: Path, names: seq<string>, i: nat)
    requires i < |names| && PrunedUnder(t, u, kept, mounts, p, names[..i])
    requires forall j :: 0 <= j < i ==> names[j] != names[i]
    requires PrunedFrom(u, w, kept, mounts, p + [names[i]])
    ensures PrunedUnder(t, w, kept, mounts, p, names[..i + 1])
  {
    var c := p + [names[i]];
    forall q
      ensures At(w, q) == if IsUnder(p, names[..i + 1], q) then Pruned(t, kept, mounts, |p|, q) else At(t, q)
    {
      Above(p, names[i], q);
      assert At(w, q) == if c <= q then Pruned(u, kept, mounts, |c| - 1, q) else At(u, q);
      assert At(u, q) == if IsUnder(p, names[..i], q) then Pruned(t, kept, mounts, |p|, q) else At(t, q);
      if c <= q {
        SameBelow(t, u, kept, mounts, p, names[..i], c, q);
      }
    }
  }

  lemma SameBelow(t: Tree, u: Tree, kept: Kept, mounts: set<Path>, p: Path, names: seq<string>, c: Path, q: Path)
    requires PrunedUnder(t, u, kept, mounts, p, names) && |c| == |p| + 1 && p < c <= q && c[|p|] !in names
    ensures Pruned(u, kept, mounts, |p|, q) == Pruned(t, kept, mounts, |p|, q)
  {
    forall n | |p| < n <= |q|
      ensures At(u, q[..n]) == At(t, q[..n])
    {
      var r := q[..n];
      assert r[|p|] == q[|p|] == c[|p|];
      assert !IsUnder(p, names, r);
    }
    assert q[..|q|] == q;
    forall n | |p| < n <= |q|
      ensures Stays(u, kept, mounts, q[..n]) <==> Stays(t, kept, mounts, q[..n])
    {
      assert At(u, q[..n]) == At(t, q[..n]);
    }
  }

  /** Whether anyone may read it: 0o444. */
  predicate IsReadable(perm: nat) {
    perm / 256 % 2 == 1 || perm / 32 % 2 == 1 || perm / 4 % 2 == 1
  }

  /** A file's contents, for which an unreadable one is opened to everyone, and closed again. */
  method ReadContent(fs: FileSystem, p: Path) returns (content: string)
    requires fs.Valid() && p in fs.nodes
    modifies fs`nodes
    ensures fs.Valid() && fs.nodes == old(fs.nodes) && content == fs.nodes[p].content
  {
    content := ReadOpened(fs, p, !IsReadable(fs.nodes[p].perm));
  }

  method ReadOpened(fs: FileSystem, p: Path, closed: bool) returns (content: string)
    requires fs.Valid() && p in fs.nodes
    modifies fs`nodes
    ensures fs.Valid() && fs.nodes == old(fs.nodes) && content == fs.nodes[p].content
  {
    if !closed {
      return fs.nodes[p].content;
    }
    var perm := fs.nodes[p].perm;
    var readable := perm + 0x124;
    ghost var t := fs.nodes;
    fs.Chmod(p, readable);
    ghost var v := fs.nodes;
    content := fs.nodes[p].content;
    fs.Chmod(p, perm);
    PermRestored(t, v, fs.nodes, p, readable);
  }

  lemma PermRestored(t: Tree, v: Tree, w: Tree, p: Path, perm: nat)
    requires p in t && v == t[p := t[p].(perm := perm)] && w == v[p := v[p].(perm := t[p].perm)]
    ensures w == t && v[p].content == t[p].content
  {
    forall q
      ensures At(w, q) == At(t, q)
    {
    }
    SameTree(w, t);
  }

  method PruneChild(fs: FileSystem, kept: Kept, c: Path)
    requires fs.Valid() && KeepsMounts(kept, fs.mounts) && c in fs.nodes && c != []
    modifies fs`nodes
    ensures fs.Valid() && PrunedFrom(old(fs.nodes), fs.nodes, kept, fs.mounts, c)
    decreases |Subtree(fs.nodes, c)|, 1
  {
    ghost var t := fs.nodes;
    var node := fs.nodes[c];
    if c == PROJECT && c in fs.mounts {
      MountIsEmpty(t, fs.mounts, c);
      LeafIsPruned(t, kept, fs.mounts, c);
      assert t[c := t[c]] == t;
      return;
    }
    if c !in kept || kept[c].kind != node.kind || kept[c].rdev != node.rdev {
      RemoveUnkept(fs, kept, c);
      return;
    }
    if node.kind == Link {
      if node.target != kept[c].target {
        RemoveUnkept(fs, kept, c);
      } else {
        LeafOnly(t, fs.mounts, c);
        LeafIsPruned(t, kept, fs.mounts, c);
        assert t[c := t[c]] == t;
      }
      return;
    }
    if kept[c].kind == File {
      var content := ReadContent(fs, c);
      if content != kept[c].content {
        RemoveUnkept(fs, kept, c);
        return;
      }
    }
    PruneKept(fs, kept, c);
  }

  method RemoveUnkept(fs: FileSystem, kept: Kept, c: Path)
    requires fs.Valid() && KeepsMounts(kept, fs.mounts) && c in fs.nodes && c != [] && !Stays(fs.nodes, kept, fs.mounts, c)
    modifies fs`nodes
    ensures fs.Valid() && PrunedFrom(old(fs.nodes), fs.nodes, kept, fs.mounts, c)
  {
    MismatchIsUnmounted(fs.nodes, kept, fs.mounts, c);
    RemovedIsPruned(fs.nodes, kept, fs.mounts, c);
    assert c <= c;
    RemoveTree(fs, c);
  }

  /** Gives a node that stays its permissions, and prunes what is below it. */
  method PruneKept(fs: FileSystem, kept: Kept, c: Path)
    requires fs.Valid() && KeepsMounts(kept, fs.mounts) && c in fs.nodes && c != [] && c in kept
    requires Stays(fs.nodes, kept, fs.mounts, c) && fs.nodes[c].kind != Link && c != PROJECT
    modifies fs`nodes
    ensures fs.Valid() && PrunedFrom(old(fs.nodes), fs.nodes, kept, fs.mounts, c)
    decreases |Subtree(fs.nodes, c)|, 0, 1
  {
    ghost var t := fs.nodes;
    var node := fs.nodes[c];
    if node.perm != kept[c].perm {
      fs.Chmod(c, kept[c].perm);
    }
    assert fs.nodes == t[c := Fixed(kept, c, t[c])];
    if node.kind == Directory && c !in fs.mounts {
      assert Subtree(fs.nodes, c) == Subtree(t, c);
      Prune(fs, kept, c);
      DirectoryIsPruned(t, kept, fs.mounts, c, fs.nodes);
    } else {
      NothingBelow(t, fs.mounts, c);
      LeafIsPruned(t, kept, fs.mounts, c);
    }
  }

  lemma MountIsEmpty(t: Tree, mounts: set<Path>, c: Path)
    requires IsTree(t, mounts) && c in mounts
    ensures IsEmpty(t, c)
  {
    forall q | q in t
      ensures !(c < q)
    {
      if c < q {
        AncestorHolds(t, mounts, c, q);
      }
    }
  }

  lemma NothingBelow(t: Tree, mounts: set<Path>, c: Path)
    requires IsTree(t, mounts) && c in t && (t[c].kind != Directory || c in mounts)
    ensures IsEmpty(t, c)
  {
    if c in mounts {
      MountIsEmpty(t, mounts, c);
    } else {
      LeafOnly(t, mounts, c);
    }
  }

  method Prune(fs: FileSystem, kept: Kept, p: Path)
    requires fs.Valid() && KeepsMounts(kept, fs.mounts) && p in fs.nodes && fs.nodes[p].kind == Directory && p !in fs.mounts
    modifies fs`nodes
    ensures fs.Valid() && PrunedBelow(old(fs.nodes), fs.nodes, kept, fs.mounts, p)
    decreases |Subtree(fs.nodes, p)|, 0, 0
  {
    ghost var t := fs.nodes;
    var names := fs.Readdir(p);
    for i := 0 to |names|
      invariant fs.Valid() && PrunedUnder(t, fs.nodes, kept, fs.mounts, p, names[..i])
    {
      ghost var u := fs.nodes;
      PrunedChildIsThere(t, u, kept, fs.mounts, p, names, i);
      PrunedChildIsSmaller(t, u, kept, fs.mounts, p, names[..i], names[i]);
      PruneChild(fs, kept, p + [names[i]]);
      NextChildPruned(t, u, fs.nodes, kept, fs.mounts, p, names, i);
    }
    assert names[..|names|] == names;
    AllPruned(t, fs.nodes, kept, fs.mounts, p, names);
  }

  lemma PrunedChildIsThere(t: Tree, u: Tree, kept: Kept, mounts: set<Path>, p: Path, names: seq<string>, i: nat)
    requires i < |names| && PrunedUnder(t, u, kept, mounts, p, names[..i]) && p + [names[i]] in t
    requires forall j :: 0 <= j < i ==> names[j] != names[i]
    ensures p + [names[i]] in u
  {
    var c := p + [names[i]];
    assert !IsUnder(p, names[..i], c);
    assert At(u, c) == At(t, c);
  }

  lemma PrunedChildIsSmaller(t: Tree, u: Tree, kept: Kept, mounts: set<Path>, p: Path, names: seq<string>, name: string)
    requires PrunedUnder(t, u, kept, mounts, p, names) && p in t
    ensures |Subtree(u, p + [name])| < |Subtree(t, p)|
  {
    var sub, all := Subtree(u, p + [name]), Subtree(t, p);
    assert p !in sub && p in all by {
      assert !(p + [name] <= p) && p <= p;
    }
    forall q | q in sub
      ensures q in all
    {
      Above(p, name, q);
      assert At(u, q) == if IsUnder(p, names, q) then Pruned(t, kept, mounts, |p|, q) else At(t, q);
    }
    Cardinality(sub, all);
  }

  lemma AllPruned(t: Tree, u: Tree, kept: Kept, mounts: set<Path>, p: Path, names: seq<string>)
    requires IsTree(t, mounts) && PrunedUnder(t, u, kept, mounts, p, names)
    requires forall name :: p + [name] in t ==> name in names
    ensures PrunedBelow(t, u, kept, mounts, p)
  {
    forall q
      ensures At(u, q) == if p < q then Pruned(t, kept, mounts, |p|, q) else At(t, q)
    {
      assert At(u, q) == if IsUnder(p, names, q) then Pruned(t, kept, mounts, |p|, q) else At(t, q);
      if p < q && q in t {
        var c := p + [q[|p|]];
        Above(p, q[|p|], q);
        ChildInTree(t, mounts, c, q);
      }
    }
  }

  // ---------------------------------------------------------------------------------------------
  // The skeleton
  // ---------------------------------------------------------------------------------------------

  datatype SkeletonEntry = SkeletonEntry(path: Path, node: Node)

  const ROOTS := ["dev", "proc", "tmp"]

  function KeptOf(entries: seq<SkeletonEntry>): Kept
    decreases |entries|
  {
    if entries == [] then map[]
    else
      var last := entries[|entries| - 1];
      KeptOf(entries[..|entries| - 1])[last.path := last.node]
  }

  /** A path under one of the roots, new, and in a directory listed before it. */
  predicate Follows(kept: Kept, mounts: set<Path>, e: SkeletonEntry) {
    && e.path != [] && e.path[0] in ROOTS && e.path !in kept && IsPlain(e.node)
    && (|e.path| == 1 || HoldsChildren(kept, mounts, Parent(e.path)))
  }

  /** Parents before their children. */
  ghost predicate InOrder(entries: seq<SkeletonEntry>, mounts: set<Path>) {
    forall i :: 0 <= i < |entries| ==> Follows(KeptOf(entries[..i]), mounts, entries[i])
  }

  ghost predicate IsSkeleton(entries: seq<SkeletonEntry>, mounts: set<Path>) {
    && InOrder(entries, mounts)
    && (forall m :: m in mounts && m != PROJECT ==> m in KeptOf(entries) && KeptOf(entries)[m].kind == Directory)
  }

  /** What there is a call to create for. */
  predicate IsCreated(n: Node) {
    !n.kind.Other?
  }

  /** A link is made with all permissions. */
  function Made(n: Node): Node {
    if n.kind == Link then n.(perm := 0x1ff) else n
  }

  const EMPTY_PROJECT := Node(Directory, 0x1ff, 0, "", "")

  /** The node a reset leaves at a path. */
  function Goal(t: Tree, kept: Kept, mounts: set<Path>, rootPerm: nat, q: Path): Option<Node> {
    if q == [] then if q in t then Some(t[q].(perm := rootPerm)) else None
    else if q == PROJECT then if q in mounts then At(t, q) else Some(EMPTY_PROJECT)
    else if q in t && Survives(t, kept, mounts, 0, q) then Some(Fixed(kept, q, t[q]))
    else if q in kept && IsCreated(kept[q]) then Some(Made(kept[q]))
    else None
  }

  lemma {:induction false} KeptEntry(entries: seq<SkeletonEntry>, mounts: set<Path>, q: Path)
    requires InOrder(entries, mounts)
    requires q in KeptOf(entries)
    ensures q != [] && q[0] in ROOTS && IsPlain(KeptOf(entries)[q])
    ensures |q| == 1 || HoldsChildren(KeptOf(entries), mounts, Parent(q))
    decreases |entries|
  {
    var n := |entries| - 1;
    var before := entries[..n];
    assert Follows(KeptOf(before), mounts, entries[n]);
    if q != entries[n].path {
      PrefixFollows(entries, mounts, n);
      KeptEntry(before, mounts, q);
    }
  }

  lemma PrefixFollows(entries: seq<SkeletonEntry>, mounts: set<Path>, n: nat)
    requires n <= |entries| && InOrder(entries, mounts)
    ensures InOrder(entries[..n], mounts)
  {
    forall i | 0 <= i < n
      ensures Follows(KeptOf(entries[..n][..i]), mounts, entries[..n][i])
    {
      assert entries[..n][..i] == entries[..i];
    }
  }

  /** All ancestors of a path of the skeleton are directories of the skeleton. */
  lemma {:induction false} KeptAncestor(entries: seq<SkeletonEntry>, mounts: set<Path>, q: Path, n: nat)
    requires InOrder(entries, mounts)
    requires q in KeptOf(entries) && 0 < n < |q|
    ensures HoldsChildren(KeptOf(entries), mounts, q[..n])
    decreases |q|
  {
    KeptEntry(entries, mounts, q);
    if n == |q| - 1 {
      assert q[..n] == Parent(q);
    } else {
      KeptAncestor(entries, mounts, Parent(q), n);
      assert Parent(q)[..n] == q[..n];
    }
  }

  lemma SkeletonKeepsMounts(entries: seq<SkeletonEntry>, mounts: set<Path>)
    requires IsSkeleton(entries, mounts)
    ensures KeepsMounts(KeptOf(entries), mounts)
  {
    var kept := KeptOf(entries);
    forall p | p in kept
      ensures IsPlain(kept[p]) && p != PROJECT
    {
      KeptEntry(entries, mounts, p);
    }
    forall m, n | m in mounts && m != PROJECT && 0 < n <= |m|
      ensures m[..n] in kept && kept[m[..n]].kind == Directory
    {
      if n < |m| {
        KeptAncestor(entries, mounts, m, n);
      } else {
        assert m[..n] == m;
      }
    }
  }

  // ---------------------------------------------------------------------------------------------
  // Capturing
  // ---------------------------------------------------------------------------------------------

  /** The nodes at and below p under the names are listed, and nothing else is that was not before. */
  ghost predicate Lists(t: Tree, before: Kept, kept: Kept, p: Path, names: seq<string>) {
    forall q :: At(kept, q) == if q == p || IsUnder(p, names, q) then At(t, q) else At(before, q)
  }

  ghost predicate ListsSubtree(t: Tree, before: Kept, kept: Kept, p: Path) {
    forall q :: At(kept, q) == if p <= q then At(t, q) else At(before, q)
  }

  lemma EntryAppended(entries: seq<SkeletonEntry>, mounts: set<Path>, e: SkeletonEntry)
    requires InOrder(entries, mounts) && Follows(KeptOf(entries), mounts, e)
    ensures InOrder(entries + [e], mounts) && KeptOf(entries + [e]) == KeptOf(entries)[e.path := e.node]
  {
    var more := entries + [e];
    forall i | 0 <= i < |more|
      ensures Follows(KeptOf(more[..i]), mounts, more[i])
    {
      assert i < |entries| ==> more[..i] == entries[..i];
      assert i == |entries| ==> more[..i] == entries;
    }
    assert more[..|entries|] == entries;
  }

  method CaptureEntry(fs: FileSystem, p: Path) returns (e: SkeletonEntry)
    requires fs.Valid() && p in fs.nodes
    modifies fs`nodes
    ensures fs.Valid() && fs.nodes == old(fs.nodes) && e == SkeletonEntry(p, fs.nodes[p])
  {
    var node := fs.nodes[p];
    var target := if node.kind == Link then node.target else "";
    var content := "";
    if node.kind == File {
      content := ReadContent(fs, p);
    }
    e := SkeletonEntry(p, Node(node.kind, node.perm, node.rdev, target, content));
  }

  /** Lists a node and then, unless another file system is mounted there, what is in it. */
  method Visit(fs: FileSystem, p: Path, before: seq<SkeletonEntry>) returns (entries: seq<SkeletonEntry>)
    requires fs.Valid() && InOrder(before, fs.mounts) && p in fs.nodes && p != [] && p[0] in ROOTS
    requires |p| == 1 || HoldsChildren(KeptOf(before), fs.mounts, Parent(p))
    requires forall q :: p <= q ==> q !in KeptOf(before)
    modifies fs`nodes
    ensures fs.Valid() && fs.nodes == old(fs.nodes)
    ensures InOrder(entries, fs.mounts) && ListsSubtree(fs.nodes, KeptOf(before), KeptOf(entries), p)
    decreases |Subtree(fs.nodes, p)|
  {
    ghost var t, kept := fs.nodes, KeptOf(before);
    var e := CaptureEntry(fs, p);
    assert p <= p;
    EntryAppended(before, fs.mounts, e);
    entries := before + [e];
    if fs.nodes[p].kind == Directory && p !in fs.mounts {
      var names := fs.Readdir(p);
      for i := 0 to |names|
        invariant fs.Valid() && fs.nodes == t && InOrder(entries, fs.mounts)
        invariant Lists(t, kept, KeptOf(entries), p, names[..i])
      {
        var c := p + [names[i]];
        ChildIsNext(t, kept, KeptOf(entries), p, names, i);
        SubtreeShrinks(t, p, names[i]);
        ghost var listed := KeptOf(entries);
        assert Parent(c) == p && At(listed, p) == At(t, p);
        entries := Visit(fs, c, entries);
        NextListed(t, kept, listed, KeptOf(entries), p, names, i);
      }
      assert names[..|names|] == names;
      AllListed(t, fs.mounts, kept, KeptOf(entries), p, names);
    } else {
      NothingBelow(t, fs.mounts, p);
      LeafListed(t, kept, KeptOf(entries), p);
    }
  }

  lemma SubtreeShrinks(t: Tree, p: Path, name: string)
    requires p in t
    ensures |Subtree(t, p + [name])| < |Subtree(t, p)|
  {
    var sub, all := Subtree(t, p + [name]), Subtree(t, p);
    assert p !in sub && p in all by {
      assert !(p + [name] <= p) && p <= p;
    }
    forall q | q in sub
      ensures q in all
    {
      Above(p, name, q);
    }
    Cardinality(sub, all);
  }

  lemma ChildIsNext(t: Tree, before: Kept, kept: Kept, p: Path, names: seq<string>, i: nat)
    requires i < |names| && Lists(t, before, kept, p, names[..i])
    requires forall j :: 0 <= j < i ==> names[j] != names[i]
    requires forall q :: p <= q ==> q !in before
    ensures forall q :: p + [names[i]] <= q ==> q !in kept
  {
    forall q | p + [names[i]] <= q
      ensures q !in kept
    {
      Above(p, names[i], q);
      assert At(kept, q) == if q == p || IsUnder(p, names[..i], q) then At(t, q) else At(before, q);
    }
  }

  lemma NextListed(t: Tree, before: Kept, kept: Kept, next: Kept, p: Path, names: seq<string>, i: nat)
    requires i < |names| && Lists(t, before, kept, p, names[..i]) && ListsSubtree(t, kept, next, p + [names[i]])
    ensures Lists(t, before, next, p, names[..i + 1])
  {
    forall q
      ensures At(next, q) == if q == p || IsUnder(p, names[..i + 1], q) then At(t, q) else At(before, q)
    {
      Above(p, names[i], q);
      assert At(next, q) == if p + [names[i]] <= q then At(t, q) else At(kept, q);
      assert At(kept, q) == if q == p || IsUnder(p, names[..i], q) then At(t, q) else At(before, q);
    }
  }

  lemma AllListed(t: Tree, mounts: set<Path>, before: Kept, kept: Kept, p: Path, names: seq<string>)
    requires IsTree(t, mounts) && Lists(t, before, kept, p, names)
    requires forall name :: p + [name] in t ==> name in names
    requires forall q :: p <= q ==> q !in before
    ensures ListsSubtree(t, before, kept, p)
  {
    forall q
      ensures At(kept, q) == if p <= q then At(t, q) else At(before, q)
    {
      assert At(kept, q) == if q == p || IsUnder(p, names, q) then At(t, q) else At(before, q);
      if p < q && q in t {
        Above(p, q[|p|], q);
        ChildInTree(t, mounts, p + [q[|p|]], q);
      }
      assert p <= q ==> p == q || p < q;
    }
  }

  lemma LeafListed(t: Tree, before: Kept, kept: Kept, p: Path)
    requires p in t && IsEmpty(t, p) && kept == before[p := t[p]]
    requires forall q :: p <= q ==> q !in before
    ensures ListsSubtree(t, before, kept, p)
  {
    forall q
      ensures At(kept, q) == if p <= q then At(t, q) else At(before, q)
    {
      assert p <= q ==> p == q || p < q;
    }
  }

  ghost predicate Captures(t: Tree, kept: Kept, roots: seq<string>) {
    forall q :: At(kept, q) == if q != [] && q[0] in roots then At(t, q) else None
  }

  /** captureFileSystemSkeleton: everything under the roots, parents before their children. */
  method CaptureSkeleton(fs: FileSystem) returns (rootPerm: nat, entries: seq<SkeletonEntry>)
    requires fs.Valid() && forall root :: root in ROOTS ==> [root] in fs.nodes
    requires forall m :: m in fs.mounts && m != PROJECT ==> m[0] in ROOTS
    modifies fs`nodes
    ensures fs.Valid() && fs.nodes == old(fs.nodes) && rootPerm == fs.nodes[[]].perm
    ensures IsSkeleton(entries, fs.mounts) && Captures(fs.nodes, KeptOf(entries), ROOTS)
  {
    ghost var t := fs.nodes;
    entries := [];
    for i := 0 to |ROOTS|
      invariant fs.Valid() && fs.nodes == t && InOrder(entries, fs.mounts)
      invariant Captures(t, KeptOf(entries), ROOTS[..i])
    {
      ghost var kept := KeptOf(entries);
      RootIsNext(t, kept, i);
      entries := Visit(fs, [ROOTS[i]], entries);
      NextRoot(t, kept, KeptOf(entries), i);
    }
    rootPerm := fs.nodes[[]].perm;
    assert ROOTS[..|ROOTS|] == ROOTS;
    MountsCaptured(t, fs.mounts, KeptOf(entries));
  }

  lemma RootIsNext(t: Tree, kept: Kept, i: nat)
    requires i < |ROOTS| && Captures(t, kept, ROOTS[..i])
    ensures ROOTS[i] !in ROOTS[..i] && forall q :: [ROOTS[i]] <= q ==> q !in kept
  {
    forall q | [ROOTS[i]] <= q
      ensures q !in kept
    {
      assert q[0] == [ROOTS[i]][0];
      assert At(kept, q) == if q != [] && q[0] in ROOTS[..i] then At(t, q) else None;
    }
  }

  lemma NextRoot(t: Tree, kept: Kept, next: Kept, i: nat)
    requires i < |ROOTS| && Captures(t, kept, ROOTS[..i]) && ListsSubtree(t, kept, next, [ROOTS[i]])
    ensures Captures(t, next, ROOTS[..i + 1])
  {
    forall q
      ensures At(next, q) == if q != [] && q[0] in ROOTS[..i + 1] then At(t, q) else None
    {
      Above([], ROOTS[i], q);
      assert [] + [ROOTS[i]] == [ROOTS[i]];
      assert At(next, q) == if [ROOTS[i]] <= q then At(t, q) else At(kept, q);
      assert At(kept, q) == if q != [] && q[0] in ROOTS[..i] then At(t, q) else None;
    }
  }

  lemma MountsCaptured(t: Tree, mounts: set<Path>, kept: Kept)
    requires IsTree(t, mounts) && Captures(t, kept, ROOTS)
    requires forall m :: m in mounts && m != PROJECT ==> m[0] in ROOTS
    ensures forall m :: m in mounts && m != PROJECT ==> m in kept && kept[m].kind == Directory
  {
    forall m | m in mounts && m != PROJECT
      ensures m in kept && kept[m].kind == Directory
    {
      assert At(kept, m) == if m != [] && m[0] in ROOTS then At(t, m) else None;
    }
  }

  // ---------------------------------------------------------------------------------------------
  // Rebuilding
  // ---------------------------------------------------------------------------------------------

  ghost predicate Rebuilt(u: Tree, w: Tree, kept: Kept) {
    forall q :: At(w, q) == if q in u then Some(u[q]) else if q in kept && IsCreated(kept[q]) then Some(Made(kept[q])) else None
  }

  ghost predicate KindsAgree(u: Tree, kept: Kept) {
    forall q :: q in u && q in kept ==> u[q].kind == kept[q].kind
  }

  /** Creates the node of an entry, where there is a call that does. */
  method CreateEntry(fs: FileSystem, e: SkeletonEntry)
    requires fs.Valid() && e.path !in fs.nodes && e.path != [] && IsPlain(e.node)
    requires HoldsChildren(fs.nodes, fs.mounts, Parent(e.path))
    modifies fs`nodes
    ensures fs.Valid()
    ensures fs.nodes == if IsCreated(e.node) then old(fs.nodes)[e.path := Made(e.node)] else old(fs.nodes)
  {
    var n := e.node;
    match n.kind {
      case Directory =>
        assert Made(n) == Node(Directory, n.perm, 0, "", "");
        fs.Create(e.path, Node(Directory, n.perm, 0, "", ""));
      case Device =>
        assert Made(n) == Node(Device, n.perm, n.rdev, "", "");
        fs.Create(e.path, Node(Device, n.perm, n.rdev, "", ""));
      case Link =>
        assert Made(n) == Node(Link, 0x1ff, 0, n.target, "");
        fs.Create(e.path, Node(Link, 0x1ff, 0, n.target, ""));
      case File =>
        assert Made(n) == Node(File, n.perm, 0, "", n.content);
        WriteFile(fs, e.path, n.content, n.perm);
      case Other(_) =>
    }
  }

  method WriteFile(fs: FileSystem, p: Path, content: string, perm: nat)
    requires fs.Valid() && p !in fs.nodes && p != [] && HoldsChildren(fs.nodes, fs.mounts, Parent(p))
    modifies fs`nodes
    ensures fs.Valid() && fs.nodes == old(fs.nodes)[p := Node(File, perm, 0, "", content)]
  {
    fs.Create(p, Node(File, 0x1b6, 0, "", content));
    fs.Chmod(p, perm);
  }

  /** Parents come first, so every creation finds its directory. */
  method Rebuild(fs: FileSystem, entries: seq<SkeletonEntry>)
    requires fs.Valid() && IsSkeleton(entries, fs.mounts) && KindsAgree(fs.nodes, KeptOf(entries))
    modifies fs`nodes
    ensures fs.Valid() && Rebuilt(old(fs.nodes), fs.nodes, KeptOf(entries))
  {
    ghost var u := fs.nodes;
    for i := 0 to |entries|
      invariant fs.Valid() && Rebuilt(u, fs.nodes, KeptOf(entries[..i]))
    {
      RebuildEntry(fs, entries, i, u);
    }
    assert entries[..|entries|] == entries;
  }

  method RebuildEntry(fs: FileSystem, entries: seq<SkeletonEntry>, i: nat, ghost u: Tree)
    requires i < |entries| && fs.Valid() && InOrder(entries, fs.mounts) && KindsAgree(u, KeptOf(entries))
    requires Rebuilt(u, fs.nodes, KeptOf(entries[..i]))
    modifies fs`nodes
    ensures fs.Valid() && Rebuilt(u, fs.nodes, KeptOf(entries[..i + 1]))
  {
    var e := entries[i];
    ghost var kept, w := KeptOf(entries[..i]), fs.nodes;
    assert Follows(kept, fs.mounts, e);
    KeptGrows(entries, fs.mounts, i);
    if e.path !in fs.nodes {
      ParentIsThere(u, w, fs.mounts, kept, KeptOf(entries), e);
      CreateEntry(fs, e);
    }
    NextIsRebuilt(u, w, fs.nodes, kept, e);
    assert entries[..i + 1][..i] == entries[..i];
  }

  lemma {:induction false} KeptGrows(entries: seq<SkeletonEntry>, mounts: set<Path>, i: nat)
    requires i <= |entries| && InOrder(entries, mounts)
    ensures forall q :: q in KeptOf(entries[..i]) ==> q in KeptOf(entries) && KeptOf(entries)[q] == KeptOf(entries[..i])[q]
    decreases |entries|
  {
    if i == |entries| {
      assert entries[..i] == entries;
    } else {
      var n := |entries| - 1;
      PrefixFollows(entries, mounts, n);
      KeptGrows(entries[..n], mounts, i);
      assert entries[..n][..i] == entries[..i];
      LastIsNew(entries, mounts);
    }
  }

  lemma LastIsNew(entries: seq<SkeletonEntry>, mounts: set<Path>)
    requires entries != [] && InOrder(entries, mounts)
    ensures
      var before := KeptOf(entries[..|entries| - 1]);
      forall q :: q in before ==> q in KeptOf(entries) && KeptOf(entries)[q] == before[q]
  {
    var n := |entries| - 1;
    assert Follows(KeptOf(entries[..n]), mounts, entries[n]);
  }

  lemma ParentIsThere(u: Tree, w: Tree, mounts: set<Path>, kept: Kept, all: Kept, e: SkeletonEntry)
    requires IsTree(w, mounts) && Rebuilt(u, w, kept) && Follows(kept, mounts, e) && KindsAgree(u, all)
    requires forall q :: q in kept ==> q in all && all[q] == kept[q]
    ensures HoldsChildren(w, mounts, Parent(e.path))
  {
    var p := Parent(e.path);
    if |e.path| > 1 {
      assert At(w, p) == if p in u then Some(u[p]) else Some(Made(kept[p]));
    } else {
      assert p == [];
    }
  }

  lemma NextIsRebuilt(u: Tree, w: Tree, v: Tree, kept: Kept, e: SkeletonEntry)
    requires Rebuilt(u, w, kept) && e.path !in kept
    requires v == if e.path !in w && IsCreated(e.node) then w[e.path := Made(e.node)] else w
    ensures Rebuilt(u, v, kept[e.path := e.node])
  {
    var next := kept[e.path := e.node];
    forall q
      ensures At(v, q) == if q in u then Some(u[q]) else if q in next && IsCreated(next[q]) then Some(Made(next[q])) else None
    {
      assert At(w, q) == if q in u then Some(u[q]) else if q in kept && IsCreated(kept[q]) then Some(Made(kept[q])) else None;
    }
  }

  // ---------------------------------------------------------------------------------------------
  // The reset
  // ---------------------------------------------------------------------------------------------

  ghost predicate IsReset(t: Tree, u: Tree, kept: Kept, mounts: set<Path>, rootPerm: nat) {
    forall q :: At(u, q) == Goal(t, kept, mounts, rootPerm, q)
  }

  /** resetFileSystem. */
  method ResetFileSystem(fs: FileSystem, rootPerm: nat, entries: seq<SkeletonEntry>)
    requires fs.Valid() && IsSkeleton(entries, fs.mounts)
    modifies fs`nodes, fs`cwd
    ensures fs.Valid() && fs.cwd == PROJECT
    ensures IsReset(old(fs.nodes), fs.nodes, KeptOf(entries), fs.mounts, rootPerm)
  {
    var kept := KeptOf(entries);
    SkeletonKeepsMounts(entries, fs.mounts);
    RootIsNotKept(entries, fs.mounts);
    ghost var t := fs.nodes;
    fs.Chmod([], rootPerm);
    fs.Chdir([]);
    ghost var v := fs.nodes;
    Prune(fs, kept, []);
    ghost var u := fs.nodes;
    PrunedKinds(v, u, kept, fs.mounts);
    PrunedProject(v, u, kept, fs.mounts);
    Rebuild(fs, entries);
    ghost var w := fs.nodes;
    if PROJECT !in fs.nodes {
      fs.Create(PROJECT, EMPTY_PROJECT);
    }
    AllReset(t, rootPerm, v, u, w, fs.nodes, kept, fs.mounts);
    ProjectIsDirectory(t, fs.nodes, kept, fs.mounts, rootPerm);
    fs.Chdir(PROJECT);
  }

  lemma RootIsNotKept(entries: seq<SkeletonEntry>, mounts: set<Path>)
    requires IsSkeleton(entries, mounts)
    ensures [] !in KeptOf(entries)
  {
    if [] in KeptOf(entries) {
      KeptEntry(entries, mounts, []);
    }
  }

  lemma ProjectIsDirectory(t: Tree, u: Tree, kept: Kept, mounts: set<Path>, perm: nat)
    requires IsTree(t, mounts) && IsReset(t, u, kept, mounts, perm)
    ensures PROJECT in u && u[PROJECT].kind == Directory
  {
    assert At(u, PROJECT) == Goal(t, kept, mounts, perm, PROJECT);
  }

  lemma PrunedKinds(t: Tree, u: Tree, kept: Kept, mounts: set<Path>)
    requires PrunedBelow(t, u, kept, mounts, []) && KeepsMounts(kept, mounts) && [] !in kept
    ensures KindsAgree(u, kept)
  {
    forall q | q in u && q in kept
      ensures u[q].kind == kept[q].kind
    {
      assert At(u, q) == if [] < q then Pruned(t, kept, mounts, 0, q) else At(t, q);
      assert q[..|q|] == q;
    }
  }

  lemma PrunedProject(t: Tree, u: Tree, kept: Kept, mounts: set<Path>)
    requires IsTree(t, mounts) && PrunedBelow(t, u, kept, mounts, []) && KeepsMounts(kept, mounts)
    ensures At(u, PROJECT) == if PROJECT in mounts then At(t, PROJECT) else None
  {
    assert At(u, PROJECT) == if [] < PROJECT then Pruned(t, kept, mounts, 0, PROJECT) else At(t, PROJECT);
    assert PROJECT[..1] == PROJECT;
  }

  lemma SurvivesUnderRoot(t: Tree, perm: nat, kept: Kept, mounts: set<Path>, q: Path)
    requires [] in t
    ensures Survives(t[[] := t[[]].(perm := perm)], kept, mounts, 0, q) <==> Survives(t, kept, mounts, 0, q)
  {
    var v := t[[] := t[[]].(perm := perm)];
    forall n | 0 < n <= |q|
      ensures Stays(v, kept, mounts, q[..n]) <==> Stays(t, kept, mounts, q[..n])
    {
    }
  }

  lemma AllReset(t: Tree, perm: nat, v: Tree, u: Tree, w: Tree, x: Tree, kept: Kept, mounts: set<Path>)
    requires IsTree(t, mounts) && KeepsMounts(kept, mounts) && [] !in kept
    requires v == t[[] := t[[]].(perm := perm)] && PrunedBelow(v, u, kept, mounts, []) && Rebuilt(u, w, kept)
    requires At(u, PROJECT) == if PROJECT in mounts then At(t, PROJECT) else None
    requires x == if PROJECT in w then w else w[PROJECT := EMPTY_PROJECT]
    ensures IsReset(t, x, kept, mounts, perm)
  {
    forall q
      ensures At(x, q) == Goal(t, kept, mounts, perm, q)
    {
      assert At(w, q) == if q in u then Some(u[q]) else if q in kept && IsCreated(kept[q]) then Some(Made(kept[q])) else None;
      assert At(u, q) == if [] < q then Pruned(v, kept, mounts, 0, q) else At(v, q);
      SurvivesUnderRoot(t, perm, kept, mounts, q);
    }
  }

  // ---------------------------------------------------------------------------------------------
  // What a reset comes to
  // ---------------------------------------------------------------------------------------------

  /** A node that survives is the skeleton's, but for a link's permissions. */
  lemma SurvivorIsKept(t: Tree, kept: Kept, mounts: set<Path>, q: Path)
    requires KeepsMounts(kept, mounts) && q != [] && q != PROJECT && q in t && Survives(t, kept, mounts, 0, q)
    ensures q in kept && Matches(t[q], kept[q])
    ensures Fixed(kept, q, t[q]) == if kept[q].kind == Link then kept[q].(perm := t[q].perm) else kept[q]
  {
    assert q[..|q|] == q;
  }

  /**
    From any tree a reset leads to the skeleton, the root and the working directory, and nothing
    else: every node as it was captured, but for the permissions of links, which are never compared,
    and for nodes of other types, which are not made again.
   */
  lemma ResetIsSkeleton(t: Tree, kept: Kept, mounts: set<Path>, perm: nat, q: Path)
    requires IsTree(t, mounts) && KeepsMounts(kept, mounts) && q != [] && q != PROJECT
    ensures
      var stays := q in t && Survives(t, kept, mounts, 0, q);
      Goal(t, kept, mounts, perm, q)
        == if q !in kept || (kept[q].kind.Other? && !stays) then None
           else if kept[q].kind == Link then Some(kept[q].(perm := if stays then t[q].perm else 0x1ff))
           else Some(kept[q])
  {
    if q in t && Survives(t, kept, mounts, 0, q) {
      SurvivorIsKept(t, kept, mounts, q);
    }
  }

  /** The nodes that come back as they were captured. */
  predicate ComesBack(t: Tree, kept: Kept, mounts: set<Path>, q: Path)
    requires q in kept
  {
    var stays := q in t && Survives(t, kept, mounts, 0, q);
    && (kept[q].kind.Other? ==> stays)
    && (kept[q].kind == Link ==> kept[q].perm == if stays then t[q].perm else 0x1ff)
  }

  lemma ComesBackExactly(t: Tree, kept: Kept, mounts: set<Path>, perm: nat, q: Path)
    requires IsTree(t, mounts) && KeepsMounts(kept, mounts) && q != [] && q != PROJECT
    ensures Goal(t, kept, mounts, perm, q) == At(kept, q) <==> (q in kept ==> ComesBack(t, kept, mounts, q))
  {
    if q in t && Survives(t, kept, mounts, 0, q) {
      SurvivorIsKept(t, kept, mounts, q);
    }
  }

  /** Outside the root and the working directory the tree is the skeleton exactly if every node comes back. */
  lemma ResetRestores(t: Tree, u: Tree, kept: Kept, mounts: set<Path>, perm: nat)
    requires IsTree(t, mounts) && KeepsMounts(kept, mounts) && [] !in kept && IsReset(t, u, kept, mounts, perm)
    ensures (forall q :: q != [] && q != PROJECT ==> At(u, q) == At(kept, q))
      <==> forall q :: q in kept ==> ComesBack(t, kept, mounts, q)
  {
    forall q | q != [] && q != PROJECT
      ensures At(u, q) == At(kept, q) <==> (q in kept ==> ComesBack(t, kept, mounts, q))
    {
      assert At(u, q) == Goal(t, kept, mounts, perm, q);
      ComesBackExactly(t, kept, mounts, perm, q);
    }
  }

  /** Links as `symlink` makes them. The calls that change permissions follow links, so none changes these. */
  predicate HasOpenLinks(t: Tree) {
    forall q :: q in t && t[q].kind == Link ==> t[q].perm == 0x1ff
  }

  /** What a program finds after a reset, wherever the last one left the tree. */
  function Fresh(t: Tree, u: Tree, mounts: set<Path>, q: Path): Option<Node> {
    if q == ["project"] then if q in mounts then At(u, q) else Some(Node(Directory, 0x1ff, 0, "", ""))
    else if q == [] || q[0] == "dev" || q[0] == "proc" || q[0] == "tmp" then At(t, q)
    else None
  }

  /** The same mounts, but that the working directory may be one of them now, or no longer. */
  predicate MountsAgree(before: set<Path>, mounts: set<Path>) {
    before - {["project"]} == mounts - {["project"]}
  }

  /** A captured skeleton stays one when something is mounted at the working directory, or taken away from there. */
  lemma SkeletonOutlivesMount(entries: seq<SkeletonEntry>, before: set<Path>, mounts: set<Path>)
    requires MountsAgree(before, mounts) && IsSkeleton(entries, before)
    ensures IsSkeleton(entries, mounts)
  {
    assert forall m :: m != PROJECT ==> (m in before <==> m in mounts) by {
      forall m | m != PROJECT
        ensures m in before <==> m in mounts
      {
        assert m in before - {PROJECT} <==> m in mounts - {PROJECT};
      }
    }
    forall i | 0 <= i < |entries|
      ensures Follows(KeptOf(entries[..i]), mounts, entries[i])
    {
      var e := entries[i];
      assert Follows(KeptOf(entries[..i]), before, e);
      if |e.path| > 1 {
        assert Parent(e.path)[0] == e.path[0] != PROJECT[0];
      }
    }
  }

  /**
    A skeleton is captured from t, anything happens to the tree, and a reset finds it as u, with a
    working directory mounted since or not: then every path is as it was captured, if links are open
    and nothing special was captured.
   */
  lemma CapturedComesBack(t: Tree, before: set<Path>, u: Tree, w: Tree, entries: seq<SkeletonEntry>, mounts: set<Path>)
    requires IsTree(t, before) && IsTree(u, mounts) && MountsAgree(before, mounts)
    requires HasOpenLinks(t) && HasOpenLinks(u)
    requires IsSkeleton(entries, before) && Captures(t, KeptOf(entries), ROOTS)
    requires forall q :: q in KeptOf(entries) ==> !KeptOf(entries)[q].kind.Other?
    requires IsReset(u, w, KeptOf(entries), mounts, t[[]].perm)
    ensures forall q :: At(w, q) == Fresh(t, u, mounts, q)
  {
    var kept := KeptOf(entries);
    SkeletonOutlivesMount(entries, before, mounts);
    SkeletonKeepsMounts(entries, mounts);
    RootIsNotKept(entries, mounts);
    forall q
      ensures At(w, q) == Fresh(t, u, mounts, q)
    {
      assert At(w, q) == Goal(u, kept, mounts, t[[]].perm, q);
      if q != [] && q != PROJECT {
        assert At(kept, q) == if q[0] in ROOTS then At(t, q) else None;
        if q in kept {
          OpenNodeComesBack(u, kept, mounts, q);
        }
        ComesBackExactly(u, kept, mounts, t[[]].perm, q);
      }
    }
  }

  /** What every program start does with the skeleton captured from t when the module was made. */
  method ResetForProgram(fs: FileSystem, rootPerm: nat, entries: seq<SkeletonEntry>, ghost t: Tree, ghost before: set<Path>)
    requires fs.Valid() && IsTree(t, before) && MountsAgree(before, fs.mounts)
    requires rootPerm == t[[]].perm && IsSkeleton(entries, before) && Captures(t, KeptOf(entries), ROOTS)
    requires forall q :: q in KeptOf(entries) ==> !KeptOf(entries)[q].kind.Other?
    requires HasOpenLinks(t) && HasOpenLinks(fs.nodes)
    modifies fs`nodes, fs`cwd
    ensures fs.Valid() && fs.cwd == ["project"]
    ensures forall q :: At(fs.nodes, q) == Fresh(t, old(fs.nodes), fs.mounts, q)
  {
    ghost var u := fs.nodes;
    SkeletonOutlivesMount(entries, before, fs.mounts);
    ResetFileSystem(fs, rootPerm, entries);
    CapturedComesBack(t, before, u, fs.nodes, entries, fs.mounts);
  }

  lemma OpenNodeComesBack(t: Tree, kept: Kept, mounts: set<Path>, q: Path)
    requires HasOpenLinks(t) && q in kept && !kept[q].kind.Other? && q != [] && q != PROJECT
    requires kept[q].kind == Link ==> kept[q].perm == 0x1ff
    ensures ComesBack(t, kept, mounts, q)
  {
    assert q[..|q|] == q;
    if q in t && Survives(t, kept, mounts, 0, q) {
      assert Stays(t, kept, mounts, q[..|q|]);
    }
  }

  // A skeleton with a link that is not open and a pipe, and a tree that lost both.

  const DIRECTORY := Node(Directory, 0x1ed, 0, "", "")
  const CLOSED_LINK := Node(Link, 0x1c0, 0, "fd", "")
  const PIPE := Node(Other(0x1000), 0x1b6, 0, "", "")
  const SMALL_SKELETON := [SkeletonEntry(["dev"], DIRECTORY), SkeletonEntry(["dev", "in"], CLOSED_LINK),
                           SkeletonEntry(["dev", "log"], PIPE)]
  const SMALL_TREE: Tree := map[[] := DIRECTORY, ["dev"] := DIRECTORY]

  lemma SmallSkeleton()
    ensures KeptOf(SMALL_SKELETON[..0]) == map[] && KeptOf(SMALL_SKELETON[..1]) == map[["dev"] := DIRECTORY]
    ensures KeptOf(SMALL_SKELETON[..2]) == map[["dev"] := DIRECTORY, ["dev", "in"] := CLOSED_LINK]
    ensures KeptOf(SMALL_SKELETON) == map[["dev"] := DIRECTORY, ["dev", "in"] := CLOSED_LINK, ["dev", "log"] := PIPE]
  {
    var entries := SMALL_SKELETON;
    assert entries[..1] == [entries[0]] && entries[..2] == [entries[0], entries[1]];
    assert entries[..1][..0] == [] && entries[..2][..1] == entries[..1];
  }

  /** Once removed, a link that was not open comes back open, and a pipe does not come back. */
  lemma SomeNodesAreLost()
    ensures IsTree(SMALL_TREE, {}) && IsSkeleton(SMALL_SKELETON, {})
    ensures
      var kept := KeptOf(SMALL_SKELETON);
      && Goal(SMALL_TREE, kept, {}, 0x1ed, ["dev", "in"]) == Some(CLOSED_LINK.(perm := 0x1ff)) != At(kept, ["dev", "in"])
      && Goal(SMALL_TREE, kept, {}, 0x1ed, ["dev", "log"]) == None != At(kept, ["dev", "log"])
  {
    SmallSkeleton();
    assert Parent(["dev", "in"]) == ["dev"] == Parent(["dev", "log"]);
  }

  /** Resetting again changes nothing. */
  lemma ResetTwice(t: Tree, u: Tree, kept: Kept, mounts: set<Path>, perm: nat, entries: seq<SkeletonEntry>)
    requires IsTree(t, mounts) && IsSkeleton(entries, mounts) && kept == KeptOf(entries)
    requires IsReset(t, u, kept, mounts, perm)
    ensures IsReset(u, u, kept, mounts, perm)
  {
    SkeletonKeepsMounts(entries, mounts);
    forall q
      ensures At(u, q) == Goal(u, kept, mounts, perm, q)
    {
      assert At(u, q) == Goal(t, kept, mounts, perm, q);
      if q != [] && q != PROJECT {
        ResetIsSkeleton(t, kept, mounts, perm, q);
        if q in u {
          ResetSurvives(t, u, kept, mounts, perm, entries, q);
        }
      }
    }
  }

  /** What a reset leaves survives the next one. */
  lemma ResetSurvives(t: Tree, u: Tree, kept: Kept, mounts: set<Path>, perm: nat, entries: seq<SkeletonEntry>, q: Path)
    requires IsTree(t, mounts) && IsSkeleton(entries, mounts) && kept == KeptOf(entries)
    requires IsReset(t, u, kept, mounts, perm) && q in u && q in kept
    ensures Survives(u, kept, mounts, 0, q)
  {
    SkeletonKeepsMounts(entries, mounts);
    forall n | 0 < n <= |q|
      ensures Stays(u, kept, mounts, q[..n])
    {
      var r := q[..n];
      if n < |q| {
        KeptAncestor(entries, mounts, q, n);
      } else {
        assert r == q;
      }
      assert At(u, r) == Goal(t, kept, mounts, perm, r);
      ResetIsSkeleton(t, kept, mounts, perm, r);
    }
  }
}
