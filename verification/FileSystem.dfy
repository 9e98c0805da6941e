/** The tree of files a program finds, and putting it back (blink-js/src/file-system.ts). */
module FileTree {

  import opened Options

  /** The names from the root down. */
  type Path = seq<string>

  datatype Kind = Directory | Device | Link | File | Other(bits: nat)

  datatype Node = Node(kind: Kind, perm: nat, rdev: nat, target: string, content: string)

  type Tree = map<Path, Node>

  function Parent(p: Path): Path
    requires p != []
  {
    p[..|p| - 1]
  }

  /** Only devices and other special nodes have a number, only links a target, and only files contents. */
  predicate IsPlain(n: Node) {
    && (n.rdev == 0 || n.kind == Device || n.kind.Other?)
    && (n.target == "" || n.kind == Link)
    && (n.content == "" || n.kind == File)
  }

  /** Every node is in a directory; what is under a mount point belongs to another file system. */
  ghost predicate IsTree(t: Tree, mounts: set<Path>) {
    && [] in t && t[[]].kind == Directory && [] !in mounts
    && (forall p :: p in t ==> IsPlain(t[p]))
    && (forall p :: p in t && p != [] ==> HoldsChildren(t, mounts, Parent(p)))
    && (forall m :: m in mounts ==> m in t && t[m].kind == Directory)
  }

  predicate HoldsChildren(t: Tree, mounts: set<Path>, p: Path) {
    p in t && t[p].kind == Directory && p !in mounts
  }

  function At(t: Tree, p: Path): Option<Node> {
    if p in t then Some(t[p]) else None
  }

  lemma SameTree(t: Tree, u: Tree)
    requires forall p :: At(t, p) == At(u, p)
    ensures t == u
  {
    forall p
      ensures p in t <==> p in u
      ensures p in t ==> t[p] == u[p]
    {
      assert At(t, p) == At(u, p);
    }
  }

  /** All ancestors of a node are directories, and none is a mount point. */
  lemma {:induction false} AncestorHolds(t: Tree, mounts: set<Path>, p: Path, q: Path)
    requires IsTree(t, mounts) && q in t && p < q
    ensures HoldsChildren(t, mounts, p)
    decreases |q|
  {
    if |p| < |q| - 1 {
      assert p == q[..|p|] == Parent(q)[..|p|];
      AncestorHolds(t, mounts, p, Parent(q));
    } else {
      assert p == Parent(q);
    }
  }

  /** The tree without a node and what is below it. */
  function Without(t: Tree, p: Path): Tree {
    map q | q in t && !(p <= q) :: t[q]
  }

  predicate IsEmpty(t: Tree, p: Path) {
    forall q :: q in t ==> !(p < q)
  }

  class FileSystem {
    const mounts: set<Path>
    var nodes: Tree
    var cwd: Path

    constructor (nodes: Tree, mounts: set<Path>)
      requires IsTree(nodes, mounts)
      ensures this.nodes == nodes && this.mounts == mounts && cwd == []
    {
      this.nodes, this.mounts, cwd := nodes, mounts, [];
    }

    ghost predicate Valid()
      reads this
    {
      IsTree(nodes, mounts)
    }

    method Chdir(p: Path)
      requires Valid() && p in nodes && nodes[p].kind == Directory
      modifies this`cwd
      ensures cwd == p
    {
      cwd := p;
    }

    method Chmod(p: Path, perm: nat)
      requires Valid() && p in nodes
      modifies this`nodes
      ensures Valid() && nodes == old(nodes)[p := old(nodes)[p].(perm := perm)]
    {
      nodes := nodes[p := nodes[p].(perm := perm)];
    }

    method Unlink(p: Path)
      requires Valid() && p in nodes && nodes[p].kind != Directory
      modifies this`nodes
      ensures Valid() && nodes == Without(old(nodes), p)
    {
      LeafOnly(nodes, mounts, p);
      RemovalKeepsTree(nodes, mounts, p);
      nodes := nodes - {p};
    }

    method Rmdir(p: Path)
      requires Valid() && p in nodes && nodes[p].kind == Directory && p != [] && p !in mounts && IsEmpty(nodes, p)
      modifies this`nodes
      ensures Valid() && nodes == Without(old(nodes), p)
    {
      NothingMounted(nodes, mounts, p);
      RemovalKeepsTree(nodes, mounts, p);
      nodes := nodes - {p};
    }

    /** Every creation needs a free name in a directory. */
    method Create(p: Path, n: Node)
      requires Valid() && p !in nodes && p != [] && HoldsChildren(nodes, mounts, Parent(p)) && IsPlain(n)
      modifies this`nodes
      ensures Valid() && nodes == old(nodes)[p := n]
    {
      assert p !in mounts;
      nodes := nodes[p := n];
    }

    /** The names in a directory, in some order. */
    method Readdir(p: Path) returns (names: seq<string>)
      requires Valid() && p in nodes
      ensures forall i, j :: 0 <= i < j < |names| ==> names[i] != names[j]
      ensures forall name :: name in names <==> p + [name] in nodes
    {
      names := [];
      var left := set q | q in nodes && q != [] && Parent(q) == p;
      ghost var all := left;
      while left != {}
        invariant left <= all
        invariant forall i, j :: 0 <= i < j < |names| ==> names[i] != names[j]
        invariant forall name :: name in names <==> p + [name] in all && p + [name] !in left
        decreases |left|
      {
        var q :| q in left;
        var name := q[|q| - 1];
        assert q == p + [name];
        left := left - {q};
        names := names + [name];
      }
    }
  }

  lemma LeafOnly(t: Tree, mounts: set<Path>, p: Path)
    requires IsTree(t, mounts) && p in t && t[p].kind != Directory
    ensures IsEmpty(t, p) && p != [] && p !in mounts && forall m :: m in mounts ==> !(p <= m)
  {
    forall q | q in t
      ensures !(p < q)
    {
      if p < q {
        AncestorHolds(t, mounts, p, q);
      }
    }
    NothingMounted(t, mounts, p);
  }

  lemma NothingMounted(t: Tree, mounts: set<Path>, p: Path)
    requires IsTree(t, mounts) && p !in mounts && IsEmpty(t, p)
    ensures forall m :: m in mounts ==> !(p <= m)
  {
    forall m | m in mounts
      ensures !(p <= m)
    {
      assert m in t;
      assert p <= m ==> |p| < |m| || p == m;
    }
  }

  lemma AboveParent(p: Path, q: Path)
    requires q != []
    ensures p <= Parent(q) ==> p <= q
    ensures p < q ==> p <= Parent(q)
  {
    if p < q {
      assert Parent(q)[..|p|] == q[..|p|] == p;
    }
  }

  lemma RemovalKeepsTree(t: Tree, mounts: set<Path>, p: Path)
    requires IsTree(t, mounts) && p in t && p != [] && IsEmpty(t, p)
    requires forall m :: m in mounts ==> !(p <= m)
    ensures t - {p} == Without(t, p) && IsTree(Without(t, p), mounts)
  {
    var u := Without(t, p);
    forall q
      ensures At(t - {p}, q) == At(u, q)
    {
      if q in t && p <= q {
        assert |p| < |q| || p == q;
      }
    }
    SameTree(t - {p}, u);
    forall q | q in u && q != []
      ensures HoldsChildren(u, mounts, Parent(q))
    {
      AboveParent(p, q);
      assert HoldsChildren(t, mounts, Parent(q));
    }
  }
}
