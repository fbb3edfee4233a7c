/** Finite trees of gateways: undirected graphs in which any two nodes are joined by exactly one
    simple path. */
module Trees {
  import opened Lists

  /** The neighbours of each node. */
  type Graph = map<int, set<int>>

  ghost predicate Undirected(g: Graph) {
    forall a, b :: a in g && b in g[a] ==> b in g && a in g[b] && a != b
  }

  ghost predicate IsPath(g: Graph, p: seq<int>, a: int, b: int) {
    && p != [] && p[0] == a && p[|p| - 1] == b
    && (forall i :: 0 <= i < |p| ==> p[i] in g)
    && (forall i :: 0 <= i < |p| - 1 ==> p[i + 1] in g[p[i]])
    && NoDup(p)
  }

  ghost predicate Joined(g: Graph, a: int, b: int) {
    exists p :: IsPath(g, p, a, b)
  }

  ghost predicate IsTree(g: Graph) {
    && Undirected(g)
    && (forall a, b {:trigger Joined(g, a, b)} :: a in g && b in g ==> Joined(g, a, b))
    && (forall a, b, p, q :: IsPath(g, p, a, b) && IsPath(g, q, a, b) ==> p == q)
  }

  ghost function PathTo(g: Graph, a: int, b: int): (p: seq<int>)
    requires IsTree(g) && a in g && b in g
    ensures IsPath(g, p, a, b)
  {
    assert Joined(g, a, b);
    var p :| IsPath(g, p, a, b); p
  }

  ghost function Depth(g: Graph, root: int, v: int): nat
    requires IsTree(g) && root in g && v in g
  {
    |PathTo(g, root, v)| - 1
  }

  /** The neighbour of v on the way to root. */
  ghost function Parent(g: Graph, root: int, v: int): (w: int)
    requires IsTree(g) && root in g && v in g && v != root
    ensures w in g && w in g[v] && v in g[w]
  {
    var p := PathTo(g, root, v);
    assert |p| > 1;
    assert p[|p| - 2 + 1] in g[p[|p| - 2]];
    p[|p| - 2]
  }

  lemma PrefixIsPath(g: Graph, p: seq<int>, a: int, b: int, i: nat)
    requires IsPath(g, p, a, b) && i < |p|
    ensures IsPath(g, p[..i + 1], a, p[i])
  {
  }

  lemma PathsAgree(g: Graph, p: seq<int>, a: int, b: int)
    requires IsTree(g) && IsPath(g, p, a, b)
    ensures a in g && b in g && PathTo(g, a, b) == p
  {
    assert p[0] in g && p[|p| - 1] in g;
  }

  lemma PathExtends(g: Graph, p: seq<int>, a: int, v: int, w: int)
    requires Undirected(g) && IsPath(g, p, a, v) && w in g[v] && w !in p
    ensures IsPath(g, p + [w], a, w)
  {
  }

  lemma NeighborOffPath(g: Graph, root: int, v: int, w: int)
    requires IsTree(g) && root in g && v in g && w in g[v] && w !in PathTo(g, root, v)
    ensures w in g && w != root && PathTo(g, root, w) == PathTo(g, root, v) + [w]
  {
    var p := PathTo(g, root, v);
    PathExtends(g, p, root, v, w);
    PathsAgree(g, p + [w], root, w);
    assert root == p[0];
  }

  lemma NeighborOnPath(g: Graph, root: int, v: int, w: int)
    requires IsTree(g) && root in g && v in g && w in g[v] && w in PathTo(g, root, v)
    ensures w in g && v != root && PathTo(g, root, v) == PathTo(g, root, w) + [v]
  {
    var p := PathTo(g, root, v);
    var i :| 0 <= i < |p| && p[i] == w;
    PrefixIsPath(g, p, root, v, i);
    PathsAgree(g, p[..i + 1], root, w);
    assert v !in p[..i + 1] by { assert p[|p| - 1] == v && w != v; }
    PathExtends(g, p[..i + 1], root, w, v);
    PathsAgree(g, p[..i + 1] + [v], root, v);
  }

  /** Seen from a root, every neighbour of a node is either its parent or one of its children. */
  lemma ParentOrChild(g: Graph, root: int, v: int, w: int)
    requires IsTree(g) && root in g && v in g && w in g[v]
    ensures w in g
    ensures (v != root && w == Parent(g, root, v) && Depth(g, root, v) == Depth(g, root, w) + 1)
         || (w != root && v == Parent(g, root, w) && Depth(g, root, w) == Depth(g, root, v) + 1)
  {
    if w in PathTo(g, root, v) {
      NeighborOnPath(g, root, v, w);
    } else {
      NeighborOffPath(g, root, v, w);
    }
  }

  lemma ParentIsCloser(g: Graph, root: int, v: int)
    requires IsTree(g) && root in g && v in g && v != root
    ensures Depth(g, root, v) == Depth(g, root, Parent(g, root, v)) + 1
  {
    var p := PathTo(g, root, v);
    PrefixIsPath(g, p, root, v, |p| - 2);
    PathsAgree(g, p[..|p| - 1], root, p[|p| - 2]);
  }

  lemma DepthZero(g: Graph, root: int, v: int)
    requires IsTree(g) && root in g && v in g
    ensures Depth(g, root, v) == 0 <==> v == root
  {
    if v == root {
      assert IsPath(g, [root], root, root);
      assert [root] == PathTo(g, root, root);
    }
  }
}
