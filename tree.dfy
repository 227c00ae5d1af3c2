/**
 * The in-memory tree: one `Node` per visited filesystem entry, and the
 * pre-order sequence of the nodes of a tree, which both consumers follow.
 */
module Tree {
  import opened Fs

  datatype Node = Node(name: string, children: seq<Node>, isDir: bool, path: Path)

  /** The nodes of the tree rooted at `n`, parent before children, children
      in the order of `children`. */
  function PreOrder(n: Node): (r: seq<Node>)
    ensures |r| >= 1 && r[0] == n
    decreases n, 1
  {
    [n] + Forest(n, |n.children|)
  }

  /** The pre-order sequences of the first `k` children of `n`, concatenated. */
  function Forest(n: Node, k: nat): seq<Node>
    requires k <= |n.children|
    decreases n, 0, k
  {
    if k == 0 then [] else Forest(n, k - 1) + PreOrder(n.children[k - 1])
  }

  function PathsOf(ns: seq<Node>): (r: seq<Path>)
    ensures |r| == |ns|
    ensures forall i :: 0 <= i < |ns| ==> r[i] == ns[i].path
  {
    seq(|ns|, i requires 0 <= i < |ns| => ns[i].path)
  }

  function NamesOf(ns: seq<Node>): (r: seq<string>)
    ensures |r| == |ns|
    ensures forall i :: 0 <= i < |ns| ==> r[i] == ns[i].name
  {
    seq(|ns|, i requires 0 <= i < |ns| => ns[i].name)
  }

  /** Only directories have children, as in every tree the builder returns. */
  predicate WellFormed(n: Node)
    decreases n
  {
    && (!n.isDir ==> n.children == [])
    && forall i :: 0 <= i < |n.children| ==> WellFormed(n.children[i])
  }
}
