/** Merge: layered override of one tree by another, in which the source wins. */
module Merging {
  import opened Tree

  /** n.Merge(src) as a value: Nodes present on both sides are merged key by key, every other
      element of src overwrites, and keys only in n stay. */
  function Merge(n: Node, src: Node): (r: Node)
    decreases src
    ensures r.children.Keys == n.children.Keys + src.children.Keys
    ensures forall k | k in n.children && k !in src.children :: r.children[k] == n.children[k]
    ensures forall k | k in src.children && k !in n.children :: r.children[k] == src.children[k]
    ensures forall k | k in src.children && k in n.children && !(n.children[k].NodeE? && src.children[k].NodeE?) ::
              r.children[k] == src.children[k]
    ensures forall k | k in src.children && k in n.children && n.children[k].NodeE? && src.children[k].NodeE? ::
              r.children[k].NodeE?
  {
    Node(map k | k in n.children.Keys + src.children.Keys ::
      if k !in src.children then n.children[k]
      else if k in n.children && n.children[k].NodeE? && src.children[k].NodeE? then
        NodeE(Merge(n.children[k].node, src.children[k].node))
      else src.children[k])
  }

  /** Merging an empty source changes nothing. */
  lemma MergeEmptySource(n: Node)
    ensures Merge(n, EmptyNode) == n
  {
  }

  /** Merging into an empty tree copies the source. */
  lemma MergeIntoEmpty(src: Node)
    ensures Merge(EmptyNode, src) == src
  {
  }

  /** Merging a tree into itself changes nothing. */
  lemma {:induction false} MergeSelf(n: Node)
    ensures Merge(n, n) == n
    decreases n
  {
    forall k | k in n.children && n.children[k].NodeE? ensures Merge(n.children[k].node, n.children[k].node) == n.children[k].node {
      MergeSelf(n.children[k].node);
    }
  }

  /** Merging the same source twice is the same as merging it once. */
  lemma {:induction false} MergeIdempotent(n: Node, src: Node)
    ensures Merge(Merge(n, src), src) == Merge(n, src)
    decreases src
  {
    var m := Merge(n, src);
    forall k | k in src.children && k in n.children && n.children[k].NodeE? && src.children[k].NodeE?
      ensures Merge(Merge(n.children[k].node, src.children[k].node), src.children[k].node)
              == Merge(n.children[k].node, src.children[k].node)
    {
      MergeIdempotent(n.children[k].node, src.children[k].node);
    }
    forall k | k in src.children && src.children[k].NodeE? && !(k in n.children && n.children[k].NodeE?)
      ensures Merge(src.children[k].node, src.children[k].node) == src.children[k].node
    {
      MergeSelf(src.children[k].node);
    }
    assert Merge(m, src).children == m.children;
  }

  /** Every value the source holds (a scalar, an array, anything but a Node) is what the merged tree
      holds at the same path. */
  lemma {:induction false} MergeSourceWins(n: Node, src: Node, q: seq<string>)
    requires Resolve(NodeE(src), q).Found? && !Resolve(NodeE(src), q).element.NodeE?
    ensures Resolve(NodeE(Merge(n, src)), q) == Resolve(NodeE(src), q)
    decreases |q|
  {
    var k := q[0];
    var w := src.children[k];
    if |q| > 1 {
      if k in n.children && n.children[k].NodeE? {
        MergeSourceWins(n.children[k].node, w.node, q[1..]);
      }
    }
  }

  /** Every Node the source holds is a Node in the merged tree, with at least the source's keys. */
  lemma {:induction false} MergeSourceNodes(n: Node, src: Node, q: seq<string>)
    requires NodeAt(NodeE(src), q)
    ensures NodeAt(NodeE(Merge(n, src)), q)
    ensures Resolve(NodeE(src), q).element.node.children.Keys
            <= Resolve(NodeE(Merge(n, src)), q).element.node.children.Keys
    decreases |q|
  {
    if q != [] {
      var k := q[0];
      var w := src.children[k];
      assert Resolve(NodeE(src), q) == Resolve(w, q[1..]);
      assert w.NodeE?;
      if k in n.children && n.children[k].NodeE? {
        MergeSourceNodes(n.children[k].node, w.node, q[1..]);
      }
    }
  }

  /** An element of the target stays wherever the source lacks the key the path asks for. */
  lemma {:induction false} MergeKeepsTarget(n: Node, src: Node, q: seq<string>)
    requires Resolve(NodeE(n), q).Found?
    requires Resolve(NodeE(src), q) == NotFound
    ensures Resolve(NodeE(Merge(n, src)), q) == Resolve(NodeE(n), q)
    decreases |q|
  {
    var k := q[0];
    if k in src.children {
      MergeKeepsTarget(n.children[k].node, src.children[k].node, q[1..]);
    }
  }

  /** Merging invents nothing: whatever the merged tree holds at a path, one of the two sides holds
      something there too, and a value (anything but a Node) comes unchanged from one side. */
  lemma {:induction false} MergeAddsNothing(n: Node, src: Node, q: seq<string>)
    requires Resolve(NodeE(Merge(n, src)), q).Found?
    ensures Resolve(NodeE(n), q).Found? || Resolve(NodeE(src), q).Found?
    ensures !Resolve(NodeE(Merge(n, src)), q).element.NodeE? ==>
              Resolve(NodeE(Merge(n, src)), q) in {Resolve(NodeE(n), q), Resolve(NodeE(src), q)}
    decreases |q|
  {
    if q != [] {
      var k := q[0];
      if k in src.children && k in n.children && n.children[k].NodeE? && src.children[k].NodeE? {
        MergeAddsNothing(n.children[k].node, src.children[k].node, q[1..]);
      }
    }
  }
}
