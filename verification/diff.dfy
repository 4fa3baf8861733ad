/** Compare: the structural diff of two trees, as three sets of paths (Go returns slices in map
    iteration order; the order is not modelled). Each reported path is the accumulated prefix plus a
    key, the prefix growing by key and separator at every level. */
module Diff {
  import opened Paths
  import opened Tree

  datatype Changes = Changes(modified: set<string>, added: set<string>, removed: set<string>)

  /** The condition under which a key present on both sides is reported as modified itself:
      exactly one side is a Node, or neither is and the values differ. */
  predicate Reported(x: Element, y: Element)
  {
    (x.NodeE? && !y.NodeE?) || (!x.NodeE? && y.NodeE?) || (!x.NodeE? && !y.NodeE? && x != y)
  }

  /** The modified paths: per key present on both sides, the key itself or, for two Nodes,
      the modified paths below it. */
  function Modified(a: Node, b: Node, prefix: string): set<string>
    decreases a, 1
  {
    set k, p | k in a.children && k in b.children && p in ModifiedUnder(a, b, prefix, k) :: p
  }

  function ModifiedUnder(a: Node, b: Node, prefix: string, k: string): set<string>
    requires k in a.children && k in b.children
    decreases a, 0
  {
    var v, w := a.children[k], b.children[k];
    if v.NodeE? && w.NodeE? then Modified(v.node, w.node, prefix + k + Separator)
    else if Reported(v, w) then {prefix + k}
    else {}
  }

  /** The removed paths: what each key of the old tree contributes in the first loop. */
  function Removed(a: Node, b: Node, prefix: string): set<string>
    decreases a, 1
  {
    set k, p | k in a.children && p in RemovedUnder(a, b, prefix, k) :: p
  }

  function RemovedUnder(a: Node, b: Node, prefix: string, k: string): set<string>
    requires k in a.children
    decreases a, 0
  {
    var v := a.children[k];
    if k in b.children then
      var w := b.children[k];
      if v.NodeE? && w.NodeE? then Removed(v.node, w.node, prefix + k + Separator)
      // a Node overwritten by a value loses everything below it
      else if v.NodeE? then Removed(v.node, EmptyNode, prefix + k + Separator)
      else {}
    else
      // a key only in the old tree, with everything below it
      {prefix + k} + (if v.NodeE? then Removed(v.node, EmptyNode, prefix + k + Separator) else {})
  }

  /** The added paths: what each key of the new tree contributes, in the first loop when the old
      tree has the key too and in the second loop otherwise. */
  function Added(a: Node, b: Node, prefix: string): set<string>
    decreases b, 1
  {
    set k, p | k in b.children && p in AddedUnder(a, b, prefix, k) :: p
  }

  function AddedUnder(a: Node, b: Node, prefix: string, k: string): set<string>
    requires k in b.children
    decreases b, 0
  {
    var w := b.children[k];
    if k in a.children then
      var v := a.children[k];
      if v.NodeE? && w.NodeE? then Added(v.node, w.node, prefix + k + Separator)
      // a value overwritten by a Node gains everything below it
      else if w.NodeE? then Added(EmptyNode, w.node, prefix + k + Separator)
      else {}
    else
      // a key only in the new tree, with everything below it
      {prefix + k} + (if w.NodeE? then Added(EmptyNode, w.node, prefix + k + Separator) else {})
  }

  /** Compare(a, b) with a the old tree and b the new one. Swapping the trees swaps what is added
      with what is removed and leaves what is modified alone. */
  function Compare(a: Node, b: Node): (r: Changes)
    ensures r.added == Removed(b, a, "")
    ensures r.modified == Modified(b, a, "")
  {
    AddedMirrorsRemoved(a, b, "");
    ModifiedSymmetric(a, b, "");
    Changes(Modified(a, b, ""), Added(a, b, ""), Removed(a, b, ""))
  }

  // ---- The diff in terms of paths: which segment paths end up in each set ----

  /** q leads to an element in both trees, and the pair is reported as modified. */
  ghost predicate ModifiedPath(a: Node, b: Node, q: seq<string>)
  {
    && |q| > 0
    && Resolve(NodeE(a), q).Found? && Resolve(NodeE(b), q).Found?
    && Reported(Resolve(NodeE(a), q).element, Resolve(NodeE(b), q).element)
  }

  /** q leads to an element in a but not in b. */
  ghost predicate RemovedPath(a: Node, b: Node, q: seq<string>)
  {
    |q| > 0 && Resolve(NodeE(a), q).Found? && !Resolve(NodeE(b), q).Found?
  }

  lemma ResolveCons(n: Node, k: string, q: seq<string>)
    requires k in n.children
    ensures Resolve(NodeE(n), [k] + q) == Resolve(n.children[k], q)
  {
  }

  lemma {:induction false} ModifiedSound(a: Node, b: Node, prefix: string, s: string)
    requires s in Modified(a, b, prefix)
    ensures exists q :: ModifiedPath(a, b, q) && s == prefix + Dotted(q)
    decreases a
  {
    var k :| k in a.children && k in b.children && s in ModifiedUnder(a, b, prefix, k);
    var v, w := a.children[k], b.children[k];
    if v.NodeE? && w.NodeE? {
      ModifiedSound(v.node, w.node, prefix + k + Separator, s);
      var q :| ModifiedPath(v.node, w.node, q) && s == prefix + k + Separator + Dotted(q);
      ResolveCons(a, k, q);
      ResolveCons(b, k, q);
      DottedCons(k, q);
      assert ModifiedPath(a, b, [k] + q);
    } else {
      ResolveCons(a, k, []);
      ResolveCons(b, k, []);
      assert [k] + [] == [k];
      assert Dotted([k]) == k;
      assert ModifiedPath(a, b, [k]);
    }
  }

  lemma {:induction false} ModifiedComplete(a: Node, b: Node, prefix: string, q: seq<string>)
    requires ModifiedPath(a, b, q)
    ensures prefix + Dotted(q) in Modified(a, b, prefix)
    decreases a
  {
    var k, rest := q[0], q[1..];
    assert q == [k] + rest;
    ResolveCons(a, k, rest);
    ResolveCons(b, k, rest);
    if rest != [] {
      ModifiedComplete(a.children[k].node, b.children[k].node, prefix + k + Separator, rest);
      DottedCons(k, rest);
      assert prefix + Dotted(q) == prefix + k + Separator + Dotted(rest);
    } else {
      assert Dotted(q) == k;
    }
    assert prefix + Dotted(q) in ModifiedUnder(a, b, prefix, k);
  }

  lemma {:induction false} RemovedSound(a: Node, b: Node, prefix: string, s: string)
    requires s in Removed(a, b, prefix)
    ensures exists q :: RemovedPath(a, b, q) && s == prefix + Dotted(q)
    decreases a
  {
    var k :| k in a.children && s in RemovedUnder(a, b, prefix, k);
    var v := a.children[k];
    if k !in b.children && s == prefix + k {
      ResolveCons(a, k, []);
      assert [k] + [] == [k];
      assert Dotted([k]) == k;
      assert RemovedPath(a, b, [k]);
    } else {
      var b' := Child(b, k);
      RemovedSound(v.node, b', prefix + k + Separator, s);
      var q :| RemovedPath(v.node, b', q) && s == prefix + k + Separator + Dotted(q);
      ResolveCons(a, k, q);
      DottedCons(k, q);
      if k in b.children {
        ResolveCons(b, k, q);
      } else {
        assert ([k] + q)[0] == k;
      }
      assert RemovedPath(a, b, [k] + q);
    }
  }

  lemma {:induction false} RemovedComplete(a: Node, b: Node, prefix: string, q: seq<string>)
    requires RemovedPath(a, b, q)
    ensures prefix + Dotted(q) in Removed(a, b, prefix)
    decreases a
  {
    var k, rest := q[0], q[1..];
    assert q == [k] + rest;
    ResolveCons(a, k, rest);
    if k in b.children {
      ResolveCons(b, k, rest);
    }
    if rest != [] {
      var b' := Child(b, k);
      assert rest[0] !in b'.children ==> Resolve(NodeE(b'), rest) == NotFound;
      RemovedComplete(a.children[k].node, b', prefix + k + Separator, rest);
      DottedCons(k, rest);
      assert prefix + Dotted(q) == prefix + k + Separator + Dotted(rest);
    } else {
      assert Dotted(q) == k;
    }
    assert prefix + Dotted(q) in RemovedUnder(a, b, prefix, k);
  }

  /** The diff is symmetric: what is added going from a to b is what is removed going from b to a. */
  lemma {:induction false} AddedMirrorsRemoved(a: Node, b: Node, prefix: string)
    ensures Added(a, b, prefix) == Removed(b, a, prefix)
    decreases b
  {
    forall k | k in b.children ensures AddedUnder(a, b, prefix, k) == RemovedUnder(b, a, prefix, k) {
      if b.children[k].NodeE? {
        AddedMirrorsRemoved(Child(a, k), b.children[k].node, prefix + k + Separator);
      }
    }
  }

  /** The modified set does not depend on the direction of the comparison. */
  lemma {:induction false} ModifiedSymmetric(a: Node, b: Node, prefix: string)
    ensures Modified(a, b, prefix) == Modified(b, a, prefix)
    decreases a
  {
    forall k | k in a.children && k in b.children
      ensures ModifiedUnder(a, b, prefix, k) == ModifiedUnder(b, a, prefix, k)
    {
      if a.children[k].NodeE? && b.children[k].NodeE? {
        ModifiedSymmetric(a.children[k].node, b.children[k].node, prefix + k + Separator);
      }
    }
  }

  /** What the three sets mean: a path is modified when it leads to an element in both trees and
      the two are reported (one Node and one value, or two unequal values; arrays count as values),
      removed when it leads to an element only in the old tree, and added when only in the new one. */
  lemma CompareByPaths(a: Node, b: Node, s: string)
    ensures s in Compare(a, b).modified <==> exists q :: ModifiedPath(a, b, q) && s == Dotted(q)
    ensures s in Compare(a, b).removed <==> exists q :: RemovedPath(a, b, q) && s == Dotted(q)
    ensures s in Compare(a, b).added <==> exists q :: RemovedPath(b, a, q) && s == Dotted(q)
  {
    if s in Compare(a, b).modified {
      ModifiedSound(a, b, "", s);
    }
    if q :| ModifiedPath(a, b, q) && s == Dotted(q) {
      ModifiedComplete(a, b, "", q);
      assert "" + Dotted(q) == s;
    }
    if s in Compare(a, b).removed {
      RemovedSound(a, b, "", s);
    }
    if q :| RemovedPath(a, b, q) && s == Dotted(q) {
      RemovedComplete(a, b, "", q);
      assert "" + Dotted(q) == s;
    }
    AddedMirrorsRemoved(a, b, "");
    if s in Compare(a, b).added {
      RemovedSound(b, a, "", s);
    }
    if q :| RemovedPath(b, a, q) && s == Dotted(q) {
      RemovedComplete(b, a, "", q);
      assert "" + Dotted(q) == s;
    }
  }

  /** Comparing a tree with itself reports nothing. */
  lemma CompareReflexive(a: Node)
    ensures Compare(a, a) == Changes({}, {}, {})
  {
    forall s | s in Compare(a, a).modified || s in Compare(a, a).added || s in Compare(a, a).removed
      ensures false
    {
      CompareByPaths(a, a, s);
    }
  }

  /** In trees whose keys are valid child names, no path is reported in two of the sets. */
  lemma CompareDisjoint(a: Node, b: Node)
    requires NodeKeysOk(a) && NodeKeysOk(b)
    ensures Compare(a, b).modified !! Compare(a, b).added
    ensures Compare(a, b).modified !! Compare(a, b).removed
    ensures Compare(a, b).added !! Compare(a, b).removed
  {
    forall s | s in Compare(a, b).modified || s in Compare(a, b).added || s in Compare(a, b).removed
      ensures !(s in Compare(a, b).modified && s in Compare(a, b).added)
      ensures !(s in Compare(a, b).modified && s in Compare(a, b).removed)
      ensures !(s in Compare(a, b).added && s in Compare(a, b).removed)
    {
      CompareByPaths(a, b, s);
      forall q1, q2 | |q1| > 0 && |q2| > 0 && Resolve(NodeE(a), q1).Found? && Resolve(NodeE(b), q2).Found?
                      && Dotted(q1) == s && Dotted(q2) == s
        ensures q1 == q2
      {
        FoundSegmentsOk(NodeE(a), q1);
        FoundSegmentsOk(NodeE(b), q2);
        DottedInjective(q1, q2);
      }
      forall q1, q2 | |q1| > 0 && |q2| > 0 && Resolve(NodeE(a), q1).Found? && Resolve(NodeE(a), q2).Found?
                      && Dotted(q1) == s && Dotted(q2) == s
        ensures q1 == q2
      {
        FoundSegmentsOk(NodeE(a), q1);
        FoundSegmentsOk(NodeE(a), q2);
        DottedInjective(q1, q2);
      }
      forall q1, q2 | |q1| > 0 && |q2| > 0 && Resolve(NodeE(b), q1).Found? && Resolve(NodeE(b), q2).Found?
                      && Dotted(q1) == s && Dotted(q2) == s
        ensures q1 == q2
      {
        FoundSegmentsOk(NodeE(b), q1);
        FoundSegmentsOk(NodeE(b), q2);
        DottedInjective(q1, q2);
      }
    }
  }
}
