/** Writing the tree: CreatePath and Set. Go mutates the maps in place; here each operation returns
    the updated root instead. */
module Mutation {
  import opened Errors
  import opened Numbers
  import opened Paths
  import opened Tree

  /** Walks segs from n, keeping every Node met, creating a Node where a key is absent and
      overwriting a non-Node with a fresh Node; returns the updated n. */
  function CreatePathAt(n: Node, segs: seq<string>): (r: Node)
    decreases |segs|
    ensures segs == [] ==> r == n
    ensures segs != [] ==> r.children.Keys == n.children.Keys + {segs[0]}
    ensures segs != [] ==> forall k | k in n.children && k != segs[0] :: r.children[k] == n.children[k]
    ensures NodeAt(NodeE(r), segs)
  {
    if segs == [] then n
    else Node(n.children[segs[0] := NodeE(CreatePathAt(Child(n, segs[0]), segs[1..]))])
  }

  /** The updated root, and the Node the path now points to (the Node CreatePath returns). */
  datatype Created = Created(root: Node, node: Node)

  function CreatePath(codec: PathCodec, n: Node, path: string): (r: Created)
    ensures Resolve(NodeE(r.root), codec.split(path)) == Found(NodeE(r.node))
  {
    var root := CreatePathAt(n, codec.split(path));
    Created(root, Resolve(NodeE(root), codec.split(path)).element.node)
  }

  /** Afterwards every prefix of the path, the empty one and the whole one included, is a Node. */
  lemma {:induction false} CreatePathPrefixNodes(n: Node, segs: seq<string>, j: int)
    requires 0 <= j <= |segs|
    ensures NodeAt(NodeE(CreatePathAt(n, segs)), segs[..j])
    decreases |segs|
  {
    if j > 0 {
      CreatePathPrefixNodes(Child(n, segs[0]), segs[1..], j - 1);
      assert segs[..j][0] == segs[0];
      assert segs[..j][1..] == segs[1..][..j - 1];
    }
  }

  /** Elements off the path keep their values. */
  lemma {:induction false} CreatePathOffPath(n: Node, segs: seq<string>, q: seq<string>)
    requires Diverge(q, segs)
    requires Resolve(NodeE(n), q).Found?
    ensures Resolve(NodeE(CreatePathAt(n, segs)), q) == Resolve(NodeE(n), q)
    decreases |segs|
  {
    assert q != [] && segs != [];
    if q[0] == segs[0] {
      assert Diverge(q[1..], segs[1..]) by {
        assert q == [q[0]] + q[1..] && segs == [segs[0]] + segs[1..];
      }
      CreatePathOffPath(Child(n, segs[0]), segs[1..], q[1..]);
    }
  }

  /** Nothing appears off the path: whatever the updated tree holds there, the original held. */
  lemma {:induction false} CreatePathAddsNothing(n: Node, segs: seq<string>, q: seq<string>)
    requires Diverge(q, segs)
    requires Resolve(NodeE(CreatePathAt(n, segs)), q).Found?
    ensures Resolve(NodeE(n), q) == Resolve(NodeE(CreatePathAt(n, segs)), q)
    decreases |segs|
  {
    assert q != [] && segs != [];
    if q[0] == segs[0] {
      assert Diverge(q[1..], segs[1..]) by {
        assert q == [q[0]] + q[1..] && segs == [segs[0]] + segs[1..];
      }
      CreatePathAddsNothing(Child(n, segs[0]), segs[1..], q[1..]);
      if !(segs[0] in n.children && n.children[segs[0]].NodeE?) {
        assert false;
      }
    }
  }

  /** A path that already consists of Nodes is left exactly as it is, children and all. */
  lemma {:induction false} CreatePathExisting(n: Node, segs: seq<string>)
    requires NodeAt(NodeE(n), segs)
    ensures CreatePathAt(n, segs) == n
    decreases |segs|
  {
    if segs != [] {
      var k, c := segs[0], n.children[segs[0]];
      assert Resolve(NodeE(n), segs) == Resolve(c, segs[1..]);
      assert c.NodeE?;
      assert NodeE(Child(n, k)) == c;
      CreatePathExisting(Child(n, segs[0]), segs[1..]);
      assert n.children[segs[0] := NodeE(Child(n, segs[0]))] == n.children;
    }
  }

  /** Where the original tree had no Node on the path (a value, or nothing), the new Node holds
      nothing but the continuation of the path. */
  lemma {:induction false} CreatePathReplacesValue(n: Node, segs: seq<string>, j: int)
    requires 0 <= j <= |segs|
    requires !NodeAt(NodeE(n), segs[..j])
    ensures NodeAt(NodeE(CreatePathAt(n, segs)), segs[..j])
    ensures Resolve(NodeE(CreatePathAt(n, segs)), segs[..j]).element.node.children.Keys
            == if j < |segs| then {segs[j]} else {}
    decreases |segs|
  {
    CreatePathPrefixNodes(n, segs, j);
    assert j > 0;
    var c, rest := Child(n, segs[0]), segs[1..];
    assert segs[..j][0] == segs[0];
    assert segs[..j][1..] == rest[..j - 1];
    if j == 1 {
      assert segs[..1] == [segs[0]];
      assert Resolve(NodeE(n), [segs[0]]) == if segs[0] in n.children then Found(n.children[segs[0]]) else NotFound;
      assert c == EmptyNode;
    } else {
      assert !NodeAt(NodeE(c), rest[..j - 1]);
      CreatePathReplacesValue(c, rest, j - 1);
    }
  }

  /** Creating the same path twice is the same as creating it once. */
  lemma CreatePathIdempotent(n: Node, segs: seq<string>)
    ensures CreatePathAt(CreatePathAt(n, segs), segs) == CreatePathAt(n, segs)
  {
    CreatePathExisting(CreatePathAt(n, segs), segs);
  }

  /** The value handed to Set, as Go's type switch sees it. `Numeric` is a Go integer or float of
      any width, already converted by NumberCreate; `Value` is any other Go value, so a
      `Value(Other(..))` names a type the switch does not list. */
  datatype Input = Value(element: Element) | Numeric(created: Number)

  /** The tree after a mutation, and the error it returned (None for nil). */
  datatype Outcome = Outcome(tree: Node, err: Option<Error>)

  /** The kinds Set's type switch lets through. A Number value is not among them. */
  predicate Accepts(v: Input)
  {
    match v
    case Numeric(_) => true
    case Value(e) => e.NodeE? || e.BoolE? || e.StrE? || e.NodeArr? || e.BoolArr? || e.StrArr? || e.NumArr?
  }

  /** The element Set stores for an accepted input. */
  function Stored(v: Input): Element
  {
    match v
    case Numeric(x) => NumE(x)
    case Value(e) => e
  }

  /** Creates the path `prefix` as CreatePath does and assigns e under `last` in the Node it ends at. */
  function SetAt(n: Node, prefix: seq<string>, last: string, e: Element): (r: Node)
    decreases |prefix|
    ensures Resolve(NodeE(r), prefix + [last]) == Found(e)
  {
    if prefix == [] then Node(n.children[last := e])
    else
      var r := Node(n.children[prefix[0] := NodeE(SetAt(Child(n, prefix[0]), prefix[1..], last, e))]);
      assert (prefix + [last])[1..] == prefix[1..] + [last];
      r
  }

  /** The segments under which Set stores its element: the Node created for the re-joined prefix,
      then the last segment. */
  function Target(codec: PathCodec, path: string): seq<string>
    requires |codec.split(path)| > 0
  {
    var segs := codec.split(path);
    (if |segs| > 1 then codec.split(codec.join(segs[..|segs| - 1])) else []) + [segs[|segs| - 1]]
  }

  /** Set checks the input's kind before it splits the path or touches the tree, then creates the intermediate
      Nodes and overwrites whatever was stored under the last segment. */
  function Set(codec: PathCodec, n: Node, path: string, v: Input): (r: Outcome)
    requires Accepts(v) ==> |codec.split(path)| > 0
    ensures !Accepts(v) ==> r == Outcome(n, Some(UnexpectedType("", TypeName(v.element), "")))
    ensures Accepts(v) ==> r.err == None && Resolve(NodeE(r.tree), Target(codec, path)) == Found(Stored(v))
  {
    if !Accepts(v) then Outcome(n, Some(UnexpectedType("", TypeName(v.element), "")))
    else
      var segs := codec.split(path);
      var prefix := if |segs| > 1 then codec.split(codec.join(segs[..|segs| - 1])) else [];
      Outcome(SetAt(n, prefix, segs[|segs| - 1], Stored(v)), None)
  }

  /** SetAt is CreatePath followed by one assignment in the Node CreatePath returns. */
  lemma {:induction false} SetAtIsCreatePathThenAssign(n: Node, prefix: seq<string>, last: string, e: Element)
    ensures var m := Resolve(NodeE(CreatePathAt(n, prefix)), prefix).element.node;
      Resolve(NodeE(SetAt(n, prefix, last, e)), prefix) == Found(NodeE(Node(m.children[last := e])))
    decreases |prefix|
  {
    if prefix != [] {
      SetAtIsCreatePathThenAssign(Child(n, prefix[0]), prefix[1..], last, e);
    }
  }

  /** Elements off the written path keep their values. */
  lemma {:induction false} SetAtOffPath(n: Node, prefix: seq<string>, last: string, e: Element, q: seq<string>)
    requires Diverge(q, prefix + [last])
    requires Resolve(NodeE(n), q).Found?
    ensures Resolve(NodeE(SetAt(n, prefix, last, e)), q) == Resolve(NodeE(n), q)
    decreases |prefix|
  {
    var s := prefix + [last];
    assert q != [] && s[0] == if prefix == [] then last else prefix[0];
    if q[0] == s[0] && prefix != [] {
      assert Diverge(q[1..], prefix[1..] + [last]) by {
        assert s[1..] == prefix[1..] + [last];
        assert q == [q[0]] + q[1..] && s == [s[0]] + s[1..];
      }
      SetAtOffPath(Child(n, prefix[0]), prefix[1..], last, e, q[1..]);
    }
  }

  /** Nothing appears off the written path: whatever the updated tree holds there, the original
      held. */
  lemma {:induction false} SetAtAddsNothing(n: Node, prefix: seq<string>, last: string, e: Element, q: seq<string>)
    requires Diverge(q, prefix + [last])
    requires Resolve(NodeE(SetAt(n, prefix, last, e)), q).Found?
    ensures Resolve(NodeE(n), q) == Resolve(NodeE(SetAt(n, prefix, last, e)), q)
    decreases |prefix|
  {
    var s := prefix + [last];
    assert q != [] && s[0] == if prefix == [] then last else prefix[0];
    if q[0] == s[0] {
      if prefix == [] {
        assert false;
      }
      assert Diverge(q[1..], prefix[1..] + [last]) by {
        assert s[1..] == prefix[1..] + [last];
        assert q == [q[0]] + q[1..] && s == [s[0]] + s[1..];
      }
      SetAtAddsNothing(Child(n, prefix[0]), prefix[1..], last, e, q[1..]);
      if !(prefix[0] in n.children && n.children[prefix[0]].NodeE?) {
        assert false;
      }
    }
  }

  /** The path codec restores the prefix Set re-joins (true of well-formed segments). */
  predicate PrefixRoundTrips(codec: PathCodec, path: string)
  {
    var segs := codec.split(path);
    |segs| > 1 ==> codec.split(codec.join(segs[..|segs| - 1])) == segs[..|segs| - 1]
  }

  /** Round trip: after a successful Set, GetOrError at the same path returns the stored element. */
  lemma SetThenGet(codec: PathCodec, n: Node, path: string, v: Input)
    requires |codec.split(path)| > 0 && PrefixRoundTrips(codec, path)
    requires Accepts(v)
    ensures Set(codec, n, path, v).err == None
    ensures Resolve(NodeE(Set(codec, n, path, v).tree), codec.split(path)) == Found(Stored(v))
  {
    var segs := codec.split(path);
    assert Target(codec, path) == segs by {
      if |segs| == 1 {
        assert segs == [] + [segs[0]];
      } else {
        assert segs == segs[..|segs| - 1] + [segs[|segs| - 1]];
      }
    }
  }

  /** Off the written path nothing changes: every element found there before, in particular every
      other key of the Node that receives the element, keeps its value, and nothing new is found
      there afterwards. */
  lemma SetKeepsOthers(codec: PathCodec, n: Node, path: string, v: Input, q: seq<string>)
    requires |codec.split(path)| > 0
    requires Accepts(v)
    requires Diverge(q, Target(codec, path))
    ensures Resolve(NodeE(n), q).Found? || Resolve(NodeE(Set(codec, n, path, v).tree), q).Found? ==>
              Resolve(NodeE(Set(codec, n, path, v).tree), q) == Resolve(NodeE(n), q)
  {
    var segs := codec.split(path);
    var prefix := if |segs| > 1 then codec.split(codec.join(segs[..|segs| - 1])) else [];
    if Resolve(NodeE(n), q).Found? {
      SetAtOffPath(n, prefix, segs[|segs| - 1], Stored(v), q);
    } else if Resolve(NodeE(Set(codec, n, path, v).tree), q).Found? {
      SetAtAddsNothing(n, prefix, segs[|segs| - 1], Stored(v), q);
    }
  }

  /** The kinds the corrected type switch lets through: Set's, and a Number value. */
  predicate AcceptsIntended(v: Input)
  {
    Accepts(v) || (v.Value? && v.element.NumE?)
  }

  /** Set with `Number` added to the first case of its type switch, so that a Number read from a
      tree can be written back. */
  function SetIntended(codec: PathCodec, n: Node, path: string, v: Input): (r: Outcome)
    requires AcceptsIntended(v) ==> |codec.split(path)| > 0
    ensures v.Value? && v.element.NumE? ==> r.err == None && Resolve(NodeE(r.tree), Target(codec, path)) == Found(v.element)
    ensures !(v.Value? && v.element.NumE?) ==> r == Set(codec, n, path, v)
  {
    if v.Value? && v.element.NumE? then Set(codec, n, path, Numeric(v.element.num)) else Set(codec, n, path, v)
  }

  /** As written, a Number read from the tree cannot be passed back to Set. */
  lemma SetRejectsReadNumber(codec: PathCodec, n: Node, from: string, m: Node, to: string)
    requires Resolve(NodeE(n), codec.split(from)).Found? && Resolve(NodeE(n), codec.split(from)).element.NumE?
    ensures Set(codec, m, to, Value(Resolve(NodeE(n), codec.split(from)).element))
            == Outcome(m, Some(UnexpectedType("", "tree.Number", "")))
  {
  }

  /** With the correction, every element read from a tree whose kinds are all legal can be written
      back, and reads back unchanged. */
  lemma ReadValueWritesBack(codec: PathCodec, n: Node, from: string, m: Node, to: string)
    requires Resolve(NodeE(n), codec.split(from)).Found? && !Resolve(NodeE(n), codec.split(from)).element.Other?
    requires |codec.split(to)| > 0 && PrefixRoundTrips(codec, to)
    ensures var e := Resolve(NodeE(n), codec.split(from)).element;
      && SetIntended(codec, m, to, Value(e)).err == None
      && Resolve(NodeE(SetIntended(codec, m, to, Value(e)).tree), codec.split(to)) == Found(e)
  {
    var e := Resolve(NodeE(n), codec.split(from)).element;
    if e.NumE? {
      SetThenGet(codec, m, to, Numeric(e.num));
    } else {
      SetThenGet(codec, m, to, Value(e));
    }
  }
}
