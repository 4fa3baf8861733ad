/** The configuration tree: a Node maps child names to elements, and an element is a Node, a
    scalar (bool, string, Number) or an array of one of these. `Other` stands for any Go value of
    another dynamic type, which the tree may end up holding when it is built outside `Set`. Its
    type name is meant to be none of the names `TypeName` gives the other kinds and none of the Go
    bool, string, integer or float types: those values are modelled by their own constructors, or,
    when handed to `Set`, by `Numeric`. */
module Tree {
  import opened Numbers
  import opened Paths

  /** The payload of a Go value of a type foreign to package tree, compared by equality alone. */
  type Foreign(==)

  datatype Node = Node(children: map<string, Element>)

  datatype Element =
    | NodeE(node: Node)
    | BoolE(b: bool)
    | StrE(s: string)
    | NumE(num: Number)
    | NodeArr(nodes: seq<Node>)
    | BoolArr(bools: seq<bool>)
    | StrArr(strs: seq<string>)
    | NumArr(nums: seq<Number>)
    | Other(typeName: string, value: Foreign)

  const EmptyNode: Node := Node(map[])

  /** The dynamic type name Go's `%T` prints for an element of package tree. */
  function TypeName(e: Element): string
  {
    match e
    case NodeE(_) => "tree.Node"
    case BoolE(_) => "bool"
    case StrE(_) => "string"
    case NumE(_) => "tree.Number"
    case NodeArr(_) => "[]tree.Node"
    case BoolArr(_) => "[]bool"
    case StrArr(_) => "[]string"
    case NumArr(_) => "[]tree.Number"
    case Other(t, _) => t
  }

  /** The child Node named k, or a fresh empty Node when k is absent or holds a non-Node. */
  function Child(n: Node, k: string): Node
  {
    if k in n.children && n.children[k].NodeE? then n.children[k].node else EmptyNode
  }

  /** The outcome of walking a segment path. */
  datatype Lookup = Found(element: Element) | InsideValue | NotFound

  /** Descends from e along segs: every segment must be looked up inside a Node. */
  function Resolve(e: Element, segs: seq<string>): Lookup
    decreases |segs|
  {
    if segs == [] then Found(e)
    else if !e.NodeE? then InsideValue
    else if segs[0] !in e.node.children then NotFound
    else Resolve(e.node.children[segs[0]], segs[1..])
  }

  /** One iteration of GetOrError's loop, applied to the element reached so far. */
  function Step(l: Lookup, k: string): Lookup
  {
    match l
    case Found(NodeE(n)) => if k in n.children then Found(n.children[k]) else NotFound
    case Found(_) => InsideValue
    case _ => l
  }

  /** The element at path q is a Node. */
  predicate NodeAt(e: Element, q: seq<string>)
  {
    Resolve(e, q).Found? && Resolve(e, q).element.NodeE?
  }

  /** The walk along p + q is the walk along q from wherever p leads; a failure on p persists. */
  lemma {:induction false} ResolveConcat(e: Element, p: seq<string>, q: seq<string>)
    ensures Resolve(e, p + q) == if Resolve(e, p).Found? then Resolve(Resolve(e, p).element, q) else Resolve(e, p)
    decreases |p|
  {
    if p == [] {
      assert p + q == q;
    } else {
      assert (p + q)[0] == p[0];
      assert (p + q)[1..] == p[1..] + q;
      if e.NodeE? && p[0] in e.node.children {
        ResolveConcat(e.node.children[p[0]], p[1..], q);
      }
    }
  }

  /** The recursive descent agrees with GetOrError's loop, which extends the walked prefix by one
      segment per iteration. */
  lemma ResolveStep(e: Element, q: seq<string>, k: string)
    ensures Resolve(e, q + [k]) == Step(Resolve(e, q), k)
  {
    ResolveConcat(e, q, [k]);
  }

  /** Every key of every Node in e, also inside Node arrays, is a valid child name. */
  predicate KeysOk(e: Element)
    decreases e
  {
    match e
    case NodeE(n) => NodeKeysOk(n)
    case NodeArr(a) => forall i | 0 <= i < |a| :: NodeKeysOk(a[i])
    case _ => true
  }

  predicate NodeKeysOk(n: Node)
    decreases n
  {
    forall k | k in n.children :: SegmentOk(k) && KeysOk(n.children[k])
  }

  /** A path found in a tree whose keys are valid names consists of valid names. */
  lemma {:induction false} FoundSegmentsOk(e: Element, q: seq<string>)
    requires KeysOk(e)
    requires Resolve(e, q).Found?
    ensures SegmentsOk(q)
    decreases |q|
  {
    if q != [] {
      FoundSegmentsOk(e.node.children[q[0]], q[1..]);
      assert q == [q[0]] + q[1..];
    }
  }
}
