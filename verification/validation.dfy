/** Check: the recursive validation of a tree. As written it descends into Nodes and Node arrays,
    accepts bool, string and Number leaves, and reports every other kind, arrays of scalars
    included. `scalarArraysLegal` switches between that behaviour (false) and the corrected one
    (true) in which arrays of scalars, which Set accepts, pass as well. */
module Validation {
  import opened Errors
  import opened Paths
  import opened Tree
  import opened Mutation
  import opened Merging

  /** The decimal digits of i, as `fmt.Sprint` prints an array index. */
  function Decimal(i: nat): (r: string)
    ensures |r| > 0
    ensures forall j | 0 <= j < |r| :: '0' <= r[j] <= '9'
  {
    if i < 10 then ["0123456789"[i]] else Decimal(i / 10) + ["0123456789"[i % 10]]
  }

  /** Every element reachable through Nodes and Node arrays is of a kind the check accepts. */
  predicate Legal(scalarArraysLegal: bool, e: Element)
    decreases e
  {
    match e
    case NodeE(n) => LegalNode(scalarArraysLegal, n)
    case NodeArr(a) => forall i | 0 <= i < |a| :: LegalNode(scalarArraysLegal, a[i])
    case BoolE(_) => true
    case StrE(_) => true
    case NumE(_) => true
    case BoolArr(_) => scalarArraysLegal
    case StrArr(_) => scalarArraysLegal
    case NumArr(_) => scalarArraysLegal
    case Other(_, _) => false
  }

  predicate LegalNode(scalarArraysLegal: bool, n: Node)
    decreases n
  {
    forall k | k in n.children :: Legal(scalarArraysLegal, n.children[k])
  }

  /** The errors the check may return for e found at `path`: one per offending element, with
      that element's joined path and type name. Which one is returned depends on map order. */
  function Violations(codec: PathCodec, scalarArraysLegal: bool, e: Element, path: string): set<Error>
    decreases e
  {
    match e
    case NodeE(n) => NodeViolations(codec, scalarArraysLegal, n, path)
    case NodeArr(a) =>
      set i, err | 0 <= i < |a| && err in NodeViolations(codec, scalarArraysLegal, a[i], codec.join([path, Decimal(i)])) :: err
    case _ => if Legal(scalarArraysLegal, e) then {} else {UnexpectedType(path, TypeName(e), "")}
  }

  function NodeViolations(codec: PathCodec, scalarArraysLegal: bool, n: Node, path: string): set<Error>
    decreases n
  {
    set k, err | k in n.children && err in Violations(codec, scalarArraysLegal, n.children[k], codec.join([path, k])) :: err
  }

  method CheckElement(codec: PathCodec, scalarArraysLegal: bool, e: Element, path: string) returns (err: Option<Error>)
    decreases e
    ensures err.None? <==> Legal(scalarArraysLegal, e)
    ensures err.Some? ==> err.value in Violations(codec, scalarArraysLegal, e, path)
  {
    match e {
      case NodeE(n) =>
        err := CheckNode(codec, scalarArraysLegal, n, path);
      case NodeArr(a) =>
        var i := 0;
        while i < |a|
          invariant 0 <= i <= |a|
          invariant forall j | 0 <= j < i :: LegalNode(scalarArraysLegal, a[j])
        {
          var r := CheckNode(codec, scalarArraysLegal, a[i], codec.join([path, Decimal(i)]));
          if r.Some? {
            return r;
          }
          i := i + 1;
        }
        err := None;
      case BoolE(_) =>
        err := None;
      case StrE(_) =>
        err := None;
      case NumE(_) =>
        err := None;
      case _ =>
        if Legal(scalarArraysLegal, e) {
          err := None;
        } else {
          err := Some(UnexpectedType(path, TypeName(e), ""));
        }
    }
  }

  method CheckNode(codec: PathCodec, scalarArraysLegal: bool, n: Node, path: string) returns (err: Option<Error>)
    decreases n
    ensures err.None? <==> LegalNode(scalarArraysLegal, n)
    ensures err.Some? ==> err.value in NodeViolations(codec, scalarArraysLegal, n, path)
  {
    var keys := n.children.Keys;
    while keys != {}
      invariant keys <= n.children.Keys
      invariant forall k | k in n.children.Keys - keys :: Legal(scalarArraysLegal, n.children[k])
      decreases keys
    {
      var k :| k in keys;
      var r := CheckElement(codec, scalarArraysLegal, n.children[k], codec.join([path, k]));
      if r.Some? {
        return r;
      }
      keys := keys - {k};
    }
    err := None;
  }

  /** n.Check() as written: nil exactly when every reachable element is a Node, a Node array, a
      bool, a string or a Number; otherwise one of the violations. */
  method Check(codec: PathCodec, n: Node) returns (err: Option<Error>)
    ensures err.None? <==> LegalNode(false, n)
    ensures err.Some? ==> err.value in NodeViolations(codec, false, n, "")
    ensures err.Some? ==> err.value.UnexpectedType? && err.value.expected == ""
  {
    err := CheckNode(codec, false, n, "");
    if err.Some? {
      ViolationsAreTypeErrors(codec, false, NodeE(n), "", err.value);
    }
  }

  /** Check with arrays of bool, string and Number accepted too. */
  method CheckIntended(codec: PathCodec, n: Node) returns (err: Option<Error>)
    ensures err.None? <==> LegalNode(true, n)
    ensures err.Some? ==> err.value in NodeViolations(codec, true, n, "")
  {
    err := CheckNode(codec, true, n, "");
  }

  lemma {:induction false} ViolationsAreTypeErrors(codec: PathCodec, s: bool, e: Element, path: string, err: Error)
    requires err in Violations(codec, s, e, path)
    ensures err.UnexpectedType? && err.expected == ""
    decreases e
  {
    match e
    case NodeE(n) =>
      var k :| k in n.children && err in Violations(codec, s, n.children[k], codec.join([path, k]));
      ViolationsAreTypeErrors(codec, s, n.children[k], codec.join([path, k]), err);
    case NodeArr(a) =>
      var i :| 0 <= i < |a| && err in NodeViolations(codec, s, a[i], codec.join([path, Decimal(i)]));
      var p := codec.join([path, Decimal(i)]);
      var k :| k in a[i].children && err in Violations(codec, s, a[i].children[k], codec.join([p, k]));
      ViolationsAreTypeErrors(codec, s, a[i].children[k], codec.join([p, k]), err);
    case _ =>
  }

  /** Every element found by path in a legal tree is legal. */
  lemma {:induction false} LegalAlongPath(s: bool, e: Element, q: seq<string>)
    requires Legal(s, e) && Resolve(e, q).Found?
    ensures Legal(s, Resolve(e, q).element)
    decreases |q|
  {
    if q != [] {
      LegalAlongPath(s, e.node.children[q[0]], q[1..]);
    }
  }

  /** Set keeps a tree legal when the element it stores is legal: the Nodes it creates are empty
      and the values it overwrites are gone. */
  lemma {:induction false} SetAtKeepsLegal(s: bool, n: Node, prefix: seq<string>, last: string, e: Element)
    requires LegalNode(s, n) && Legal(s, e)
    ensures LegalNode(s, SetAt(n, prefix, last, e))
    decreases |prefix|
  {
    if prefix != [] {
      SetAtKeepsLegal(s, Child(n, prefix[0]), prefix[1..], last, e);
    }
  }

  /** As written, an array of bool (likewise of string or Number) is accepted by Set and then
      reported by Check. */
  lemma SetArrayFailsCheck(codec: PathCodec, n: Node, path: string, bs: seq<bool>)
    requires |codec.split(path)| > 0
    ensures Set(codec, n, path, Value(BoolArr(bs))).err == None
    ensures !LegalNode(false, Set(codec, n, path, Value(BoolArr(bs))).tree)
  {
    var m := Set(codec, n, path, Value(BoolArr(bs)));
    if LegalNode(false, m.tree) {
      LegalAlongPath(false, NodeE(m.tree), Target(codec, path));
    }
  }

  /** With the correction, whatever scalar or array of scalars Set accepts leaves a checked tree
      checked. */
  lemma SetKeepsCheckedIntended(codec: PathCodec, n: Node, path: string, v: Input)
    requires |codec.split(path)| > 0
    requires LegalNode(true, n)
    requires Accepts(v) && !Stored(v).NodeE? && !Stored(v).NodeArr?
    ensures Set(codec, n, path, v).err == None
    ensures LegalNode(true, Set(codec, n, path, v).tree)
  {
    var segs := codec.split(path);
    var prefix := if |segs| > 1 then codec.split(codec.join(segs[..|segs| - 1])) else [];
    SetAtKeepsLegal(true, n, prefix, segs[|segs| - 1], Stored(v));
  }

  /** Merging two legal trees gives a legal tree. */
  lemma {:induction false} MergeKeepsLegal(s: bool, n: Node, src: Node)
    requires LegalNode(s, n) && LegalNode(s, src)
    ensures LegalNode(s, Merge(n, src))
    decreases src
  {
    forall k | k in n.children && k in src.children && n.children[k].NodeE? && src.children[k].NodeE?
      ensures LegalNode(s, Merge(n.children[k].node, src.children[k].node))
    {
      MergeKeepsLegal(s, n.children[k].node, src.children[k].node);
    }
  }
}
