/** Reading the tree by path: GetOrError, Get, and the typed accessors with their fallback forms. */
module Access {
  import opened Errors
  import opened Numbers
  import opened Paths
  import opened Tree

  /** The element at `path`, or which of the two navigation errors stopped the walk. */
  function GetOrError(codec: PathCodec, n: Node, path: string): (r: Result<Element>)
    ensures r.Ok? <==> Resolve(NodeE(n), codec.split(path)).Found?
    ensures r.Ok? ==> r.value == Resolve(NodeE(n), codec.split(path)).element
    ensures r == Err(PathInsideValue(path)) <==> Resolve(NodeE(n), codec.split(path)) == InsideValue
    ensures r == Err(ElementNotFound(path)) <==> Resolve(NodeE(n), codec.split(path)) == NotFound
  {
    match Resolve(NodeE(n), codec.split(path))
    case Found(e) => Ok(e)
    case InsideValue => Err(PathInsideValue(path))
    case NotFound => Err(ElementNotFound(path))
  }

  /** The walk along segs reaches a non-Node after its first j segments. */
  predicate ValueAt(e: Element, segs: seq<string>, j: int)
  {
    0 <= j <= |segs| && Resolve(e, segs[..j]).Found? && !Resolve(e, segs[..j]).element.NodeE?
  }

  /** The walk along segs reaches a Node after its first j segments, and that Node lacks segs[j]. */
  predicate MissingAt(e: Element, segs: seq<string>, j: int)
  {
    0 <= j < |segs| && NodeAt(e, segs[..j]) && segs[j] !in Resolve(e, segs[..j]).element.node.children
  }

  lemma ValueBeforeEndIsInsideValue(e: Element, segs: seq<string>, j: int)
    requires ValueAt(e, segs, j) && j < |segs|
    ensures Resolve(e, segs) == InsideValue
  {
    ResolveConcat(e, segs[..j], segs[j..]);
    assert segs[..j] + segs[j..] == segs;
  }

  lemma MissingKeyIsNotFound(e: Element, segs: seq<string>, j: int)
    requires MissingAt(e, segs, j)
    ensures Resolve(e, segs) == NotFound
  {
    ResolveConcat(e, segs[..j], segs[j..]);
    assert segs[..j] + segs[j..] == segs;
  }

  lemma {:induction false} InsideValueHasWitness(e: Element, segs: seq<string>)
    requires Resolve(e, segs) == InsideValue
    ensures exists j :: 0 <= j < |segs| && ValueAt(e, segs, j)
    decreases |segs|
  {
    var q, k := segs[..|segs| - 1], segs[|segs| - 1];
    assert segs == q + [k];
    ResolveStep(e, q, k);
    if Resolve(e, q) == InsideValue {
      InsideValueHasWitness(e, q);
      var j :| 0 <= j < |q| && ValueAt(e, q, j);
      assert segs[..j] == q[..j];
      assert ValueAt(e, segs, j);
    } else {
      assert segs[..|q|] == q;
      assert ValueAt(e, segs, |q|);
    }
  }

  lemma {:induction false} NotFoundHasWitness(e: Element, segs: seq<string>)
    requires Resolve(e, segs) == NotFound
    ensures exists j :: MissingAt(e, segs, j)
    decreases |segs|
  {
    var q, k := segs[..|segs| - 1], segs[|segs| - 1];
    assert segs == q + [k];
    ResolveStep(e, q, k);
    if Resolve(e, q) == NotFound {
      NotFoundHasWitness(e, q);
      var j :| MissingAt(e, q, j);
      assert segs[..j] == q[..j];
      assert MissingAt(e, segs, j);
    } else {
      assert segs[..|q|] == q;
      assert MissingAt(e, segs, |q|);
    }
  }

  lemma FoundPassesNodes(e: Element, segs: seq<string>, j: int)
    requires Resolve(e, segs).Found? && 0 <= j < |segs|
    ensures NodeAt(e, segs[..j]) && segs[j] in Resolve(e, segs[..j]).element.node.children
  {
    ResolveConcat(e, segs[..j], segs[j..]);
    assert segs[..j] + segs[j..] == segs;
  }

  /** GetOrError's outcome in terms of where the walk stops: PathInsideValue exactly when a proper
      prefix of the path leads to a non-Node, ElementNotFound exactly when a proper prefix leads to a
      Node lacking the next segment, and otherwise the raw element, every proper prefix being a Node. */
  lemma GetOrErrorKinds(codec: PathCodec, n: Node, path: string)
    ensures var segs := codec.split(path);
      GetOrError(codec, n, path) == Err(PathInsideValue(path))
      <==> exists j :: 0 <= j < |segs| && ValueAt(NodeE(n), segs, j)
    ensures var segs := codec.split(path);
      GetOrError(codec, n, path) == Err(ElementNotFound(path))
      <==> exists j :: MissingAt(NodeE(n), segs, j)
    ensures var segs := codec.split(path);
      GetOrError(codec, n, path).Ok? ==>
        forall j | 0 <= j < |segs| :: NodeAt(NodeE(n), segs[..j]) && segs[j] in Resolve(NodeE(n), segs[..j]).element.node.children
  {
    var e, segs := NodeE(n), codec.split(path);
    match Resolve(e, segs)
    case InsideValue =>
      InsideValueHasWitness(e, segs);
      forall j | MissingAt(e, segs, j) ensures false {
        MissingKeyIsNotFound(e, segs, j);
      }
    case NotFound =>
      NotFoundHasWitness(e, segs);
      forall j | 0 <= j < |segs| && ValueAt(e, segs, j) ensures false {
        ValueBeforeEndIsInsideValue(e, segs, j);
      }
    case Found(_) =>
      forall j | 0 <= j < |segs| ensures NodeAt(e, segs[..j]) && segs[j] in Resolve(e, segs[..j]).element.node.children {
        FoundPassesNodes(e, segs, j);
      }
      forall j | MissingAt(e, segs, j) ensures false {
        MissingKeyIsNotFound(e, segs, j);
      }
  }

  /** Get: the element, or nil (None) on any error. */
  function Get(codec: PathCodec, n: Node, path: string): (r: Option<Element>)
    ensures r.None? <==> GetOrError(codec, n, path).Err?
    ensures r.Some? ==> GetOrError(codec, n, path) == Ok(r.value)
  {
    match GetOrError(codec, n, path)
    case Ok(e) => Some(e)
    case Err(_) => None
  }

  function GetBoolOrError(codec: PathCodec, n: Node, path: string): (r: Result<bool>)
    ensures GetOrError(codec, n, path).Err? ==> r == Err(GetOrError(codec, n, path).error)
    ensures GetOrError(codec, n, path).Ok? && GetOrError(codec, n, path).value.BoolE? ==>
      r == Ok(GetOrError(codec, n, path).value.b)
    ensures GetOrError(codec, n, path).Ok? && !GetOrError(codec, n, path).value.BoolE? ==>
      r == Err(UnexpectedType(path, TypeName(GetOrError(codec, n, path).value), "bool"))
  {
    match GetOrError(codec, n, path)
    case Err(err) => Err(err)
    case Ok(BoolE(v)) => Ok(v)
    case Ok(e) => Err(UnexpectedType(path, TypeName(e), "bool"))
  }

  function GetBool(codec: PathCodec, n: Node, path: string, fallback: bool): (r: bool)
    ensures GetBoolOrError(codec, n, path).Err? ==> r == fallback
    ensures GetBoolOrError(codec, n, path).Ok? ==> r == GetBoolOrError(codec, n, path).value
  {
    match GetBoolOrError(codec, n, path)
    case Err(_) => fallback
    case Ok(v) => v
  }

  function GetStringOrError(codec: PathCodec, n: Node, path: string): (r: Result<string>)
    ensures GetOrError(codec, n, path).Err? ==> r == Err(GetOrError(codec, n, path).error)
    ensures GetOrError(codec, n, path).Ok? && GetOrError(codec, n, path).value.StrE? ==>
      r == Ok(GetOrError(codec, n, path).value.s)
    ensures GetOrError(codec, n, path).Ok? && !GetOrError(codec, n, path).value.StrE? ==>
      r == Err(UnexpectedType(path, TypeName(GetOrError(codec, n, path).value), "string"))
  {
    match GetOrError(codec, n, path)
    case Err(err) => Err(err)
    case Ok(StrE(v)) => Ok(v)
    case Ok(e) => Err(UnexpectedType(path, TypeName(e), "string"))
  }

  function GetString(codec: PathCodec, n: Node, path: string, fallback: string): (r: string)
    ensures GetStringOrError(codec, n, path).Err? ==> r == fallback
    ensures GetStringOrError(codec, n, path).Ok? ==> r == GetStringOrError(codec, n, path).value
  {
    match GetStringOrError(codec, n, path)
    case Err(_) => fallback
    case Ok(v) => v
  }

  /** Once the element is a Number, the result is whatever Number's Int64 conversion returns. */
  function GetInt64OrError(codec: PathCodec, conv: Conversions, n: Node, path: string): (r: Result<Int64>)
    ensures GetOrError(codec, n, path).Err? ==> r == Err(GetOrError(codec, n, path).error)
    ensures GetOrError(codec, n, path).Ok? && GetOrError(codec, n, path).value.NumE? ==>
      r == conv.toInt64(GetOrError(codec, n, path).value.num)
    ensures GetOrError(codec, n, path).Ok? && !GetOrError(codec, n, path).value.NumE? ==>
      r == Err(UnexpectedType(path, TypeName(GetOrError(codec, n, path).value), "number"))
  {
    match GetOrError(codec, n, path)
    case Err(err) => Err(err)
    case Ok(NumE(v)) => conv.toInt64(v)
    case Ok(e) => Err(UnexpectedType(path, TypeName(e), "number"))
  }

  function GetInt64(codec: PathCodec, conv: Conversions, n: Node, path: string, fallback: Int64): (r: Int64)
    ensures GetInt64OrError(codec, conv, n, path).Err? ==> r == fallback
    ensures GetInt64OrError(codec, conv, n, path).Ok? ==> r == GetInt64OrError(codec, conv, n, path).value
  {
    match GetInt64OrError(codec, conv, n, path)
    case Err(_) => fallback
    case Ok(v) => v
  }

  /** Once the element is a Number, the result is whatever Number's Float64 conversion returns. */
  function GetFloat64OrError(codec: PathCodec, conv: Conversions, n: Node, path: string): (r: Result<Float64>)
    ensures GetOrError(codec, n, path).Err? ==> r == Err(GetOrError(codec, n, path).error)
    ensures GetOrError(codec, n, path).Ok? && GetOrError(codec, n, path).value.NumE? ==>
      r == conv.toFloat64(GetOrError(codec, n, path).value.num)
    ensures GetOrError(codec, n, path).Ok? && !GetOrError(codec, n, path).value.NumE? ==>
      r == Err(UnexpectedType(path, TypeName(GetOrError(codec, n, path).value), "number"))
  {
    match GetOrError(codec, n, path)
    case Err(err) => Err(err)
    case Ok(NumE(v)) => conv.toFloat64(v)
    case Ok(e) => Err(UnexpectedType(path, TypeName(e), "number"))
  }

  function GetFloat64(codec: PathCodec, conv: Conversions, n: Node, path: string, fallback: Float64): (r: Float64)
    ensures GetFloat64OrError(codec, conv, n, path).Err? ==> r == fallback
    ensures GetFloat64OrError(codec, conv, n, path).Ok? ==> r == GetFloat64OrError(codec, conv, n, path).value
  {
    match GetFloat64OrError(codec, conv, n, path)
    case Err(_) => fallback
    case Ok(v) => v
  }

  /** The fallback getters read straight from the tree: the scalar when the path leads to one of
      the requested kind (and, for numbers, the conversion succeeds), and the fallback otherwise. */
  lemma FallbackGettersByTree(codec: PathCodec, conv: Conversions, n: Node, path: string,
                              fb: bool, fs: string, fi: Int64, ff: Float64)
    ensures var l := Resolve(NodeE(n), codec.split(path));
      GetBool(codec, n, path, fb) == if l.Found? && l.element.BoolE? then l.element.b else fb
    ensures var l := Resolve(NodeE(n), codec.split(path));
      GetString(codec, n, path, fs) == if l.Found? && l.element.StrE? then l.element.s else fs
    ensures var l := Resolve(NodeE(n), codec.split(path));
      GetInt64(codec, conv, n, path, fi) ==
        if l.Found? && l.element.NumE? && conv.toInt64(l.element.num).Ok? then conv.toInt64(l.element.num).value else fi
    ensures var l := Resolve(NodeE(n), codec.split(path));
      GetFloat64(codec, conv, n, path, ff) ==
        if l.Found? && l.element.NumE? && conv.toFloat64(l.element.num).Ok? then conv.toFloat64(l.element.num).value else ff
  {
  }
}
