/** Worked examples: building a tree with Set and reading it back, diffing and merging a Node
    against a value, a typed read of the wrong kind, and a diff of two foreign values. */
module Scenarios {
  import opened Errors
  import opened Numbers
  import opened Paths
  import opened Tree
  import opened Access
  import opened Mutation
  import opened Diff
  import opened Merging

  /** Setting "a.b.c" in an empty tree creates Nodes at "a" and "a.b"; reading "a.b.c.d" then
      walks into the stored number. */
  lemma SetIntoEmptyTree(codec: PathCodec, five: Number)
    requires codec.split("a.b.c") == ["a", "b", "c"]
    requires codec.split(codec.join(["a", "b"])) == ["a", "b"]
    requires codec.split("a.b") == ["a", "b"]
    requires codec.split("a.b.c.d") == ["a", "b", "c", "d"]
    ensures var r := Set(codec, EmptyNode, "a.b.c", Numeric(five));
      && r.err == None
      && Get(codec, r.tree, "a.b.c") == Some(NumE(five))
      && Get(codec, r.tree, "a.b") == Some(NodeE(Node(map["c" := NumE(five)])))
      && GetOrError(codec, r.tree, "a.b.c.d") == Err(PathInsideValue("a.b.c.d"))
  {
    assert ["a", "b", "c"][..2] == ["a", "b"];
    var r := Set(codec, EmptyNode, "a.b.c", Numeric(five));
    var b := Node(map["c" := NumE(five)]);
    assert r.tree == Node(map["a" := NodeE(Node(map["b" := NodeE(b)]))]);
    var q := ["a", "b", "c", "d"];
    assert q[1..] == ["b", "c", "d"] && q[1..][1..] == ["c", "d"] && q[1..][1..][1..] == ["d"];
    assert Resolve(NodeE(r.tree), q) == InsideValue;
  }

  /** A Node replaced by a value: the key is modified, what was below it is removed, and the
      merge takes the value. */
  lemma NodeReplacedByValue(one: Number, two: Number)
    ensures var a := Node(map["x" := NodeE(Node(map["y" := NumE(one)]))]);
            var b := Node(map["x" := NumE(two)]);
      && Compare(a, b) == Changes({"x"}, {}, {"x.y"})
      && Merge(a, b) == b
  {
    var inner := Node(map["y" := NumE(one)]);
    var a := Node(map["x" := NodeE(inner)]);
    var b := Node(map["x" := NumE(two)]);
    assert "" + "x" == "x";
    assert "" + "x" + Separator == "x.";
    assert "x." + "y" == "x.y";
    assert ModifiedUnder(a, b, "", "x") == {"x"};
    assert Modified(a, b, "") == {"x"};
    assert AddedUnder(a, b, "", "x") == {};
    assert Added(a, b, "") == {};
    assert RemovedUnder(inner, EmptyNode, "x.", "y") == {"x.y"};
    assert Removed(inner, EmptyNode, "x.") == {"x.y"};
    assert RemovedUnder(a, b, "", "x") == {"x.y"};
    assert Removed(a, b, "") == {"x.y"};
  }

  /** Reading a string as a number reports the path, the actual kind and the expected one. */
  lemma StringReadAsNumber(codec: PathCodec, conv: Conversions, path: string, text: string)
    requires codec.split(path) == ["s"]
    ensures GetInt64OrError(codec, conv, Node(map["s" := StrE(text)]), path)
            == Err(UnexpectedType(path, "string", "number"))
  {
    assert ["s"][1..] == [];
  }

  /** Two foreign values of the same Go type that differ are reported as modified: the type name
      alone does not make them equal. */
  lemma ForeignValuesCompared(one: Foreign, two: Foreign)
    requires one != two
    ensures Compare(Node(map["x" := Other("int", one)]), Node(map["x" := Other("int", two)]))
            == Changes({"x"}, {}, {})
  {
    var a := Node(map["x" := Other("int", one)]);
    var b := Node(map["x" := Other("int", two)]);
    assert "" + "x" == "x";
    assert ModifiedUnder(a, b, "", "x") == {"x"};
    assert Modified(a, b, "") == {"x"};
    assert AddedUnder(a, b, "", "x") == {};
    assert Added(a, b, "") == {};
    assert RemovedUnder(a, b, "", "x") == {};
    assert Removed(a, b, "") == {};
  }
}
