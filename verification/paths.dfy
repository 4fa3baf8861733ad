/** Paths: dotted strings naming a position in the tree. The splitting and joining functions are
    not part of this model; they are carried as a pair of total functions. The diff builds its
    reported paths itself by gluing segments with the separator, which `Dotted` describes. */
module Paths {

  /** The reserved separator between segments (tree/node.go:19 documents it as a period). */
  const Separator: string := "."

  /** PathSplit and PathJoin. */
  datatype PathCodec = PathCodec(split: string -> seq<string>, join: seq<string> -> string)

  /** A valid child name: it contains no separator. */
  predicate SegmentOk(k: string)
  {
    forall i | 0 <= i < |k| :: k[i] != '.'
  }

  predicate SegmentsOk(q: seq<string>)
  {
    forall i | 0 <= i < |q| :: SegmentOk(q[i])
  }

  /** The segments of q glued with the separator, the way `compare` extends its prefix. */
  function Dotted(q: seq<string>): string
  {
    if |q| == 0 then ""
    else if |q| == 1 then q[0]
    else q[0] + Separator + Dotted(q[1..])
  }

  /** Neither segment path is a prefix of the other: they part ways at some position. */
  predicate Diverge(q: seq<string>, s: seq<string>)
  {
    !(q <= s) && !(s <= q)
  }

  lemma DottedCons(k: string, q: seq<string>)
    requires |q| > 0
    ensures Dotted([k] + q) == k + Separator + Dotted(q)
  {
  }

  /** Two separator-free segments that both start s, each followed in s by the end of s or by a
      separator, are the same segment. */
  lemma SegmentBoundary(a: string, b: string, s: string)
    requires SegmentOk(a) && SegmentOk(b)
    requires a <= s && b <= s
    requires |s| == |a| || s[|a|] == '.'
    requires |s| == |b| || s[|b|] == '.'
    ensures a == b
  {
  }

  /** Dotted paths of separator-free segments are unambiguous: the string determines the segments. */
  lemma {:induction false} DottedInjective(q1: seq<string>, q2: seq<string>)
    requires |q1| > 0 && |q2| > 0
    requires SegmentsOk(q1) && SegmentsOk(q2)
    requires Dotted(q1) == Dotted(q2)
    ensures q1 == q2
  {
    var a, b := q1[0], q2[0];
    var s := Dotted(q1);
    var r1 := if |q1| == 1 then "" else Separator + Dotted(q1[1..]);
    var r2 := if |q2| == 1 then "" else Separator + Dotted(q2[1..]);
    assert s == a + r1 && s == b + r2;
    SegmentBoundary(a, b, s);
    assert r1 == s[|a|..];
    assert r2 == s[|b|..];
    if |q1| > 1 && |q2| > 1 {
      assert SegmentsOk(q1[1..]) && SegmentsOk(q2[1..]);
      assert Dotted(q1[1..]) == r1[1..] == Dotted(q2[1..]);
      DottedInjective(q1[1..], q2[1..]);
      assert q1 == [a] + q1[1..];
      assert q2 == [b] + q2[1..];
    } else {
      assert |q1| == |q2| == 1;
    }
  }
}
