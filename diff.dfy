/**
 * `diff`: decides whether the node at one position must be replaced
 * wholesale (true) or can be patched in place (false). It compares the node
 * kind, the text, the tag, the number of prop keys and the values of the new
 * props; it never looks at children.
 */
module Differ {
  import opened VDom

  predicate Diff(o: Node, n: Node)
  {
    match (o, n)
    case (Text(a), Text(b)) => a != b
    case (Elem(t1, p1, _), Elem(t2, p2, _)) =>
      t1 != t2 || |p1| != |p2| || exists k | k in p2 :: Lookup(p1, k) != p2[k]
    case _ => true
  }

  /** Nothing is replaced when a node is compared with itself. */
  lemma DiffReflexive(v: Node)
    ensures !Diff(v, v)
  {
  }

  /** A text and an element are always replaced, in either order. */
  lemma DiffKinds(s: string, tag: string, props: Props, children: seq<Node>)
    ensures Diff(Text(s), Elem(tag, props, children))
    ensures Diff(Elem(tag, props, children), Text(s))
  {
  }

  /** Two texts are replaced exactly when the strings differ. */
  lemma DiffTexts(a: string, b: string)
    ensures Diff(Text(a), Text(b)) <==> a != b
  {
  }

  /** The verdict for two elements does not depend on their children. */
  lemma DiffIgnoresChildren(t1: string, p1: Props, c1: seq<Node>, c1': seq<Node>,
                            t2: string, p2: Props, c2: seq<Node>, c2': seq<Node>)
    ensures Diff(Elem(t1, p1, c1), Elem(t2, p2, c2)) == Diff(Elem(t1, p1, c1'), Elem(t2, p2, c2'))
    ensures !Diff(CreateElement(t1, p1, c1), CreateElement(t1, p1, c1'))
  {
  }

  lemma {:induction false} SubsetSameSize<T>(a: set<T>, b: set<T>)
    requires a <= b && |a| == |b|
    ensures a == b
  {
    var d := b - a;
    assert b == a + d;
    assert a * d == {};
    assert |d| == 0;
  }

  /**
   * When no new prop is `undefined`, two elements are patched in place
   * exactly when they have the same tag and the same props.
   */
  lemma {:induction false} CompatibleIffSameProps(t1: string, p1: Props, c1: seq<Node>,
                                                  t2: string, p2: Props, c2: seq<Node>)
    requires forall k | k in p2 :: p2[k] != Undefined
    ensures !Diff(Elem(t1, p1, c1), Elem(t2, p2, c2)) <==> t1 == t2 && p1 == p2
  {
    if !Diff(Elem(t1, p1, c1), Elem(t2, p2, c2)) {
      assert forall k | k in p2 :: k in p1 && p1[k] == p2[k] by {
        forall k | k in p2 ensures k in p1 && p1[k] == p2[k] {
          assert Lookup(p1, k) == p2[k];
        }
      }
      SubsetSameSize(p2.Keys, p1.Keys);
    }
  }

  /**
   * Without that proviso the equivalence fails: a new key holding `undefined`
   * reads the same as a missing old key, so `{id: "a"}` and
   * `{title: undefined}` count as compatible, while the reverse comparison
   * does not.
   */
  lemma DiffUndefinedProp()
    ensures !Diff(Elem("div", map["id" := Str("a")], []), Elem("div", map["title" := Undefined], []))
    ensures Diff(Elem("div", map["title" := Undefined], []), Elem("div", map["id" := Str("a")], []))
  {
    assert Lookup(map["title" := Undefined], "id") != Str("a");
  }
}
