/**
 * The suffix link pass 2 sets is the longest one: whenever node i gets a
 * link, no node of the tree spells a longer proper suffix of i's path.
 * Pass 2 may leave a link nil although a proper suffix exists in the
 * tree: the walk along the parent's suffix links stops at the first node
 * whose own link is nil (the parent, a node further along the chain, or
 * the root) and never falls back to the root when it has found no child
 * for the rune. It never picks a shorter suffix than the longest one.
 */
module LinkFacts {
  import opened Text
  import opened Nodes
  import opened Builder
  import opened BuildFacts

  /** s is the node spelling the longest proper suffix of node i's path. */
  ghost predicate LongestSuffixNode(nodes: seq<Node>, s: nat, i: nat)
    requires Shape(nodes) && i < |nodes|
  {
    && ProperSuffixNode(nodes, s, i)
    && forall t :: 0 <= t < |nodes| && ProperSuffixNode(nodes, t, i) ==> |Path(nodes, t)| <= |Path(nodes, s)|
  }

  /** A node other than the root spells its parent's path and its own rune. */
  lemma NodeSplit(base: seq<Node>, t: nat)
    requires Shape(base) && 0 < t < |base|
    ensures ParentEdge(base, t) && Path(base, t) == Path(base, base[t].parent.value) + [base[t].rune]
  {
    assert ParentEdge(base, t);
  }

  /** The link SuffixLinkOf gives is the longest proper suffix present in the arena. */
  lemma {:induction false} LinkLongest(base: seq<Node>, i: nat)
    requires Shape(base) && i < |base| && SuffixLinkOf(base, i).Some?
    ensures LongestSuffixNode(base, SuffixLinkOf(base, i).value, i)
    decreases 2 * |Path(base, i)|
  {
    NodeSplit(base, i);
    var p := base[i].parent.value;
    var r := base[i].rune;
    var s := SuffixLinkOf(base, i).value;
    if p != 0 {
      var q := SuffixLinkOf(base, p).value;
      var c := SuffixWalk(base, Some(q), r).value;
      assert s == c;
      forall t | 0 <= t < |base| && ProperSuffixNode(base, t, i)
        ensures |Path(base, t)| <= |Path(base, s)|
      {
        if t != 0 {
          NodeSplit(base, t);
          var pt := base[t].parent.value;
          SuffixUnsnoc(Path(base, pt), base[t].rune, Path(base, p), r);
          assert ProperSuffixNode(base, pt, p);
          LinkLongest(base, p);
          SuffixOfLonger(Path(base, pt), Path(base, q), Path(base, p));
          assert IsSuffix(Path(base, t), Path(base, q) + [r]) by {
            SuffixSnoc(Path(base, pt), Path(base, q), r);
          }
          WalkLongest(base, q, r, t);
        }
      }
    }
  }

  /** The node the walk from q finds for r is at least as long as any node spelling a suffix of q's path and r. */
  lemma {:induction false} WalkLongest(base: seq<Node>, q: nat, r: Rune, t: nat)
    requires Shape(base) && q < |base| && SuffixWalk(base, Some(q), r).Some?
    requires t < |base| && IsSuffix(Path(base, t), Path(base, q) + [r])
    ensures |Path(base, t)| <= |Path(base, SuffixWalk(base, Some(q), r).value)|
    decreases 2 * |Path(base, q)| + 1
  {
    var c := SuffixWalk(base, Some(q), r).value;
    if t != 0 && r !in base[q].children {
      var next := SuffixLinkOf(base, q).value;
      NodeSplit(base, t);
      var pt := base[t].parent.value;
      SuffixUnsnoc(Path(base, pt), base[t].rune, Path(base, q), r);
      if pt != q {
        if |Path(base, pt)| == |Path(base, q)| {
          assert Path(base, pt) == Path(base, q);
          PathInjective(base, pt, q);
        }
        assert ProperSuffixNode(base, pt, q);
        LinkLongest(base, q);
        SuffixOfLonger(Path(base, pt), Path(base, next), Path(base, q));
        assert IsSuffix(Path(base, t), Path(base, next) + [r]) by {
          SuffixSnoc(Path(base, pt), Path(base, next), r);
        }
        WalkLongest(base, next, r, t);
      }
    }
  }

  /**
   * Every suffix link set in the tree New builds leads to the node
   * spelling the longest proper suffix of the node's path that the tree
   * holds.
   */
  lemma BuiltLinksLongest(dictionary: seq<seq<Rune>>, c: nat)
    requires |dictionary| > 0 && c < |Built(dictionary).nodes|
    ensures var nodes := Built(dictionary).nodes;
      Shape(nodes) && (nodes[c].suffixLink.Some? ==> LongestSuffixNode(nodes, nodes[c].suffixLink.value, c))
  {
    BuiltFacts(dictionary);
    var base := Pass1(dictionary);
    SuffixLinkedSound(base);
    var linked := SuffixLinked(base);
    var nodes := DictLinked(linked);
    assert Built(dictionary).nodes == nodes;
    SkeletonShape(base, linked);
    SkeletonShape(linked, nodes);
    assert nodes[c].suffixLink == SuffixLinkOf(base, c);
    if nodes[c].suffixLink.Some? {
      LinkLongest(base, c);
    }
  }
}
