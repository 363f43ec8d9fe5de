/**
 * `New` (ahocorasick.go:7-108): builds the search tree in three passes.
 *
 *  1. Trie assembly: every word is walked rune by rune from the root,
 *     creating missing children; the node reached at the word's last rune
 *     gets an entry; every node passed is recorded in the level given by
 *     the byte offset of its rune within the word.
 *  2. Suffix links, level by level, so that a node's parent and every node
 *     on the parent's suffix chain are already done.
 *  3. Dictionary suffix links: the first node with an entry on the suffix
 *     chain after the node.
 *
 * Each pass is a method over the arena, proved equal to a function of the
 * previous pass's arena (Pass1, SuffixLinked, DictLinked). The order in
 * which a level's nodes are visited is an arbitrary choice, so the
 * function equations show that the tree does not depend on it.
 */
module Builder {
  import opened Text
  import opened Nodes

  /** `new(node)`: the root has rune 0, no parent, no children, no links. */
  const RootNode: Node := Fresh(0, None)

  /* ---------------------------------------------------------------- */
  /* Arena frames                                                      */
  /* ---------------------------------------------------------------- */

  /** b keeps every node of a with its rune, parent and child edges, and may add nodes and edges. */
  ghost predicate Extends(a: seq<Node>, b: seq<Node>) {
    && |a| <= |b|
    && forall i :: 0 <= i < |a| ==>
         && b[i].rune == a[i].rune
         && b[i].parent == a[i].parent
         && a[i].children.Keys <= b[i].children.Keys
         && forall r :: r in a[i].children ==> b[i].children[r] == a[i].children[r]
  }

  /** a and b differ at most in entries and links. */
  ghost predicate SameSkeleton(a: seq<Node>, b: seq<Node>) {
    && |a| == |b|
    && forall i :: 0 <= i < |a| ==>
         b[i].rune == a[i].rune && b[i].parent == a[i].parent && b[i].children == a[i].children
  }

  /** No suffix or dictionary suffix link is set yet. */
  ghost predicate Unlinked(nodes: seq<Node>) {
    forall i :: 0 <= i < |nodes| ==> nodes[i].suffixLink.None? && nodes[i].dictSuffixLink.None?
  }

  lemma {:induction false} PathFrame(a: seq<Node>, b: seq<Node>, i: nat)
    requires Shape(a) && Shape(b) && Extends(a, b) && i < |a|
    ensures Path(b, i) == Path(a, i)
    decreases i
  {
    if i != 0 {
      assert ParentEdge(a, i);
      PathFrame(a, b, a[i].parent.value);
    }
  }

  lemma SkeletonShape(a: seq<Node>, b: seq<Node>)
    requires Shape(a) && SameSkeleton(a, b)
    ensures Shape(b) && Extends(a, b) && Extends(b, a)
    ensures forall i :: 0 <= i < |a| ==> Path(b, i) == Path(a, i)
  {
    assert forall i :: 0 < i < |b| ==> ParentEdge(a, i) ==> ParentEdge(b, i);
    assert forall i, r :: 0 <= i < |b| && r in b[i].children ==> ChildEdge(a, i, r) ==> ChildEdge(b, i, r);
    forall i | 0 <= i < |a| ensures Path(b, i) == Path(a, i) {
      PathFrame(a, b, i);
    }
  }

  /**
   * The byte offset at which node c's rune starts in any word through c:
   * the index of the level pass 1 records c in.
   */
  ghost function Level(nodes: seq<Node>, c: nat): nat
    requires Shape(nodes) && 0 < c < |nodes|
  {
    assert ParentEdge(nodes, c);
    ByteLen(Path(nodes, nodes[c].parent.value))
  }

  /** Every level holds non-root nodes of that level, and every non-root node is in its level. */
  ghost predicate LevelsOf(nodes: seq<Node>, levels: seq<set<nat>>)
    requires Shape(nodes)
  {
    && (forall l, c :: 0 <= l < |levels| && c in levels[l] ==> 0 < c < |nodes|)
    && (forall l, c :: 0 <= l < |levels| && c in levels[l] && 0 < c < |nodes| ==> Level(nodes, c) == l)
    && (forall c :: 0 < c < |nodes| ==> Level(nodes, c) < |levels| && c in levels[Level(nodes, c)])
  }

  lemma LevelFrame(a: seq<Node>, b: seq<Node>)
    requires Shape(a) && Shape(b) && Extends(a, b)
    ensures forall c :: 0 < c < |a| ==> Level(b, c) == Level(a, c)
  {
    forall c | 0 < c < |a| ensures Level(b, c) == Level(a, c) {
      assert ParentEdge(a, c);
      PathFrame(a, b, a[c].parent.value);
    }
  }

  /** A node's rune starts after its parent's: the parent's level is lower. */
  lemma ParentLevel(nodes: seq<Node>, c: nat)
    requires Shape(nodes) && 0 < c < |nodes|
    ensures ParentEdge(nodes, c) && var p := nodes[c].parent.value;
      p < c && Level(nodes, c) == ByteLen(Path(nodes, p)) && (p != 0 ==> Level(nodes, p) < Level(nodes, c))
  {
    assert ParentEdge(nodes, c);
    var p := nodes[c].parent.value;
    if p != 0 {
      assert ParentEdge(nodes, p);
      ByteLenAppend(Path(nodes, nodes[p].parent.value), [nodes[p].rune]);
    }
  }

  /** A proper suffix takes fewer bytes. */
  lemma SuffixByteLen(a: seq<Rune>, b: seq<Rune>)
    requires IsSuffix(a, b) && |a| < |b|
    ensures ByteLen(a) < ByteLen(b)
  {
    assert b == b[..|b| - |a|] + a;
    ByteLenAppend(b[..|b| - |a|], a);
  }

  /* ---------------------------------------------------------------- */
  /* Pass 1: trie assembly (ahocorasick.go:35-62)                      */
  /* ---------------------------------------------------------------- */

  /** The child of n for r, created when missing (ahocorasick.go:39-46). */
  function Descend(nodes: seq<Node>, n: nat, r: Rune): (seq<Node>, nat)
    requires n < |nodes|
  {
    if r in nodes[n].children then (nodes, nodes[n].children[r])
    else (nodes[n := nodes[n].(children := nodes[n].children[r := |nodes|])] + [Fresh(r, Some(n))], |nodes|)
  }

  lemma DescendFacts(nodes: seq<Node>, n: nat, r: Rune)
    requires Shape(nodes) && n < |nodes|
    ensures Shape(Descend(nodes, n, r).0) && Extends(nodes, Descend(nodes, n, r).0)
    ensures |nodes| <= |Descend(nodes, n, r).0|
    ensures DescendedTo(nodes, Descend(nodes, n, r).0, n, r, Descend(nodes, n, r).1)
  {
    if r in nodes[n].children {
      assert ChildEdge(nodes, n, r);
    } else {
      AddChildFacts(nodes, n, r);
    }
  }

  /** What Descend leaves behind: c is n's child for r, and the nodes already there keep everything but child edges. */
  ghost predicate DescendedTo(nodes: seq<Node>, nodes': seq<Node>, n: nat, r: Rune, c: nat)
    requires Shape(nodes) && Shape(nodes') && n < |nodes| <= |nodes'|
  {
    && 0 < c < |nodes'|
    && nodes'[c].parent == Some(n) && nodes'[c].rune == r
    && Path(nodes', c) == Path(nodes, n) + [r]
    && (forall i :: 0 <= i < |nodes| ==> Path(nodes', i) == Path(nodes, i))
    && (forall i :: 0 <= i < |nodes| ==>
          nodes'[i].entry == nodes[i].entry && nodes'[i].suffixLink == nodes[i].suffixLink &&
          nodes'[i].dictSuffixLink == nodes[i].dictSuffixLink)
    && (if r in nodes[n].children then nodes' == nodes && c < |nodes|
        else |nodes'| == |nodes| + 1 && c == |nodes| && nodes'[c] == Fresh(r, Some(n)))
  }

  lemma AddChildFacts(nodes: seq<Node>, n: nat, r: Rune)
    requires Shape(nodes) && n < |nodes| && r !in nodes[n].children
    ensures Shape(Descend(nodes, n, r).0) && Extends(nodes, Descend(nodes, n, r).0)
    ensures |nodes| <= |Descend(nodes, n, r).0|
    ensures DescendedTo(nodes, Descend(nodes, n, r).0, n, r, Descend(nodes, n, r).1)
  {
    var c := |nodes|;
    var upd := nodes[n := nodes[n].(children := nodes[n].children[r := c])];
    var nodes' := upd + [Fresh(r, Some(n))];
    assert Descend(nodes, n, r) == (nodes', c);
    assert forall i :: 0 <= i < |nodes| ==> nodes'[i] == upd[i];
    assert Extends(nodes, nodes');
    forall i | 0 < i < |nodes'| ensures ParentEdge(nodes', i) {
      if i < |nodes| {
        assert ParentEdge(nodes, i);
      }
    }
    forall i, r' | 0 <= i < |nodes'| && r' in nodes'[i].children ensures ChildEdge(nodes', i, r') {
      if i != n || r' != r {
        assert ChildEdge(nodes, i, r');
      }
    }
    assert Shape(nodes');
    forall i | 0 <= i < |nodes| ensures Path(nodes', i) == Path(nodes, i) {
      PathFrame(nodes, nodes', i);
    }
    assert Path(nodes', c) == Path(nodes', n) + [r];
  }

  lemma ExtendsTrans(a: seq<Node>, b: seq<Node>, c: seq<Node>)
    requires Extends(a, b) && Extends(b, c)
    ensures Extends(a, c)
  {
  }

  /** Marks c as the node of word idx of byte length len (ahocorasick.go:48-51). */
  function SetEntry(nodes: seq<Node>, c: nat, idx: nat, len: nat): seq<Node>
    requires c < |nodes|
  {
    nodes[c := nodes[c].(entry := Some(Entry(idx, len)))]
  }

  lemma SetEntryFacts(nodes: seq<Node>, c: nat, idx: nat, len: nat)
    requires Shape(nodes) && c < |nodes|
    ensures SameSkeleton(nodes, SetEntry(nodes, c, idx, len))
    ensures Shape(SetEntry(nodes, c, idx, len))
    ensures forall i :: 0 <= i < |nodes| ==> Path(SetEntry(nodes, c, idx, len), i) == Path(nodes, i)
  {
    SkeletonShape(nodes, SetEntry(nodes, c, idx, len));
  }

  /**
   * One iteration of the inner loop of pass 1 (ahocorasick.go:39-60) at
   * rune j of word, standing at node n: descend to the child for the rune,
   * and give it the word's entry when the rune is the word's last (which
   * the loop detects by comparing byte offsets, see LastRune).
   */
  ghost function InsertStep(nodes: seq<Node>, idx: nat, word: seq<Rune>, j: nat, n: nat): (res: (seq<Node>, nat))
    requires Shape(nodes) && n < |nodes| && j < |word|
    ensures Shape(res.0) && res.1 < |res.0|
    ensures Unlinked(nodes) ==> Unlinked(res.0)
  {
    DescendFacts(nodes, n, word[j]);
    var (nodes', c) := Descend(nodes, n, word[j]);
    SetEntryFacts(nodes', c, idx, ByteLen(word));
    if j + 1 == |word|
    then (SetEntry(nodes', c, idx, ByteLen(word)), c)
    else (nodes', c)
  }

  /** A rune ends the word exactly when its end offset is the word's byte length. */
  lemma LastRune(word: seq<Rune>, j: nat)
    requires j < |word|
    ensures ByteLen(word[..j]) + RuneLen(word[j]) == ByteLen(word) <==> j + 1 == |word|
  {
    ByteLenStep(word, j);
    ByteLenPrefix(word, j + 1);
    if j + 1 == |word| {
      assert word[..j + 1] == word;
    }
  }

  /** The inner loop of pass 1 from rune j of word on, standing at node n. */
  ghost function InsertFrom(nodes: seq<Node>, idx: nat, word: seq<Rune>, j: nat, n: nat): (res: seq<Node>)
    requires Shape(nodes) && n < |nodes| && j <= |word|
    ensures Shape(res)
    ensures Unlinked(nodes) ==> Unlinked(res)
    decreases |word| - j
  {
    if j == |word| then nodes
    else
      var (nodes', c) := InsertStep(nodes, idx, word, j, n);
      InsertFrom(nodes', idx, word, j + 1, c)
  }

  /** What one step of pass 1 does to the arena. */
  lemma InsertStepFacts(nodes: seq<Node>, idx: nat, word: seq<Rune>, j: nat, n: nat)
    requires Shape(nodes) && n < |nodes| && j < |word|
    ensures var (nodes', c) := InsertStep(nodes, idx, word, j, n);
      && Extends(nodes, nodes')
      && (|nodes'| == |nodes| || (|nodes'| == |nodes| + 1 && c == |nodes|))
      && Path(nodes', c) == Path(nodes, n) + [word[j]]
      && forall i :: 0 <= i < |nodes'| ==>
           nodes'[i].entry == if j + 1 == |word| && i == c then Some(Entry(idx, ByteLen(word)))
                              else if i < |nodes| then nodes[i].entry else None
  {
    DescendFacts(nodes, n, word[j]);
    var (nodes', c) := Descend(nodes, n, word[j]);
    SetEntryFacts(nodes', c, idx, ByteLen(word));
  }

  /** One step of pass 1 records the node it reaches in the level of the rune's byte offset. */
  lemma InsertStepLevels(nodes: seq<Node>, levels: seq<set<nat>>, idx: nat, word: seq<Rune>, j: nat, n: nat)
    requires Shape(nodes) && n < |nodes| && j < |word| && LevelsOf(nodes, levels)
    requires Path(nodes, n) == word[..j] && ByteLen(word[..j]) < |levels|
    ensures var (nodes', c) := InsertStep(nodes, idx, word, j, n);
      var i := ByteLen(word[..j]);
      LevelsOf(nodes', levels[i := levels[i] + {c}]) && Path(nodes', c) == word[..j + 1]
  {
    var i := ByteLen(word[..j]);
    var (d, c) := Descend(nodes, n, word[j]);
    var levels' := levels[i := levels[i] + {c}];
    DescendLevels(nodes, levels, word, j, n);
    if j + 1 == |word| {
      assert InsertStep(nodes, idx, word, j, n) == (SetEntry(d, c, idx, ByteLen(word)), c);
      SetEntryFacts(d, c, idx, ByteLen(word));
      LevelsSkeleton(d, SetEntry(d, c, idx, ByteLen(word)), levels');
    } else {
      assert InsertStep(nodes, idx, word, j, n) == (d, c);
    }
  }

  /** Descending records the child in the level of its rune's byte offset. */
  lemma DescendLevels(nodes: seq<Node>, levels: seq<set<nat>>, word: seq<Rune>, j: nat, n: nat)
    requires Shape(nodes) && n < |nodes| && j < |word| && LevelsOf(nodes, levels)
    requires Path(nodes, n) == word[..j] && ByteLen(word[..j]) < |levels|
    ensures var (d, c) := Descend(nodes, n, word[j]);
      var i := ByteLen(word[..j]);
      Shape(d) && c < |d| && LevelsOf(d, levels[i := levels[i] + {c}]) && Path(d, c) == word[..j + 1]
  {
    var (d, c) := Descend(nodes, n, word[j]);
    DescendSkeleton(nodes, n, word[j]);
    PrefixSnoc(word, j);
    ChildLevels(nodes, d, levels, n, c);
  }

  /** The parent/child facts of Descend alone. */
  lemma DescendSkeleton(nodes: seq<Node>, n: nat, r: Rune)
    requires Shape(nodes) && n < |nodes|
    ensures var (d, c) := Descend(nodes, n, r);
      && Shape(d) && Extends(nodes, d) && 0 < c < |d|
      && (|d| == |nodes| || (|d| == |nodes| + 1 && c == |nodes|))
      && d[c].parent == Some(n) && Path(d, n) == Path(nodes, n) && Path(d, c) == Path(nodes, n) + [r]
  {
    DescendFacts(nodes, n, r);
  }

  lemma ChildLevels(nodes: seq<Node>, d: seq<Node>, levels: seq<set<nat>>, n: nat, c: nat)
    requires Shape(nodes) && Shape(d) && Extends(nodes, d) && LevelsOf(nodes, levels)
    requires n < |nodes| && 0 < c < |d| && (|d| == |nodes| || (|d| == |nodes| + 1 && c == |nodes|))
    requires d[c].parent == Some(n) && Path(d, n) == Path(nodes, n) && ByteLen(Path(nodes, n)) < |levels|
    ensures var i := ByteLen(Path(nodes, n));
      LevelsOf(d, levels[i := levels[i] + {c}])
  {
    ChildLevel(nodes, d, n, c);
    LevelsAdd(nodes, d, levels, c, ByteLen(Path(nodes, n)));
  }

  /** A new child of n sits in the level of n's byte length. */
  lemma ChildLevel(nodes: seq<Node>, d: seq<Node>, n: nat, c: nat)
    requires Shape(nodes) && Shape(d) && n < |nodes| <= |d| && 0 < c < |d|
    requires d[c].parent == Some(n) && Path(d, n) == Path(nodes, n)
    ensures Level(d, c) == ByteLen(Path(nodes, n))
  {
    assert ParentEdge(d, c);
  }

  lemma LevelsSkeleton(a: seq<Node>, b: seq<Node>, levels: seq<set<nat>>)
    requires Shape(a) && SameSkeleton(a, b) && LevelsOf(a, levels)
    ensures Shape(b) && LevelsOf(b, levels)
  {
    SkeletonShape(a, b);
    LevelFrame(a, b);
    assert LevelsOf(a, levels);
    forall l, c | 0 <= l < |levels| && c in levels[l] ensures 0 < c < |b| && Level(b, c) == l {
      assert 0 < c < |a| && Level(a, c) == l;
    }
    forall c | 0 < c < |b| ensures Level(b, c) < |levels| && c in levels[Level(b, c)] {
      assert Level(a, c) < |levels| && c in levels[Level(a, c)];
    }
  }

  lemma LevelsAdd(nodes: seq<Node>, nodes': seq<Node>, levels: seq<set<nat>>, c: nat, i: nat)
    requires Shape(nodes) && Shape(nodes') && Extends(nodes, nodes') && LevelsOf(nodes, levels)
    requires 0 < c < |nodes'| && Level(nodes', c) == i && i < |levels|
    requires |nodes'| == |nodes| || (|nodes'| == |nodes| + 1 && c == |nodes|)
    ensures LevelsOf(nodes', levels[i := levels[i] + {c}])
  {
    var levels' := levels[i := levels[i] + {c}];
    LevelFrame(nodes, nodes');
    forall l, x | 0 <= l < |levels'| && x in levels'[l] ensures 0 < x < |nodes'| && Level(nodes', x) == l {
      if !(l == i && x == c) {
        assert x in levels[l];
        assert LevelsOf(nodes, levels);
        assert 0 < x < |nodes| && Level(nodes, x) == l;
        assert Level(nodes', x) == Level(nodes, x);
      }
    }
    forall x | 0 < x < |nodes'| ensures Level(nodes', x) < |levels'| && x in levels'[Level(nodes', x)] {
      if x != c {
        assert x < |nodes|;
        assert Level(nodes', x) == Level(nodes, x);
        assert x in levels[Level(nodes, x)];
      }
    }
    assert LevelsOf(nodes', levels');
  }

  /** The arena after pass 1 over the whole dictionary. */
  ghost function Pass1(dictionary: seq<seq<Rune>>): (res: seq<Node>)
    ensures Shape(res) && Unlinked(res)
    decreases |dictionary|
  {
    if |dictionary| == 0 then [RootNode]
    else
      var k := |dictionary| - 1;
      InsertFrom(Pass1(dictionary[..k]), k, dictionary[k], 0, 0)
  }

  /** Longest word in bytes (the closure at ahocorasick.go:22-31). */
  method MaxByteLen(dictionary: seq<seq<Rune>>) returns (max: nat)
    ensures forall k :: 0 <= k < |dictionary| ==> ByteLen(dictionary[k]) <= max
    ensures |dictionary| > 0 ==> exists k :: 0 <= k < |dictionary| && ByteLen(dictionary[k]) == max
    ensures |dictionary| == 0 ==> max == 0
  {
    max := 0;
    ghost var longest := 0;
    for idx := 0 to |dictionary|
      invariant forall k :: 0 <= k < idx ==> ByteLen(dictionary[k]) <= max
      invariant idx > 0 ==> longest < idx && ByteLen(dictionary[longest]) == max
      invariant idx == 0 ==> max == 0 && longest == 0
    {
      var c := ByteLen(dictionary[idx]);
      if c > max {
        max := c;
        longest := idx;
      }
    }
  }

  /**
   * Pass 1 (ahocorasick.go:35-62): inserts every word and records each
   * node passed in the level of its rune's byte offset.
   */
  method AssembleTrie(dictionary: seq<seq<Rune>>, max: nat) returns (nodes: seq<Node>, levels: seq<set<nat>>)
    requires forall k :: 0 <= k < |dictionary| ==> ByteLen(dictionary[k]) <= max
    ensures nodes == Pass1(dictionary)
    ensures |levels| == max && LevelsOf(nodes, levels)
  {
    nodes := [RootNode];
    levels := seq(max, _ => {});
    for idx := 0 to |dictionary|
      invariant nodes == Pass1(dictionary[..idx])
      invariant |levels| == max && LevelsOf(nodes, levels)
    {
      Pass1Step(dictionary, idx);
      nodes, levels := InsertWord(nodes, levels, idx, dictionary[idx]);
    }
    assert dictionary[..|dictionary|] == dictionary;
  }

  /** Pass 1 over one more word is the inner loop over that word. */
  lemma Pass1Step(dictionary: seq<seq<Rune>>, idx: nat)
    requires idx < |dictionary|
    ensures Pass1(dictionary[..idx + 1]) == InsertFrom(Pass1(dictionary[..idx]), idx, dictionary[idx], 0, 0)
  {
    assert dictionary[..idx + 1][..idx] == dictionary[..idx];
  }

  /**
   * The inner loop of pass 1 (ahocorasick.go:37-61) for word number idx:
   * walks the word rune by rune from the root, i being the byte offset of
   * rune j.
   */
  method InsertWord(nodes0: seq<Node>, levels0: seq<set<nat>>, idx: nat, word: seq<Rune>)
    returns (nodes: seq<Node>, levels: seq<set<nat>>)
    requires Shape(nodes0) && LevelsOf(nodes0, levels0) && ByteLen(word) <= |levels0|
    ensures nodes == InsertFrom(nodes0, idx, word, 0, 0)
    ensures |levels| == |levels0| && LevelsOf(nodes, levels)
  {
    nodes, levels := nodes0, levels0;
    var n: nat := 0;
    var length := ByteLen(word);
    var i := 0;
    for j := 0 to |word|
      invariant Shape(nodes) && n < |nodes|
      invariant i == ByteLen(word[..j])
      invariant Path(nodes, n) == word[..j]
      invariant InsertFrom(nodes, idx, word, j, n) == InsertFrom(nodes0, idx, word, 0, 0)
      invariant |levels| == |levels0| && LevelsOf(nodes, levels)
    {
      var r := word[j];
      assert i + RuneLen(r) == ByteLen(word[..j + 1]) && ByteLen(word[..j + 1]) <= length by {
        ByteLenStep(word, j);
        ByteLenPrefix(word, j + 1);
      }
      assert i + RuneLen(r) == length <==> j + 1 == |word| by {
        LastRune(word, j);
      }
      ghost var step := InsertStep(nodes, idx, word, j, n);
      assert LevelsOf(step.0, levels[i := levels[i] + {step.1}]) && Path(step.0, step.1) == word[..j + 1] by {
        InsertStepLevels(nodes, levels, idx, word, j, n);
      }
      var c: nat;
      if r in nodes[n].children {
        c := nodes[n].children[r];
      } else {
        c := |nodes|;
        nodes := nodes[n := nodes[n].(children := nodes[n].children[r := c])] + [Fresh(r, Some(n))];
      }
      if i + RuneLen(r) == length {
        nodes := nodes[c := nodes[c].(entry := Some(Entry(idx, length)))];
      }
      assert (nodes, c) == step;
      levels := levels[i := levels[i] + {c}];
      n := c;
      i := i + RuneLen(r);
    }
  }

  /* ---------------------------------------------------------------- */
  /* Pass 2: suffix links (ahocorasick.go:75-87)                       */
  /* ---------------------------------------------------------------- */

  /**
   * The suffix link pass 2 gives node i of the assembled arena: the root
   * for a child of the root; otherwise the result of walking on from the
   * parent's link, which stays None when the parent has no link or the
   * walk runs off the root's end.
   */
  ghost function SuffixLinkOf(base: seq<Node>, i: nat): (s: Option<nat>)
    requires Shape(base) && i < |base|
    ensures s.Some? ==> ProperSuffixNode(base, s.value, i)
    decreases 2 * |Path(base, i)|
  {
    if i == 0 then None
    else
      assert ParentEdge(base, i);
      var p := base[i].parent.value;
      if p == 0 then Some(0)
      else
        var s := SuffixLinkOf(base, p);
        var w := SuffixWalk(base, s, base[i].rune);
        if w.Some? then
          SuffixSnoc(Path(base, s.value), Path(base, p), base[i].rune);
          SuffixTrans(Path(base, w.value), Path(base, s.value) + [base[i].rune], Path(base, i));
          w
        else w
  }

  /**
   * The loop at ahocorasick.go:80-85 with q as the current `p.suffixLink`:
   * the child for r of the first node from q on along the suffix links
   * that has one.
   */
  ghost function SuffixWalk(base: seq<Node>, q: Option<nat>, r: Rune): (c: Option<nat>)
    requires Shape(base) && (q.Some? ==> q.value < |base|)
    ensures c.Some? ==> q.Some? && 0 < c.value < |base| && IsSuffix(Path(base, c.value), Path(base, q.value) + [r])
    decreases if q.Some? then 2 * |Path(base, q.value)| + 1 else 0
  {
    match q
    case None => None
    case Some(s) =>
      if r in base[s].children then
        assert ChildEdge(base, s, r);
        assert Path(base, base[s].children[r]) == Path(base, s) + [r];
        Some(base[s].children[r])
      else
        var next := SuffixLinkOf(base, s);
        var c := SuffixWalk(base, next, r);
        if c.Some? then
          SuffixSnoc(Path(base, next.value), Path(base, s), r);
          SuffixTrans(Path(base, c.value), Path(base, next.value) + [r], Path(base, s) + [r]);
          c
        else c
  }

  /** The arena after pass 2. */
  ghost function SuffixLinked(base: seq<Node>): (nodes: seq<Node>)
    requires Shape(base)
    ensures SameSkeleton(base, nodes)
  {
    seq(|base|, i requires 0 <= i < |base| => base[i].(suffixLink := SuffixLinkOf(base, i)))
  }

  /** Pass 2 only sets suffix links, and each one it sets leads to a proper suffix. */
  lemma SuffixLinkedSound(base: seq<Node>)
    requires Shape(base)
    ensures Shape(SuffixLinked(base)) && SuffixLinksSound(SuffixLinked(base))
  {
    var nodes := SuffixLinked(base);
    SkeletonShape(base, nodes);
  }

  /** Node c's suffix link is final: set for the nodes of the levels done, nil for the rest. */
  ghost predicate SuffixDone(base: seq<Node>, nodes: seq<Node>, l: nat, pending: set<nat>)
    requires Shape(base)
  {
    && |nodes| == |base|
    && forall c :: 0 <= c < |base| ==>
         nodes[c] == base[c].(suffixLink :=
           if 0 < c && Level(base, c) <= l && c !in pending then SuffixLinkOf(base, c) else None)
  }

  /**
   * The body of the loop at ahocorasick.go:76-86 for node n of level l:
   * the root for a child of the root, else the walk along the parent's
   * suffix links, which reads only links pass 2 has already set.
   */
  method FindSuffixLink(base: seq<Node>, levels: seq<set<nat>>, nodes: seq<Node>, l: nat, pending: set<nat>, n: nat)
    returns (sl: Option<nat>)
    requires Shape(base) && LevelsOf(base, levels) && l < |levels|
    requires pending <= levels[l] && n in pending && SuffixDone(base, nodes, l, pending)
    ensures sl == SuffixLinkOf(base, n)
  {
    assert 0 < n < |base| && Level(base, n) == l;
    ParentLevel(base, n);
    var r := nodes[n].rune;
    var par: nat := nodes[n].parent.value;
    sl := None;
    if par == 0 {
      sl := Some(0);
    }
    var p: nat := par;
    while nodes[p].suffixLink.Some?
      invariant |nodes| == |base| && p < |base|
      invariant nodes[p].suffixLink == SuffixLinkOf(base, p)
      invariant p != 0 ==> ByteLen(Path(base, p)) <= ByteLen(Path(base, par))
      invariant par == 0 ==> p == 0 && sl == Some(0)
      invariant par != 0 ==> sl.None? && SuffixLinkOf(base, n) == SuffixWalk(base, SuffixLinkOf(base, p), r)
      decreases |Path(base, p)|
    {
      var q: nat := nodes[p].suffixLink.value;
      SuffixByteLen(Path(base, q), Path(base, p));
      if q != 0 {
        LevelBelowByteLen(base, q);
      }
      SuffixDoneAt(base, levels, nodes, l, pending, q);
      if r in nodes[q].children {
        sl := Some(nodes[q].children[r]);
        break;
      }
      p := q;
    }
  }

  /** A node's level is below the byte length of its path. */
  lemma LevelBelowByteLen(base: seq<Node>, q: nat)
    requires Shape(base) && 0 < q < |base|
    ensures Level(base, q) < ByteLen(Path(base, q))
  {
    assert ParentEdge(base, q);
    ByteLenAppend(Path(base, base[q].parent.value), [base[q].rune]);
  }

  /** The root and every node of a level below l already carry their final suffix link. */
  lemma SuffixDoneAt(base: seq<Node>, levels: seq<set<nat>>, nodes: seq<Node>, l: nat, pending: set<nat>, q: nat)
    requires Shape(base) && LevelsOf(base, levels) && l < |levels|
    requires pending <= levels[l] && SuffixDone(base, nodes, l, pending)
    requires q < |base| && (q != 0 ==> Level(base, q) < l)
    ensures nodes[q] == base[q].(suffixLink := SuffixLinkOf(base, q))
  {
    if q != 0 {
      assert q !in levels[l];
    }
  }

  /** Setting the link of one pending node of level l keeps SuffixDone. */
  lemma SuffixDoneStep(base: seq<Node>, levels: seq<set<nat>>, nodes: seq<Node>, l: nat, pending: set<nat>, n: nat)
    requires Shape(base) && LevelsOf(base, levels) && l < |levels|
    requires SuffixDone(base, nodes, l, pending) && n in pending && pending <= levels[l]
    ensures SuffixDone(base, nodes[n := nodes[n].(suffixLink := SuffixLinkOf(base, n))], l, pending - {n})
  {
    assert 0 < n < |base| && Level(base, n) == l;
  }

  /**
   * Pass 2 (ahocorasick.go:75-87): visits the levels in order and the
   * nodes of a level in an arbitrary order.
   */
  method LinkSuffixes(base: seq<Node>, levels: seq<set<nat>>) returns (nodes: seq<Node>)
    requires Shape(base) && Unlinked(base) && LevelsOf(base, levels)
    ensures nodes == SuffixLinked(base)
  {
    nodes := base;
    for l := 0 to |levels|
      invariant |nodes| == |base|
      invariant forall c :: 0 <= c < |base| ==>
        nodes[c] == base[c].(suffixLink := if 0 < c && Level(base, c) < l then SuffixLinkOf(base, c) else None)
    {
      var pending := levels[l];
      while pending != {}
        invariant pending <= levels[l]
        invariant SuffixDone(base, nodes, l, pending)
        decreases pending
      {
        var n :| n in pending;
        assert n in levels[l];
        ParentLevel(base, n);
        var sl := FindSuffixLink(base, levels, nodes, l, pending, n);
        SuffixDoneStep(base, levels, nodes, l, pending, n);
        nodes := nodes[n := nodes[n].(suffixLink := sl)];
        pending := pending - {n};
      }
    }
    assert forall c :: 0 < c < |base| ==> Level(base, c) < |levels|;
  }

  /* ---------------------------------------------------------------- */
  /* Pass 3: dictionary suffix links (ahocorasick.go:96-105)           */
  /* ---------------------------------------------------------------- */

  /** The first node with an entry on the suffix chain starting at q (q included). */
  ghost function FirstEntry(nodes: seq<Node>, q: Option<nat>): (d: Option<nat>)
    requires Shape(nodes) && SuffixLinksSound(nodes) && (q.Some? ==> q.value < |nodes|)
    ensures d.Some? ==> q.Some? && d.value < |nodes| && nodes[d.value].entry.Some?
    decreases if q.Some? then |Path(nodes, q.value)| + 1 else 0
  {
    match q
    case None => None
    case Some(s) =>
      if nodes[s].entry.Some? then Some(s)
      else FirstEntry(nodes, nodes[s].suffixLink)
  }

  /**
   * d is the first node with an entry on the suffix chain from q: it is
   * on that chain, has an entry, and every node with an entry on the
   * chain lies on the chain from d on; d is None when no node on the
   * chain has an entry (or there is no chain).
   */
  ghost predicate FirstOnChain(nodes: seq<Node>, q: Option<nat>, d: Option<nat>)
    requires Shape(nodes) && SuffixLinksSound(nodes) && (q.Some? ==> q.value < |nodes|)
  {
    && (d.Some? ==>
          && q.Some? && d.value < |nodes| && nodes[d.value].entry.Some?
          && OnSuffixChain(nodes, q.value, d.value)
          && forall m: nat :: m < |nodes| && OnSuffixChain(nodes, q.value, m) && nodes[m].entry.Some? ==>
               OnSuffixChain(nodes, d.value, m))
    && (d.None? && q.Some? ==>
          forall m: nat :: m < |nodes| && OnSuffixChain(nodes, q.value, m) ==> nodes[m].entry.None?)
  }

  /** FirstEntry finds the first node with an entry on the suffix chain. */
  lemma {:induction false} FirstEntryChain(nodes: seq<Node>, q: Option<nat>)
    requires Shape(nodes) && SuffixLinksSound(nodes) && (q.Some? ==> q.value < |nodes|)
    ensures FirstOnChain(nodes, q, FirstEntry(nodes, q))
    decreases if q.Some? then |Path(nodes, q.value)| + 1 else 0
  {
    if q.Some? {
      var s := q.value;
      var d := FirstEntry(nodes, q);
      if nodes[s].entry.Some? {
        assert OnSuffixChain(nodes, s, s);
      } else {
        var t := nodes[s].suffixLink;
        FirstEntryChain(nodes, t);
        if d.Some? {
          assert OnSuffixChain(nodes, s, d.value);
        }
      }
    }
  }

  /** The dictionary suffix link pass 3 gives node i. */
  ghost function DictLinkOf(nodes: seq<Node>, i: nat): Option<nat>
    requires Shape(nodes) && SuffixLinksSound(nodes) && i < |nodes|
  {
    FirstEntry(nodes, nodes[i].suffixLink)
  }

  /** The arena after pass 3. */
  ghost function DictLinked(nodes: seq<Node>): (res: seq<Node>)
    requires Shape(nodes) && SuffixLinksSound(nodes)
    ensures SameSkeleton(nodes, res)
  {
    seq(|nodes|, i requires 0 <= i < |nodes| => nodes[i].(dictSuffixLink := DictLinkOf(nodes, i)))
  }

  /** Node c's dictionary suffix link is final: set for the nodes done, nil for the rest. */
  ghost predicate DictDone(linked: seq<Node>, nodes: seq<Node>, l: nat, pending: set<nat>)
    requires Shape(linked) && SuffixLinksSound(linked)
  {
    && |nodes| == |linked|
    && forall c :: 0 <= c < |linked| ==>
         nodes[c] == linked[c].(dictSuffixLink :=
           if 0 < c && Level(linked, c) <= l && c !in pending then DictLinkOf(linked, c) else None)
  }

  /** Setting the link of one pending node of level l keeps DictDone. */
  lemma DictDoneStep(linked: seq<Node>, levels: seq<set<nat>>, nodes: seq<Node>, l: nat, pending: set<nat>, n: nat)
    requires Shape(linked) && SuffixLinksSound(linked) && LevelsOf(linked, levels) && l < |levels|
    requires DictDone(linked, nodes, l, pending) && n in pending && pending <= levels[l]
    ensures DictDone(linked, nodes[n := nodes[n].(dictSuffixLink := DictLinkOf(linked, n))], l, pending - {n})
  {
    assert 0 < n < |linked| && Level(linked, n) == l;
  }

  /** Pass 3 (ahocorasick.go:96-105), again level by level and in arbitrary order within a level. */
  method LinkDictSuffixes(linked: seq<Node>, levels: seq<set<nat>>) returns (nodes: seq<Node>)
    requires Shape(linked) && SuffixLinksSound(linked) && LevelsOf(linked, levels)
    requires forall i :: 0 <= i < |linked| ==> linked[i].dictSuffixLink.None?
    ensures nodes == DictLinked(linked)
  {
    nodes := linked;
    for l := 0 to |levels|
      invariant |nodes| == |linked|
      invariant forall c :: 0 <= c < |linked| ==>
        nodes[c] == linked[c].(dictSuffixLink := if 0 < c && Level(linked, c) < l then DictLinkOf(linked, c) else None)
    {
      var pending := levels[l];
      while pending != {}
        invariant pending <= levels[l]
        invariant DictDone(linked, nodes, l, pending)
        decreases pending
      {
        var n :| n in pending;
        assert n in levels[l];
        var link: Option<nat> := None;
        var p := nodes[n].suffixLink;
        while p.Some?
          invariant p.Some? ==> p.value < |linked|
          invariant DictLinkOf(linked, n) == FirstEntry(linked, p)
          decreases if p.Some? then |Path(linked, p.value)| + 1 else 0
        {
          if nodes[p.value].entry.Some? {
            link := p;
            break;
          }
          p := nodes[p.value].suffixLink;
        }
        assert link == DictLinkOf(linked, n);
        DictDoneStep(linked, levels, nodes, l, pending, n);
        nodes := nodes[n := nodes[n].(dictSuffixLink := link)];
        pending := pending - {n};
      }
    }
    assert forall c :: 0 < c < |linked| ==> Level(linked, c) < |levels|;
  }

  /* ---------------------------------------------------------------- */
  /* New                                                               */
  /* ---------------------------------------------------------------- */

  /** The tree New returns for a dictionary. */
  ghost function Built(dictionary: seq<seq<Rune>>): Trie {
    if |dictionary| == 0 then Trie(None, [])
    else
      var base := Pass1(dictionary);
      SuffixLinkedSound(base);
      Trie(Some(0), DictLinked(SuffixLinked(base)))
  }

  /** `New` (ahocorasick.go:7-108). */
  method New(dictionary: seq<seq<Rune>>) returns (t: Trie)
    ensures t == Built(dictionary)
    ensures t.root.None? <==> |dictionary| == 0
  {
    if |dictionary| == 0 {
      return Trie(None, []);
    }
    var max := MaxByteLen(dictionary);
    var base, levels := AssembleTrie(dictionary, max);
    var linked := LinkSuffixes(base, levels);
    SuffixLinkedSound(base);
    SkeletonShape(base, linked);
    LevelFrame(base, linked);
    var nodes := LinkDictSuffixes(linked, levels);
    t := Trie(Some(0), nodes);
  }
}
