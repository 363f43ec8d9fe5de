/**
 * The records of the search tree (ahocorasick.go, `entry`, `node`, `Trie`)
 * and the two lookups the matcher makes on a built tree: `find`, which
 * follows suffix links until some node has a child for the rune, and
 * `entries`, which collects the dictionary entries reachable over
 * dictionary suffix links.
 *
 * Pointers become indices into an arena `seq<Node>`; the root is index 0
 * and a node is always stored after its parent.
 */
module Nodes {
  import opened Text

  datatype Option<T> = None | Some(value: T)

  /** A dictionary word ending at a node: its position in the dictionary and its byte length. */
  datatype Entry = Entry(index: nat, len: nat)

  datatype Node = Node(
    rune: Rune,
    entry: Option<Entry>,
    parent: Option<nat>,
    children: map<Rune, nat>,
    suffixLink: Option<nat>,
    dictSuffixLink: Option<nat>)

  /** The search tree: no root for an empty dictionary, else the arena with its root at 0. */
  datatype Trie = Trie(root: Option<nat>, nodes: seq<Node>)

  /** A node with no entry, no children and no links: `&node{rune: r, parent: p}`. */
  function Fresh(r: Rune, parent: Option<nat>): Node {
    Node(r, None, parent, map[], None, None)
  }

  /**
   * The parent/child skeleton of the arena is a tree rooted at 0: every
   * other node sits below an earlier node that maps its rune to it, and
   * every child edge leads to a non-root node that names its parent.
   */
  ghost predicate Shape(nodes: seq<Node>) {
    && |nodes| > 0
    && nodes[0].parent.None?
    && (forall i :: 0 < i < |nodes| ==> ParentEdge(nodes, i))
    && (forall i, r :: 0 <= i < |nodes| && r in nodes[i].children ==> ChildEdge(nodes, i, r))
  }

  ghost predicate ParentEdge(nodes: seq<Node>, i: nat)
    requires i < |nodes|
  {
    && nodes[i].parent.Some?
    && nodes[i].parent.value < i
    && nodes[i].rune in nodes[nodes[i].parent.value].children
    && nodes[nodes[i].parent.value].children[nodes[i].rune] == i
  }

  ghost predicate ChildEdge(nodes: seq<Node>, i: nat, r: Rune)
    requires i < |nodes| && r in nodes[i].children
  {
    var c := nodes[i].children[r];
    0 < c < |nodes| && nodes[c].parent == Some(i) && nodes[c].rune == r
  }

  /** The runes on the way from the root down to node i. */
  ghost function Path(nodes: seq<Node>, i: nat): seq<Rune>
    requires Shape(nodes) && i < |nodes|
    decreases i
  {
    if i == 0 then []
    else
      assert ParentEdge(nodes, i);
      Path(nodes, nodes[i].parent.value) + [nodes[i].rune]
  }

  /** s stands for a proper suffix of node i's path. */
  ghost predicate ProperSuffixNode(nodes: seq<Node>, s: nat, i: nat)
    requires Shape(nodes) && i < |nodes|
  {
    s < |nodes| && |Path(nodes, s)| < |Path(nodes, i)| && IsSuffix(Path(nodes, s), Path(nodes, i))
  }

  /** Every suffix link that is set leads to a node spelling a proper suffix. */
  ghost predicate SuffixLinksSound(nodes: seq<Node>)
    requires Shape(nodes)
  {
    forall i :: 0 <= i < |nodes| && nodes[i].suffixLink.Some? ==>
      ProperSuffixNode(nodes, nodes[i].suffixLink.value, i)
  }

  /** Every dictionary suffix link that is set leads to a node spelling a proper suffix. */
  ghost predicate DictLinksSound(nodes: seq<Node>)
    requires Shape(nodes)
  {
    forall i :: 0 <= i < |nodes| && nodes[i].dictSuffixLink.Some? ==>
      ProperSuffixNode(nodes, nodes[i].dictSuffixLink.value, i)
  }

  ghost predicate Linked(nodes: seq<Node>) {
    Shape(nodes) && SuffixLinksSound(nodes) && DictLinksSound(nodes)
  }

  /** m is reached from n by zero or more suffix links. */
  ghost predicate OnSuffixChain(nodes: seq<Node>, n: nat, m: nat)
    requires Shape(nodes) && SuffixLinksSound(nodes) && n < |nodes|
    decreases |Path(nodes, n)|
  {
    n == m || (nodes[n].suffixLink.Some? && OnSuffixChain(nodes, nodes[n].suffixLink.value, m))
  }

  /** m is reached from n by zero or more dictionary suffix links. */
  ghost predicate OnDictChain(nodes: seq<Node>, n: nat, m: nat)
    requires Shape(nodes) && DictLinksSound(nodes) && n < |nodes|
    decreases |Path(nodes, n)|
  {
    n == m || (nodes[n].dictSuffixLink.Some? && OnDictChain(nodes, nodes[n].dictSuffixLink.value, m))
  }

  /** Every node on a suffix chain spells a suffix of the node the chain starts from. */
  lemma {:induction false} SuffixChainIsSuffix(nodes: seq<Node>, n: nat, m: nat)
    requires Shape(nodes) && SuffixLinksSound(nodes) && n < |nodes|
    requires OnSuffixChain(nodes, n, m)
    ensures m < |nodes| && IsSuffix(Path(nodes, m), Path(nodes, n))
    decreases |Path(nodes, n)|
  {
    if n != m {
      var s := nodes[n].suffixLink.value;
      SuffixChainIsSuffix(nodes, s, m);
      SuffixTrans(Path(nodes, m), Path(nodes, s), Path(nodes, n));
    }
  }

  /** Every node on a dictionary suffix chain spells a suffix of the node the chain starts from. */
  lemma {:induction false} DictChainIsSuffix(nodes: seq<Node>, n: nat, m: nat)
    requires Shape(nodes) && DictLinksSound(nodes) && n < |nodes|
    requires OnDictChain(nodes, n, m)
    ensures m < |nodes| && IsSuffix(Path(nodes, m), Path(nodes, n))
    decreases |Path(nodes, n)|
  {
    if n != m {
      var d := nodes[n].dictSuffixLink.value;
      DictChainIsSuffix(nodes, d, m);
      SuffixTrans(Path(nodes, m), Path(nodes, d), Path(nodes, n));
    }
  }

  /**
   * `node.find`: the child for r of n or, failing that, of the first node
   * on n's suffix chain that has one; None when the chain runs out first.
   * Terminates because every suffix link leads to a shorter path.
   */
  function Find(nodes: seq<Node>, n: nat, r: Rune): (c: Option<nat>)
    requires Linked(nodes) && n < |nodes|
    ensures c.Some? ==> 0 < c.value < |nodes| && nodes[c.value].rune == r
    ensures c.Some? ==> IsSuffix(Path(nodes, c.value), Path(nodes, n) + [r])
    ensures c.Some? ==> exists m: nat :: m < |nodes| && OnSuffixChain(nodes, n, m) &&
                                     r in nodes[m].children && nodes[m].children[r] == c.value
    ensures c.None? ==> forall m: nat :: m < |nodes| && OnSuffixChain(nodes, n, m) ==> r !in nodes[m].children
    decreases |Path(nodes, n)|
  {
    if r in nodes[n].children then
      var c := nodes[n].children[r];
      assert ChildEdge(nodes, n, r);
      assert Path(nodes, c) == Path(nodes, n) + [r];
      Some(c)
    else if nodes[n].suffixLink.Some? then
      var s := nodes[n].suffixLink.value;
      var c := Find(nodes, s, r);
      if c.Some? then
        SuffixSnoc(Path(nodes, s), Path(nodes, n), r);
        SuffixTrans(Path(nodes, c.value), Path(nodes, s) + [r], Path(nodes, n) + [r]);
        c
      else c
    else
      None
  }

  /**
   * The child Find returns belongs to the first node on n's suffix chain
   * with a child for r: no node on the chain at least as long as that
   * child (every node before the one it hangs from) has a child for r.
   */
  lemma {:induction false} FindFirst(nodes: seq<Node>, n: nat, r: Rune)
    requires Linked(nodes) && n < |nodes|
    ensures var c := Find(nodes, n, r);
      c.Some? ==> forall m: nat :: m < |nodes| && OnSuffixChain(nodes, n, m) && |Path(nodes, m)| >= |Path(nodes, c.value)| ==>
                    r !in nodes[m].children
    decreases |Path(nodes, n)|
  {
    var c := Find(nodes, n, r);
    if r in nodes[n].children {
      forall m: nat | m < |nodes| && OnSuffixChain(nodes, n, m) ensures |Path(nodes, m)| < |Path(nodes, c.value)| {
        SuffixChainIsSuffix(nodes, n, m);
      }
    } else if nodes[n].suffixLink.Some? {
      var s := nodes[n].suffixLink.value;
      FindFirst(nodes, s, r);
      assert c == Find(nodes, s, r);
    }
  }

  /**
   * What `node.entries` returns: n's own entry, if any, followed by the
   * entries of every node on n's dictionary suffix chain, each collected
   * by a recursive call.
   */
  ghost function EntriesOf(nodes: seq<Node>, n: nat): (es: seq<Entry>)
    requires Linked(nodes) && n < |nodes|
    ensures nodes[n].entry.Some? ==> |es| > 0 && es[0] == nodes[n].entry.value
    decreases 2 * |Path(nodes, n)| + 1
  {
    Own(nodes, n) + ChainEntries(nodes, nodes[n].dictSuffixLink)
  }

  function Own(nodes: seq<Node>, n: nat): seq<Entry>
    requires n < |nodes|
  {
    if nodes[n].entry.Some? then [nodes[n].entry.value] else []
  }

  /** The entries the loop of `node.entries` appends, starting from link p. */
  ghost function ChainEntries(nodes: seq<Node>, p: Option<nat>): seq<Entry>
    requires Linked(nodes) && (p.Some? ==> p.value < |nodes|)
    decreases if p.Some? then 2 * |Path(nodes, p.value)| + 2 else 0
  {
    match p
    case None => []
    case Some(q) => EntriesOf(nodes, q) + ChainEntries(nodes, nodes[q].dictSuffixLink)
  }

  /** Every entry `entries` reports belongs to a node on n's dictionary suffix chain. */
  lemma {:induction false} EntriesFromChain(nodes: seq<Node>, n: nat, k: nat)
    requires Linked(nodes) && n < |nodes| && k < |EntriesOf(nodes, n)|
    ensures exists m: nat :: m < |nodes| && OnDictChain(nodes, n, m) && nodes[m].entry == Some(EntriesOf(nodes, n)[k])
    decreases 2 * |Path(nodes, n)| + 1
  {
    var own, p := Own(nodes, n), nodes[n].dictSuffixLink;
    if k < |own| {
      assert OnDictChain(nodes, n, n);
    } else {
      ChainFromChain(nodes, p, k - |own|);
      var m: nat :| m < |nodes| && OnDictChain(nodes, p.value, m) && nodes[m].entry == Some(ChainEntries(nodes, p)[k - |own|]);
      assert OnDictChain(nodes, n, m);
    }
  }

  lemma {:induction false} ChainFromChain(nodes: seq<Node>, p: Option<nat>, k: nat)
    requires Linked(nodes) && (p.Some? ==> p.value < |nodes|) && k < |ChainEntries(nodes, p)|
    ensures p.Some?
    ensures exists m: nat :: m < |nodes| && OnDictChain(nodes, p.value, m) && nodes[m].entry == Some(ChainEntries(nodes, p)[k])
    decreases if p.Some? then 2 * |Path(nodes, p.value)| + 2 else 0
  {
    var q := p.value;
    var here, next := EntriesOf(nodes, q), nodes[q].dictSuffixLink;
    if k < |here| {
      EntriesFromChain(nodes, q, k);
    } else {
      ChainFromChain(nodes, next, k - |here|);
      var m: nat :| m < |nodes| && OnDictChain(nodes, next.value, m) && nodes[m].entry == Some(ChainEntries(nodes, next)[k - |here|]);
      assert OnDictChain(nodes, q, m);
    }
  }

  /** The entry of every node on n's dictionary suffix chain is among those `entries` reports. */
  lemma {:induction false} EntriesComplete(nodes: seq<Node>, n: nat, m: nat)
    requires Linked(nodes) && n < |nodes| && m < |nodes|
    requires OnDictChain(nodes, n, m) && nodes[m].entry.Some?
    ensures nodes[m].entry.value in EntriesOf(nodes, n)
    decreases |Path(nodes, n)|
  {
    if m != n {
      var d := nodes[n].dictSuffixLink.value;
      EntriesComplete(nodes, d, m);
      assert ChainEntries(nodes, Some(d)) == EntriesOf(nodes, d) + ChainEntries(nodes, nodes[d].dictSuffixLink);
    }
  }

  /**
   * `node.entries`: the loop walks the dictionary suffix chain and appends
   * the entries of each node on it, recursively.
   */
  method CollectEntries(nodes: seq<Node>, n: nat) returns (out: seq<Entry>)
    requires Linked(nodes) && n < |nodes|
    ensures out == EntriesOf(nodes, n)
    decreases 2 * |Path(nodes, n)| + 1
  {
    out := [];
    if nodes[n].entry.Some? {
      out := out + [nodes[n].entry.value];
    }
    var p := nodes[n].dictSuffixLink;
    while p.Some?
      invariant p.Some? ==> ProperSuffixNode(nodes, p.value, n)
      invariant out + ChainEntries(nodes, p) == EntriesOf(nodes, n)
      decreases if p.Some? then |Path(nodes, p.value)| + 1 else 0
    {
      var q := p.value;
      var more := CollectEntries(nodes, q);
      out := out + more;
      p := nodes[q].dictSuffixLink;
      if p.Some? {
        assert ProperSuffixNode(nodes, p.value, q);
        SuffixTrans(Path(nodes, p.value), Path(nodes, q), Path(nodes, n));
      }
    }
  }

  /**
   * A dictionary suffix chain of two or more links makes `entries` report
   * the entry at the second link at least twice: once inside the entries
   * of the first link and once more from the loop.
   */
  lemma DuplicateEntries(nodes: seq<Node>, n: nat)
    requires Linked(nodes) && n < |nodes|
    requires nodes[n].dictSuffixLink.Some?
    requires nodes[nodes[n].dictSuffixLink.value].dictSuffixLink.Some?
    requires nodes[nodes[nodes[n].dictSuffixLink.value].dictSuffixLink.value].entry.Some?
    ensures multiset(EntriesOf(nodes, n))[nodes[nodes[nodes[n].dictSuffixLink.value].dictSuffixLink.value].entry.value] >= 2
  {
    var d1 := nodes[n].dictSuffixLink.value;
    var d2 := nodes[d1].dictSuffixLink.value;
    var e := nodes[d2].entry.value;
    assert OnDictChain(nodes, d1, d2);
    EntriesComplete(nodes, d1, d2);
    var rest := ChainEntries(nodes, Some(d2));
    assert rest == EntriesOf(nodes, d2) + ChainEntries(nodes, nodes[d2].dictSuffixLink);
    assert EntriesOf(nodes, d2)[0] == e;
    assert EntriesOf(nodes, n) == Own(nodes, n) + (EntriesOf(nodes, d1) + rest);
    assert multiset(EntriesOf(nodes, d1))[e] >= 1;
    assert multiset(rest)[e] >= 1;
  }
}
