/**
 * What the tree `New` builds looks like: one node per distinct prefix of
 * the dictionary words, an entry exactly at the nodes spelling a word
 * (the last occurrence of that word in the dictionary wins), suffix
 * links and dictionary suffix links that lead to proper suffixes, and
 * dictionary suffix links that pick the first node with an entry on the
 * suffix chain.
 */
module BuildFacts {
  import opened Text
  import opened Nodes
  import opened Builder

  /* ---------------------------------------------------------------- */
  /* Prefixes and the paths of the arena                              */
  /* ---------------------------------------------------------------- */

  /** The prefixes of w, from the empty one to w itself. */
  ghost function WordPrefixes(w: seq<Rune>): (ps: set<seq<Rune>>)
    ensures forall p :: p in ps <==> IsPrefix(p, w)
  {
    var ps := PrefixesFrom(w, 0);
    assert forall p :: IsPrefix(p, w) ==> p == w[..|p|];
    ps
  }

  /** Every prefix of every word of the dictionary, and the empty string. */
  ghost function Prefixes(dictionary: seq<seq<Rune>>): (ps: set<seq<Rune>>)
    ensures [] in ps
    ensures forall p :: p in ps <==> p == [] || exists k :: 0 <= k < |dictionary| && IsPrefix(p, dictionary[k])
    decreases |dictionary|
  {
    if |dictionary| == 0 then {[]}
    else
      var k := |dictionary| - 1;
      var ps := Prefixes(dictionary[..k]) + WordPrefixes(dictionary[k]);
      assert forall k' :: 0 <= k' < k ==> dictionary[..k][k'] == dictionary[k'];
      assert forall p :: (exists k' :: 0 <= k' < |dictionary| && IsPrefix(p, dictionary[k'])) ==>
                         p in ps by {
        forall p | exists k' :: 0 <= k' < |dictionary| && IsPrefix(p, dictionary[k']) ensures p in ps {
          var k' :| 0 <= k' < |dictionary| && IsPrefix(p, dictionary[k']);
          if k' < k {
            assert dictionary[..k][k'] == dictionary[k'];
          }
        }
      }
      ps
  }

  /** The strings the nodes of the arena spell. */
  ghost function PathSet(nodes: seq<Node>): set<seq<Rune>>
    requires Shape(nodes)
  {
    PathsBelow(nodes, |nodes|)
  }

  /** The strings the first k nodes spell. */
  ghost function PathsBelow(nodes: seq<Node>, k: nat): set<seq<Rune>>
    requires Shape(nodes) && k <= |nodes|
  {
    set i: nat | i < k :: Path(nodes, i)
  }

  /** No two nodes spell the same string. */
  lemma {:induction false} PathInjective(nodes: seq<Node>, i: nat, j: nat)
    requires Shape(nodes) && i < |nodes| && j < |nodes| && Path(nodes, i) == Path(nodes, j)
    ensures i == j
    decreases i + j
  {
    if i != 0 && j != 0 {
      assert ParentEdge(nodes, i) && ParentEdge(nodes, j);
      var pi, pj := nodes[i].parent.value, nodes[j].parent.value;
      assert Path(nodes, pi) == Path(nodes, i)[..|Path(nodes, i)| - 1];
      assert Path(nodes, pj) == Path(nodes, j)[..|Path(nodes, j)| - 1];
      PathInjective(nodes, pi, pj);
    }
  }

  /** The first k nodes spell k different strings. */
  lemma {:induction false} PathSetSize(nodes: seq<Node>, k: nat)
    requires Shape(nodes) && k <= |nodes|
    ensures |PathsBelow(nodes, k)| == k
    decreases k
  {
    if k > 0 {
      PathSetSize(nodes, k - 1);
      PathsBelowStep(nodes, k);
    } else {
      assert PathsBelow(nodes, k) == {};
    }
  }

  /** Node k - 1 adds a string the nodes before it do not spell. */
  lemma PathsBelowStep(nodes: seq<Node>, k: nat)
    requires Shape(nodes) && 0 < k <= |nodes|
    ensures PathsBelow(nodes, k) == PathsBelow(nodes, k - 1) + {Path(nodes, k - 1)}
    ensures Path(nodes, k - 1) !in PathsBelow(nodes, k - 1)
  {
    var below, upto := PathsBelow(nodes, k - 1), PathsBelow(nodes, k);
    forall p | p in upto ensures p in below + {Path(nodes, k - 1)} {
      var i: nat :| i < k && Path(nodes, i) == p;
      if i < k - 1 {
        assert p in below;
      }
    }
    if Path(nodes, k - 1) in below {
      var i: nat :| i < k - 1 && Path(nodes, i) == Path(nodes, k - 1);
      PathInjective(nodes, i, k - 1);
    }
  }

  /* ---------------------------------------------------------------- */
  /* Entries                                                          */
  /* ---------------------------------------------------------------- */

  /**
   * The entry pass 1 leaves at the node spelling w: the last word of the
   * dictionary equal to w, with w's byte length; none for the empty
   * string or a string that is not a word.
   */
  ghost function EntryOf(dictionary: seq<seq<Rune>>, w: seq<Rune>): (e: Option<Entry>)
    ensures e.Some? ==> && w != []
                        && e.value.index < |dictionary| && dictionary[e.value.index] == w
                        && e.value.len == ByteLen(w)
                        && forall k :: e.value.index < k < |dictionary| ==> dictionary[k] != w
    ensures e.None? ==> w == [] || forall k :: 0 <= k < |dictionary| ==> dictionary[k] != w
    decreases |dictionary|
  {
    if |dictionary| == 0 then None
    else
      var k := |dictionary| - 1;
      if w != [] && dictionary[k] == w then Some(Entry(k, ByteLen(w)))
      else
        var e := EntryOf(dictionary[..k], w);
        assert forall k' :: 0 <= k' < k ==> dictionary[..k][k'] == dictionary[k'];
        e
  }

  /* ---------------------------------------------------------------- */
  /* Pass 1, step by step                                             */
  /* ---------------------------------------------------------------- */

  /** One step of pass 1 adds at most the node for word[..j + 1] and gives it the entry when the word ends there. */
  lemma InsertStepSummary(nodes: seq<Node>, idx: nat, word: seq<Rune>, j: nat, n: nat)
    requires Shape(nodes) && n < |nodes| && j < |word| && Path(nodes, n) == word[..j]
    ensures var (nodes', c) := InsertStep(nodes, idx, word, j, n);
      && Extends(nodes, nodes')
      && Path(nodes', c) == word[..j + 1]
      && PathSet(nodes') == PathSet(nodes) + {word[..j + 1]}
      && forall i :: 0 <= i < |nodes'| ==>
           nodes'[i].entry == if j + 1 == |word| && i == c then Some(Entry(idx, ByteLen(word)))
                              else if i < |nodes| then nodes[i].entry else None
  {
    var (nodes', c) := InsertStep(nodes, idx, word, j, n);
    InsertStepFacts(nodes, idx, word, j, n);
    PrefixSnoc(word, j);
    PathSetGrow(nodes, nodes', c);
  }

  /** Growing the arena by at most node c adds at most c's string to the strings spelt. */
  lemma PathSetGrow(nodes: seq<Node>, nodes': seq<Node>, c: nat)
    requires Shape(nodes) && Shape(nodes') && Extends(nodes, nodes') && c < |nodes'|
    requires |nodes'| == |nodes| || (|nodes'| == |nodes| + 1 && c == |nodes|)
    ensures PathSet(nodes') == PathSet(nodes) + {Path(nodes', c)}
  {
    forall i | 0 <= i < |nodes| ensures Path(nodes', i) == Path(nodes, i) {
      PathFrame(nodes, nodes', i);
    }
    forall p | p in PathSet(nodes') ensures p in PathSet(nodes) + {Path(nodes', c)} {
      var i: nat :| i < |nodes'| && Path(nodes', i) == p;
      if i != c {
        assert Path(nodes, i) == p;
      }
    }
    forall p | p in PathSet(nodes) ensures p in PathSet(nodes') {
      var i: nat :| i < |nodes| && Path(nodes, i) == p;
      assert Path(nodes', i) == p;
    }
    if c < |nodes| {
      assert Path(nodes, c) in PathSet(nodes);
    }
  }

  /** The prefixes of word from word[..j] on. */
  ghost function PrefixesFrom(word: seq<Rune>, j: nat): set<seq<Rune>>
    requires j <= |word|
  {
    set j' | j <= j' <= |word| :: word[..j']
  }

  lemma PrefixesFromStep(word: seq<Rune>, j: nat)
    requires j < |word|
    ensures PrefixesFrom(word, j) == {word[..j]} + PrefixesFrom(word, j + 1)
  {
    forall p | p in PrefixesFrom(word, j) ensures p in {word[..j]} + PrefixesFrom(word, j + 1) {
      var j' :| j <= j' <= |word| && word[..j'] == p;
      if j' > j {
        assert p in PrefixesFrom(word, j + 1);
      }
    }
  }

  /** The rest of pass 1 for one word, from rune j on, adds the nodes for the longer prefixes. */
  lemma {:induction false} InsertFromPaths(nodes: seq<Node>, idx: nat, word: seq<Rune>, j: nat, n: nat)
    requires Shape(nodes) && n < |nodes| && j <= |word| && Path(nodes, n) == word[..j]
    ensures Extends(nodes, InsertFrom(nodes, idx, word, j, n))
    ensures PathSet(InsertFrom(nodes, idx, word, j, n)) == PathSet(nodes) + PrefixesFrom(word, j)
    decreases |word| - j
  {
    if j == |word| {
      assert PrefixesFrom(word, j) == {word[..j]};
      assert Path(nodes, n) in PathSet(nodes);
    } else {
      var (nodes', c) := InsertStep(nodes, idx, word, j, n);
      InsertStepSummary(nodes, idx, word, j, n);
      InsertFromPaths(nodes', idx, word, j + 1, c);
      ExtendsTrans(nodes, nodes', InsertFrom(nodes', idx, word, j + 1, c));
      PrefixesFromStep(word, j);
      assert word[..j] in PathSet(nodes);
    }
  }

  /** ... and gives the entry for word to the node spelling word. */
  lemma {:induction false} InsertFromEntries(nodes: seq<Node>, idx: nat, word: seq<Rune>, j: nat, n: nat)
    requires Shape(nodes) && n < |nodes| && j <= |word| && Path(nodes, n) == word[..j]
    ensures var res := InsertFrom(nodes, idx, word, j, n);
      forall i :: 0 <= i < |res| ==>
        res[i].entry == if j < |word| && Path(res, i) == word then Some(Entry(idx, ByteLen(word)))
                        else if i < |nodes| then nodes[i].entry else None
    decreases |word| - j
  {
    if j < |word| {
      var (nodes', c) := InsertStep(nodes, idx, word, j, n);
      var res := InsertFrom(nodes', idx, word, j + 1, c);
      InsertStepSummary(nodes, idx, word, j, n);
      InsertFromEntries(nodes', idx, word, j + 1, c);
      InsertFromPaths(nodes', idx, word, j + 1, c);
      forall i | 0 <= i < |res|
        ensures res[i].entry == if Path(res, i) == word then Some(Entry(idx, ByteLen(word)))
                                else if i < |nodes| then nodes[i].entry else None
      {
        if j + 1 == |word| {
          assert word[..j + 1] == word;
          PathFrame(nodes', res, c);
          if Path(res, i) == word {
            PathInjective(res, i, c);
          }
        }
      }
    }
  }

  /* ---------------------------------------------------------------- */
  /* Pass 1 over the whole dictionary                                 */
  /* ---------------------------------------------------------------- */

  /**
   * After pass 1 the nodes spell exactly the prefixes of the words, and a
   * node's entry is the one EntryOf gives its string.
   */
  lemma {:induction false} Pass1Facts(dictionary: seq<seq<Rune>>)
    ensures PathSet(Pass1(dictionary)) == Prefixes(dictionary)
    ensures forall i :: 0 <= i < |Pass1(dictionary)| ==>
      Pass1(dictionary)[i].entry == EntryOf(dictionary, Path(Pass1(dictionary), i))
    decreases |dictionary|
  {
    var res := Pass1(dictionary);
    if |dictionary| == 0 {
      assert PathSet(res) == {[]} by {
        assert Path(res, 0) in PathSet(res);
      }
    } else {
      var k := |dictionary| - 1;
      var word := dictionary[k];
      var nodes := Pass1(dictionary[..k]);
      Pass1Facts(dictionary[..k]);
      assert Path(nodes, 0) == word[..0];
      InsertFromPaths(nodes, k, word, 0, 0);
      InsertFromEntries(nodes, k, word, 0, 0);
      forall i | 0 <= i < |res| ensures res[i].entry == EntryOf(dictionary, Path(res, i)) {
        if i < |nodes| {
          PathFrame(nodes, res, i);
        } else if !(word != [] && Path(res, i) == word) {
          assert EntryOf(dictionary[..k], Path(res, i)).None? by {
            NewPathNotOld(nodes, res, i);
            EntryIsPrefix(dictionary[..k], Path(res, i));
          }
        }
      }
    }
  }

  /** A string with an entry is a prefix of the words. */
  lemma EntryIsPrefix(dictionary: seq<seq<Rune>>, w: seq<Rune>)
    ensures EntryOf(dictionary, w).Some? ==> w in Prefixes(dictionary)
  {
    var e := EntryOf(dictionary, w);
    if e.Some? {
      assert IsPrefix(w, dictionary[e.value.index]);
    }
  }

  /** A node added to an arena spells a string no earlier node spells. */
  lemma NewPathNotOld(nodes: seq<Node>, res: seq<Node>, i: nat)
    requires Shape(nodes) && Shape(res) && Extends(nodes, res) && |nodes| <= i < |res|
    ensures Path(res, i) !in PathSet(nodes)
  {
    if Path(res, i) in PathSet(nodes) {
      var i': nat :| i' < |nodes| && Path(nodes, i') == Path(res, i);
      PathFrame(nodes, res, i');
      PathInjective(res, i, i');
    }
  }

  /** Pass 1 creates one node per distinct prefix of the words, the empty prefix being the root. */
  lemma NodeCount(dictionary: seq<seq<Rune>>)
    ensures |Pass1(dictionary)| == |Prefixes(dictionary)|
  {
    Pass1Facts(dictionary);
    PathSetSize(Pass1(dictionary), |Pass1(dictionary)|);
  }

  /* ---------------------------------------------------------------- */
  /* The links of passes 2 and 3                                      */
  /* ---------------------------------------------------------------- */

  /** Pass 3 only sets dictionary suffix links, and each one it sets leads to a proper suffix. */
  lemma DictLinkedSound(linked: seq<Node>)
    requires Shape(linked) && SuffixLinksSound(linked)
    ensures Linked(DictLinked(linked))
  {
    var nodes := DictLinked(linked);
    SkeletonShape(linked, nodes);
    forall i | 0 <= i < |nodes| && nodes[i].dictSuffixLink.Some?
      ensures ProperSuffixNode(nodes, nodes[i].dictSuffixLink.value, i)
    {
      var s := linked[i].suffixLink.value;
      var d := nodes[i].dictSuffixLink.value;
      FirstEntryChain(linked, linked[i].suffixLink);
      SuffixChainIsSuffix(linked, s, d);
      SuffixTrans(Path(linked, d), Path(linked, s), Path(linked, i));
    }
  }

  /** FirstEntry reads only suffix links and entries. */
  lemma {:induction false} FirstEntryFrame(a: seq<Node>, b: seq<Node>, q: Option<nat>)
    requires Shape(a) && SuffixLinksSound(a) && Shape(b) && SuffixLinksSound(b) && SameSkeleton(a, b)
    requires forall i :: 0 <= i < |a| ==> b[i].suffixLink == a[i].suffixLink && b[i].entry == a[i].entry
    requires q.Some? ==> q.value < |a|
    ensures FirstEntry(b, q) == FirstEntry(a, q)
    decreases if q.Some? then |Path(a, q.value)| + 1 else 0
  {
    if q.Some? && a[q.value].entry.None? {
      FirstEntryFrame(a, b, a[q.value].suffixLink);
    }
  }

  /** After pass 3 a node's dictionary suffix link is FirstEntry from its suffix link, read in the final arena. */
  lemma DictLinkedFirst(linked: seq<Node>, c: nat)
    requires Shape(linked) && SuffixLinksSound(linked) && c < |linked|
    ensures Linked(DictLinked(linked))
    ensures var nodes := DictLinked(linked);
      nodes[c].dictSuffixLink == FirstEntry(nodes, nodes[c].suffixLink)
  {
    var nodes := DictLinked(linked);
    DictLinkedSound(linked);
    SkeletonShape(linked, nodes);
    FirstEntryFrame(linked, nodes, linked[c].suffixLink);
  }

  /**
   * The tree New builds for a non-empty dictionary: its links are sound,
   * it has one node per distinct prefix of the words, and a node has an
   * entry exactly when it spells a non-empty word, the entry of the last
   * such word in the dictionary, with its byte length.
   */
  lemma BuiltFacts(dictionary: seq<seq<Rune>>)
    requires |dictionary| > 0
    ensures Built(dictionary).root == Some(0)
    ensures var nodes := Built(dictionary).nodes;
      && Linked(nodes)
      && PathSet(nodes) == Prefixes(dictionary)
      && |nodes| == |Prefixes(dictionary)|
      && forall i :: 0 <= i < |nodes| ==> nodes[i].entry == EntryOf(dictionary, Path(nodes, i))
  {
    var base := Pass1(dictionary);
    var nodes := Built(dictionary).nodes;
    BuiltArena(dictionary);
    Pass1Facts(dictionary);
    NodeCount(dictionary);
    SkeletonPaths(base, nodes);
  }

  /** The built tree has the skeleton and the entries pass 1 left; only links differ. */
  lemma BuiltArena(dictionary: seq<seq<Rune>>)
    requires |dictionary| > 0
    ensures var nodes := Built(dictionary).nodes;
      var base := Pass1(dictionary);
      && Linked(nodes) && SameSkeleton(base, nodes)
      && forall i :: 0 <= i < |nodes| ==> nodes[i].entry == base[i].entry
  {
    var base := Pass1(dictionary);
    SuffixLinkedSound(base);
    var linked := SuffixLinked(base);
    var nodes := DictLinked(linked);
    assert Built(dictionary).nodes == nodes;
    DictLinkedSound(linked);
  }

  /** Arenas with the same skeleton spell the same strings at the same indices. */
  lemma SkeletonPaths(a: seq<Node>, b: seq<Node>)
    requires Shape(a) && SameSkeleton(a, b)
    ensures Shape(b) && PathSet(b) == PathSet(a)
    ensures forall i :: 0 <= i < |a| ==> Path(b, i) == Path(a, i)
  {
    SkeletonShape(a, b);
    assert PathSet(b) == PathSet(a) by {
      assert forall i :: 0 <= i < |b| ==> Path(b, i) == Path(a, i);
    }
  }

  /**
   * Suffix links of the built tree: none at the root, the root for a
   * child of the root, and a proper suffix wherever one is set.
   */
  lemma BuiltSuffixLinks(dictionary: seq<seq<Rune>>)
    requires |dictionary| > 0
    ensures var nodes := Built(dictionary).nodes;
      && Linked(nodes)
      && nodes[0].suffixLink.None?
      && (forall c :: 0 < c < |nodes| && nodes[c].parent == Some(0) ==> nodes[c].suffixLink == Some(0))
      && (forall c :: 0 <= c < |nodes| && nodes[c].suffixLink.Some? ==>
            var s := nodes[c].suffixLink.value;
            s < |nodes| && |Path(nodes, s)| < |Path(nodes, c)| && IsSuffix(Path(nodes, s), Path(nodes, c)))
  {
    BuiltFacts(dictionary);
  }

  /**
   * The dictionary suffix link of node c of the built tree is the first
   * node with an entry on c's suffix chain after c itself, and is nil when
   * no node after c on that chain has an entry.
   */
  lemma BuiltDictLink(dictionary: seq<seq<Rune>>, c: nat)
    requires |dictionary| > 0 && c < |Built(dictionary).nodes|
    ensures var nodes := Built(dictionary).nodes;
      Linked(nodes) && FirstOnChain(nodes, nodes[c].suffixLink, nodes[c].dictSuffixLink)
  {
    var base := Pass1(dictionary);
    SuffixLinkedSound(base);
    var linked := SuffixLinked(base);
    var nodes := DictLinked(linked);
    assert Built(dictionary).nodes == nodes;
    DictLinkedFirst(linked, c);
    FirstEntryChain(nodes, nodes[c].suffixLink);
  }
}
