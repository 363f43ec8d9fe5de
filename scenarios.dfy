/**
 * Concrete runs of New and Search that show what the tree does with
 * missing suffix links, with dictionary suffix chains and with the empty
 * word. Runes are written as code points: 97 is 'a', 98 is 'b', 99 is 'c'.
 *
 * Each run is cut into small lemmas: a text is a parameter related to
 * the one before by `front + [r]` (the literals appear only in the last
 * lemma of a run, with helpers such as AbTexts relating them), and each
 * step of a run (ReadRune) and each Record (RecordNothing, RecordSnoc)
 * is its own lemma. A single lemma unfolding a whole run over literal
 * texts and arenas is beyond what the solver proves in reasonable time.
 */
module Scenarios {
  import opened Text
  import opened Nodes
  import opened Builder
  import opened Matcher
  import opened SearchFacts

  /** The arena for ["ab"]: root, "a" linked to the root, "ab" with no suffix link. */
  const AbArena: seq<Node> := [
    Node(0, None, None, map[97 := 1], None, None),
    Node(97, None, Some(0), map[98 := 2], Some(0), None),
    Node(98, Some(Entry(0, 2)), Some(1), map[], None, None)]

  /** The arena for ["ab"] after pass 1, and after pass 2. */
  const AbBase: seq<Node> := [
    Node(0, None, None, map[97 := 1], None, None),
    Node(97, None, Some(0), map[98 := 2], None, None),
    Node(98, Some(Entry(0, 2)), Some(1), map[], None, None)]
  const AbLinked: seq<Node> := [
    Node(0, None, None, map[97 := 1], None, None),
    Node(97, None, Some(0), map[98 := 2], Some(0), None),
    Node(98, Some(Entry(0, 2)), Some(1), map[], None, None)]

  /** Pass 1 over ["ab"]: a node per rune, the entry on the last. */
  lemma Pass1Ab()
    ensures Pass1([[97, 98]]) == AbBase
  {
    var dict: seq<seq<Rune>> := [[97, 98]];
    var word := dict[0];
    assert dict[..0] == [];
    var n0 := [RootNode];
    var n1 := [RootNode.(children := map[97 := 1]), Fresh(97, Some(0))];
    var n2 := [RootNode.(children := map[97 := 1]), Fresh(97, Some(0)).(children := map[98 := 2]), Fresh(98, Some(1))];
    assert ByteLen(word) == 2;
    assert RootNode.children == map[] && Fresh(97, Some(0)).children == map[];
    assert n0[0].children[97 := 1] == map[97 := 1];
    assert n0[0 := n0[0].(children := n0[0].children[97 := 1])] + [Fresh(97, Some(0))] == n1;
    assert Descend(n0, 0, 97) == (n1, 1);
    assert InsertStep(n0, 0, word, 0, 0) == (n1, 1);
    assert n1[1].children[98 := 2] == map[98 := 2];
    assert n1[1 := n1[1].(children := n1[1].children[98 := 2])] + [Fresh(98, Some(1))] == n2;
    assert Descend(n1, 1, 98) == (n2, 2);
    assert InsertStep(n1, 0, word, 1, 1) == (SetEntry(n2, 2, 0, 2), 2);
  }

  /** Pass 2 over it: "a" links to the root; "ab" gets no link, as the root has no child 'b' and no link of its own. */
  lemma LinkAb()
    ensures Shape(AbBase) && SuffixLinked(AbBase) == AbLinked
  {
    Pass1Ab();
    assert SuffixLinkOf(AbBase, 2) == None by {
      assert SuffixWalk(AbBase, Some(0), 98) == None;
    }
    var linked := SuffixLinked(AbBase);
    assert |linked| == 3;
    assert linked[0] == AbLinked[0] && linked[1] == AbLinked[1] && linked[2] == AbLinked[2];
  }

  /** Pass 3 over the linked arena, which leaves it unchanged: no suffix chain reaches an entry, so every dictionary suffix link stays nil. */
  lemma DictLinkAb()
    ensures Shape(AbLinked) && SuffixLinksSound(AbLinked) && DictLinked(AbLinked) == AbArena
  {
    LinkAb();
    SuffixLinkedSound(AbBase);
    assert FirstEntry(AbLinked, Some(0)) == None by {
      assert AbLinked[0].entry == None && AbLinked[0].suffixLink == None;
    }
    var d := DictLinked(AbLinked);
    assert |d| == 3;
    assert d[0] == AbArena[0] && d[1] == AbArena[1] && d[2] == AbArena[2];
  }

  /** The tree New builds for the dictionary ["ab"]. */
  lemma BuiltAb()
    ensures Built([[97, 98]]) == Trie(Some(0), AbArena)
  {
    var dict: seq<seq<Rune>> := [[97, 98]];
    assert Pass1(dict) == AbBase by { Pass1Ab(); }
    assert Shape(AbBase) && SuffixLinked(AbBase) == AbLinked by { LinkAb(); }
    assert Shape(AbLinked) && SuffixLinksSound(AbLinked) && DictLinked(AbLinked) == AbArena by { DictLinkAb(); }
    assert Built(dict) == Trie(Some(0), DictLinked(SuffixLinked(AbBase)));
  }

  lemma AbValid()
    ensures Linked(AbArena)
  {
    assert ValidTrie(Built([[97, 98]])) by {
      BuiltValid([[97, 98]]);
    }
    BuiltAb();
  }

  /** A transition along a child edge. */
  lemma NextDown(nodes: seq<Node>, n: nat, r: Rune, c: nat)
    requires Linked(nodes) && n < |nodes| && r in nodes[n].children && nodes[n].children[r] == c
    ensures Next(nodes, n, r) == c
  {
  }

  /** A transition from a node with neither a child for r nor a suffix link: back to the root. */
  lemma NextRoot(nodes: seq<Node>, n: nat, r: Rune)
    requires Linked(nodes) && n < |nodes| && r !in nodes[n].children && nodes[n].suffixLink.None?
    ensures Next(nodes, n, r) == 0
  {
  }

  /** The transitions of AbArena that reading "abab" takes: down from the root along "ab", ... */
  lemma AbDown()
    ensures Linked(AbArena)
    ensures Next(AbArena, 0, 97) == 1 && Next(AbArena, 1, 98) == 2
  {
    AbValid();
    var nodes := AbArena;
    assert nodes[0].children == map[97 := 1] && nodes[1].children == map[98 := 2];
    NextDown(nodes, 0, 97, 1);
    NextDown(nodes, 1, 98, 2);
  }

  /** ... then back to the root for "ab" again: neither "ab" nor the root has a child for the next rune, and neither has a suffix link. */
  lemma AbBack()
    ensures Linked(AbArena)
    ensures Next(AbArena, 2, 97) == 0 && Next(AbArena, 0, 98) == 0
  {
    AbValid();
    var nodes := AbArena;
    assert nodes[0].children == map[97 := 1] && nodes[2].children == map[];
    NextRoot(nodes, 2, 97);
    NextRoot(nodes, 0, 98);
  }

  /** The entries `entries` collects on AbArena: only node "ab" has one, and no node has a dictionary suffix link. */
  lemma AbEntries()
    ensures Linked(AbArena)
    ensures EntriesOf(AbArena, 0) == [] && EntriesOf(AbArena, 1) == [] && EntriesOf(AbArena, 2) == [Entry(0, 2)]
  {
    AbValid();
    var nodes := AbArena;
    assert nodes[0].dictSuffixLink == None && nodes[1].dictSuffixLink == None && nodes[2].dictSuffixLink == None;
    assert ChainEntries(nodes, None) == [];
    assert Own(nodes, 0) == [] && Own(nodes, 1) == [] && Own(nodes, 2) == [Entry(0, 2)];
  }

  /** Recording nothing leaves a report as it is. */
  lemma RecordNothing(m: Report, end: int)
    ensures Record(m, [], end) == m
  {
  }

  /** Recording the entry of "ab" after reading "ab" (end offset 2). */
  lemma RecordAb()
    ensures Record(map[], [Entry(0, 2)], 2) == map[0 := [0]]
  {
    RecordNothing(map[], 2);
    assert [] + [Entry(0, 2)] == [Entry(0, 2)];
    RecordSnoc(map[], [], Entry(0, 2), 2, 0);
    assert Add(map[], 0, 0) == map[0 := [0]] by { assert [] + [0] == [0]; }
  }

  /** The texts of the "abab" run, each one rune longer than the one before. */
  lemma AbTexts(t1: seq<Rune>, t2: seq<Rune>, t3: seq<Rune>, t4: seq<Rune>)
    requires t1 == [97] && t2 == [97, 98] && t3 == [97, 98, 97] && t4 == [97, 98, 97, 98]
    ensures t1 == [] + [97] && t2 == t1 + [98] && t3 == t2 + [97] && t4 == t3 + [98]
  {
  }

  /** "ab" on any arena with the transitions and entries of AbArena: node 2, and "ab" at 0. */
  lemma AbRunAb(nodes: seq<Node>, t1: seq<Rune>, t2: seq<Rune>)
    requires Linked(nodes) && 2 < |nodes| && t1 == [] + [97] && t2 == t1 + [98]
    requires Next(nodes, 0, 97) == 1 && Next(nodes, 1, 98) == 2
    requires EntriesOf(nodes, 1) == [] && EntriesOf(nodes, 2) == [Entry(0, 2)]
    ensures StateAfter(nodes, t2) == 2 && ByteLen(t2) == 2 && Matches(nodes, t2) == map[0 := [0]]
  {
    RecordNothing(map[], 1);
    RecordAb();
    ReadRune(nodes, [], 97, t1, 0, 0, map[], 1, [], 1, map[]);
    ReadRune(nodes, t1, 98, t2, 1, 1, map[], 2, [Entry(0, 2)], 2, map[0 := [0]]);
  }

  /** ... and then "ab" again, where neither rune has a transition and nothing more is reported. */
  lemma AbRunAbab(nodes: seq<Node>, t2: seq<Rune>, t3: seq<Rune>, t4: seq<Rune>)
    requires Linked(nodes) && 2 < |nodes| && t3 == t2 + [97] && t4 == t3 + [98]
    requires StateAfter(nodes, t2) == 2 && ByteLen(t2) == 2 && Matches(nodes, t2) == map[0 := [0]]
    requires Next(nodes, 2, 97) == 0 && Next(nodes, 0, 98) == 0 && EntriesOf(nodes, 0) == []
    ensures Matches(nodes, t4) == map[0 := [0]]
  {
    RecordNothing(map[0 := [0]], 3);
    RecordNothing(map[0 := [0]], 4);
    ReadRune(nodes, t2, 97, t3, 2, 2, map[0 := [0]], 0, [], 3, map[0 := [0]]);
    ReadRune(nodes, t3, 98, t4, 0, 3, map[0 := [0]], 0, [], 4, map[0 := [0]]);
  }

  /** AbArena after "abab". */
  lemma AbReadAbab()
    ensures Linked(AbArena)
    ensures Matches(AbArena, [97, 98, 97, 98]) == map[0 := [0]]
  {
    AbDown();
    AbBack();
    AbEntries();
    AbTexts([97], [97, 98], [97, 98, 97], [97, 98, 97, 98]);
    AbRunAb(AbArena, [97], [97, 98]);
    AbRunAbab(AbArena, [97, 98], [97, 98, 97], [97, 98, 97, 98]);
  }

  /**
   * With ["ab"], Search over "abab" reports only the first occurrence:
   * node "ab" has no suffix link, so at the second 'a' find fails and
   * the automaton restarts at the root without looking at that 'a'
   * again; the second "ab" is missed.
   */
  lemma SearchAbab()
    ensures ValidTrie(Built([[97, 98]]))
    ensures SearchSpec(Built([[97, 98]]), [97, 98, 97, 98]) == Some(map[0 := [0]])
  {
    BuiltAb();
    AbReadAbab();
  }

  /** The arena for ["a", "aa", "aaa"]: a chain of 'a' nodes, each linked to the one above it. */
  const AaaArena: seq<Node> := [
    Node(0, None, None, map[97 := 1], None, None),
    Node(97, Some(Entry(0, 1)), Some(0), map[97 := 2], Some(0), None),
    Node(97, Some(Entry(1, 2)), Some(1), map[97 := 3], Some(1), Some(1)),
    Node(97, Some(Entry(2, 3)), Some(2), map[], Some(2), Some(2))]

  /** Pass 1 over ["a"]. */
  lemma Pass1A()
    ensures Pass1([[97]]) == [
      Node(0, None, None, map[97 := 1], None, None),
      Node(97, Some(Entry(0, 1)), Some(0), map[], None, None)]
  {
    var dict: seq<seq<Rune>> := [[97]];
    var word := dict[0];
    assert dict[..0] == [];
    var n0 := [RootNode];
    var n1 := [RootNode.(children := map[97 := 1]), Fresh(97, Some(0))];
    assert RootNode.children == map[] && n0[0].children[97 := 1] == map[97 := 1];
    assert n0[0 := n0[0].(children := n0[0].children[97 := 1])] + [Fresh(97, Some(0))] == n1;
    assert Descend(n0, 0, 97) == (n1, 1);
    assert InsertStep(n0, 0, word, 0, 0) == (SetEntry(n1, 1, 0, 1), 1);
  }

  /** Pass 1 over ["a", "aa"]. */
  lemma Pass1AA()
    ensures Pass1([[97], [97, 97]]) == [
      Node(0, None, None, map[97 := 1], None, None),
      Node(97, Some(Entry(0, 1)), Some(0), map[97 := 2], None, None),
      Node(97, Some(Entry(1, 2)), Some(1), map[], None, None)]
  {
    var dict: seq<seq<Rune>> := [[97], [97, 97]];
    var word := dict[1];
    assert dict[..1] == [[97]];
    Pass1A();
    var n1 := Pass1([[97]]);
    assert Descend(n1, 0, 97) == (n1, 1);
    assert ByteLen(word) == 2;
    assert InsertStep(n1, 1, word, 0, 0) == (n1, 1);
    var n2 := n1[1 := n1[1].(children := map[97 := 2])] + [Fresh(97, Some(1))];
    assert n1[1].children[97 := 2] == map[97 := 2];
    assert Descend(n1, 1, 97) == (n2, 2);
    assert InsertStep(n1, 1, word, 1, 1) == (SetEntry(n2, 2, 1, 2), 2);
  }

  /** The arena for ["a", "aa", "aaa"] after pass 1, and after pass 2. */
  const AaaBase: seq<Node> := [
    Node(0, None, None, map[97 := 1], None, None),
    Node(97, Some(Entry(0, 1)), Some(0), map[97 := 2], None, None),
    Node(97, Some(Entry(1, 2)), Some(1), map[97 := 3], None, None),
    Node(97, Some(Entry(2, 3)), Some(2), map[], None, None)]
  const AaaLinked: seq<Node> := [
    Node(0, None, None, map[97 := 1], None, None),
    Node(97, Some(Entry(0, 1)), Some(0), map[97 := 2], Some(0), None),
    Node(97, Some(Entry(1, 2)), Some(1), map[97 := 3], Some(1), None),
    Node(97, Some(Entry(2, 3)), Some(2), map[], Some(2), None)]

  /** Pass 1 over ["a", "aa", "aaa"]. */
  lemma Pass1AAA()
    ensures Pass1([[97], [97, 97], [97, 97, 97]]) == AaaBase
  {
    var dict: seq<seq<Rune>> := [[97], [97, 97], [97, 97, 97]];
    var word := dict[2];
    assert dict[..2] == [[97], [97, 97]];
    Pass1AA();
    var n2 := Pass1([[97], [97, 97]]);
    assert ByteLen(word) == 3;
    assert Descend(n2, 0, 97) == (n2, 1);
    assert InsertStep(n2, 2, word, 0, 0) == (n2, 1);
    assert Descend(n2, 1, 97) == (n2, 2);
    assert InsertStep(n2, 2, word, 1, 1) == (n2, 2);
    var n3 := n2[2 := n2[2].(children := map[97 := 3])] + [Fresh(97, Some(2))];
    assert n2[2].children[97 := 3] == map[97 := 3];
    assert Descend(n2, 2, 97) == (n3, 3);
    assert InsertStep(n2, 2, word, 2, 2) == (SetEntry(n3, 3, 2, 3), 3);
  }

  /** The links pass 2 computes for the nodes of AaaBase. */
  lemma AaaLinkOf()
    ensures Shape(AaaBase)
    ensures SuffixLinkOf(AaaBase, 0) == None && SuffixLinkOf(AaaBase, 1) == Some(0)
    ensures SuffixLinkOf(AaaBase, 2) == Some(1) && SuffixLinkOf(AaaBase, 3) == Some(2)
  {
    Pass1AAA();
    assert SuffixLinkOf(AaaBase, 2) == Some(1) by {
      assert SuffixWalk(AaaBase, Some(0), 97) == Some(1);
    }
    assert SuffixLinkOf(AaaBase, 3) == Some(2) by {
      assert SuffixWalk(AaaBase, Some(1), 97) == Some(2);
    }
  }

  /** Pass 2 over the arena for ["a", "aa", "aaa"]: each node links to the node one 'a' shorter. */
  lemma LinkAaa()
    ensures Shape(AaaBase) && SuffixLinked(AaaBase) == AaaLinked
  {
    AaaLinkOf();
    var linked := SuffixLinked(AaaBase);
    assert |linked| == 4;
    assert linked[0] == AaaLinked[0] && linked[1] == AaaLinked[1];
    assert linked[2] == AaaLinked[2] && linked[3] == AaaLinked[3];
  }

  /** The links pass 3 computes for the nodes of AaaLinked: the first entry node on each suffix chain. */
  lemma AaaDictLinkOf()
    ensures Shape(AaaLinked) && SuffixLinksSound(AaaLinked)
    ensures DictLinkOf(AaaLinked, 0) == None && DictLinkOf(AaaLinked, 1) == None
    ensures DictLinkOf(AaaLinked, 2) == Some(1) && DictLinkOf(AaaLinked, 3) == Some(2)
  {
    LinkAaa();
    SuffixLinkedSound(AaaBase);
    assert FirstEntry(AaaLinked, Some(0)) == None by {
      assert AaaLinked[0].entry == None && AaaLinked[0].suffixLink == None;
    }
  }

  /** Pass 3 over it: the dictionary suffix link of each node but "a" is the node one 'a' shorter. */
  lemma DictLinkAaa()
    ensures Shape(AaaLinked) && SuffixLinksSound(AaaLinked) && DictLinked(AaaLinked) == AaaArena
  {
    AaaDictLinkOf();
    var d := DictLinked(AaaLinked);
    assert |d| == 4;
    assert d[0] == AaaArena[0] && d[1] == AaaArena[1];
    assert d[2] == AaaArena[2] && d[3] == AaaArena[3];
  }

  /** The tree New builds for ["a", "aa", "aaa"]. */
  lemma BuiltAaa()
    ensures Built([[97], [97, 97], [97, 97, 97]]) == Trie(Some(0), AaaArena)
  {
    var dict: seq<seq<Rune>> := [[97], [97, 97], [97, 97, 97]];
    assert Pass1(dict) == AaaBase by { Pass1AAA(); }
    assert Shape(AaaBase) && SuffixLinked(AaaBase) == AaaLinked by { LinkAaa(); }
    assert Shape(AaaLinked) && SuffixLinksSound(AaaLinked) && DictLinked(AaaLinked) == AaaArena by { DictLinkAaa(); }
    assert Built(dict) == Trie(Some(0), DictLinked(SuffixLinked(AaaBase)));
  }

  lemma AaaValid()
    ensures Linked(AaaArena)
  {
    assert ValidTrie(Built([[97], [97, 97], [97, 97, 97]])) by {
      BuiltValid([[97], [97, 97], [97, 97, 97]]);
    }
    BuiltAaa();
  }

  /** Each 'a' moves one node down the chain. */
  lemma AaaNext()
    ensures Linked(AaaArena)
    ensures Next(AaaArena, 0, 97) == 1 && Next(AaaArena, 1, 97) == 2 && Next(AaaArena, 2, 97) == 3
  {
    AaaValid();
    var nodes := AaaArena;
    assert nodes[0].children == map[97 := 1] && nodes[1].children == map[97 := 2] && nodes[2].children == map[97 := 3];
    NextDown(nodes, 0, 97, 1);
    NextDown(nodes, 1, 97, 2);
    NextDown(nodes, 2, 97, 3);
  }

  /** The entries `entries` collects at "a": its own. */
  lemma AaaEntries1()
    ensures Linked(AaaArena) && EntriesOf(AaaArena, 1) == [Entry(0, 1)]
  {
    AaaValid();
    assert AaaArena[1].dictSuffixLink == None;
    assert Own(AaaArena, 1) == [Entry(0, 1)];
    assert ChainEntries(AaaArena, None) == [];
  }

  /** At "aa": its own entry, then those of "a". */
  lemma AaaEntries2()
    ensures Linked(AaaArena) && EntriesOf(AaaArena, 2) == [Entry(1, 2), Entry(0, 1)]
  {
    AaaEntries1();
    assert AaaArena[1].dictSuffixLink == None && AaaArena[2].dictSuffixLink == Some(1);
    assert Own(AaaArena, 2) == [Entry(1, 2)];
    assert ChainEntries(AaaArena, Some(1)) == [Entry(0, 1)] + [];
  }

  /** At "aaa": its own entry, those of "aa" (which include "a"), then those of "a" again. */
  lemma AaaEntries3()
    ensures Linked(AaaArena) && EntriesOf(AaaArena, 3) == [Entry(2, 3), Entry(1, 2), Entry(0, 1), Entry(0, 1)]
    ensures EntriesOf(AaaArena, 2) == [Entry(1, 2), Entry(0, 1)] && EntriesOf(AaaArena, 1) == [Entry(0, 1)]
  {
    AaaEntries2();
    AaaEntries1();
    assert AaaArena[2].dictSuffixLink == Some(1) && AaaArena[3].dictSuffixLink == Some(2);
    assert Own(AaaArena, 3) == [Entry(2, 3)];
    assert ChainEntries(AaaArena, Some(1)) == [Entry(0, 1)] + [];
    assert ChainEntries(AaaArena, Some(2)) == [Entry(1, 2), Entry(0, 1)] + [Entry(0, 1)];
  }

  /** Recording the entry of "a" after reading "a" (end offset 1). */
  lemma RecordA()
    ensures Record(map[], [Entry(0, 1)], 1) == map[0 := [0]]
  {
    assert [Entry(0, 1)][..0] == [];
    assert Add(map[], 0, 0) == map[0 := [0]] by { assert [] + [0] == [0]; }
  }

  /** Recording the two entries at "aa" after reading "aa" (end offset 2). */
  lemma RecordAa()
    ensures Record(map[0 := [0]], [Entry(1, 2), Entry(0, 1)], 2) == map[0 := [0, 1], 1 := [0]]
  {
    var s1, es := [Entry(1, 2)], [Entry(1, 2), Entry(0, 1)];
    assert s1[..0] == [] && es[..1] == s1;
    assert Add(map[0 := [0]], 1, 0) == map[0 := [0], 1 := [0]] by { assert [] + [0] == [0]; }
    assert Add(map[0 := [0], 1 := [0]], 0, 1) == map[0 := [0, 1], 1 := [0]] by { assert [0] + [1] == [0, 1]; }
    assert Record(map[0 := [0]], s1, 2) == map[0 := [0], 1 := [0]];
  }

  /** Recording one more entry e appends its start offset o to the list of e's word. */
  lemma RecordSnoc(m: Report, es: seq<Entry>, e: Entry, end: int, o: int)
    requires o == end - e.len
    ensures Record(m, es + [e], end) == Add(Record(m, es, end), e.index, o)
  {
    assert (es + [e])[..|es|] == es;
  }

  /** The four additions the entries at "aaa" make. */
  lemma AaaAdds()
    ensures Add(map[0 := [0, 1], 1 := [0]], 2, 0) == map[0 := [0, 1], 1 := [0], 2 := [0]]
    ensures Add(map[0 := [0, 1], 1 := [0], 2 := [0]], 1, 1) == map[0 := [0, 1], 1 := [0, 1], 2 := [0]]
    ensures Add(map[0 := [0, 1], 1 := [0, 1], 2 := [0]], 0, 2) == map[0 := [0, 1, 2], 1 := [0, 1], 2 := [0]]
    ensures Add(map[0 := [0, 1, 2], 1 := [0, 1], 2 := [0]], 0, 2) == map[0 := [0, 1, 2, 2], 1 := [0, 1], 2 := [0]]
  {
    assert [] + [0] == [0];
    assert [0] + [1] == [0, 1];
    assert [0, 1] + [2] == [0, 1, 2];
    assert [0, 1, 2] + [2] == [0, 1, 2, 2];
  }

  /** Recording the four entries at "aaa" after reading "aaa" (end offset 3). */
  lemma RecordAaa()
    ensures Record(map[0 := [0, 1], 1 := [0]], [Entry(2, 3), Entry(1, 2), Entry(0, 1), Entry(0, 1)], 3) ==
      map[0 := [0, 1, 2, 2], 1 := [0, 1], 2 := [0]]
  {
    var e1, e2, e3 := Entry(2, 3), Entry(1, 2), Entry(0, 1);
    var m0 := map[0 := [0, 1], 1 := [0]];
    assert [] + [e1] == [e1] && [e1] + [e2] == [e1, e2];
    assert [e1, e2] + [e3] == [e1, e2, e3] && [e1, e2, e3] + [e3] == [e1, e2, e3, e3];
    AaaAdds();
    RecordNothing(m0, 3);
    RecordSnoc(m0, [], e1, 3, 0);
    RecordSnoc(m0, [e1], e2, 3, 1);
    RecordSnoc(m0, [e1, e2], e3, 3, 2);
    RecordSnoc(m0, [e1, e2, e3], e3, 3, 2);
  }

  /** One rune of a run: Matcher.MatchesStep for a text written front + [r] rather than text[..j + 1]. */
  lemma ReadStep(nodes: seq<Node>, front: seq<Rune>, r: Rune)
    requires Linked(nodes)
    ensures StateAfter(nodes, front + [r]) == Next(nodes, StateAfter(nodes, front), r)
    ensures ByteLen(front + [r]) == ByteLen(front) + RuneLen(r)
    ensures Matches(nodes, front + [r]) ==
      Record(Matches(nodes, front), EntriesOf(nodes, StateAfter(nodes, front + [r])), ByteLen(front + [r]))
  {
    var t := front + [r];
    assert t[..|t| - 1] == front;
  }

  /** ReadStep with every value named: what a concrete run checks at each rune, t being front + [r]. */
  lemma ReadRune(nodes: seq<Node>, front: seq<Rune>, r: Rune, t: seq<Rune>, n: nat, b: int, m: Report,
                 n': nat, es: seq<Entry>, end: int, m': Report)
    requires Linked(nodes) && n < |nodes| && t == front + [r]
    requires StateAfter(nodes, front) == n && ByteLen(front) == b && Matches(nodes, front) == m
    requires Next(nodes, n, r) == n' && EntriesOf(nodes, n') == es
    requires end == b + RuneLen(r) && Record(m, es, end) == m'
    ensures StateAfter(nodes, t) == n' && ByteLen(t) == end && Matches(nodes, t) == m'
  {
    ReadStep(nodes, front, r);
    assert ByteLen(t) == end;
  }

  /** Reading "a" on an arena that moves from the root to node 1 for 'a' and reports "a" there. */
  lemma ReadA(nodes: seq<Node>, t1: seq<Rune>)
    requires Linked(nodes) && 1 < |nodes| && t1 == [] + [97]
    requires Next(nodes, 0, 97) == 1 && EntriesOf(nodes, 1) == [Entry(0, 1)]
    ensures StateAfter(nodes, t1) == 1 && ByteLen(t1) == 1 && Matches(nodes, t1) == map[0 := [0]]
  {
    RecordA();
    ReadRune(nodes, [], 97, t1, 0, 0, map[], 1, [Entry(0, 1)], 1, map[0 := [0]]);
  }

  /** Reading on with a second 'a' to node 2, which reports "aa" and then "a". */
  lemma ReadAa(nodes: seq<Node>, t1: seq<Rune>, t2: seq<Rune>)
    requires Linked(nodes) && 2 < |nodes| && t2 == t1 + [97]
    requires StateAfter(nodes, t1) == 1 && ByteLen(t1) == 1 && Matches(nodes, t1) == map[0 := [0]]
    requires Next(nodes, 1, 97) == 2 && EntriesOf(nodes, 2) == [Entry(1, 2), Entry(0, 1)]
    ensures StateAfter(nodes, t2) == 2 && ByteLen(t2) == 2 && Matches(nodes, t2) == map[0 := [0, 1], 1 := [0]]
  {
    RecordAa();
    ReadRune(nodes, t1, 97, t2, 1, 1, map[0 := [0]], 2, [Entry(1, 2), Entry(0, 1)], 2, map[0 := [0, 1], 1 := [0]]);
  }

  /** And with a third 'a' to node 3, which reports "aaa", "aa", "a" and "a" again. */
  lemma ReadAaaStep(nodes: seq<Node>, t2: seq<Rune>, t3: seq<Rune>)
    requires Linked(nodes) && 3 < |nodes| && t3 == t2 + [97]
    requires StateAfter(nodes, t2) == 2 && ByteLen(t2) == 2 && Matches(nodes, t2) == map[0 := [0, 1], 1 := [0]]
    requires Next(nodes, 2, 97) == 3 && EntriesOf(nodes, 3) == [Entry(2, 3), Entry(1, 2), Entry(0, 1), Entry(0, 1)]
    ensures Matches(nodes, t3) == map[0 := [0, 1, 2, 2], 1 := [0, 1], 2 := [0]]
  {
    RecordAaa();
    ReadRune(nodes, t2, 97, t3, 2, 2, map[0 := [0, 1], 1 := [0]], 3,
      [Entry(2, 3), Entry(1, 2), Entry(0, 1), Entry(0, 1)], 3, map[0 := [0, 1, 2, 2], 1 := [0, 1], 2 := [0]]);
  }

  /** The texts of the "aaa" run, each one rune longer than the one before. */
  lemma AaaTexts(t1: seq<Rune>, t2: seq<Rune>, t3: seq<Rune>)
    requires t1 == [97] && t2 == [97, 97] && t3 == [97, 97, 97]
    ensures t1 == [] + [97] && t2 == t1 + [97] && t3 == t2 + [97]
  {
  }

  /** The "aaa" run on any arena with the transitions and entries of AaaArena. */
  lemma AaaRun(nodes: seq<Node>, t1: seq<Rune>, t2: seq<Rune>, t3: seq<Rune>)
    requires Linked(nodes) && 3 < |nodes| && t1 == [] + [97] && t2 == t1 + [97] && t3 == t2 + [97]
    requires Next(nodes, 0, 97) == 1 && Next(nodes, 1, 97) == 2 && Next(nodes, 2, 97) == 3
    requires EntriesOf(nodes, 1) == [Entry(0, 1)] && EntriesOf(nodes, 2) == [Entry(1, 2), Entry(0, 1)]
    requires EntriesOf(nodes, 3) == [Entry(2, 3), Entry(1, 2), Entry(0, 1), Entry(0, 1)]
    ensures Matches(nodes, t3) == map[0 := [0, 1, 2, 2], 1 := [0, 1], 2 := [0]]
  {
    ReadA(nodes, t1);
    ReadAa(nodes, t1, t2);
    ReadAaaStep(nodes, t2, t3);
  }

  /** AaaArena after "aaa". */
  lemma AaaRead3()
    ensures Linked(AaaArena)
    ensures Matches(AaaArena, [97, 97, 97]) == map[0 := [0, 1, 2, 2], 1 := [0, 1], 2 := [0]]
  {
    AaaNext();
    AaaEntries3();
    AaaTexts([97], [97, 97], [97, 97, 97]);
    AaaRun(AaaArena, [97], [97, 97], [97, 97, 97]);
  }

  /**
   * With ["a", "aa", "aaa"], Search over "aaa" reports "a" at 0, 1, 2
   * and 2 again: at the last rune `entries` collects the entries of
   * "aa" (which already include "a") and then, walking on along the
   * dictionary suffix links, those of "a" once more.
   */
  lemma SearchAaa()
    ensures ValidTrie(Built([[97], [97, 97], [97, 97, 97]]))
    ensures SearchSpec(Built([[97], [97, 97], [97, 97, 97]]), [97, 97, 97]) ==
      Some(map[0 := [0, 1, 2, 2], 1 := [0, 1], 2 := [0]])
  {
    BuiltAaa();
    AaaRead3();
  }

  /** For [""], New builds a root with no children: the empty word's inner loop never runs. */
  lemma BuiltEmptyWord()
    ensures Built([[]]) == Trie(Some(0), [RootNode])
  {
    var dict: seq<seq<Rune>> := [[]];
    assert dict[..0] == [];
    assert Pass1(dict) == [RootNode];
    var linked := SuffixLinked([RootNode]);
    assert linked == [RootNode];
    SuffixLinkedSound([RootNode]);
    assert DictLinked(linked) == [RootNode];
  }

  /** On the lone root every rune leads back to the root, which reports nothing. */
  lemma {:induction false} RootOnlyMatches(text: seq<Rune>)
    ensures Linked([RootNode])
    ensures Matches([RootNode], text) == map[]
  {
    if text != [] {
      RootOnlyMatches(text[..|text| - 1]);
      assert Find([RootNode], 0, text[|text| - 1]) == None;
      assert EntriesOf([RootNode], 0) == [];
    }
  }

  /**
   * With [""], the tree has a root, so Search over any non-empty text
   * returns a map rather than nil, and that map is empty: the empty word
   * is never reported.
   */
  lemma SearchEmptyWord(text: seq<Rune>)
    requires text != []
    ensures ValidTrie(Built([[]]))
    ensures SearchSpec(Built([[]]), text) == Some(map[])
  {
    BuiltEmptyWord();
    RootOnlyMatches(text);
  }

  /** The arena for ["abc", "c"] after pass 1: the path a-b-c and a second 'c' under the root. */
  const AbcBase: seq<Node> := [
    Node(0, None, None, map[97 := 1, 99 := 4], None, None),
    Node(97, None, Some(0), map[98 := 2], None, None),
    Node(98, None, Some(1), map[99 := 3], None, None),
    Node(99, Some(Entry(0, 3)), Some(2), map[], None, None),
    Node(99, Some(Entry(1, 1)), Some(0), map[], None, None)]

  /**
   * The tree for ["abc", "c"]: "a" and "c" link to the root; "ab" gets no
   * link (the root has no child 'b'), so "abc", whose parent has no link,
   * gets none either, although node "c" spells its longest proper suffix.
   */
  const AbcArena: seq<Node> := [
    Node(0, None, None, map[97 := 1, 99 := 4], None, None),
    Node(97, None, Some(0), map[98 := 2], Some(0), None),
    Node(98, None, Some(1), map[99 := 3], None, None),
    Node(99, Some(Entry(0, 3)), Some(2), map[], None, None),
    Node(99, Some(Entry(1, 1)), Some(0), map[], Some(0), None)]

  /** The arena while pass 1 inserts "abc": after 'a', after 'b', and after 'c' with its entry. */
  const Abc1: seq<Node> := [
    Node(0, None, None, map[97 := 1], None, None),
    Node(97, None, Some(0), map[], None, None)]
  const Abc2: seq<Node> := [
    Node(0, None, None, map[97 := 1], None, None),
    Node(97, None, Some(0), map[98 := 2], None, None),
    Node(98, None, Some(1), map[], None, None)]
  const Abc3: seq<Node> := [
    Node(0, None, None, map[97 := 1], None, None),
    Node(97, None, Some(0), map[98 := 2], None, None),
    Node(98, None, Some(1), map[99 := 3], None, None),
    Node(99, Some(Entry(0, 3)), Some(2), map[], None, None)]

  lemma AbcStep1(word: seq<Rune>)
    requires word == [97, 98, 99]
    ensures InsertStep([RootNode], 0, word, 0, 0) == (Abc1, 1)
  {
    var n0 := [RootNode];
    assert RootNode.children == map[] && n0[0].children[97 := 1] == map[97 := 1];
    assert n0[0 := n0[0].(children := n0[0].children[97 := 1])] + [Fresh(97, Some(0))] == Abc1;
    assert Descend(n0, 0, 97) == (Abc1, 1);
  }

  lemma AbcStep2(word: seq<Rune>)
    requires word == [97, 98, 99]
    ensures Shape(Abc1) && InsertStep(Abc1, 0, word, 1, 1) == (Abc2, 2)
  {
    AbcStep1(word);
    assert Abc1[1].children[98 := 2] == map[98 := 2];
    assert Abc1[1 := Abc1[1].(children := Abc1[1].children[98 := 2])] + [Fresh(98, Some(1))] == Abc2;
    assert Descend(Abc1, 1, 98) == (Abc2, 2);
  }

  lemma AbcStep3(word: seq<Rune>)
    requires word == [97, 98, 99]
    ensures Shape(Abc2) && InsertStep(Abc2, 0, word, 2, 2) == (Abc3, 3)
  {
    AbcStep2(word);
    assert ByteLen(word) == 3 by {
      assert word[..2] == [97, 98] && word[..2][..1] == [97] && word[..2][..1][..0] == [];
      assert ByteLen(word[..2][..1]) == 1;
      assert ByteLen(word[..2]) == 2;
    }
    var n3 := Abc2[2 := Abc2[2].(children := map[99 := 3])] + [Fresh(99, Some(2))];
    assert Abc2[2].children[99 := 3] == map[99 := 3];
    assert Descend(Abc2, 2, 99) == (n3, 3);
    assert SetEntry(n3, 3, 0, 3) == Abc3;
  }

  /** Pass 1 over ["abc"]. */
  lemma Pass1Abc()
    ensures Pass1([[97, 98, 99]]) == Abc3
  {
    var dict: seq<seq<Rune>> := [[97, 98, 99]];
    var word := dict[0];
    assert dict[..0] == [];
    AbcStep1(word);
    AbcStep2(word);
    AbcStep3(word);
    assert InsertFrom(Abc3, 0, word, 3, 3) == Abc3;
  }

  /** Pass 1 over ["abc", "c"]: "c" is a new child of the root. */
  lemma Pass1AbcC()
    ensures Pass1([[97, 98, 99], [99]]) == AbcBase
  {
    var dict: seq<seq<Rune>> := [[97, 98, 99], [99]];
    assert dict[..1] == [[97, 98, 99]];
    Pass1Abc();
    AbcCStep(dict[1]);
    assert InsertFrom(AbcBase, 1, dict[1], 1, 4) == AbcBase;
  }

  /** Inserting "c" into the arena for ["abc"]: a new child of the root, with the entry of word 1. */
  lemma AbcCStep(word: seq<Rune>)
    requires word == [99]
    ensures Shape(Abc3) && InsertStep(Abc3, 1, word, 0, 0) == (AbcBase, 4)
  {
    AbcStep3([97, 98, 99]);
    assert ByteLen(word) == 1;
    assert Abc3[0].children[99 := 4] == map[97 := 1, 99 := 4];
    var n4 := Abc3[0 := Abc3[0].(children := map[97 := 1, 99 := 4])] + [Fresh(99, Some(0))];
    assert Descend(Abc3, 0, 99) == (n4, 4);
    assert SetEntry(n4, 4, 1, 1) == AbcBase;
  }

  /** The links pass 2 computes for AbcBase: "ab" finds no child 'b' at the root, and "abc" has nowhere to walk from. */
  lemma AbcLinkOf()
    ensures Shape(AbcBase)
    ensures SuffixLinkOf(AbcBase, 0) == None && SuffixLinkOf(AbcBase, 1) == Some(0)
    ensures SuffixLinkOf(AbcBase, 2) == None && SuffixLinkOf(AbcBase, 3) == None
    ensures SuffixLinkOf(AbcBase, 4) == Some(0)
  {
    Pass1AbcC();
    assert SuffixLinkOf(AbcBase, 2) == None by {
      assert SuffixWalk(AbcBase, Some(0), 98) == None;
    }
    assert SuffixWalk(AbcBase, None, 99) == None;
  }

  /** Pass 2 over AbcBase. */
  lemma LinkAbc()
    ensures Shape(AbcBase) && SuffixLinked(AbcBase) == AbcArena
  {
    AbcLinkOf();
    var linked := SuffixLinked(AbcBase);
    assert |linked| == 5;
    assert linked[0] == AbcArena[0] && linked[1] == AbcArena[1] && linked[2] == AbcArena[2];
    assert linked[3] == AbcArena[3] && linked[4] == AbcArena[4];
  }

  /** Pass 3 over the linked arena, which leaves it unchanged: no suffix chain reaches an entry past its start, so every dictionary suffix link stays nil. */
  lemma DictLinkAbc()
    ensures Shape(AbcArena) && SuffixLinksSound(AbcArena) && DictLinked(AbcArena) == AbcArena
  {
    LinkAbc();
    SuffixLinkedSound(AbcBase);
    assert FirstEntry(AbcArena, Some(0)) == None by {
      assert AbcArena[0].entry == None && AbcArena[0].suffixLink == None;
    }
    var d := DictLinked(AbcArena);
    assert |d| == 5;
    assert d[0] == AbcArena[0] && d[1] == AbcArena[1] && d[2] == AbcArena[2];
    assert d[3] == AbcArena[3] && d[4] == AbcArena[4];
  }

  /** The tree New builds for ["abc", "c"]. */
  lemma BuiltAbc()
    ensures Built([[97, 98, 99], [99]]) == Trie(Some(0), AbcArena)
  {
    var dict: seq<seq<Rune>> := [[97, 98, 99], [99]];
    assert Pass1(dict) == AbcBase by { Pass1AbcC(); }
    assert Shape(AbcBase) && SuffixLinked(AbcBase) == AbcArena by { LinkAbc(); }
    assert Shape(AbcArena) && SuffixLinksSound(AbcArena) && DictLinked(AbcArena) == AbcArena by { DictLinkAbc(); }
    assert Built(dict) == Trie(Some(0), DictLinked(SuffixLinked(AbcBase)));
  }

  lemma AbcValid()
    ensures Linked(AbcArena)
  {
    assert ValidTrie(Built([[97, 98, 99], [99]])) by {
      BuiltValid([[97, 98, 99], [99]]);
    }
    BuiltAbc();
  }

  /** The transitions of AbcArena that reading "abc" takes. */
  lemma AbcNext()
    ensures Linked(AbcArena)
    ensures Next(AbcArena, 0, 97) == 1 && Next(AbcArena, 1, 98) == 2 && Next(AbcArena, 2, 99) == 3
  {
    AbcValid();
    var nodes := AbcArena;
    assert nodes[0].children == map[97 := 1, 99 := 4] && nodes[1].children == map[98 := 2] && nodes[2].children == map[99 := 3];
    NextDown(nodes, 0, 97, 1);
    NextDown(nodes, 1, 98, 2);
    NextDown(nodes, 2, 99, 3);
  }

  /** The entries of the nodes reading "abc" passes: only "abc" has one, and no dictionary suffix link is set. */
  lemma AbcEntries()
    ensures Linked(AbcArena)
    ensures EntriesOf(AbcArena, 1) == [] && EntriesOf(AbcArena, 2) == [] && EntriesOf(AbcArena, 3) == [Entry(0, 3)]
  {
    AbcValid();
    var nodes := AbcArena;
    assert nodes[1].dictSuffixLink == None && nodes[2].dictSuffixLink == None && nodes[3].dictSuffixLink == None;
    assert ChainEntries(nodes, None) == [];
    assert Own(nodes, 1) == [] && Own(nodes, 2) == [] && Own(nodes, 3) == [Entry(0, 3)];
  }

  /** "ab" on an arena that moves down to node 2 without reporting anything. */
  lemma AbcRunAb(nodes: seq<Node>, t1: seq<Rune>, t2: seq<Rune>)
    requires Linked(nodes) && 2 < |nodes| && t1 == [] + [97] && t2 == t1 + [98]
    requires Next(nodes, 0, 97) == 1 && Next(nodes, 1, 98) == 2
    requires EntriesOf(nodes, 1) == [] && EntriesOf(nodes, 2) == []
    ensures StateAfter(nodes, t2) == 2 && ByteLen(t2) == 2 && Matches(nodes, t2) == map[]
  {
    RecordNothing(map[], 1);
    RecordNothing(map[], 2);
    ReadRune(nodes, [], 97, t1, 0, 0, map[], 1, [], 1, map[]);
    ReadRune(nodes, t1, 98, t2, 1, 1, map[], 2, [], 2, map[]);
  }

  /** ... then 'c' to node 3, which reports "abc" at 0. */
  lemma AbcRunC(nodes: seq<Node>, t2: seq<Rune>, t3: seq<Rune>)
    requires Linked(nodes) && 3 < |nodes| && t3 == t2 + [99]
    requires StateAfter(nodes, t2) == 2 && ByteLen(t2) == 2 && Matches(nodes, t2) == map[]
    requires Next(nodes, 2, 99) == 3 && EntriesOf(nodes, 3) == [Entry(0, 3)]
    ensures Matches(nodes, t3) == map[0 := [0]]
  {
    RecordAbc();
    ReadRune(nodes, t2, 99, t3, 2, 2, map[], 3, [Entry(0, 3)], 3, map[0 := [0]]);
  }

  /** Recording the entry of "abc" after reading "abc" (end offset 3). */
  lemma RecordAbc()
    ensures Record(map[], [Entry(0, 3)], 3) == map[0 := [0]]
  {
    RecordNothing(map[], 3);
    assert [] + [Entry(0, 3)] == [Entry(0, 3)];
    RecordSnoc(map[], [], Entry(0, 3), 3, 0);
    assert Add(map[], 0, 0) == map[0 := [0]] by { assert [] + [0] == [0]; }
  }

  /** The texts of the "abc" run, each one rune longer than the one before. */
  lemma AbcTexts(t1: seq<Rune>, t2: seq<Rune>, t3: seq<Rune>)
    requires t1 == [97] && t2 == [97, 98] && t3 == [97, 98, 99]
    ensures t1 == [] + [97] && t2 == t1 + [98] && t3 == t2 + [99]
  {
  }

  /** AbcArena after "abc". */
  lemma AbcReadAbc()
    ensures Linked(AbcArena)
    ensures Matches(AbcArena, [97, 98, 99]) == map[0 := [0]]
  {
    AbcNext();
    AbcEntries();
    AbcTexts([97], [97, 98], [97, 98, 99]);
    AbcRunAb(AbcArena, [97], [97, 98]);
    AbcRunC(AbcArena, [97, 98], [97, 98, 99]);
  }

  /** "c" occurs in "abc" at byte offset 2. */
  lemma COccursInAbc()
    ensures Occurs([97, 98, 99], [99], 2)
  {
    var text: seq<Rune> := [97, 98, 99];
    assert text[2..3] == [99] && text[..2] == [97, 98];
    assert ByteLen(text[..2]) == 2;
  }

  /**
   * With ["abc", "c"], Search over "abc" reports "abc" at 0 but not "c",
   * which occurs at byte offset 2: node "abc" has no suffix link, so its
   * dictionary suffix link cannot reach node "c".
   */
  lemma SearchAbcMissesC()
    ensures ValidTrie(Built([[97, 98, 99], [99]]))
    ensures SearchSpec(Built([[97, 98, 99], [99]]), [97, 98, 99]) == Some(map[0 := [0]])
    ensures Occurs([97, 98, 99], [99], 2)
  {
    BuiltAbc();
    AbcReadAbc();
    COccursInAbc();
  }
}
