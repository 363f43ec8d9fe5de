/**
 * `Trie.Search` (ahocorasick.go:117-136): runs the automaton over the
 * text one rune at a time and, after each rune, records for every entry
 * the node reports the byte offset at which that word would start.
 */
module Matcher {
  import opened Text
  import opened Nodes

  /** What Search returns: word index to the byte offsets reported for it, in reporting order. */
  type Report = map<int, seq<int>>

  /** A tree Search can run on: no root, or a root at 0 over a well-formed arena. */
  ghost predicate ValidTrie(t: Trie) {
    t.root.None? || (t.root == Some(0) && Linked(t.nodes))
  }

  /**
   * One transition (ahocorasick.go:124-127): `find`, or back to the root
   * when find fails. The node reached spells a suffix of what the node
   * left spelt followed by r.
   */
  function Next(nodes: seq<Node>, n: nat, r: Rune): (c: nat)
    requires Linked(nodes) && n < |nodes|
    ensures c < |nodes| && IsSuffix(Path(nodes, c), Path(nodes, n) + [r])
  {
    var c := Find(nodes, n, r);
    if c.Some? then c.value else 0
  }

  /** The node the automaton is in after reading s from the root. */
  ghost function StateAfter(nodes: seq<Node>, s: seq<Rune>): (n: nat)
    requires Linked(nodes)
    ensures n < |nodes|
  {
    if s == [] then 0 else Next(nodes, StateAfter(nodes, s[..|s| - 1]), s[|s| - 1])
  }

  /** The node the automaton is in spells a suffix of what it has read. */
  lemma {:induction false} StateSuffix(nodes: seq<Node>, s: seq<Rune>)
    requires Linked(nodes)
    ensures IsSuffix(Path(nodes, StateAfter(nodes, s)), s)
  {
    if s != [] {
      var front, r := s[..|s| - 1], s[|s| - 1];
      StateSuffix(nodes, front);
      assert front + [r] == s;
      SuffixStep(Path(nodes, StateAfter(nodes, s)), Path(nodes, StateAfter(nodes, front)), front, r);
    }
  }

  /** Appends offset o to the list of word k, starting the list when k is new (ahocorasick.go:129-132). */
  function Add(m: Report, k: int, o: int): (m': Report)
    ensures m'.Keys == m.Keys + {k}
    ensures m'[k] == (if k in m then m[k] else []) + [o]
    ensures forall k' :: k' in m && k' != k ==> m'[k'] == m[k']
  {
    var before := if k in m then m[k] else [];
    m[k := before + [o]]
  }

  /** The report after the entries es were recorded at end offset `end` (the loop at ahocorasick.go:128-133). */
  function Record(m: Report, es: seq<Entry>, end: int): Report
  {
    if es == [] then m
    else
      var last := es[|es| - 1];
      Add(Record(m, es[..|es| - 1], end), last.index, end - last.len)
  }

  /** The loop at ahocorasick.go:128-133: each entry e adds `end - e.len` to the list of e's word. */
  method RecordEntries(m0: Report, es: seq<Entry>, end: int) returns (m: Report)
    ensures m == Record(m0, es, end)
  {
    m := m0;
    for k := 0 to |es|
      invariant m == Record(m0, es[..k], end)
    {
      var e := es[k];
      if e.index !in m {
        m := m[e.index := []];
      }
      m := m[e.index := m[e.index] + [end - e.len]];
      assert es[..k + 1][..k] == es[..k];
    }
    assert es[..|es|] == es;
  }

  /** The report after the automaton has read s: one Record per rune, at the byte offset where the rune ends. */
  ghost function Matches(nodes: seq<Node>, s: seq<Rune>): Report
    requires Linked(nodes)
  {
    if s == [] then map[]
    else Record(Matches(nodes, s[..|s| - 1]), EntriesOf(nodes, StateAfter(nodes, s)), ByteLen(s))
  }

  /** Reading rune j of text takes one transition and one Record. */
  lemma MatchesStep(nodes: seq<Node>, text: seq<Rune>, j: nat)
    requires Linked(nodes) && j < |text|
    ensures StateAfter(nodes, text[..j + 1]) == Next(nodes, StateAfter(nodes, text[..j]), text[j])
    ensures ByteLen(text[..j + 1]) == ByteLen(text[..j]) + RuneLen(text[j])
    ensures Matches(nodes, text[..j + 1]) ==
      Record(Matches(nodes, text[..j]), EntriesOf(nodes, StateAfter(nodes, text[..j + 1])), ByteLen(text[..j + 1]))
  {
    assert text[..j + 1][..j] == text[..j];
    ByteLenStep(text, j);
  }

  /** What Search returns: nil without a root or without text, else the report over the whole text. */
  ghost function SearchSpec(t: Trie, text: seq<Rune>): Option<Report>
    requires ValidTrie(t)
  {
    if t.root.None? || |text| == 0 then None else Some(Matches(t.nodes, text))
  }

  /**
   * `Trie.Search` (ahocorasick.go:117-136). The text arrives as its runes;
   * i is the byte offset of rune j, as `range` over a Go string yields it.
   */
  method Search(t: Trie, text: seq<Rune>) returns (res: Option<Report>)
    requires ValidTrie(t)
    ensures res == SearchSpec(t, text)
    ensures res.None? <==> t.root.None? || |text| == 0
  {
    if t.root.None? || |text| == 0 {
      return None;
    }
    var nodes := t.nodes;
    var m: Report := map[];
    var n: nat := t.root.value;
    var i := 0;
    for j := 0 to |text|
      invariant n == StateAfter(nodes, text[..j])
      invariant i == ByteLen(text[..j])
      invariant m == Matches(nodes, text[..j])
    {
      var r := text[j];
      MatchesStep(nodes, text, j);
      var f := Find(nodes, n, r);
      if f.None? {
        n := t.root.value;
      } else {
        n := f.value;
      }
      assert n == StateAfter(nodes, text[..j + 1]);
      var es := CollectEntries(nodes, n);
      var end := i + RuneLen(r);
      assert es == EntriesOf(nodes, StateAfter(nodes, text[..j + 1]));
      assert end == ByteLen(text[..j + 1]);
      m := RecordEntries(m, es, end);
      i := i + RuneLen(r);
    }
    assert text[..|text|] == text;
    return Some(m);
  }
}

