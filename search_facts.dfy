/**
 * What Search reports on a tree New built: only words of the dictionary,
 * each with a non-empty list of offsets in non-decreasing order, and
 * every offset the start of a real occurrence of the word in the text.
 * Search does not promise to report every occurrence; see `Scenarios`.
 */
module SearchFacts {
  import opened Text
  import opened Nodes
  import opened Builder
  import opened BuildFacts
  import opened Matcher

  /** Every entry in the arena names a word of the dictionary spelt by its node, with that word's byte length. */
  ghost predicate EntriesSound(dictionary: seq<seq<Rune>>, nodes: seq<Node>)
    requires Shape(nodes)
  {
    forall i :: 0 <= i < |nodes| && nodes[i].entry.Some? ==>
      && nodes[i].entry.value.index < |dictionary|
      && dictionary[nodes[i].entry.value.index] == Path(nodes, i)
      && nodes[i].entry.value.len == ByteLen(Path(nodes, i))
  }

  ghost predicate NonDecreasing(xs: seq<int>) {
    forall a, b :: 0 <= a < b < |xs| ==> xs[a] <= xs[b]
  }

  /**
   * A report is sound for the text s read so far, up to byte offset
   * `end`: its keys are word indices, every list is non-empty and
   * non-decreasing, and every offset starts an occurrence of its word
   * that ends by `end`.
   */
  ghost predicate ReportSound(dictionary: seq<seq<Rune>>, s: seq<Rune>, m: Report, end: int) {
    forall k :: k in m ==>
      && 0 <= k < |dictionary|
      && |m[k]| > 0
      && NonDecreasing(m[k])
      && forall o :: o in m[k] ==> Occurs(s, dictionary[k], o) && o + ByteLen(dictionary[k]) <= end
  }

  lemma AddSound(dictionary: seq<seq<Rune>>, s: seq<Rune>, m: Report, k: int, o: int, end: int)
    requires ReportSound(dictionary, s, m, end)
    requires 0 <= k < |dictionary| && Occurs(s, dictionary[k], o) && o + ByteLen(dictionary[k]) == end
    ensures ReportSound(dictionary, s, Add(m, k, o), end)
  {
    var m' := Add(m, k, o);
    var before := if k in m then m[k] else [];
    assert m'[k] == before + [o];
    forall a, b | 0 <= a < b < |m'[k]| ensures m'[k][a] <= m'[k][b] {
      if b == |before| {
        assert m'[k][a] in m[k];
      }
    }
  }

  /** Every entry of es names a word of the dictionary, with its byte length, that ends at byte offset `end` of s. */
  ghost predicate EntriesEndAt(dictionary: seq<seq<Rune>>, s: seq<Rune>, es: seq<Entry>, end: int) {
    forall e :: e in es ==>
      && e.index < |dictionary| && e.len == ByteLen(dictionary[e.index])
      && Occurs(s, dictionary[e.index], end - e.len)
  }

  lemma {:induction false} RecordSound(dictionary: seq<seq<Rune>>, s: seq<Rune>, m: Report, es: seq<Entry>, end: int)
    requires ReportSound(dictionary, s, m, end)
    requires EntriesEndAt(dictionary, s, es, end)
    ensures ReportSound(dictionary, s, Record(m, es, end), end)
    decreases |es|
  {
    if es != [] {
      EndAtPrefix(dictionary, s, es, end);
      RecordSound(dictionary, s, m, es[..|es| - 1], end);
      RecordStepSound(dictionary, s, m, es, end);
    }
  }

  /** The entries before the last one of a list that ends at `end` end there too. */
  lemma EndAtPrefix(dictionary: seq<seq<Rune>>, s: seq<Rune>, es: seq<Entry>, end: int)
    requires es != [] && EntriesEndAt(dictionary, s, es, end)
    ensures EntriesEndAt(dictionary, s, es[..|es| - 1], end)
  {
    assert forall e :: e in es[..|es| - 1] ==> e in es;
  }

  /** Recording the last entry, which ends at `end`, after a sound record of the others keeps it sound. */
  lemma RecordStepSound(dictionary: seq<seq<Rune>>, s: seq<Rune>, m: Report, es: seq<Entry>, end: int)
    requires es != [] && EntriesEndAt(dictionary, s, es, end)
    requires ReportSound(dictionary, s, Record(m, es[..|es| - 1], end), end)
    ensures ReportSound(dictionary, s, Record(m, es, end), end)
  {
    var e := es[|es| - 1];
    assert e in es;
    AddSound(dictionary, s, Record(m, es[..|es| - 1], end), e.index, end - e.len, end);
    RecordLastSound(dictionary, s, m, es, end);
  }

  /**
   * Recording a non-empty list is recording its last entry after the
   * others, so soundness after that last Add is soundness of the whole
   * Record (stated apart so that RecordSound does not unfold Record).
   */
  lemma RecordLastSound(dictionary: seq<seq<Rune>>, s: seq<Rune>, m: Report, es: seq<Entry>, end: int)
    requires es != []
    requires ReportSound(dictionary, s, Add(Record(m, es[..|es| - 1], end), es[|es| - 1].index, end - es[|es| - 1].len), end)
    ensures ReportSound(dictionary, s, Record(m, es, end), end)
  {
  }

  /** A report sound for a prefix of the text stays sound for the whole text and any later end. */
  lemma ReportExtend(dictionary: seq<seq<Rune>>, front: seq<Rune>, s: seq<Rune>, m: Report, end: int, end': int)
    requires ReportSound(dictionary, front, m, end) && IsPrefix(front, s) && end <= end'
    ensures ReportSound(dictionary, s, m, end')
  {
    forall k, o | k in m && o in m[k] ensures Occurs(s, dictionary[k], o) {
      OccursExtend(front, s, dictionary[k], o);
    }
  }

  /** An entry on the dictionary chain of the current node is a word ending where s ends. */
  lemma ChainEntryOccurs(dictionary: seq<seq<Rune>>, nodes: seq<Node>, s: seq<Rune>, m: nat)
    requires Linked(nodes) && EntriesSound(dictionary, nodes)
    requires m < |nodes| && OnDictChain(nodes, StateAfter(nodes, s), m) && nodes[m].entry.Some?
    ensures nodes[m].entry.value.index < |dictionary|
    ensures nodes[m].entry.value.len == ByteLen(dictionary[nodes[m].entry.value.index])
    ensures Occurs(s, dictionary[nodes[m].entry.value.index], ByteLen(s) - nodes[m].entry.value.len)
  {
    var n := StateAfter(nodes, s);
    var w := Path(nodes, m);
    assert IsSuffix(w, s) by {
      DictChainIsSuffix(nodes, n, m);
      StateSuffix(nodes, s);
      SuffixTrans(w, Path(nodes, n), s);
    }
    SuffixOccurs(s, w);
    var e := nodes[m].entry.value;
    assert e.index < |dictionary| && dictionary[e.index] == w && e.len == ByteLen(w);
  }

  /** The entries the automaton reports after reading s are words ending where s ends. */
  lemma StepEntriesOccur(dictionary: seq<seq<Rune>>, nodes: seq<Node>, s: seq<Rune>)
    requires Linked(nodes) && EntriesSound(dictionary, nodes)
    ensures EntriesEndAt(dictionary, s, EntriesOf(nodes, StateAfter(nodes, s)), ByteLen(s))
  {
    var es := EntriesOf(nodes, StateAfter(nodes, s));
    forall e | e in es
      ensures e.index < |dictionary| && e.len == ByteLen(dictionary[e.index])
      ensures Occurs(s, dictionary[e.index], ByteLen(s) - e.len)
    {
      EntryOccurs(dictionary, nodes, s, e);
    }
  }

  /** An entry reported after reading s is a word ending where s ends. */
  lemma EntryOccurs(dictionary: seq<seq<Rune>>, nodes: seq<Node>, s: seq<Rune>, e: Entry)
    requires Linked(nodes) && EntriesSound(dictionary, nodes)
    requires e in EntriesOf(nodes, StateAfter(nodes, s))
    ensures e.index < |dictionary| && e.len == ByteLen(dictionary[e.index])
    ensures Occurs(s, dictionary[e.index], ByteLen(s) - e.len)
  {
    var n := StateAfter(nodes, s);
    var k :| 0 <= k < |EntriesOf(nodes, n)| && EntriesOf(nodes, n)[k] == e;
    EntriesFromChain(nodes, n, k);
    var m: nat :| m < |nodes| && OnDictChain(nodes, n, m) && nodes[m].entry == Some(e);
    ChainEntryOccurs(dictionary, nodes, s, m);
  }

  /** The report after reading s is sound for s up to its byte length. */
  lemma {:induction false} MatchesSound(dictionary: seq<seq<Rune>>, nodes: seq<Node>, s: seq<Rune>)
    requires Linked(nodes) && EntriesSound(dictionary, nodes)
    ensures ReportSound(dictionary, s, Matches(nodes, s), ByteLen(s))
  {
    if s != [] {
      var front := s[..|s| - 1];
      MatchesSound(dictionary, nodes, front);
      ByteLenPrefix(s, |s| - 1);
      ReportExtend(dictionary, front, s, Matches(nodes, front), ByteLen(front), ByteLen(s));
      StepEntriesOccur(dictionary, nodes, s);
      RecordSound(dictionary, s, Matches(nodes, front), EntriesOf(nodes, StateAfter(nodes, s)), ByteLen(s));
    }
  }

  /** New builds a tree Search accepts, whose entries are sound. */
  lemma BuiltValid(dictionary: seq<seq<Rune>>)
    ensures ValidTrie(Built(dictionary))
    ensures Built(dictionary).root.Some? ==> EntriesSound(dictionary, Built(dictionary).nodes)
  {
    if |dictionary| > 0 {
      BuiltFacts(dictionary);
    }
  }

  /**
   * Search over the tree New builds reports only real occurrences: every
   * key is the index of a word, its list of offsets is non-empty and
   * non-decreasing, and each offset is the byte offset in the text at
   * which that word occurs.
   */
  lemma SearchSound(dictionary: seq<seq<Rune>>, text: seq<Rune>)
    ensures ValidTrie(Built(dictionary))
    ensures var r := SearchSpec(Built(dictionary), text);
      r.Some? ==> forall k :: k in r.value ==>
        && 0 <= k < |dictionary|
        && |r.value[k]| > 0
        && NonDecreasing(r.value[k])
        && forall o :: o in r.value[k] ==> Occurs(text, dictionary[k], o)
  {
    BuiltValid(dictionary);
    if |dictionary| > 0 && |text| > 0 {
      MatchesSound(dictionary, Built(dictionary).nodes, text);
    }
  }

  /** ... and in terms of bytes: the encoded text holds the encoded word at each reported offset. */
  lemma SearchSoundBytes(dictionary: seq<seq<Rune>>, text: seq<Rune>, k: int, o: int)
    requires ValidTrie(Built(dictionary))
    requires var r := SearchSpec(Built(dictionary), text); r.Some? && k in r.value && o in r.value[k]
    ensures 0 <= k < |dictionary|
    ensures 0 <= o && o + ByteLen(dictionary[k]) <= |Encode(text)|
    ensures Encode(text)[o..o + ByteLen(dictionary[k])] == Encode(dictionary[k])
  {
    ReportedOccurs(dictionary, text, k, o);
    WordBytes(text, dictionary, k, o);
  }

  /** OccursInBytes for word k of the dictionary. */
  lemma WordBytes(text: seq<Rune>, dictionary: seq<seq<Rune>>, k: int, o: int)
    requires 0 <= k < |dictionary| && Occurs(text, dictionary[k], o)
    ensures 0 <= o && o + ByteLen(dictionary[k]) <= |Encode(text)|
    ensures Encode(text)[o..o + ByteLen(dictionary[k])] == Encode(dictionary[k])
  {
    OccursInBytes(text, dictionary[k], o);
  }

  /** An offset Search reports for word k is an occurrence of word k. */
  lemma ReportedOccurs(dictionary: seq<seq<Rune>>, text: seq<Rune>, k: int, o: int)
    requires ValidTrie(Built(dictionary))
    requires var r := SearchSpec(Built(dictionary), text); r.Some? && k in r.value && o in r.value[k]
    ensures 0 <= k < |dictionary| && Occurs(text, dictionary[k], o)
  {
    SearchSound(dictionary, text);
  }
}
