/**
 * Strings as the automaton sees them: sequences of runes (Unicode scalar
 * values), their UTF-8 widths and encodings as laid down in section 3 of
 * RFC 3629, byte offsets as prefix sums of those widths, and the prefix,
 * suffix and occurrence relations the automaton is built on.
 */
module Text {

  /** A Unicode scalar value: what `range` over a valid Go string yields. */
  type Rune = r: int | 0 <= r < 0xD800 || 0xE000 <= r <= 0x10_FFFF

  /** One octet of a UTF-8 encoding. */
  type Byte = b: int | 0 <= b < 0x100

  /** Number of bytes of the UTF-8 encoding of r (utf8.RuneLen on a scalar value). */
  function RuneLen(r: Rune): (n: nat)
    ensures 1 <= n <= 4
  {
    if r < 0x80 then 1
    else if r < 0x800 then 2
    else if r < 0x1_0000 then 3
    else 4
  }

  /**
   * The UTF-8 encoding of r. The first byte tells the width of the
   * sequence and every further byte is a continuation byte 10xxxxxx.
   */
  function EncodeRune(r: Rune): (b: seq<Byte>)
    ensures 1 <= |b| <= 4
    ensures |b| == 1 <==> b[0] < 0x80
    ensures |b| == 2 <==> 0xC0 <= b[0] < 0xE0
    ensures |b| == 3 <==> 0xE0 <= b[0] < 0xF0
    ensures |b| == 4 <==> 0xF0 <= b[0] < 0xF8
    ensures forall k :: 1 <= k < |b| ==> 0x80 <= b[k] < 0xC0
  {
    if r < 0x80 then [r]
    else if r < 0x800 then [0xC0 + r / 0x40, 0x80 + r % 0x40]
    else if r < 0x1_0000 then [0xE0 + r / 0x1000, 0x80 + r / 0x40 % 0x40, 0x80 + r % 0x40]
    else [0xF0 + r / 0x4_0000, 0x80 + r / 0x1000 % 0x40, 0x80 + r / 0x40 % 0x40, 0x80 + r % 0x40]
  }

  /** Number of bytes of the UTF-8 encoding of s (Go's `len` on a string). */
  function ByteLen(s: seq<Rune>): (n: nat)
    ensures |s| <= n <= 4 * |s|
  {
    if s == [] then 0 else ByteLen(s[..|s| - 1]) + RuneLen(s[|s| - 1])
  }

  /** The UTF-8 encoding of s, rune after rune. */
  function Encode(s: seq<Rune>): seq<Byte>
  {
    if s == [] then [] else Encode(s[..|s| - 1]) + EncodeRune(s[|s| - 1])
  }

  /** RuneLen(r) is the length of the encoding of r. */
  lemma EncodeRuneLen(r: Rune)
    ensures |EncodeRune(r)| == RuneLen(r)
  {
  }

  /** The encoding of s is ByteLen(s) bytes long. */
  lemma {:induction false} EncodeLen(s: seq<Rune>)
    ensures |Encode(s)| == ByteLen(s)
  {
    if s != [] {
      EncodeLen(s[..|s| - 1]);
      EncodeRuneLen(s[|s| - 1]);
    }
  }

  /** Byte length is additive over concatenation. */
  lemma {:induction false} ByteLenAppend(a: seq<Rune>, b: seq<Rune>)
    ensures ByteLen(a + b) == ByteLen(a) + ByteLen(b)
    decreases |b|
  {
    if b != [] {
      var b' := b[..|b| - 1];
      assert (a + b)[..|a + b| - 1] == a + b';
      ByteLenAppend(a, b');
    } else {
      assert a + b == a;
    }
  }

  /** Encoding is a homomorphism from rune strings to byte strings. */
  lemma {:induction false} EncodeAppend(a: seq<Rune>, b: seq<Rune>)
    ensures Encode(a + b) == Encode(a) + Encode(b)
    decreases |b|
  {
    if b != [] {
      var b' := b[..|b| - 1];
      assert (a + b)[..|a + b| - 1] == a + b';
      EncodeAppend(a, b');
    } else {
      assert a + b == a;
    }
  }

  /** The byte offset of rune j of s plus the width of rune j is the offset of rune j + 1. */
  lemma ByteLenStep(s: seq<Rune>, j: nat)
    requires j < |s|
    ensures ByteLen(s[..j + 1]) == ByteLen(s[..j]) + RuneLen(s[j])
  {
    assert s[..j + 1][..j] == s[..j];
  }

  /** The prefix of s up to rune j, inclusive, is the one up to j extended by rune j. */
  lemma PrefixSnoc(s: seq<Rune>, j: nat)
    requires j < |s|
    ensures s[..j + 1] == s[..j] + [s[j]]
  {
  }

  /** Byte offsets grow strictly with the rune index. */
  lemma ByteLenPrefix(s: seq<Rune>, j: nat)
    requires j <= |s|
    ensures ByteLen(s[..j]) + (|s| - j) <= ByteLen(s)
  {
    assert s == s[..j] + s[j..];
    ByteLenAppend(s[..j], s[j..]);
  }

  ghost predicate IsPrefix(a: seq<Rune>, b: seq<Rune>) {
    |a| <= |b| && b[..|a|] == a
  }

  ghost predicate IsSuffix(a: seq<Rune>, b: seq<Rune>) {
    |a| <= |b| && b[|b| - |a|..] == a
  }

  lemma SuffixTrans(a: seq<Rune>, b: seq<Rune>, c: seq<Rune>)
    requires IsSuffix(a, b) && IsSuffix(b, c)
    ensures IsSuffix(a, c)
  {
    assert c[|c| - |a|..] == c[|c| - |b|..][|b| - |a|..];
  }

  lemma SuffixSnoc(a: seq<Rune>, b: seq<Rune>, r: Rune)
    requires IsSuffix(a, b)
    ensures IsSuffix(a + [r], b + [r])
  {
    assert (b + [r])[|b + [r]| - |a + [r]|..] == b[|b| - |a|..] + [r];
  }

  /** A suffix of a suffix of front, extended by r, is a suffix of front + [r]. */
  lemma SuffixStep(a: seq<Rune>, b: seq<Rune>, front: seq<Rune>, r: Rune)
    requires IsSuffix(a, b + [r]) && IsSuffix(b, front)
    ensures IsSuffix(a, front + [r])
  {
    SuffixSnoc(b, front, r);
    SuffixTrans(a, b + [r], front + [r]);
  }

  /** Of two suffixes of the same string, the shorter is a suffix of the longer. */
  lemma SuffixOfLonger(a: seq<Rune>, b: seq<Rune>, x: seq<Rune>)
    requires IsSuffix(a, x) && IsSuffix(b, x) && |a| <= |b|
    ensures IsSuffix(a, b)
  {
    assert x[|x| - |a|..] == x[|x| - |b|..][|b| - |a|..];
  }

  /** Dropping the last rune of both sides keeps a suffix a suffix. */
  lemma SuffixUnsnoc(a: seq<Rune>, r: Rune, b: seq<Rune>, r': Rune)
    requires IsSuffix(a + [r], b + [r'])
    ensures r == r' && IsSuffix(a, b)
  {
    assert (b + [r'])[|b + [r']| - 1] == (a + [r])[|a + [r]| - 1];
    assert b[|b| - |a|..] == (b + [r'])[|b + [r']| - |a + [r]|..][..|a|];
  }

  /**
   * w occurs in text starting at byte offset o: some rune position p
   * starts a copy of w and the runes before p take o bytes.
   */
  ghost predicate Occurs(text: seq<Rune>, w: seq<Rune>, o: int) {
    exists p :: 0 <= p <= |text| - |w| && text[p..p + |w|] == w && ByteLen(text[..p]) == o
  }

  /** A suffix w of s occurs in s at the byte offset where it starts. */
  lemma SuffixOccurs(s: seq<Rune>, w: seq<Rune>)
    requires IsSuffix(w, s)
    ensures ByteLen(w) <= ByteLen(s) && Occurs(s, w, ByteLen(s) - ByteLen(w))
  {
    var p := |s| - |w|;
    assert s == s[..p] + w;
    ByteLenAppend(s[..p], w);
    assert s[p..p + |w|] == w;
  }

  /** An occurrence in a prefix of the text is an occurrence in the text. */
  lemma OccursExtend(front: seq<Rune>, s: seq<Rune>, w: seq<Rune>, o: int)
    requires Occurs(front, w, o) && IsPrefix(front, s)
    ensures Occurs(s, w, o)
  {
    var p :| 0 <= p <= |front| - |w| && front[p..p + |w|] == w && ByteLen(front[..p]) == o;
    assert s[p..p + |w|] == front[p..p + |w|];
    assert s[..p] == front[..p];
  }

  /**
   * An occurrence at byte offset o is an occurrence in the bytes: the
   * encoded text holds the encoding of w at [o, o + ByteLen(w)).
   */
  lemma OccursInBytes(text: seq<Rune>, w: seq<Rune>, o: int)
    requires Occurs(text, w, o)
    ensures 0 <= o && o + ByteLen(w) <= |Encode(text)|
    ensures Encode(text)[o..o + ByteLen(w)] == Encode(w)
  {
    var p :| 0 <= p <= |text| - |w| && text[p..p + |w|] == w && ByteLen(text[..p]) == o;
    SplitAt(text, w, p);
    EncodeSplit(text, text[..p], w, text[p + |w|..], o);
  }

  lemma SplitAt(text: seq<Rune>, w: seq<Rune>, p: nat)
    requires p + |w| <= |text| && text[p..p + |w|] == w
    ensures text == text[..p] + w + text[p + |w|..]
  {
  }

  /** The encoding of before + w + after holds the encoding of w right after that of before. */
  lemma EncodeSplit(text: seq<Rune>, before: seq<Rune>, w: seq<Rune>, after: seq<Rune>, o: int)
    requires text == before + w + after && o == ByteLen(before)
    ensures 0 <= o && o + ByteLen(w) <= |Encode(text)|
    ensures Encode(text)[o..o + ByteLen(w)] == Encode(w)
  {
    EncodeAppend(before + w, after);
    EncodeAppend(before, w);
    EncodeLen(before);
    EncodeLen(w);
    var eb, ew, ea := Encode(before), Encode(w), Encode(after);
    assert Encode(text) == eb + ew + ea;
    assert (eb + ew + ea)[|eb|..|eb| + |ew|] == ew;
  }
}
