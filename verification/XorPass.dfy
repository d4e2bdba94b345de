/**
 The running-key pass over a buffer. Each word is added to the key and then combined with it; the
 final key is stored behind the words, so the receiver can run the pass backwards.
 */
module XorPass {
  import opened Bytewise

  /** The encoded words, and the final key. */
  function Encode<B(!new), W(!new)>(g: Codec<B, W>, words: seq<W>, key: W): (r: (seq<W>, W))
    ensures |r.0| == |words|
  {
    if words == [] then ([], key) else
    var (out, k) := Encode(g, words[..|words| - 1], key);
    var w := words[|words| - 1];
    (out + [g.mix(w, g.add(k, w))], g.add(k, w))
  }

  /** From the final key, backwards: the words, and the initial key. */
  function Decode<B(!new), W(!new)>(g: Codec<B, W>, words: seq<W>, key: W): (r: (seq<W>, W))
    ensures |r.0| == |words|
  {
    if words == [] then ([], key) else
    var w := g.mix(words[|words| - 1], key);
    var (out, k) := Decode(g, words[..|words| - 1], g.sub(key, w));
    (out + [w], k)
  }

  /** The receiver recovers the words, and the initial key it never saw, from the final key. */
  lemma {:induction false} DecodeInvertsEncode<B(!new), W(!new)>(g: Codec<B, W>, words: seq<W>, key: W)
    requires g.Valid()
    ensures var (out, k) := Encode(g, words, key); Decode(g, out, k) == (words, key)
  {
    if words != [] {
      var front, w := words[..|words| - 1], words[|words| - 1];
      var (out, k) := Encode(g, front, key);
      DecodeInvertsEncode(g, front, key);
      assert g.sub(g.add(k, w), w) == k;
      assert g.mix(g.mix(w, g.add(k, w)), g.add(k, w)) == w;
      assert (out + [g.mix(w, g.add(k, w))])[..|out|] == out;
      assert words == front + [w];
    }
  }

  // ---------- In the buffer ----------

  /** The buffer with some bytes overwritten. */
  function Splice<B>(s: seq<B>, at: nat, b: seq<B>): (r: seq<B>)
    requires at + |b| <= |s|
    ensures |r| == |s|
  {
    s[..at] + b + s[at + |b|..]
  }

  lemma SpliceOn<B>(s: seq<B>, at: nat, a: seq<B>, b: seq<B>)
    requires at + |a| + |b| <= |s|
    ensures Splice(Splice(s, at, a), at + |a|, b) == Splice(s, at, a + b)
  {}

  lemma SpliceSame<B>(s: seq<B>, at: nat, b: seq<B>)
    requires at + |b| <= |s| && s[at..at + |b|] == b
    ensures Splice(s, at, b) == s
  {}

  lemma SplicedAt<B>(s: seq<B>, at: nat, a: seq<B>, b: seq<B>)
    requires at + |a| + |b| <= |s|
    ensures var r := Splice(s, at, a + b); r[at..at + |a|] == a && r[at + |a|..at + |a| + |b|] == b
  {}

  lemma SpliceBack<B>(s: seq<B>, at: nat, a: seq<B>, b: seq<B>, c: seq<B>)
    requires at + |a| + |b| <= |s| && |b| == |c|
    ensures Splice(Splice(Splice(s, at, a + b), at, s[at..at + |a|]), at + |a|, c) == Splice(s, at + |a|, c)
  {}

  /** How many words the pass covers: those between the first word and the last two. */
  function Count(size: int): (n: nat) {
    if size <= 12 then 0 else (size - 12 + 3) / 4
  }

  /** The words the pass covers. */
  function Body<B(!new), W(!new)>(g: Codec<B, W>, s: seq<B>, at: nat, n: nat): (r: seq<W>)
    requires at + 4 * n <= |s|
    ensures |r| == n
  {
    g.WordsOf(s[at..at + 4 * n])
  }

  /** n words encoded from a position on, and the final key behind them. */
  function Encoded<B(!new), W(!new)>(g: Codec<B, W>, s: seq<B>, at: nat, n: nat, key: W): (r: seq<B>)
    requires at + 4 * n + 4 <= |s|
    ensures |r| == |s|
  {
    var (out, k) := Encode(g, Body(g, s, at, n), key);
    Splice(s, at, g.BytesOf(out) + g.Store(k))
  }

  /** n words decoded from a position on with the final key found at another, which is cleared. */
  function Decoded<B(!new), W(!new)>(g: Codec<B, W>, s: seq<B>, at: nat, n: nat, keyPos: nat): (r: seq<B>)
    requires at + 4 * n <= |s| && keyPos + 4 <= |s|
    ensures |r| == |s|
  {
    var (words, _) := Decode(g, Body(g, s, at, n), g.WordAt(s, keyPos));
    Splice(Splice(s, at, g.BytesOf(words)), keyPos, Cleared(g))
  }

  function Cleared<B(!new), W(!new)>(g: Codec<B, W>): (r: seq<B>)
    ensures |r| == 4
  {
    [g.zero, g.zero, g.zero, g.zero]
  }

  method Overwrite<B>(raw: array<B>, at: nat, s: seq<B>)
    requires at + 4 <= raw.Length && |s| == 4
    modifies raw
    ensures raw[..] == Splice(old(raw[..]), at, s)
  {
    raw[at], raw[at + 1], raw[at + 2], raw[at + 3] := s[0], s[1], s[2], s[3];
  }

  method Put<B(!new), W(!new)>(g: Codec<B, W>, raw: array<B>, at: nat, w: W)
    requires at + 4 <= raw.Length
    modifies raw
    ensures raw[..] == Splice(old(raw[..]), at, g.Store(w))
  {
    Overwrite(raw, at, g.Store(w));
  }

  lemma BodyAt<B(!new), W(!new)>(g: Codec<B, W>, s: seq<B>, at: nat, n: nat, i: nat)
    requires at + 4 * n <= |s| && i < n
    ensures Body(g, s, at, n)[i] == g.WordAt(s, at + 4 * i)
  {
    g.WordsOfAt(s[at..at + 4 * n], i);
  }

  /** Appends one more word behind the ones already written over the buffer. */
  method PutNext<B(!new), W(!new)>(g: Codec<B, W>, raw: array<B>, ghost was: seq<B>, ghost at: nat, ghost out: seq<W>,
                   pos: nat, w: W)
    requires pos == at + 4 * |out| && pos + 4 <= raw.Length == |was|
    requires raw[..] == Splice(was, at, g.BytesOf(out))
    modifies raw
    ensures raw[..] == Splice(was, at, g.BytesOf(out + [w]))
  {
    Put(g, raw, pos, w);
    SpliceOn(was, at, g.BytesOf(out), g.Store(w));
  }

  /** One more word is encoded behind the others. */
  lemma EncodeNext<B(!new), W(!new)>(g: Codec<B, W>, words: seq<W>, i: nat, key: W)
    requires i < |words|
    ensures var (out, k) := Encode(g, words[..i], key);
      Encode(g, words[..i + 1], key) == (out + [g.mix(words[i], g.add(k, words[i]))], g.add(k, words[i]))
  {
    assert words[..i + 1][..i] == words[..i];
  }

  /** A loop in steps of four from a position up to a limit takes n steps. */
  ghost predicate Steps(at: int, stop: int, n: nat) {
    if n == 0 then at >= stop else at + 4 * (n - 1) < stop <= at + 4 * n
  }

  method EncodeBody<B(!new), W(!new)>(g: Codec<B, W>, raw: array<B>, at: nat, stop: int, ghost n: nat, key: W)
    returns (ecx: W, pos: nat)
    requires Steps(at, stop, n) && at + 4 * n <= raw.Length
    modifies raw
    ensures pos == at + 4 * n
    ensures var (out, k) := Encode(g, Body(g, old(raw[..]), at, n), key);
      ecx == k && raw[..] == Splice(old(raw[..]), at, g.BytesOf(out))
  {
    pos, ecx := at, key;
    ghost var was := raw[..];
    ghost var words, out, i := Body(g, was, at, n), [], 0;
    while pos < stop
      invariant 0 <= i <= n && pos == at + 4 * i
      invariant (out, ecx) == Encode(g, words[..i], key)
      invariant raw[..] == Splice(was, at, g.BytesOf(out))
      decreases stop - pos
    {
      BodyAt(g, was, at, n, i);
      EncodeNext(g, words, i, key);
      var edx := g.WordAt(raw[..], pos);
      assert edx == words[i];
      ecx := g.add(ecx, edx);
      edx := g.mix(edx, ecx);
      PutNext(g, raw, was, at, out, pos, edx);
      out, i, pos := out + [edx], i + 1, pos + 4;
    }
    assert words[..i] == words;
  }

  /** Encodes the words of a frame between its first word and its last two, whatever its size. */
  method EncXORPass<B(!new), W(!new)>(g: Codec<B, W>, raw: array<B>, offset: nat, size: int, key: W)
    requires offset + 8 + 4 * Count(size) <= raw.Length
    modifies raw
    ensures raw[..] == Encoded(g, old(raw[..]), offset + 4, Count(size), key)
  {
    ghost var was, n := raw[..], Count(size);
    var ecx, pos := EncodeBody(g, raw, offset + 4, offset + size - 8, n, key);
    ghost var out := Encode(g, Body(g, was, offset + 4, n), key).0;
    Put(g, raw, pos, ecx);
    SpliceOn(was, offset + 4, g.BytesOf(out), g.Store(ecx));
  }

  /** The words the pass covers, in order. */
  method ReadBody<B(!new), W(!new)>(g: Codec<B, W>, raw: array<B>, at: nat, stop: int, ghost n: nat)
    returns (blocks: seq<W>)
    requires Steps(at, stop, n) && at + 4 * n <= raw.Length
    ensures blocks == Body(g, raw[..], at, n)
  {
    blocks := [];
    ghost var words := Body(g, raw[..], at, n);
    var i := at;
    while i < stop
      invariant |blocks| <= n && i == at + 4 * |blocks| && blocks == words[..|blocks|]
      decreases stop - i
    {
      BodyAt(g, raw[..], at, n, |blocks|);
      blocks := blocks + [g.WordAt(raw[..], i)];
      i := i + 4;
    }
  }

  /** The last encoded word is decoded first; what is left to decode has one word less. */
  lemma DecodeNext<B(!new), W(!new)>(g: Codec<B, W>, words: seq<W>, i: nat, key: W)
    requires i < |words|
    ensures var w := g.mix(words[i], key);
      var (out, k) := Decode(g, words[..i], g.sub(key, w));
      Decode(g, words[..i + 1], key) == (out + [w], k)
  {
    assert words[..i + 1][..i] == words[..i];
  }

  /** Puts one more word before the ones already written over the buffer. */
  method PutBefore<B(!new), W(!new)>(g: Codec<B, W>, raw: array<B>, ghost was: seq<B>, at: nat, w: W,
                     ghost tail: seq<W>)
    requires at + 4 + 4 * |tail| <= raw.Length == |was|
    requires raw[..] == Splice(was, at + 4, g.BytesOf(tail))
    modifies raw
    ensures raw[..] == Splice(was, at, g.BytesOf([w] + tail))
  {
    Put(g, raw, at, w);
    g.BytesOfConcat([w], tail);
    assert g.BytesOf([w]) == g.Store(w) by { assert g.BytesOf([]) == [] && [w][..0] == []; }
  }

  /** What is decoded already, behind what is left, makes up the whole. */
  ghost predicate DecodedBehind<B(!new), W(!new)>(g: Codec<B, W>, blocks: seq<W>, key: W, i: nat, current: W,
                                  tail: seq<W>) {
    && i <= |blocks| == i + |tail|
    && Decode(g, blocks, key).0 == Decode(g, blocks[..i], current).0 + tail
  }

  lemma DecodedFurther<B(!new), W(!new)>(g: Codec<B, W>, blocks: seq<W>, key: W, i: nat, current: W, tail: seq<W>)
    requires i < |blocks| && DecodedBehind(g, blocks, key, i + 1, current, tail)
    ensures var w := g.mix(blocks[i], current); DecodedBehind(g, blocks, key, i, g.sub(current, w), [w] + tail)
  {
    DecodeNext(g, blocks, i, current);
  }

  /** Decodes the word before those that are decoded already. */
  method DecodeOne<B(!new), W(!new)>(g: Codec<B, W>, raw: array<B>, ghost was: seq<B>, at: nat, blocks: seq<W>,
                                     ghost key: W, i: nat, current: W, ghost tail: seq<W>)
    returns (next: W, ghost more: seq<W>)
    requires i < |blocks| && DecodedBehind(g, blocks, key, i + 1, current, tail)
    requires at + 4 * |blocks| <= raw.Length == |was| && raw[..] == Splice(was, at + 4 * (i + 1), g.BytesOf(tail))
    modifies raw
    ensures DecodedBehind(g, blocks, key, i, next, more) && raw[..] == Splice(was, at + 4 * i, g.BytesOf(more))
  {
    var w := g.mix(blocks[i], current);
    DecodedFurther(g, blocks, key, i, current, tail);
    PutBefore(g, raw, was, at + 4 * i, w, tail);
    next, more := g.sub(current, w), [w] + tail;
  }

  method DecodeBody<B(!new), W(!new)>(g: Codec<B, W>, raw: array<B>, at: nat, blocks: seq<W>, key: W)
    requires at + 4 * |blocks| <= raw.Length
    modifies raw
    ensures raw[..] == Splice(old(raw[..]), at, g.BytesOf(Decode(g, blocks, key).0))
  {
    ghost var was := raw[..];
    var current := key;
    ghost var tail := [];
    var i := |blocks|;
    assert DecodedBehind(g, blocks, key, i, current, tail) by { assert blocks[..i] == blocks; }
    while i > 0
      invariant 0 <= i && DecodedBehind(g, blocks, key, i, current, tail)
      invariant raw[..] == Splice(was, at + 4 * i, g.BytesOf(tail))
    {
      i := i - 1;
      current, tail := DecodeOne(g, raw, was, at, blocks, key, i, current, tail);
    }
    assert Decode(g, blocks, key).0 == tail;
  }

  method DecodeWords<B(!new), W(!new)>(g: Codec<B, W>, raw: array<B>, at: nat, stop: int, ghost n: nat, key: W)
    requires Steps(at, stop, n) && at + 4 * n <= raw.Length
    modifies raw
    ensures raw[..] == Splice(old(raw[..]), at, g.BytesOf(Decode(g, Body(g, old(raw[..]), at, n), key).0))
  {
    var blocks := ReadBody(g, raw, at, stop, n);
    DecodeBody(g, raw, at, blocks, key);
  }

  /** Does nothing to frames of at most 8 bytes. */
  method DecXORPass<B(!new), W(!new)>(g: Codec<B, W>, raw: array<B>, offset: nat, size: int)
    requires size > 8 ==> offset + 4 + 4 * Count(size) <= raw.Length && offset + size - 4 <= raw.Length
    modifies raw
    ensures raw[..] == if size <= 8 then old(raw[..]) else
      Decoded(g, old(raw[..]), offset + 4, Count(size), offset + size - 8)
  {
    if size <= 8 { return; }
    var keyPos := offset + size - 8;
    var finalKey := g.WordAt(raw[..], keyPos);
    ghost var n := Count(size);
    assert Steps(offset + 4, keyPos, n);
    DecodeWords(g, raw, offset + 4, keyPos, n, finalKey);
    Overwrite(raw, keyPos, Cleared(g));
  }

  /** Bytes written over a buffer with a word behind them are what is found there. */
  lemma WrittenBehind<B(!new), W(!new)>(g: Codec<B, W>, s: seq<B>, at: nat, b: seq<B>, k: W)
    requires g.Valid() && at + |b| + 4 <= |s|
    ensures var e := Splice(s, at, b + g.Store(k)); e[at..at + |b|] == b && g.WordAt(e, at + |b|) == k
  {
    hide Splice;
    SplicedAt(s, at, b, g.Store(k));
    g.WordAtOfStore(Splice(s, at, b + g.Store(k)), at + |b|, k);
  }

  /** Words written over a buffer with one more behind them are what is read there. */
  lemma WrittenThenRead<B(!new), W(!new)>(g: Codec<B, W>, s: seq<B>, at: nat, out: seq<W>, k: W)
    requires g.Valid() && at + 4 * |out| + 4 <= |s|
    ensures var e := Splice(s, at, g.BytesOf(out) + g.Store(k));
      Body(g, e, at, |out|) == out && g.WordAt(e, at + 4 * |out|) == k
  {
    hide Splice, Body, Codec.BytesOf, Codec.Store, Codec.WordAt, Codec.Valid;
    WrittenBehind(g, s, at, g.BytesOf(out), k);
    ReadWords(g, Splice(s, at, g.BytesOf(out) + g.Store(k)), at, out);
  }

  lemma ReadWords<B(!new), W(!new)>(g: Codec<B, W>, e: seq<B>, at: nat, out: seq<W>)
    requires g.Valid() && at + 4 * |out| <= |e| && e[at..at + 4 * |out|] == g.BytesOf(out)
    ensures Body(g, e, at, |out|) == out
  {
    g.WordsOfBytesOf(out);
  }

  /**
   Decoding an encoded buffer restores every byte except the four that held the final key, which
   become zero, whatever the initial key was.
   */
  lemma DecodedEncoded<B(!new), W(!new)>(g: Codec<B, W>, s: seq<B>, at: nat, n: nat, key: W)
    requires g.Valid() && at + 4 * n + 4 <= |s|
    ensures Decoded(g, Encoded(g, s, at, n, key), at, n, at + 4 * n) == Splice(s, at + 4 * n, Cleared(g))
  {
    hide Splice, Encode, Decode, Codec.BytesOf, Codec.Store, Codec.WordAt, Codec.Valid;
    var words := Body(g, s, at, n);
    var (out, k) := Encode(g, words, key);
    WrittenThenRead(g, s, at, out, k);
    DecodeInvertsEncode(g, words, key);
    g.BytesOfWordsOf(s[at..at + 4 * n]);
    SpliceBack(s, at, g.BytesOf(out), g.Store(k), Cleared(g));
  }

  /** Where the key goes over zeros, nothing is lost. */
  lemma Restored<B(!new), W(!new)>(g: Codec<B, W>, s: seq<B>, at: nat, n: nat, key: W)
    requires g.Valid() && at + 4 * n + 4 <= |s| && s[at + 4 * n..at + 4 * n + 4] == Cleared(g)
    ensures Decoded(g, Encoded(g, s, at, n, key), at, n, at + 4 * n) == s
  {
    DecodedEncoded(g, s, at, n, key);
    SpliceSame(s, at + 4 * n, Cleared(g));
  }

  /** For sizes of whole words from 12 on, both passes cover the same words and meet at the same key position. */
  lemma CountExact(size: int)
    requires size >= 12
    ensures size % 4 == 0 <==> size == 12 + 4 * Count(size)
  {}
}
