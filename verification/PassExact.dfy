/** The running-key pass and its inverse, put together: which sizes they restore. */
module PassExact {
  import opened Bytewise
  import opened XorPass

  /** The buffer after the pass over a frame in it, and the pass backwards. */
  function PassedBack<B(!new), W(!new)>(g: Codec<B, W>, s: seq<B>, offset: nat, size: nat, key: W): (r: seq<B>)
    requires size >= 12 && offset + size <= |s|
    ensures |r| == |s|
  {
    var n := Count(size);
    Decoded(g, Encoded(g, s, offset + 4, n, key), offset + 4, n, offset + size - 8)
  }

  method PassAndBack<B(!new), W(!new)>(g: Codec<B, W>, raw: array<B>, offset: nat, size: nat, key: W)
    requires size >= 12 && offset + size <= raw.Length
    modifies raw
    ensures raw[..] == PassedBack(g, old(raw[..]), offset, size, key)
  {
    EncXORPass(g, raw, offset, size, key);
    DecXORPass(g, raw, offset, size);
  }

  /** Every byte is as it was, but for the four of the key, which are zero. */
  ghost predicate RestoredBut<B>(s: seq<B>, r: seq<B>, keyPos: nat, zero: B)
    requires keyPos + 4 <= |s| == |r|
  {
    forall i :: 0 <= i < |s| ==> r[i] == if keyPos <= i < keyPos + 4 then zero else s[i]
  }

  /** A frame of whole words comes back, wherever it is in the buffer and whatever the key. */
  lemma WholeWordsRestored<B(!new), W(!new)>(g: Codec<B, W>, s: seq<B>, offset: nat, size: nat, key: W)
    requires g.Valid() && size >= 12 && size % 4 == 0 && offset + size <= |s|
    ensures RestoredBut(s, PassedBack(g, s, offset, size, key), offset + size - 8, g.zero)
  {
    hide Encoded, Decoded;
    CountExact(size);
    DecodedEncoded(g, s, offset + 4, Count(size), key);
  }

  // ---------- Broken words ----------

  ghost predicate Neutral<B(!new), W(!new)>(g: Codec<B, W>, key: W) {
    g.add(key, g.load(g.zero, g.zero, g.zero, g.zero)) == key
  }

  /** Words of zeros leave a key as it is that zero does not change. */
  lemma {:induction false} ZerosKeepKey<B(!new), W(!new)>(g: Codec<B, W>, words: seq<W>, key: W)
    requires Neutral(g, key) && forall i :: 0 <= i < |words| ==> words[i] == g.load(g.zero, g.zero, g.zero, g.zero)
    ensures Encode(g, words, key).1 == key
  {
    if words != [] { ZerosKeepKey(g, words[..|words| - 1], key); }
  }

  lemma ZeroBody<B(!new), W(!new)>(g: Codec<B, W>, s: seq<B>, at: nat, n: nat)
    requires at + 4 * n <= |s| && forall i :: 0 <= i < |s| ==> s[i] == g.zero
    ensures forall i :: 0 <= i < n ==> Body(g, s, at, n)[i] == g.load(g.zero, g.zero, g.zero, g.zero)
  {
    forall i | 0 <= i < n ensures Body(g, s, at, n)[i] == g.load(g.zero, g.zero, g.zero, g.zero) {
      BodyAt(g, s, at, n, i);
    }
  }

  lemma SplicedByte<B>(s: seq<B>, at: nat, b: seq<B>, i: nat)
    requires at + |b| <= |s| && i < |s|
    ensures Splice(s, at, b)[i] == if at <= i < at + |b| then b[i - at] else s[i]
  {}

  /** Of a size that is not of whole words the last byte of the key stays behind: here in a buffer of zeros. */
  lemma KeyByteStays<B(!new), W(!new)>(g: Codec<B, W>, s: seq<B>, size: nat, key: W)
    requires size >= 12 && size % 4 != 0 && |s| == size && forall i :: 0 <= i < |s| ==> s[i] == g.zero
    requires Neutral(g, key)
    ensures var i := 4 * Count(size) + 7; size - 4 <= i < size && PassedBack(g, s, 0, size, key)[i] == g.Store(key)[3]
  {
    hide Splice, Body, Encode, Decode, Codec.BytesOf, Codec.Store, Codec.WordAt, Codec.Valid;
    var n := Count(size);
    var words := Body(g, s, 4, n);
    var (out, k) := Encode(g, words, key);
    ZeroBody(g, s, 4, n);
    ZerosKeepKey(g, words, key);
    var e := Encoded(g, s, 4, n, key);
    SplicedByte(s, 4, g.BytesOf(out) + g.Store(k), 4 * n + 7);
    var (back, _) := Decode(g, Body(g, e, 4, n), g.WordAt(e, size - 8));
    SplicedByte(e, 4, g.BytesOf(back), 4 * n + 7);
    SplicedByte(Splice(e, 4, g.BytesOf(back)), size - 8, Cleared(g), 4 * n + 7);
  }
}
