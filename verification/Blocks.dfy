/**
 The cipher on bytes: a block is two little-endian words, a buffer a row of blocks. As in the key
 schedule, words are a parameter.
 */
module Blocks {
  import Feistel
  import opened KeySchedule
  import opened Wrappers

  /** Decryption inverts encryption for every permutation array and S-boxes. */
  lemma DecryptInvertsEncrypt<W(!new), B(!new)>(m: Words<W, B>, t: Tables<W>, l: W, r: W)
    requires m.Valid() && t.Valid()
    ensures var (x, y) := Encrypted(m, t, l, r); Decrypted(m, t, x, y) == (l, r)
  {
    Feistel.DecryptInvertsEncrypt(Net(m, t), t.p, l, r);
  }

  function EncryptedBlock<W(!new), B(!new)>(m: Words<W, B>, t: Tables<W>, block: seq<B>): (r: seq<B>)
    requires m.Valid() && t.Valid() && |block| == 8
    ensures |r| == 8
  {
    var (x, y) := Encrypted(m, t, m.g.WordAt(block, 0), m.g.WordAt(block, 4));
    m.g.Store(x) + m.g.Store(y)
  }

  function DecryptedBlock<W(!new), B(!new)>(m: Words<W, B>, t: Tables<W>, block: seq<B>): (r: seq<B>)
    requires m.Valid() && t.Valid() && |block| == 8
    ensures |r| == 8
  {
    var (x, y) := Decrypted(m, t, m.g.WordAt(block, 0), m.g.WordAt(block, 4));
    m.g.Store(x) + m.g.Store(y)
  }

  lemma BlockRoundTrip<W(!new), B(!new)>(m: Words<W, B>, t: Tables<W>, block: seq<B>)
    requires m.Valid() && t.Valid() && |block| == 8
    ensures DecryptedBlock(m, t, EncryptedBlock(m, t, block)) == block
  {
    var l, r := m.g.WordAt(block, 0), m.g.WordAt(block, 4);
    var (x, y) := Encrypted(m, t, l, r);
    var s := EncryptedBlock(m, t, block);
    assert s[0..4] == m.g.Store(x) && s[4..8] == m.g.Store(y);
    m.g.WordAtOfStore(s, 0, x);
    m.g.WordAtOfStore(s, 4, y);
    DecryptInvertsEncrypt(m, t, l, r);
    m.g.StoreOfWordAt(block, 0);
    m.g.StoreOfWordAt(block, 4);
  }

  /** Writes a word in little-endian order. */
  method StoreWord<W(!new), B(!new)>(m: Words<W, B>, dst: array<B>, at: nat, w: W)
    requires at + 4 <= dst.Length
    modifies dst
    ensures dst[..at + 4] == old(dst[..at]) + m.g.Store(w) && dst[at + 4..] == old(dst[at + 4..])
  {
    var s := m.g.Store(w);
    dst[at], dst[at + 1], dst[at + 2], dst[at + 3] := s[0], s[1], s[2], s[3];
  }

  method Encrypt<W(!new), B(!new)>(c: Cipher<W, B>, dst: array<B>, at: nat, src: seq<B>)
    requires c.Valid() && at + 8 <= dst.Length && |src| == 8
    modifies dst
    ensures dst[..at + 8] == old(dst[..at]) + EncryptedBlock(c.m, c.T(), src)
  {
    var x, y := c.EncryptBlock(c.m.g.WordAt(src, 0), c.m.g.WordAt(src, 4));
    StoreWord(c.m, dst, at, x);
    StoreWord(c.m, dst, at + 4, y);
  }

  method Decrypt<W(!new), B(!new)>(c: Cipher<W, B>, dst: array<B>, at: nat, src: seq<B>)
    requires c.Valid() && at + 8 <= dst.Length && |src| == 8
    modifies dst
    ensures dst[..at + 8] == old(dst[..at]) + DecryptedBlock(c.m, c.T(), src)
  {
    var x, y := c.DecryptBlock(c.m.g.WordAt(src, 0), c.m.g.WordAt(src, 4));
    StoreWord(c.m, dst, at, x);
    StoreWord(c.m, dst, at + 4, y);
  }

  // ---------- Whole buffers ----------

  /** The first n blocks of a buffer, each encrypted on its own. */
  function EncryptedBlocks<W(!new), B(!new)>(m: Words<W, B>, t: Tables<W>, data: seq<B>, n: nat): (r: seq<B>)
    requires m.Valid() && t.Valid() && 8 * n <= |data|
    ensures |r| == 8 * n
  {
    if n == 0 then [] else EncryptedBlocks(m, t, data, n - 1) + EncryptedBlock(m, t, data[8 * n - 8..8 * n])
  }

  function DecryptedBlocks<W(!new), B(!new)>(m: Words<W, B>, t: Tables<W>, data: seq<B>, n: nat): (r: seq<B>)
    requires m.Valid() && t.Valid() && 8 * n <= |data|
    ensures |r| == 8 * n
  {
    if n == 0 then [] else DecryptedBlocks(m, t, data, n - 1) + DecryptedBlock(m, t, data[8 * n - 8..8 * n])
  }

  lemma Slice<B>(front: seq<B>, last: seq<B>, i: nat)
    requires |front| % 8 == 0 && |last| == 8 && i % 8 == 0 && i <= |front|
    ensures (front + last)[i..i + 8] == if i < |front| then front[i..i + 8] else last
  {}

  lemma LastBlock<W(!new), B(!new)>(m: Words<W, B>, t: Tables<W>, data: seq<B>, n: nat, i: nat)
    requires m.Valid() && t.Valid() && 8 * n <= |data| && i < n
    ensures EncryptedBlocks(m, t, data, n)[8 * i..8 * i + 8] ==
      if i < n - 1
        then EncryptedBlocks(m, t, data, n - 1)[8 * i..8 * i + 8] else EncryptedBlock(m, t, data[8 * i..8 * i + 8])
  {
    Slice(EncryptedBlocks(m, t, data, n - 1), EncryptedBlock(m, t, data[8 * n - 8..8 * n]), 8 * i);
  }

  lemma {:induction false} BlockOf<W(!new), B(!new)>(m: Words<W, B>, t: Tables<W>, data: seq<B>, n: nat, i: nat)
    requires m.Valid() && t.Valid() && 8 * n <= |data| && i < n
    ensures EncryptedBlocks(m, t, data, n)[8 * i..8 * i + 8] == EncryptedBlock(m, t, data[8 * i..8 * i + 8])
  {
    LastBlock(m, t, data, n, i);
    if i < n - 1 { BlockOf(m, t, data, n - 1, i); }
  }

  ghost predicate Undone<W(!new), B(!new)>(m: Words<W, B>, t: Tables<W>, e: seq<B>, data: seq<B>, i: nat)
    requires m.Valid() && t.Valid()
  {
    8 * i + 8 <= |e| == |data| && DecryptedBlock(m, t, e[8 * i..8 * i + 8]) == data[8 * i..8 * i + 8]
  }

  lemma {:induction false} EachBlock<W(!new), B(!new)>(m: Words<W, B>, t: Tables<W>, e: seq<B>, data: seq<B>, n: nat)
    requires m.Valid() && t.Valid() && 8 * n <= |e| == |data|
    requires forall i: nat :: i < n ==> Undone(m, t, e, data, i)
    ensures DecryptedBlocks(m, t, e, n) == data[..8 * n]
  {
    if n > 0 {
      hide m.Valid, DecryptedBlock;
      EachBlock(m, t, e, data, n - 1);
      assert Undone(m, t, e, data, n - 1);
      assert e[8 * (n - 1)..8 * (n - 1) + 8] == e[8 * n - 8..8 * n];
      assert data[..8 * n] == data[..8 * n - 8] + data[8 * n - 8..8 * n];
    }
  }

  lemma BlockComesBack<W(!new), B(!new)>(m: Words<W, B>, t: Tables<W>, data: seq<B>, n: nat, i: nat)
    requires m.Valid() && t.Valid() && 8 * n == |data| && i < n
    ensures Undone(m, t, EncryptedBlocks(m, t, data, n), data, i)
  {
    BlockOf(m, t, data, n, i);
    BlockRoundTrip(m, t, data[8 * i..8 * i + 8]);
  }

  /** Decryption inverts encryption block by block, over a buffer of any length. */
  lemma BlocksRoundTrip<W(!new), B(!new)>(m: Words<W, B>, t: Tables<W>, data: seq<B>)
    requires m.Valid() && t.Valid() && |data| % 8 == 0
    ensures DecryptedBlocks(m, t, EncryptedBlocks(m, t, data, |data| / 8), |data| / 8) == data
  {
    var n := |data| / 8;
    var e := EncryptedBlocks(m, t, data, n);
    forall i: nat | i < n ensures Undone(m, t, e, data, i) { BlockComesBack(m, t, data, n, i); }
    EachBlock(m, t, e, data, n);
    assert data[..8 * n] == data;
  }

  method EncryptNext<W(!new), B(!new)>(c: Cipher<W, B>, dst: array<B>, src: seq<B>, i: nat)
    requires c.Valid() && 8 * i + 8 <= |src| == dst.Length
    requires dst[..8 * i] == EncryptedBlocks(c.m, c.T(), src, i)
    modifies dst
    ensures dst[..8 * (i + 1)] == EncryptedBlocks(c.m, c.T(), src, i + 1)
  {
    Encrypt(c, dst, 8 * i, src[8 * i..8 * i + 8]);
  }

  method EncryptBlocks<W(!new), B(!new)>(c: Cipher<W, B>, dst: array<B>, src: seq<B>)
    requires c.Valid() && dst.Length == |src| && |src| % 8 == 0
    modifies dst
    ensures dst[..] == EncryptedBlocks(c.m, c.T(), src, |src| / 8)
  {
    var count := |src| / 8;
    for i := 0 to count
      invariant dst[..8 * i] == EncryptedBlocks(c.m, c.T(), src, i)
    {
      EncryptNext(c, dst, src, i);
    }
    assert dst[..8 * count] == dst[..];
  }

  method DecryptNext<W(!new), B(!new)>(c: Cipher<W, B>, dst: array<B>, src: seq<B>, i: nat)
    requires c.Valid() && 8 * i + 8 <= |src| == dst.Length
    requires dst[..8 * i] == DecryptedBlocks(c.m, c.T(), src, i)
    modifies dst
    ensures dst[..8 * (i + 1)] == DecryptedBlocks(c.m, c.T(), src, i + 1)
  {
    Decrypt(c, dst, 8 * i, src[8 * i..8 * i + 8]);
  }

  method DecryptBlocks<W(!new), B(!new)>(c: Cipher<W, B>, dst: array<B>, src: seq<B>)
    requires c.Valid() && dst.Length == |src| && |src| % 8 == 0
    modifies dst
    ensures dst[..] == DecryptedBlocks(c.m, c.T(), src, |src| / 8)
  {
    var count := |src| / 8;
    for i := 0 to count
      invariant dst[..8 * i] == DecryptedBlocks(c.m, c.T(), src, i)
    {
      DecryptNext(c, dst, src, i);
    }
    assert dst[..8 * count] == dst[..];
  }

  // ---------- Under a key ----------

  predicate KeyOk<B>(key: seq<B>) { 1 <= |key| <= 56 }

  function Keyed<W(!new), B(!new)>(m: Words<W, B>, initial: Tables<W>, key: seq<B>): (t: Tables<W>)
    requires m.Valid() && initial.Valid() && KeyOk(key)
    ensures t.Valid()
  {
    ExpandedKey(m, initial, key)
  }

  function EncryptedBytes<W(!new), B(!new)>(m: Words<W, B>, initial: Tables<W>, key: seq<B>, data: seq<B>): (r: seq<B>)
    requires m.Valid() && initial.Valid() && KeyOk(key) && |data| % 8 == 0
    ensures |r| == |data|
  {
    EncryptedBlocks(m, Keyed(m, initial, key), data, |data| / 8)
  }

  function DecryptedBytes<W(!new), B(!new)>(m: Words<W, B>, initial: Tables<W>, key: seq<B>, data: seq<B>): (r: seq<B>)
    requires m.Valid() && initial.Valid() && KeyOk(key) && |data| % 8 == 0
    ensures |r| == |data|
  {
    DecryptedBlocks(m, Keyed(m, initial, key), data, |data| / 8)
  }

  method BlowfishEncrypt<W(!new), B(!new)>(m: Words<W, B>, initial: Tables<W>, decrypted: seq<B>, key: seq<B>)
    returns (r: Result<seq<B>>)
    requires m.Valid() && initial.Valid()
    ensures r.Ok? <==> KeyOk(key) && |decrypted| % 8 == 0
    ensures r.Ok? ==> r.value == EncryptedBytes(m, initial, key, decrypted)
  {
    if !KeyOk(key) { return Err("could not initialize the cipher"); }
    var cipher := new Cipher(m, initial, key);
    if |decrypted| % 8 != 0 { return Err("not a multiple of the block size"); }
    var encrypted := new B[|decrypted|](_ => m.g.zero);
    EncryptBlocks(cipher, encrypted, decrypted);
    r := Ok(encrypted[..]);
  }

  method BlowfishDecrypt<W(!new), B(!new)>(m: Words<W, B>, initial: Tables<W>, encrypted: seq<B>, key: seq<B>)
    returns (r: Result<seq<B>>)
    requires m.Valid() && initial.Valid()
    ensures r.Ok? <==> KeyOk(key) && |encrypted| % 8 == 0
    ensures r.Ok? ==> r.value == DecryptedBytes(m, initial, key, encrypted)
  {
    if !KeyOk(key) { return Err("could not initialize the cipher"); }
    var cipher := new Cipher(m, initial, key);
    if |encrypted| % 8 != 0 { return Err("not a multiple of the block size"); }
    var decrypted := new B[|encrypted|](_ => m.g.zero);
    DecryptBlocks(cipher, decrypted, encrypted);
    r := Ok(decrypted[..]);
  }

  /** What one side encrypts, the other decrypts under the same key. */
  lemma CipherRoundTrip<W(!new), B(!new)>(m: Words<W, B>, initial: Tables<W>, key: seq<B>, data: seq<B>)
    requires m.Valid() && initial.Valid() && KeyOk(key) && |data| % 8 == 0
    ensures DecryptedBytes(m, initial, key, EncryptedBytes(m, initial, key, data)) == data
  {
    BlocksRoundTrip(m, Keyed(m, initial, key), data);
  }
}
