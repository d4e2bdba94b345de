/**
 Blowfish itself: the round function of pkg/crypt/blowfish on 32-bit words, and the keys of the
 servers. The digits of pi the tables start from are a parameter everywhere.
 */
module Blowfish {
  import opened Blocks
  import opened Bytewise
  import Frames
  import opened KeySchedule
  import opened PassExact
  import opened Transport
  import opened W = Words
  import opened Wrappers
  import XorPass

  /** The round function: ((s0 + s1) ^ s2) + s3, indexed by the bytes of x from the top. */
  function F(t: Tables<Word>, x: Word): Word
    requires t.Valid()
  {
    Add(Xor(Add(t.s[0][Digit(Byte3(x))], t.s[1][Digit(Byte2(x))]), t.s[2][Digit(Byte1(x))]), t.s[3][Digit(Byte0(x))])
  }

  function PushByte(d: Word, b: Byte): Word { (d << 8) | (b as Word) }

  /** The boxes are indexed by the four digits of the word in base 256, the first box by the highest. */
  lemma BoxesByDigits(t: Tables<Word>, x: Word)
    requires t.Valid()
    ensures var n := Numbers().Number(x);
      && 0 <= n < 0x1_0000_0000
      && F(t, x) == Add(Xor(Add(t.s[0][n / 0x100_0000], t.s[1][n / 0x1_0000 % 0x100]), t.s[2][n / 0x100 % 0x100]),
                        t.s[3][n % 0x100])
  {
    hide Numbers, Digit, Byte0, Byte1, Byte2, Byte3, Add, Xor;
    DigitsOf(x);
  }

  lemma DigitsOf(x: Word)
    ensures var n := Numbers().Number(x);
      && 0 <= n < 0x1_0000_0000 && n / 0x100_0000 == Digit(Byte3(x)) && n / 0x1_0000 % 0x100 == Digit(Byte2(x))
      && n / 0x100 % 0x100 == Digit(Byte1(x)) && n % 0x100 == Digit(Byte0(x))
  {
    hide *;
    NumberOfBytes(x);
    BytesOf(x);
    FourDigits(Digit(Byte0(x)), Digit(Byte1(x)), Digit(Byte2(x)), Digit(Byte3(x)));
  }

  lemma FourDigits(a: int, b: int, c: int, d: int)
    requires 0 <= a < 0x100 && 0 <= b < 0x100 && 0 <= c < 0x100 && 0 <= d < 0x100
    ensures var n := a + 0x100 * b + 0x1_0000 * c + 0x100_0000 * d;
      && 0 <= n < 0x1_0000_0000 && n / 0x100_0000 == d && n / 0x1_0000 % 0x100 == c
      && n / 0x100 % 0x100 == b && n % 0x100 == a
  {
    TwoDigits(a, b + 0x100 * c + 0x1_0000 * d);
    TwoDigits(b, c + 0x100 * d);
    TwoDigits(c, d);
    var n := a + 0x100 * b + 0x1_0000 * c + 0x100_0000 * d;
    assert n / 0x1_0000 == n / 0x100 / 0x100 && n / 0x100_0000 == n / 0x100 / 0x100 / 0x100;
  }

  lemma TwoDigits(a: int, rest: int)
    requires 0 <= a < 0x100 && 0 <= rest
    ensures (a + 0x100 * rest) % 0x100 == a && (a + 0x100 * rest) / 0x100 == rest
  {}

  // ---------- What the key does ----------

  /** A key byte is pushed in at the bottom; the top one falls out. */
  lemma PushedBytes(d: Word, b: Byte)
    ensures Bytes(PushByte(d, b)) == (b, Byte0(d), Byte1(d), Byte2(d))
  {}

  lemma PushedNumber(d: Word, b: Byte)
    ensures Numbers().Number(PushByte(d, b)) == (0x100 * Numbers().Number(d) + Digit(b)) % MODULUS
  {
    hide *;
    PushedBytes(d, b);
    NumberOfBytes(d);
    NumberOfBytes(PushByte(d, b));
    BytesOf(d);
    ShiftedNumber(Digit(b), Digit(Byte0(d)), Digit(Byte1(d)), Digit(Byte2(d)), Digit(Byte3(d)));
  }

  lemma BytesOf(w: Word)
    ensures Bytes(w) == (Byte0(w), Byte1(w), Byte2(w), Byte3(w))
  {}

  lemma NumberOfBytes(w: Word)
    ensures var (a, b, c, d) := Bytes(w);
      Numbers().Number(w) == Digit(a) + 0x100 * Digit(b) + 0x1_0000 * Digit(c) + 0x100_0000 * Digit(d)
  {
    hide Bytes, Digit;
  }

  lemma ShiftedNumber(b: int, d0: int, d1: int, d2: int, d3: int)
    requires 0 <= b < 0x100 && 0 <= d0 < 0x100 && 0 <= d1 < 0x100 && 0 <= d2 < 0x100 && 0 <= d3 < 0x100
    ensures b + 0x100 * d0 + 0x1_0000 * d1 + 0x100_0000 * d2
      == (0x100 * (d0 + 0x100 * d1 + 0x1_0000 * d2 + 0x100_0000 * d3) + b) % MODULUS
  {}

  /** Four key bytes make a word, the most significant first, and start over at the end of the key. */
  lemma KeyWordBytes(key: seq<Byte>, from: nat)
    requires key != []
    ensures Bytes(KeyWord(Bits(), key, from, 4))
      == (key[(from + 3) % |key|], key[(from + 2) % |key|], key[(from + 1) % |key|], key[from % |key|])
  {
    var m := Bits();
    var w0, w1, w2, w3, w4 := KeyWord(m, key, from, 0), KeyWord(m, key, from, 1), KeyWord(m, key, from, 2),
      KeyWord(m, key, from, 3), KeyWord(m, key, from, 4);
    assert w1 == PushByte(w0, key[from % |key|]) && w2 == PushByte(w1, key[(from + 1) % |key|]);
    assert w3 == PushByte(w2, key[(from + 2) % |key|]) && w4 == PushByte(w3, key[(from + 3) % |key|]);
    PushedBytes(w0, key[from % |key|]);
    PushedBytes(w1, key[(from + 1) % |key|]);
    PushedBytes(w2, key[(from + 2) % |key|]);
    PushedBytes(w3, key[(from + 3) % |key|]);
  }

  lemma XorTells(a: Word, b: Word, c: Word)
    ensures Xor(a, b) == Xor(a, c) <==> b == c
  {}

  lemma SameWords(v: Word, w: Word)
    ensures v == w <==> Bytes(v) == Bytes(w)
  {
    LoadOfBytes(v);
    LoadOfBytes(w);
  }

  /** A byte of a key that is read over and over. */
  ghost function Over(key: seq<Byte>, i: nat): Byte
    requires key != []
  {
    key[i % |key|]
  }

  /** The bytes a subkey is mixed with. */
  ghost predicate SameKeyBytes(k: seq<Byte>, l: seq<Byte>, from: nat)
    requires k != [] && l != []
  {
    && Over(k, from) == Over(l, from) && Over(k, from + 1) == Over(l, from + 1)
    && Over(k, from + 2) == Over(l, from + 2) && Over(k, from + 3) == Over(l, from + 3)
  }

  lemma MixedTells(a: Word, v: Word, w: Word)
    ensures Bits().g.mix(a, v) == Bits().g.mix(a, w) <==> v == w
  {
    hide Xor;
    XorTells(a, v, w);
  }

  lemma KeyWordsTell(k: seq<Byte>, l: seq<Byte>, from: nat)
    requires k != [] && l != []
    ensures KeyWord(Bits(), k, from, 4) == KeyWord(Bits(), l, from, 4) <==> SameKeyBytes(k, l, from)
  {
    hide KeyWord, Bytes, Bits;
    KeyWordBytes(k, from);
    KeyWordBytes(l, from);
    SameWords(KeyWord(Bits(), k, from, 4), KeyWord(Bits(), l, from, 4));
  }

  lemma SubkeyTells(p: seq<Word>, k: seq<Byte>, l: seq<Byte>, i: nat)
    requires k != [] && l != [] && i < |p|
    ensures KeyedP(Bits(), p, k)[i] == KeyedP(Bits(), p, l)[i] <==> SameKeyBytes(k, l, 4 * i)
  {
    hide KeyWord, Xor, Bytes, Bits;
    var v, w := KeyWord(Bits(), k, 4 * i, 4), KeyWord(Bits(), l, 4 * i, 4);
    KeyWordsTell(k, l, 4 * i);
    MixedTells(p[i], v, w);
  }

  /** Two keys give the same subkeys exactly if all bytes that the subkeys read, over and over, are the same. */
  lemma KeysTell(p: seq<Word>, k: seq<Byte>, l: seq<Byte>)
    requires k != [] && l != []
    ensures KeyedP(Bits(), p, k) == KeyedP(Bits(), p, l) <==> forall i: nat :: i < |p| ==> SameKeyBytes(k, l, 4 * i)
  {
    forall i: nat | i < |p| { SubkeyTells(p, k, l, i); }
    var a, b := KeyedP(Bits(), p, k), KeyedP(Bits(), p, l);
    assert a == b <==> forall i: nat :: i < |p| ==> a[i] == b[i];
  }

  /** No byte of a usable key is ignored: two of one length give different subkeys, unless they are the same. */
  lemma EveryKeyByteTells(t: Tables<Word>, k: seq<Byte>, l: seq<Byte>, j: nat)
    requires t.Valid() && KeyOk(k) && |l| == |k| && j < |k| && k[j] != l[j]
    ensures KeyedP(Bits(), t.p, k) != KeyedP(Bits(), t.p, l)
  {
    hide Bits, KeyedP, SameKeyBytes;
    DifferentBytes(k, l, j);
    SubkeyTells(t.p, k, l, j / 4);
  }

  lemma DifferentBytes(k: seq<Byte>, l: seq<Byte>, j: nat)
    requires j < |k| == |l| && k[j] != l[j]
    ensures !SameKeyBytes(k, l, 4 * (j / 4))
  {
    hide Over;
    WithinKey(k, j);
    WithinKey(l, j);
    var from := 4 * (j / 4);
    assert j == from || j == from + 1 || j == from + 2 || j == from + 3;
  }

  lemma WithinKey(key: seq<Byte>, j: nat)
    requires j < |key|
    ensures Over(key, j) == key[j]
  {}

  /** The key of the first packets between the servers. */
  const GAME_SERVER_KEY: seq<Byte> := [
    0x5f, 0x3b, 0x76, 0x2e, 0x5d, 0x30, 0x35, 0x2d, 0x33, 0x31, 0x21, 0x7c, 0x2b, 0x2d, 0x25, 0x78,
    0x54, 0x21, 0x5e, 0x5b, 0x24, 0x00]

  /** The key of the first packet to a client. */
  const STATIC_KEY: seq<Byte> := [
    0x6b, 0x60, 0xcb, 0x5b, 0x82, 0xce, 0x90, 0xb1, 0xcc, 0x2b, 0x6c, 0x55, 0x6c, 0x6c, 0x6c, 0x6c]

  function Bits(): (m: Words<Word, Byte>)
    ensures m.Valid()
  {
    Words(Uint32(), 0, PushByte, F)
  }

  lemma KeysOk()
    ensures KeyOk(GAME_SERVER_KEY) && KeyOk(STATIC_KEY)
  {}

  /** Any word algebra that is valid, with the digits of bytes and the keys. */
  lemma MachineValid(m: Words<Word, Byte>)
    requires m.Valid()
    ensures Transport.Machine(m, Digit, OfDigit, GAME_SERVER_KEY, STATIC_KEY).Valid()
  {
    KeysOk();
    forall i: int | 0 <= i < 0x100 ensures Digit(OfDigit(i)) == i { DigitOfOfDigit(i); }
  }

  /** Every law the transports rely on holds of the real words, the real round function and the real keys. */
  function Machine(): (x: Machine<Byte, Word>)
    ensures x.Valid()
  {
    MachineValid(Bits());
    Transport.Machine(Bits(), Digit, OfDigit, GAME_SERVER_KEY, STATIC_KEY)
  }

  lemma ZeroWord(w: Word)
    ensures Uint32().Store(w) == XorPass.Cleared(Uint32()) <==> w == 0
  {
    LoadOfBytes(w);
  }

  /**
   The client gets the first packet back with zero bytes behind it, although it never learns the random
   key of the pass: exactly when the frame fits its length, and the packet is not empty or the key was zero.
   */
  lemma FirstPacket(initial: Tables<Word>, data: seq<Byte>, xorKey: Word, rest: seq<Byte>)
    requires initial.Valid()
    ensures var x, padded := Machine(), Frames.Padded(data, 8, Machine().m.g.zero);
      FirstReceived(x, initial, FirstSent(x, initial, data, xorKey) + rest) == Some(padded)
      <==> |padded| + 2 < 0x1_0000 && (data != [] || xorKey == 0)
  {
    FirstPacketArrives(Machine(), initial, data, xorKey, rest);
    ZeroWord(xorKey);
  }

  /** A case of an empty packet that does not come back: any first key but zero is left in it. */
  lemma EmptyFirstPacket(initial: Tables<Word>, rest: seq<Byte>)
    requires initial.Valid()
    ensures var x := Machine();
      FirstReceived(x, initial, FirstSent(x, initial, [], 1) + rest) != Some(Frames.Padded([], 8, x.m.g.zero))
  {
    FirstPacket(initial, [], 1, rest);
  }

  // ---------- Sizes the pass restores ----------

  const TOP_BYTE_KEY: Word := 0x0100_0000

  lemma ZeroAddsNothing(w: Word)
    ensures Neutral(Uint32(), w)
  {
    AddZero(w);
  }

  lemma KeptByte()
    ensures Uint32().Store(TOP_BYTE_KEY)[3] == 1
  {}

  /** A case of a pass that is not undone: over zeros of a size that is not of whole words. */
  lemma ZerosNotRestored(size: nat)
    requires size >= 12 && size % 4 != 0
    ensures var s: seq<Byte> := Frames.Fill(size, 0);
      !RestoredBut(s, PassedBack(Uint32(), s, 0, size, TOP_BYTE_KEY), size - 8, 0)
  {
    hide PassedBack, XorPass.Count, Neutral;
    var s: seq<Byte> := Frames.Fill(size, 0);
    ZeroAddsNothing(TOP_BYTE_KEY);
    KeptByte();
    KeyByteStays(Uint32(), s, size, TOP_BYTE_KEY);
  }

  /**
   The pass backwards undoes the pass for every buffer, offset and key, but for the four bytes of the key,
   exactly if the size is of whole words.
   */
  lemma PassRestoresExactly(size: nat)
    requires size >= 12
    ensures size % 4 == 0 <==> forall s: seq<Byte>, offset: nat, key: Word :: offset + size <= |s| ==>
      RestoredBut(s, PassedBack(Uint32(), s, offset, size, key), offset + size - 8, 0)
  {
    if size % 4 == 0 {
      forall s: seq<Byte>, offset: nat, key: Word | offset + size <= |s|
        ensures RestoredBut(s, PassedBack(Uint32(), s, offset, size, key), offset + size - 8, 0)
      {
        WholeWordsRestored(Uint32(), s, offset, size, key);
      }
    } else {
      ZerosNotRestored(size);
    }
  }
}
