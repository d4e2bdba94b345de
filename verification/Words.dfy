/** Bytes and 32-bit words as bit vectors, in little-endian order. */
module Words {
  import opened Bytewise

  type Byte = bv8
  type Word = bv32

  function Load(a: Byte, b: Byte, c: Byte, d: Byte): Word {
    (a as Word) | ((b as Word) << 8) | ((c as Word) << 16) | ((d as Word) << 24)
  }

  function Byte0(w: Word): Byte { (w & 0xFF) as Byte }
  function Byte1(w: Word): Byte { ((w >> 8) & 0xFF) as Byte }
  function Byte2(w: Word): Byte { ((w >> 16) & 0xFF) as Byte }
  function Byte3(w: Word): Byte { ((w >> 24) & 0xFF) as Byte }

  function Bytes(w: Word): (Byte, Byte, Byte, Byte) { (Byte0(w), Byte1(w), Byte2(w), Byte3(w)) }

  function Digit(b: Byte): (i: int)
    ensures 0 <= i < 0x100
  {
    b as int
  }

  /** The byte with a given number: counted up from zero. */
  function OfDigit(i: int): Byte
    decreases if 0 < i then i else 0
  {
    if 0 < i < 0x100 then OfDigit(i - 1) + 1 else 0
  }

  function Xor(a: Word, b: Word): Word { a ^ b }

  lemma LoadOfBytes(w: Word)
    ensures Load(Byte0(w), Byte1(w), Byte2(w), Byte3(w)) == w
  {}

  lemma BytesOfLoad(a: Byte, b: Byte, c: Byte, d: Byte)
    ensures Byte0(Load(a, b, c, d)) == a && Byte1(Load(a, b, c, d)) == b
    ensures Byte2(Load(a, b, c, d)) == c && Byte3(Load(a, b, c, d)) == d
  {}

  lemma XorCancels(a: Word, b: Word)
    ensures Xor(Xor(a, b), b) == a && Xor(a, b) == Xor(b, a)
  {}

  lemma XorZero(a: Word)
    ensures Xor(a, Load(0, 0, 0, 0)) == a
  {}

  lemma NextByte(b: Byte)
    requires b != 0xFF
    ensures Digit(b + 1) == Digit(b) + 1
  {}

  lemma NotLast(b: Byte)
    requires Digit(b) < 0xFF
    ensures b != 0xFF
  {}

  lemma PreviousByte(b: Byte)
    requires b != 0
    ensures Digit(b) == Digit(b - 1) + 1 && (b - 1) + 1 == b
  {}

  lemma OfNextDigit(i: nat, b: Byte)
    requires i < 0xFF && OfDigit(i) == b
    ensures OfDigit(i + 1) == b + 1
  {}

  lemma ZeroDigit()
    ensures Digit(0) == 0 && OfDigit(0) == 0
  {}

  lemma {:induction false} OfDigitOfDigit(b: Byte)
    ensures OfDigit(Digit(b)) == b
    decreases Digit(b)
  {
    hide Digit, OfDigit;
    if b == 0 {
      ZeroDigit();
    } else {
      PreviousByte(b);
      OfDigitOfDigit(b - 1);
      OfNextDigit(Digit(b - 1), b - 1);
    }
  }

  lemma {:induction false} DigitOfOfDigit(i: nat)
    requires i < 0x100
    ensures Digit(OfDigit(i)) == i
  {
    if i > 0 {
      DigitOfOfDigit(i - 1);
      NotLast(OfDigit(i - 1));
      NextByte(OfDigit(i - 1));
    }
  }

  /** Words as numbers. */
  function Numbers(): (n: Numeral<Byte, Word>)
    ensures n.Valid()
  {
    NumbersValid();
    Numeral(Load, Bytes, Digit, OfDigit)
  }

  lemma NumbersValid()
    ensures Numeral(Load, Bytes, Digit, OfDigit).Valid()
  {
    forall w: Word ensures Load(Bytes(w).0, Bytes(w).1, Bytes(w).2, Bytes(w).3) == w { LoadOfBytes(w); }
    forall a: Byte, b: Byte, c: Byte, d: Byte ensures Bytes(Load(a, b, c, d)) == (a, b, c, d) {
      BytesOfLoad(a, b, c, d);
    }
    forall b: Byte ensures 0 <= Digit(b) < 0x100 && OfDigit(Digit(b)) == b { OfDigitOfDigit(b); }
    forall i: int | 0 <= i < 0x100 ensures Digit(OfDigit(i)) == i { DigitOfOfDigit(i); }
  }

  /** Addition and subtraction modulo 2 to the 32. */
  function Add(a: Word, b: Word): Word { Numbers().Add(a, b) }
  function Sub(a: Word, b: Word): Word { Numbers().Sub(a, b) }

  lemma SubUndoesAdd(a: Word, b: Word)
    ensures Sub(Add(a, b), b) == a
  {
    Numbers().SubUndoesAdd(a, b);
  }

  lemma AddZero(w: Word)
    ensures Add(w, Load(0, 0, 0, 0)) == w
  {
    Numbers().AddZero(w, 0);
  }

  /** The machine's words, with the laws of byte order and of wrap-around arithmetic. */
  function Uint32(): (g: Codec<Byte, Word>)
    ensures g.Valid()
  {
    Uint32Valid();
    Codec(0, Load, Bytes, Add, Sub, Xor)
  }

  lemma Uint32Valid()
    ensures Codec(0 as Byte, Load, Bytes, Add, Sub, Xor).Valid()
  {
    forall w: Word ensures Load(Bytes(w).0, Bytes(w).1, Bytes(w).2, Bytes(w).3) == w { LoadOfBytes(w); }
    forall a: Byte, b: Byte, c: Byte, d: Byte ensures Bytes(Load(a, b, c, d)) == (a, b, c, d) {
      BytesOfLoad(a, b, c, d);
    }
    forall v: Word, w: Word ensures Sub(Add(v, w), w) == v { SubUndoesAdd(v, w); }
    forall v: Word, w: Word ensures Xor(Xor(v, w), w) == v && Xor(v, w) == Xor(w, v) { XorCancels(v, w); }
    forall w: Word ensures Xor(w, Load(0, 0, 0, 0)) == w { XorZero(w); }
  }
}
