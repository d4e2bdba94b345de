/**
 32-bit words as four little-endian bytes. The word type is a parameter, so that no bit of a word is
 in sight here: wrap-around arithmetic goes by the number the bytes spell.
 */
module Bytewise {
  const MODULUS := 0x1_0000_0000

  /** Words that are made of four bytes, and bytes that are numbers. */
  datatype Numeral<!B(!new), !W(!new)> = Numeral(
    load: (B, B, B, B) -> W, bytes: W -> (B, B, B, B), digit: B -> int, ofDigit: int -> B) {

    ghost predicate Valid() {
      && (forall w :: load(bytes(w).0, bytes(w).1, bytes(w).2, bytes(w).3) == w)
      && (forall a, b, c, d :: bytes(load(a, b, c, d)) == (a, b, c, d))
      && (forall b :: 0 <= digit(b) < 0x100 && ofDigit(digit(b)) == b)
      && (forall i :: 0 <= i < 0x100 ==> digit(ofDigit(i)) == i)
    }

    function Number(w: W): int {
      var (a, b, c, d) := bytes(w);
      digit(a) + 0x100 * digit(b) + 0x1_0000 * digit(c) + 0x100_0000 * digit(d)
    }

    function WordOf(n: int): W {
      load(ofDigit(n % 0x100), ofDigit(n / 0x100 % 0x100),
           ofDigit(n / 0x100 / 0x100 % 0x100), ofDigit(n / 0x100 / 0x100 / 0x100 % 0x100))
    }

    lemma WordOfNumber(w: W, n: int)
      requires Valid() && (n - Number(w)) % MODULUS == 0
      ensures WordOf(n) == w
    {
      var (a, b, c, d) := bytes(w);
      DigitsUnique(n, digit(a), digit(b), digit(c), digit(d));
    }

    lemma NumberOfWord(n: int)
      requires Valid()
      ensures Number(WordOf(n)) == n % MODULUS
    {
      var a, b, c, d := n % 0x100, n / 0x100 % 0x100, n / 0x100 / 0x100 % 0x100, n / 0x100 / 0x100 / 0x100 % 0x100;
      assert digit(ofDigit(a)) == a && digit(ofDigit(b)) == b && digit(ofDigit(c)) == c && digit(ofDigit(d)) == d;
      DigitsSum(n);
    }

    /** The word of four zero bytes adds nothing. */
    lemma AddZero(w: W, zero: B)
      requires Valid() && digit(zero) == 0
      ensures Add(w, load(zero, zero, zero, zero)) == w
    {
      assert Number(load(zero, zero, zero, zero)) == 0;
      WordOfNumber(w, Number(w));
    }

    /** Addition that wraps around. */
    function Add(a: W, b: W): W { WordOf(Number(a) + Number(b)) }

    function Sub(a: W, b: W): W { WordOf(Number(a) - Number(b)) }

    lemma SubUndoesAdd(a: W, b: W)
      requires Valid()
      ensures Sub(Add(a, b), b) == a
    {
      var sum := Number(a) + Number(b);
      NumberOfWord(sum);
      Residue(sum);
      var n := sum % MODULUS - Number(b);
      assert (n - Number(a)) % MODULUS == 0 by { assert n - Number(a) == sum % MODULUS - sum; }
      WordOfNumber(a, n);
    }
  }

  lemma LastDigit(n: int, digit: int, rest: int)
    requires 0 <= digit < 0x100 && n == digit + 0x100 * rest
    ensures n % 0x100 == digit && n / 0x100 == rest
  {}

  lemma DigitsUnique(n: int, a: int, b: int, c: int, d: int)
    requires 0 <= a < 0x100 && 0 <= b < 0x100 && 0 <= c < 0x100 && 0 <= d < 0x100
    requires (n - (a + 0x100 * b + 0x1_0000 * c + 0x100_0000 * d)) % MODULUS == 0
    ensures n % 0x100 == a && n / 0x100 % 0x100 == b
    ensures n / 0x100 / 0x100 % 0x100 == c && n / 0x100 / 0x100 / 0x100 % 0x100 == d
  {
    var k := (n - (a + 0x100 * b + 0x1_0000 * c + 0x100_0000 * d)) / MODULUS;
    var top := d + 0x100 * k;
    LastDigit(n, a, b + 0x100 * (c + 0x100 * top));
    LastDigit(n / 0x100, b, c + 0x100 * top);
    LastDigit(n / 0x100 / 0x100, c, top);
    LastDigit(n / 0x100 / 0x100 / 0x100, d, k);
  }

  lemma Residue(n: int)
    ensures (n % MODULUS - n) % MODULUS == 0
  {}

  lemma DigitsSum(n: int)
    ensures n % 0x100 + 0x100 * (n / 0x100 % 0x100) + 0x1_0000 * (n / 0x100 / 0x100 % 0x100)
            + 0x100_0000 * (n / 0x100 / 0x100 / 0x100 % 0x100) == n % MODULUS
  {}

  /** Words in buffers, with an addition that subtraction undoes and a combination that cancels itself. */
  datatype Codec<!B(!new), !W(!new)> = Codec(
    zero: B, load: (B, B, B, B) -> W, bytes: W -> (B, B, B, B), add: (W, W) -> W, sub: (W, W) -> W, mix: (W, W) -> W) {

    ghost predicate Valid() {
      && (forall w :: load(bytes(w).0, bytes(w).1, bytes(w).2, bytes(w).3) == w)
      && (forall a, b, c, d :: bytes(load(a, b, c, d)) == (a, b, c, d))
      && (forall v, w :: sub(add(v, w), w) == v)
      && (forall v, w :: mix(mix(v, w), w) == v && mix(v, w) == mix(w, v))
      && (forall w :: mix(w, load(zero, zero, zero, zero)) == w)
    }

    function Store(w: W): (s: seq<B>)
      ensures |s| == 4
    {
      var (a, b, c, d) := bytes(w);
      [a, b, c, d]
    }

    function WordAt(s: seq<B>, i: nat): W
      requires i + 4 <= |s|
    {
      load(s[i], s[i + 1], s[i + 2], s[i + 3])
    }

    function BytesOf(w: seq<W>): (r: seq<B>)
      ensures |r| == 4 * |w|
    {
      if w == [] then [] else BytesOf(w[..|w| - 1]) + Store(w[|w| - 1])
    }

    function WordsOf(s: seq<B>): (r: seq<W>)
      requires |s| % 4 == 0
      ensures |r| == |s| / 4
    {
      if s == [] then [] else WordsOf(s[..|s| - 4]) + [WordAt(s, |s| - 4)]
    }

    lemma WordAtOfStore(s: seq<B>, i: nat, w: W)
      requires Valid() && i + 4 <= |s| && s[i..i + 4] == Store(w)
      ensures WordAt(s, i) == w
    {
      var t := s[i..i + 4];
      assert s[i] == t[0] && s[i + 1] == t[1] && s[i + 2] == t[2] && s[i + 3] == t[3];
    }

    lemma StoreOfWordAt(s: seq<B>, i: nat)
      requires Valid() && i + 4 <= |s|
      ensures Store(WordAt(s, i)) == s[i..i + 4]
    {}

    lemma {:induction false} BytesOfConcat(v: seq<W>, w: seq<W>)
      ensures BytesOf(v + w) == BytesOf(v) + BytesOf(w)
    {
      if w == [] {
        assert v + w == v;
      } else {
        BytesOfConcat(v, w[..|w| - 1]);
        assert (v + w)[..|v + w| - 1] == v + w[..|w| - 1];
      }
    }

    lemma {:induction false} WordsOfAt(s: seq<B>, i: nat)
      requires |s| % 4 == 0 && 4 * i + 4 <= |s|
      ensures WordsOf(s)[i] == WordAt(s, 4 * i)
    {
      if 4 * i + 4 < |s| { WordsOfAt(s[..|s| - 4], i); }
    }

    lemma {:induction false} BytesOfWordsOf(s: seq<B>)
      requires Valid() && |s| % 4 == 0
      ensures BytesOf(WordsOf(s)) == s
    {
      if s != [] {
        BytesOfWordsOf(s[..|s| - 4]);
        StoreOfWordAt(s, |s| - 4);
        var w := WordsOf(s);
        assert w[..|w| - 1] == WordsOf(s[..|s| - 4]);
      }
    }

    lemma WordsOfLonger(front: seq<B>, w: W)
      requires Valid() && |front| % 4 == 0
      ensures WordsOf(front + Store(w)) == WordsOf(front) + [w]
    {
      var s := front + Store(w);
      WordAtOfStore(s, |front|, w);
      assert s[..|front|] == front;
    }

    lemma {:induction false} WordsOfBytesOf(w: seq<W>)
      requires Valid()
      ensures WordsOf(BytesOf(w)) == w
    {
      if w != [] {
        var front, last := w[..|w| - 1], w[|w| - 1];
        assert w == front + [last];
        var s := BytesOf(front);
        assert BytesOf(w) == s + Store(last);
        WordsOfLonger(s, last);
        WordsOfBytesOf(front);
      }
    }
  }
}
