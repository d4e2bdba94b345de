/** Feistel networks over any words, any round function and any self-cancelling combination. */
module Feistel {
  /** A round function and a combination of words; Blowfish's are F and exclusive or. */
  datatype Network<!W> = Network(f: W -> W, mix: (W, W) -> W)

  ghost predicate Cancels<W(!new)>(n: Network<W>) {
    forall a, b :: n.mix(n.mix(a, b), b) == a
  }

  /** Each round mixes one half with the round function of the other and the round key, and crosses the halves. */
  function Rounds<W>(n: Network<W>, keys: seq<W>, a: W, b: W): (W, W) {
    if keys == [] then (a, b) else Rounds(n, keys[1..], n.mix(b, n.mix(n.f(a), keys[0])), a)
  }

  function Reversed<W>(s: seq<W>): (r: seq<W>)
    ensures |r| == |s|
  {
    if s == [] then [] else Reversed(s[1..]) + [s[0]]
  }

  /** Encryption and decryption over 18 subkeys: whitening, sixteen rounds, whitening. */
  function Encrypt<W>(n: Network<W>, p: seq<W>, l: W, r: W): (W, W)
    requires |p| == 18
  {
    var (a, b) := Rounds(n, p[1..17], n.mix(l, p[0]), r);
    (n.mix(b, p[17]), a)
  }

  function Decrypt<W>(n: Network<W>, p: seq<W>, l: W, r: W): (W, W)
    requires |p| == 18
  {
    var (a, b) := Rounds(n, Reversed(p[1..17]), n.mix(l, p[17]), r);
    (n.mix(b, p[0]), a)
  }

  lemma {:induction false} RoundsConcat<W>(n: Network<W>, k: seq<W>, m: seq<W>, a: W, b: W)
    ensures Rounds(n, k + m, a, b) == Rounds(n, m, Rounds(n, k, a, b).0, Rounds(n, k, a, b).1)
  {
    if k == [] {
      assert k + m == m;
    } else {
      assert (k + m)[1..] == k[1..] + m;
      RoundsConcat(n, k[1..], m, n.mix(b, n.mix(n.f(a), k[0])), a);
    }
  }

  /** Running the rounds backwards on crossed halves undoes them, whatever the round function is. */
  lemma {:induction false} RoundsInverse<W(!new)>(n: Network<W>, keys: seq<W>, a: W, b: W)
    requires Cancels(n)
    ensures var (x, y) := Rounds(n, keys, a, b); Rounds(n, Reversed(keys), y, x) == (b, a)
  {
    if keys != [] {
      var a', b' := n.mix(b, n.mix(n.f(a), keys[0])), a;
      var (x, y) := Rounds(n, keys[1..], a', b');
      RoundsInverse(n, keys[1..], a', b');
      RoundsConcat(n, Reversed(keys[1..]), [keys[0]], y, x);
      assert Rounds(n, [keys[0]], b', a') == Rounds(n, [], n.mix(a', n.mix(n.f(b'), keys[0])), b');
    }
  }

  lemma DecryptInvertsEncrypt<W(!new)>(n: Network<W>, p: seq<W>, l: W, r: W)
    requires |p| == 18 && Cancels(n)
    ensures var (x, y) := Encrypt(n, p, l, r); Decrypt(n, p, x, y) == (l, r)
  {
    var (a, b) := Rounds(n, p[1..17], n.mix(l, p[0]), r);
    RoundsInverse(n, p[1..17], n.mix(l, p[0]), r);
    assert n.mix(n.mix(b, p[17]), p[17]) == b && n.mix(n.mix(l, p[0]), p[0]) == l;
  }

  lemma {:induction false} ReversedAt<W>(s: seq<W>, i: nat)
    requires i < |s|
    ensures Reversed(s)[i] == s[|s| - 1 - i]
  {
    if i < |s| - 1 { ReversedAt(s[1..], i); }
  }

  lemma OneRound<W>(n: Network<W>, keys: seq<W>, i: nat, a: W, b: W)
    requires i < |keys|
    ensures var (x, y) := Rounds(n, keys[..i], a, b);
      Rounds(n, keys[..i + 1], a, b) == (n.mix(y, n.mix(n.f(x), keys[i])), x)
  {
    var (x, y) := Rounds(n, keys[..i], a, b);
    assert keys[..i + 1] == keys[..i] + [keys[i]];
    RoundsConcat(n, keys[..i], [keys[i]], a, b);
    assert Rounds(n, [keys[i]], x, y) == Rounds(n, [], n.mix(y, n.mix(n.f(x), keys[i])), x);
  }

  /** Two of the written-out rounds, the halves updated in turn; i round keys were used before. */
  method RoundPair<W>(n: Network<W>, j: W, k: W, xl: W, xr: W, ghost keys: seq<W>, ghost i: nat, ghost l: W, ghost r: W)
    returns (xl': W, xr': W)
    requires i + 2 <= |keys| && keys[i] == j && keys[i + 1] == k
    requires (xl, xr) == Rounds(n, keys[..i], l, r)
    ensures (xl', xr') == Rounds(n, keys[..i + 2], l, r)
  {
    xr' := n.mix(xr, n.mix(n.f(xl), j));
    xl' := n.mix(xl, n.mix(n.f(xr'), k));
    OneRound(n, keys, i, l, r);
    OneRound(n, keys, i + 1, l, r);
  }

  function Ascending<W>(p: seq<W>): seq<W>
    requires |p| == 18
  {
    [p[1], p[2], p[3], p[4], p[5], p[6], p[7], p[8], p[9], p[10], p[11], p[12], p[13], p[14], p[15], p[16]]
  }

  lemma AscendingSlices<W>(p: seq<W>)
    requires |p| == 18
    ensures p[1..17] == Ascending(p)
  {}

  /** encryptBlock: the subkeys in ascending order. */
  method EncryptBlock<W>(n: Network<W>, p: seq<W>, l: W, r: W) returns (x: W, y: W)
    requires |p| == 18
    ensures (x, y) == Encrypt(n, p, l, r)
  {
    ghost var keys := Ascending(p);
    var xl, xr := n.mix(l, p[0]), r;
    ghost var a, b := xl, xr;
    assert (a, b) == Rounds(n, keys[..0], a, b);
    hide Rounds;
    xl, xr := RoundPair(n, p[1], p[2], xl, xr, keys, 0, a, b);
    xl, xr := RoundPair(n, p[3], p[4], xl, xr, keys, 2, a, b);
    xl, xr := RoundPair(n, p[5], p[6], xl, xr, keys, 4, a, b);
    xl, xr := RoundPair(n, p[7], p[8], xl, xr, keys, 6, a, b);
    xl, xr := RoundPair(n, p[9], p[10], xl, xr, keys, 8, a, b);
    xl, xr := RoundPair(n, p[11], p[12], xl, xr, keys, 10, a, b);
    xl, xr := RoundPair(n, p[13], p[14], xl, xr, keys, 12, a, b);
    xl, xr := RoundPair(n, p[15], p[16], xl, xr, keys, 14, a, b);
    assert keys[..16] == keys;
    AscendingSlices(p);
    x, y := n.mix(xr, p[17]), xl;
  }

  function Descending<W>(p: seq<W>): seq<W>
    requires |p| == 18
  {
    [p[16], p[15], p[14], p[13], p[12], p[11], p[10], p[9], p[8], p[7], p[6], p[5], p[4], p[3], p[2], p[1]]
  }

  lemma DescendingReverses<W>(p: seq<W>)
    requires |p| == 18
    ensures Reversed(p[1..17]) == Descending(p)
  {
    forall i | 0 <= i < 16 ensures Reversed(p[1..17])[i] == Descending(p)[i] { ReversedAt(p[1..17], i); }
  }

  /** decryptBlock: the subkeys in descending order. */
  method DecryptBlock<W>(n: Network<W>, p: seq<W>, l: W, r: W) returns (x: W, y: W)
    requires |p| == 18
    ensures (x, y) == Decrypt(n, p, l, r)
  {
    ghost var keys := Descending(p);
    DescendingReverses(p);
    var xl, xr := n.mix(l, p[17]), r;
    ghost var a, b := xl, xr;
    assert (a, b) == Rounds(n, keys[..0], a, b);
    hide Rounds;
    xl, xr := RoundPair(n, p[16], p[15], xl, xr, keys, 0, a, b);
    xl, xr := RoundPair(n, p[14], p[13], xl, xr, keys, 2, a, b);
    xl, xr := RoundPair(n, p[12], p[11], xl, xr, keys, 4, a, b);
    xl, xr := RoundPair(n, p[10], p[9], xl, xr, keys, 6, a, b);
    xl, xr := RoundPair(n, p[8], p[7], xl, xr, keys, 8, a, b);
    xl, xr := RoundPair(n, p[6], p[5], xl, xr, keys, 10, a, b);
    xl, xr := RoundPair(n, p[4], p[3], xl, xr, keys, 12, a, b);
    xl, xr := RoundPair(n, p[2], p[1], xl, xr, keys, 14, a, b);
    assert keys[..16] == keys;
    x, y := n.mix(xr, p[0]), xl;
  }
}
