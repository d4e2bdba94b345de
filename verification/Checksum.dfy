/** The packet checksum: the exclusive or of all words, kept in the last one. */
module Checksum {
  import opened Bytewise

  function ChecksumOf<B(!new), W(!new)>(g: Codec<B, W>, s: seq<B>): W
    requires |s| % 4 == 0
  {
    if s == [] then g.load(g.zero, g.zero, g.zero, g.zero)
    else g.mix(ChecksumOf(g, s[..|s| - 4]), g.WordAt(s, |s| - 4))
  }

  /** The buffer with its last word replaced by the checksum of the others. */
  function Checksummed<B(!new), W(!new)>(g: Codec<B, W>, s: seq<B>): (r: seq<B>)
    requires |s| >= 4 && |s| % 4 == 0
    ensures |r| == |s|
  {
    s[..|s| - 4] + g.Store(ChecksumOf(g, s[..|s| - 4]))
  }

  ghost predicate ChecksumHolds<B(!new), W(!new)>(g: Codec<B, W>, s: seq<B>) {
    && |s| % 4 == 0 && |s| > 4
    && g.WordAt(s, |s| - 4) == ChecksumOf(g, s[..|s| - 4])
  }

  /** The checksum of the words before the last, computed left to right. */
  method Sum<B(!new), W(!new)>(g: Codec<B, W>, raw: seq<B>) returns (sum: W)
    requires |raw| >= 4 && |raw| % 4 == 0
    ensures sum == ChecksumOf(g, raw[..|raw| - 4])
  {
    sum := g.load(g.zero, g.zero, g.zero, g.zero);
    var i := 0;
    while i < |raw| - 4
      invariant 0 <= i <= |raw| - 4 && i % 4 == 0
      invariant sum == ChecksumOf(g, raw[..i])
    {
      assert raw[..i + 4][..i] == raw[..i];
      assert g.WordAt(raw[..i + 4], i) == g.WordAt(raw, i);
      sum := g.mix(sum, g.WordAt(raw, i));
      i := i + 4;
    }
  }

  /** Does nothing to a buffer that is too short or not made of whole words. */
  method AppendChecksum<B(!new), W(!new)>(g: Codec<B, W>, raw: array<B>)
    modifies raw
    ensures raw[..] == if raw.Length >= 4 && raw.Length % 4 == 0 then Checksummed(g, old(raw[..])) else old(raw[..])
  {
    var size := raw.Length;
    if size < 4 || size % 4 != 0 { return; }
    var sum := Sum(g, raw[..]);
    var s := g.Store(sum);
    raw[size - 4], raw[size - 3], raw[size - 2], raw[size - 1] := s[0], s[1], s[2], s[3];
  }

  method VerifyChecksum<B(!new), W(!new, ==)>(g: Codec<B, W>, raw: seq<B>) returns (ok: bool)
    ensures ok <==> ChecksumHolds(g, raw)
  {
    if |raw| % 4 != 0 || |raw| <= 4 { return false; }
    var sum := Sum(g, raw);
    ok := g.WordAt(raw, |raw| - 4) == sum;
  }

  /** A checksum tells two combined words apart by either of them. */
  lemma MixTells<B(!new), W(!new)>(g: Codec<B, W>, a: W, b: W, v: W, w: W)
    requires g.Valid()
    ensures a == b ==> (g.mix(a, v) == g.mix(b, w) <==> v == w)
    ensures v == w ==> (g.mix(a, v) == g.mix(b, w) <==> a == b)
  {
    assert g.mix(g.mix(a, v), v) == a && g.mix(g.mix(b, w), w) == b;
    assert g.mix(g.mix(v, a), a) == v && g.mix(g.mix(w, b), b) == w;
    assert g.mix(a, v) == g.mix(v, a) && g.mix(b, w) == g.mix(w, b);
  }

  /** A buffer that is a single word is its own checksum. */
  lemma ChecksumOfWord<B(!new), W(!new)>(g: Codec<B, W>, s: seq<B>)
    requires g.Valid() && |s| == 4
    ensures ChecksumOf(g, s) == g.WordAt(s, 0)
  {
    assert s[..0] == [];
    var zero := g.load(g.zero, g.zero, g.zero, g.zero);
    assert g.mix(zero, g.WordAt(s, 0)) == g.mix(g.WordAt(s, 0), zero);
  }

  /** The same buffers but for one word. */
  ghost predicate DifferAt<B(!new), W(!new)>(g: Codec<B, W>, s: seq<B>, t: seq<B>, i: nat) {
    && |s| == |t| && |s| % 4 == 0 && 4 * i + 4 <= |s| && g.WordAt(s, 4 * i) != g.WordAt(t, 4 * i)
    && s[..4 * i] == t[..4 * i] && s[4 * i + 4..] == t[4 * i + 4..]
  }

  /** A word changed before the last leaves the last as it is. */
  lemma DifferBefore<B(!new), W(!new)>(g: Codec<B, W>, s: seq<B>, t: seq<B>, i: nat)
    requires DifferAt(g, s, t, i) && 4 * i + 4 < |s|
    ensures DifferAt(g, s[..|s| - 4], t[..|t| - 4], i) && g.WordAt(s, |s| - 4) == g.WordAt(t, |t| - 4)
  {
    var n := |s| - 4;
    var u, v := s[..n], t[..n];
    assert u[..4 * i] == s[..4 * i] && v[..4 * i] == t[..4 * i];
    assert u[4 * i + 4..] == s[4 * i + 4..][..n - 4 * i - 4] && v[4 * i + 4..] == t[4 * i + 4..][..n - 4 * i - 4];
    assert forall k :: n <= k < |s| ==> s[k] == s[4 * i + 4..][k - 4 * i - 4] == t[k];
  }

  /** One changed word changes the checksum. */
  lemma {:induction false} ChecksumTells<B(!new), W(!new)>(g: Codec<B, W>, s: seq<B>, t: seq<B>, i: nat)
    requires g.Valid() && DifferAt(g, s, t, i)
    ensures ChecksumOf(g, s) != ChecksumOf(g, t)
  {
    var n := |s| - 4;
    if 4 * i == n {
      MixTells(g, ChecksumOf(g, s[..n]), ChecksumOf(g, t[..n]), g.WordAt(s, n), g.WordAt(t, n));
    } else {
      DifferBefore(g, s, t, i);
      ChecksumTells(g, s[..n], t[..n], i);
      MixTells(g, ChecksumOf(g, s[..n]), ChecksumOf(g, t[..n]), g.WordAt(s, n), g.WordAt(t, n));
    }
  }

  /** A packet with one word changed on its way does not verify. */
  lemma CorruptionShows<B(!new), W(!new)>(g: Codec<B, W>, s: seq<B>, t: seq<B>, i: nat)
    requires g.Valid() && ChecksumHolds(g, s) && DifferAt(g, s, t, i)
    ensures !ChecksumHolds(g, t)
  {
    var n := |s| - 4;
    if 4 * i == n {
      assert s[..n] == t[..n];
    } else {
      DifferBefore(g, s, t, i);
      ChecksumTells(g, s[..n], t[..n], i);
    }
  }

  /** Only the last word changes. */
  lemma AppendedKeeps<B(!new), W(!new)>(g: Codec<B, W>, s: seq<B>)
    requires |s| >= 4 && |s| % 4 == 0
    ensures Checksummed(g, s)[..|s| - 4] == s[..|s| - 4]
  {}

  /** What was appended verifies, unless the checksum is all there is. */
  lemma AppendedVerifies<B(!new), W(!new)>(g: Codec<B, W>, s: seq<B>)
    requires g.Valid() && |s| >= 4 && |s| % 4 == 0
    ensures ChecksumHolds(g, Checksummed(g, s)) <==> |s| > 4
  {
    var r := Checksummed(g, s);
    assert r[..|r| - 4] == s[..|s| - 4];
    assert r[|r| - 4..|r| - 4 + 4] == g.Store(ChecksumOf(g, s[..|s| - 4]));
    g.WordAtOfStore(r, |r| - 4, ChecksumOf(g, s[..|s| - 4]));
  }
}
