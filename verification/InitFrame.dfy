/** The first frame a client gets: no checksum, but a running-key pass under a static key. */
module InitFrame {
  import opened Bytewise
  import opened Frames
  import opened Wrappers
  import opened XorPass

  lemma CountFits(size: nat)
    requires size >= 8 && size % 8 == 0
    ensures 8 + 4 * Count(size) <= size && (size > 8 ==> size == 12 + 4 * Count(size))
  {}

  /** The pass over a whole buffer of blocks. */
  function Passed<B(!new), W(!new)>(g: Codec<B, W>, s: seq<B>, key: W): (r: seq<B>)
    requires |s| >= 8 && |s| % 8 == 0
    ensures |r| == |s|
  {
    CountFits(|s|);
    Encoded(g, s, 4, Count(|s|), key)
  }

  /** What SendStatic writes: room for a checksum that stays zero and for the final key of the pass. */
  function StaticFrame<B(!new), W(!new)>(c: Seal<B>, g: Codec<B, W>, data: seq<B>, key: W): (r: seq<B>) {
    Framed(c.ofDigit, c.enc(Passed(g, Padded(data, 8, c.zero), key)))
  }

  function UnPassed<B(!new), W(!new)>(g: Codec<B, W>, s: seq<B>): (r: seq<B>)
    requires |s| % 8 == 0
  {
    if |s| <= 8 then s else
    CountFits(|s|);
    Decoded(g, s, 4, Count(|s|), |s| - 8)
  }

  method RunPass<B(!new), W(!new)>(g: Codec<B, W>, buffer: array<B>, key: W)
    requires buffer.Length >= 8 && buffer.Length % 8 == 0
    modifies buffer
    ensures buffer[..] == Passed(g, old(buffer[..]), key)
  {
    CountFits(buffer.Length);
    EncXORPass(g, buffer, 0, buffer.Length, key);
  }

  /** Runs the pass backwards over a whole buffer. */
  method UndoPass<B(!new), W(!new)>(g: Codec<B, W>, buffer: array<B>)
    requires buffer.Length % 8 == 0
    modifies buffer
    ensures buffer[..] == UnPassed(g, old(buffer[..]))
  {
    if buffer.Length > 8 { CountFits(buffer.Length); }
    DecXORPass(g, buffer, 0, buffer.Length);
  }

  /** What recvInit makes of a stream. */
  function InitPacket<B(!new), W(!new)>(c: Seal<B>, g: Codec<B, W>, stream: seq<B>): (r: Option<seq<B>>)
    requires c.Valid()
  {
    match Unframed(c.digit, stream, 2)
    case None => None
    case Some(body) => if |body| % 8 != 0 then None else Some(UnPassed(g, c.dec(body)))
  }

  lemma PaddedEnd<B(!new), W(!new)>(g: Codec<B, W>, data: seq<B>)
    ensures var plain := Padded(data, 8, g.zero);
      |plain| >= 8 && plain[|plain| - 8..|plain| - 4] == Cleared(g) && plain[|plain| - 4..] == Cleared(g)
      && (data == [] <==> |plain| == 8)
  {}

  /** Over a single block the pass only leaves its key, which is not taken back. */
  lemma EmptyPass<B(!new), W(!new)>(g: Codec<B, W>, s: seq<B>, key: W)
    requires |s| == 8 && s[4..] == Cleared(g)
    ensures UnPassed(g, Passed(g, s, key)) == s <==> g.Store(key) == Cleared(g)
  {
    var e := Passed(g, s, key);
    assert e == s[..4] + g.Store(key);
    assert e[4..] == g.Store(key);
  }

  lemma LongPass<B(!new), W(!new)>(g: Codec<B, W>, s: seq<B>, key: W)
    requires g.Valid() && |s| > 8 && |s| % 8 == 0 && s[|s| - 8..|s| - 4] == Cleared(g)
    ensures UnPassed(g, Passed(g, s, key)) == s
  {
    CountFits(|s|);
    Restored(g, s, 4, Count(|s|), key);
  }

  /** Running the pass and undoing it gives the padded packet back, unless there is nothing to pass over but a key. */
  lemma PassUndone<B(!new), W(!new)>(c: Seal<B>, g: Codec<B, W>, data: seq<B>, key: W)
    requires c.Valid() && g.Valid() && c.zero == g.zero
    ensures var plain := Padded(data, 8, c.zero);
      UnPassed(g, Passed(g, plain, key)) == plain <==> data != [] || g.Store(key) == Cleared(g)
  {
    hide Passed, UnPassed, Padded;
    var plain := Padded(data, 8, c.zero);
    PaddedEnd(g, data);
    if data == [] {
      EmptyPass(g, plain, key);
    } else {
      LongPass(g, plain, key);
    }
  }

  /**
   The client gets the packet back with zero bytes behind it, although it never learns the key the
   pass started from: exactly when the frame fits its 16-bit length, and the packet is not empty or
   the key was zero.
   */
  lemma InitRoundTrip<B(!new), W(!new)>(c: Seal<B>, g: Codec<B, W>, data: seq<B>, key: W, rest: seq<B>)
    requires c.Valid() && g.Valid() && c.zero == g.zero
    ensures var plain := Padded(data, 8, c.zero);
      InitPacket(c, g, StaticFrame(c, g, data, key) + rest) == Some(plain)
      <==> |plain| + 2 < 0x1_0000 && (data != [] || g.Store(key) == Cleared(g))
  {
    var plain := Padded(data, 8, c.zero);
    var e := Passed(g, plain, key);
    assert c.dec(c.enc(e)) == e;
    UnframedFramed(c, c.enc(e), rest, 2);
    PassUndone(c, g, data, key);
  }
}
