/**
 Frames: padding, checksum, cipher and a 16-bit length. The cipher and the checksum are known here
 only by their laws.
 */
module Frames {
  import opened Wrappers

  /** The bytes, a block cipher under some key, and a checksum kept in the last word. */
  datatype Seal<!B(!new)> = Seal(
    zero: B, digit: B -> int, ofDigit: int -> B,
    enc: seq<B> -> seq<B>, dec: seq<B> -> seq<B>, sum: seq<B> -> seq<B>, holds: seq<B> -> bool) {

    ghost predicate Valid() {
      && (forall i {:trigger ofDigit(i)} :: 0 <= i < 0x100 ==> digit(ofDigit(i)) == i)
      && (forall b {:trigger digit(b)} :: 0 <= digit(b) < 0x100)
      && (forall s {:trigger enc(s)} :: |s| % 8 == 0 ==> |enc(s)| == |s| && dec(enc(s)) == s)
      && (forall s {:trigger dec(s)} :: |s| % 8 == 0 ==> |dec(s)| == |s|)
      && (forall s {:trigger sum(s)} :: |s| % 8 == 0 && s != [] ==>
            |sum(s)| == |s| && sum(s)[..|s| - 4] == s[..|s| - 4] && holds(sum(s)))
      && (forall s {:trigger holds(s)} :: holds(s) ==> |s| > 4)
    }
  }

  /** How many zero bytes bring a length to a multiple of the block size. */
  function PadLen(n: nat): (k: nat)
    ensures k < 8 && (n + k) % 8 == 0
  {
    if n % 8 == 0 then 0 else 8 - n % 8
  }

  function Fill<B>(n: nat, b: B): (s: seq<B>)
    ensures |s| == n && forall i :: 0 <= i < n ==> s[i] == b
  {
    seq(n, _ => b)
  }

  /** The packet with `room` zero bytes behind it, padded with more to whole blocks. */
  function Padded<B>(data: seq<B>, room: nat, zero: B): (r: seq<B>)
    ensures |r| % 8 == 0 && |r| == |data| + room + PadLen(|data| + room)
  {
    data + Fill(room + PadLen(|data| + room), zero)
  }

  /** A length as the sender's uint16 conversion leaves it, little-endian. */
  function Header<B>(ofDigit: int -> B, n: nat): (r: seq<B>)
    ensures |r| == 2
  {
    [ofDigit(n % 0x1_0000 % 0x100), ofDigit(n % 0x1_0000 / 0x100)]
  }

  function HeaderValue<B>(digit: B -> int, h: seq<B>): (n: int)
    requires |h| >= 2
  {
    digit(h[0]) + 0x100 * digit(h[1])
  }

  lemma HeaderRoundTrip<B(!new)>(c: Seal<B>, n: nat, rest: seq<B>)
    requires c.Valid()
    ensures HeaderValue(c.digit, Header(c.ofDigit, n) + rest) == n % 0x1_0000
  {
    var lo, hi := n % 0x1_0000 % 0x100, n % 0x1_0000 / 0x100;
    assert c.digit(c.ofDigit(lo)) == lo && c.digit(c.ofDigit(hi)) == hi;
  }

  /** A body behind its length. */
  function Framed<B>(ofDigit: int -> B, body: seq<B>): (r: seq<B>) {
    Header(ofDigit, |body| + 2) + body
  }

  /** The body of the first frame of a stream, if the stream holds it and its length is at least `least`. */
  function Unframed<B>(digit: B -> int, stream: seq<B>, least: nat): (r: Option<seq<B>>)
    requires least >= 2
    ensures r.Some? ==> |stream| >= 2 && |r.value| == HeaderValue(digit, stream) - 2
  {
    if |stream| < 2 || HeaderValue(digit, stream) < least || |stream| < HeaderValue(digit, stream) then None
    else Some(stream[2..HeaderValue(digit, stream)])
  }

  /** A framed body comes back whole exactly when its length fits the header; otherwise never as many bytes. */
  lemma UnframedFramed<B(!new)>(c: Seal<B>, body: seq<B>, rest: seq<B>, least: nat)
    requires c.Valid() && 2 <= least <= |body| + 2
    ensures var r := Unframed(c.digit, Framed(c.ofDigit, body) + rest, least);
      if |body| + 2 < 0x1_0000 then r == Some(body) else r.Some? ==> |r.value| < |body|
  {
    var stream := Framed(c.ofDigit, body) + rest;
    assert stream == Header(c.ofDigit, |body| + 2) + (body + rest);
    HeaderRoundTrip(c, |body| + 2, body + rest);
  }

  /** What either server writes for a packet. */
  function Sealed<B(!new)>(c: Seal<B>, data: seq<B>): (r: seq<B>)
    requires c.Valid()
  {
    Framed(c.ofDigit, c.enc(c.sum(Padded(data, 4, c.zero))))
  }

  /** The decrypted body of a sealed frame, if the stream starts with one. */
  function Opened<B(!new)>(c: Seal<B>, stream: seq<B>, least: nat): (r: Option<seq<B>>)
    requires c.Valid() && least >= 2
    ensures r.Some? ==> |r.value| > 4
  {
    match Unframed(c.digit, stream, least)
    case None => None
    case Some(body) => if |body| % 8 == 0 && c.holds(c.dec(body)) then Some(c.dec(body)) else None
  }

  /** The padded, checksummed packet is what the other side opens, exactly when it fits the 16-bit length. */
  lemma OpenedSealed<B(!new)>(c: Seal<B>, data: seq<B>, rest: seq<B>, least: nat)
    requires c.Valid() && 2 <= least <= 10
    ensures var plain, r := Padded(data, 4, c.zero), Opened(c, Sealed(c, data) + rest, least);
      if |plain| + 2 < 0x1_0000 then r == Some(c.sum(plain)) else r.Some? ==> |r.value| < |plain|
  {
    var plain := c.sum(Padded(data, 4, c.zero));
    var body := c.enc(plain);
    assert c.dec(body) == plain && c.holds(plain);
    UnframedFramed(c, body, rest, least);
  }

  // ---------- What the two receivers make of it ----------

  datatype Packet<B> = Packet(opcode: B, payload: seq<B>)

  /** The game server strips the checksum. */
  function Stripped<B>(plain: seq<B>): Packet<B>
    requires |plain| > 4
  {
    Packet(plain[0], plain[1..|plain| - 4])
  }

  /** The login server leaves it on. */
  function Kept<B>(plain: seq<B>): Packet<B>
    requires |plain| > 4
  {
    Packet(plain[0], plain[1..])
  }

  /**
   What one server sends, the other receives: the same opcode and payload, then zero bytes, at most
   seven; exactly when the frame fits the 16-bit length.
   */
  lemma PacketRoundTrip<B(!new)>(c: Seal<B>, opcode: B, payload: seq<B>, rest: seq<B>, least: nat)
    requires c.Valid() && 2 <= least <= 10
    ensures var r := Opened(c, Sealed(c, [opcode] + payload) + rest, least);
      (r.Some? && Stripped(r.value) == Packet(opcode, payload + Fill(PadLen(|payload| + 5), c.zero)))
      <==> |payload| + 5 <= 65528
  {
    var data, k := [opcode] + payload, PadLen(|payload| + 5);
    var padded := Padded(data, 4, c.zero);
    OpenedSealed(c, data, rest, least);
    var plain := c.sum(padded);
    assert plain[..|plain| - 4] == padded[..|padded| - 4] == data + Fill(k, c.zero);
    assert plain[1..|plain| - 4] == plain[..|plain| - 4][1..] == payload + Fill(k, c.zero);
    assert plain[0] == plain[..|plain| - 4][0] == opcode;
  }

  /** A case of a packet that does not come back: the frame of 65524 bytes of payload does not fit its length. */
  lemma LongPacketLost<B(!new)>(c: Seal<B>, opcode: B, rest: seq<B>, least: nat)
    requires c.Valid() && 2 <= least <= 10
    ensures var payload := Fill(65524, c.zero);
      var r := Opened(c, Sealed(c, [opcode] + payload) + rest, least);
      !(r.Some? && Stripped(r.value) == Packet(opcode, payload + Fill(PadLen(|payload| + 5), c.zero)))
  {
    PacketRoundTrip(c, opcode, Fill(65524, c.zero), rest, least);
  }

  /** The login server's reader hands on what the game server's hands on, and the four checksum bytes behind it. */
  lemma KeptIsStrippedAndChecksum<B>(plain: seq<B>)
    requires |plain| > 4
    ensures Kept(plain) == Packet(Stripped(plain).opcode, Stripped(plain).payload + plain[|plain| - 4..])
  {
    assert plain[1..] == plain[1..|plain| - 4] + plain[|plain| - 4..];
  }
}
