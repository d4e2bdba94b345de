/**
 The connections between the servers, and the first frame of the login server's client connection.
 Words, round function and keys are parameters; Blowfish.dfy has the real ones.
 */
module Transport {
  import opened Blocks
  import opened Bytewise
  import opened Checksum
  import opened Frames
  import opened InitFrame
  import opened KeySchedule
  import opened Wrappers
  import opened XorPass

  datatype Machine<!B(!new), !W(!new)> = Machine(
    m: Words<W, B>, digit: B -> int, ofDigit: int -> B, gameServerKey: seq<B>, staticKey: seq<B>) {

    ghost predicate Valid() {
      && m.Valid()
      && (forall i {:trigger ofDigit(i)} :: 0 <= i < 0x100 ==> digit(ofDigit(i)) == i)
      && (forall b {:trigger digit(b)} :: 0 <= digit(b) < 0x100)
      && KeyOk(gameServerKey) && KeyOk(staticKey)
    }
  }

  // ---------- The laws of frames, for the cipher and the checksum ----------

  ghost function Enc<B(!new), W(!new)>(x: Machine<B, W>, initial: Tables<W>, key: seq<B>, s: seq<B>): seq<B>
    requires x.Valid() && initial.Valid() && KeyOk(key)
  {
    if |s| % 8 == 0 then EncryptedBytes(x.m, initial, key, s) else s
  }

  ghost function Dec<B(!new), W(!new)>(x: Machine<B, W>, initial: Tables<W>, key: seq<B>, s: seq<B>): seq<B>
    requires x.Valid() && initial.Valid() && KeyOk(key)
  {
    if |s| % 8 == 0 then DecryptedBytes(x.m, initial, key, s) else s
  }

  ghost function Summed<B(!new), W(!new)>(x: Machine<B, W>, s: seq<B>): seq<B> {
    if |s| >= 4 && |s| % 4 == 0 then Checksummed(x.m.g, s) else s
  }

  ghost predicate SumHolds<B(!new), W(!new)>(x: Machine<B, W>, s: seq<B>) { ChecksumHolds(x.m.g, s) }

  ghost function RawSealer<B(!new), W(!new)>(x: Machine<B, W>, initial: Tables<W>, key: seq<B>): Seal<B>
    requires x.Valid() && initial.Valid() && KeyOk(key)
  {
    Seal(x.m.g.zero, x.digit, x.ofDigit,
         s => Enc(x, initial, key, s), s => Dec(x, initial, key, s), s => Summed(x, s), s => SumHolds(x, s))
  }

  ghost function Sealer<B(!new), W(!new)>(x: Machine<B, W>, initial: Tables<W>, key: seq<B>): (c: Seal<B>)
    requires x.Valid() && initial.Valid() && KeyOk(key)
    ensures c.Valid()
  {
    SealerValid(x, initial, key);
    RawSealer(x, initial, key)
  }

  lemma EncLaw<B(!new), W(!new)>(x: Machine<B, W>, initial: Tables<W>, key: seq<B>, s: seq<B>)
    requires x.Valid() && initial.Valid() && KeyOk(key) && |s| % 8 == 0
    ensures |Enc(x, initial, key, s)| == |s| && |Dec(x, initial, key, s)| == |s|
    ensures Dec(x, initial, key, Enc(x, initial, key, s)) == s
  {
    CipherRoundTrip(x.m, initial, key, s);
  }

  lemma SummedLaw<B(!new), W(!new)>(x: Machine<B, W>, s: seq<B>)
    requires x.Valid() && |s| % 8 == 0 && s != []
    ensures |Summed(x, s)| == |s| && Summed(x, s)[..|s| - 4] == s[..|s| - 4] && SumHolds(x, Summed(x, s))
  {
    var r := Checksummed(x.m.g, s);
    assert |s| >= 8 && Summed(x, s) == r;
    AppendedKeeps(x.m.g, s);
    AppendedVerifies(x.m.g, s);
  }

  lemma SealerValid<B(!new), W(!new)>(x: Machine<B, W>, initial: Tables<W>, key: seq<B>)
    requires x.Valid() && initial.Valid() && KeyOk(key)
    ensures RawSealer(x, initial, key).Valid()
  {
    forall s: seq<B> {:trigger Enc(x, initial, key, s)} | |s| % 8 == 0
      ensures |Enc(x, initial, key, s)| == |s| && Dec(x, initial, key, Enc(x, initial, key, s)) == s
    {
      EncLaw(x, initial, key, s);
    }
    forall s: seq<B> {:trigger Dec(x, initial, key, s)} | |s| % 8 == 0 ensures |Dec(x, initial, key, s)| == |s| {
      EncLaw(x, initial, key, s);
    }
    forall s: seq<B> {:trigger Summed(x, s)} | |s| % 8 == 0 && s != []
      ensures |Summed(x, s)| == |s| && Summed(x, s)[..|s| - 4] == s[..|s| - 4] && SumHolds(x, Summed(x, s))
    {
      SummedLaw(x, s);
    }
  }

  // ---------- Building and taking apart frames ----------

  /** Appends room for trailing words, then zero bytes up to the next whole block. */
  method Pad<B>(data: seq<B>, room: nat, zero: B) returns (r: seq<B>)
    ensures r == Padded(data, room, zero)
  {
    r := data + Fill(room, zero);
    var missing := |r| % 8;
    if missing != 0 {
      for i := missing to 8
        invariant r == data + Fill(room + i - missing, zero)
      {
        r := r + [zero];
      }
    }
  }

  method Copied<B>(s: seq<B>) returns (a: array<B>)
    ensures fresh(a) && a[..] == s
  {
    a := new B[|s|](i requires 0 <= i < |s| => s[i]);
  }

  /** The length, little-endian, and the body. */
  method Frame<B(!new), W(!new)>(x: Machine<B, W>, body: seq<B>) returns (r: seq<B>)
    ensures r == Framed(x.ofDigit, body)
  {
    var length := (|body| + 2) % 0x1_0000;
    r := [x.ofDigit(length % 0x100), x.ofDigit(length / 0x100)] + body;
  }

  method SumUp<B(!new), W(!new)>(x: Machine<B, W>, data: seq<B>) returns (r: seq<B>)
    ensures r == Summed(x, data)
  {
    var buffer := Copied(data);
    AppendChecksum(x.m.g, buffer);
    r := buffer[..];
  }

  method SealPacket<B(!new), W(!new)>(x: Machine<B, W>, initial: Tables<W>, key: seq<B>, data: seq<B>)
    returns (r: Result<seq<B>>)
    requires x.Valid() && initial.Valid()
    ensures r.Ok? <==> KeyOk(key)
    ensures r.Ok? ==> r.value == Sealed(Sealer(x, initial, key), data)
  {
    var padded := Pad(data, 4, x.m.g.zero);
    var summed := SumUp(x, padded);
    SummedLaw(x, padded);
    var body := BlowfishEncrypt(x.m, initial, summed, key);
    if body.Err? { return body; }
    assert body.value == Enc(x, initial, key, summed);
    var frame := Frame(x, body.value);
    r := Ok(frame);
  }

  /** The decrypted body, if the key fits, the body is whole blocks and its checksum holds. */
  method OpenBody<B(!new), W(!new, ==)>(x: Machine<B, W>, initial: Tables<W>, key: seq<B>, body: seq<B>,
                    ghost stream: seq<B>, ghost least: nat)
    returns (r: Result<seq<B>>)
    requires x.Valid() && initial.Valid() && least >= 2 && Unframed(x.digit, stream, least) == Some(body)
    ensures KeyOk(key) ==> var found := Opened(Sealer(x, initial, key), stream, least);
      (r.Ok? <==> found.Some?) && (r.Ok? ==> r.value == found.value)
    ensures r.Ok? ==> |r.value| > 4
  {
    var plain := BlowfishDecrypt(x.m, initial, body, key);
    if plain.Err? { return plain; }
    assert plain.value == Dec(x, initial, key, body);
    var ok := VerifyChecksum(x.m.g, plain.value);
    if !ok { return Err("checksum verification failed"); }
    r := plain;
  }

  // ---------- Sockets ----------

  lemma BehindHeader<B>(stream: seq<B>, total: nat)
    requires 2 <= total <= |stream|
    ensures stream[2..][..total - 2] == stream[2..total] && stream[2..][total - 2..] == stream[total..]
  {}

  /** Whether a stream ends before the frame it announces, which must have at least `least` bytes. */
  ghost predicate EndsEarly<B>(digit: B -> int, stream: seq<B>, least: nat) {
    |stream| < 2 || (HeaderValue(digit, stream) >= least && |stream| < HeaderValue(digit, stream))
  }

  /** A connected stream: the bytes that will still arrive, and those written. */
  class Socket<B> {
    var incoming: seq<B>
    var outgoing: seq<B>

    constructor (incoming: seq<B>)
      ensures this.incoming == incoming && outgoing == []
    {
      this.incoming, outgoing := incoming, [];
    }

    /** Some of the bytes, at most as many as asked for; fails when the stream has ended. */
    method Read(count: nat) returns (r: Result<seq<B>>)
      modifies `incoming
      ensures r.Err? <==> count > 0 && old(incoming) == []
      ensures r.Err? ==> incoming == old(incoming)
      ensures r.Ok? ==> |r.value| <= count && (count > 0 ==> r.value != []) && old(incoming) == r.value + incoming
    {
      if count == 0 { return Ok([]); }
      if incoming == [] { return Err("end of stream"); }
      var n: nat :| 0 < n <= count && n <= |incoming|;
      r := Ok(incoming[..n]);
      incoming := incoming[n..];
    }

    /** Reads on until all bytes asked for are there, however they arrive. */
    method ReadFull(count: nat) returns (r: Result<seq<B>>)
      modifies `incoming
      ensures r.Ok? <==> count <= |old(incoming)|
      ensures r.Ok? ==> r.value == old(incoming)[..count] && incoming == old(incoming)[count..]
    {
      var got := [];
      while |got| < count
        invariant |got| <= count && old(incoming) == got + incoming
        decreases count - |got|
      {
        var chunk := Read(count - |got|);
        if chunk.Err? { return chunk; }
        got := got + chunk.value;
      }
      r := Ok(got);
    }

    /** The body of the next frame, however its bytes arrive; `early` says that the stream ended before it did. */
    method ReadFrame(digit: B -> int, least: nat) returns (r: Result<seq<B>>, early: bool)
      requires least >= 2
      modifies `incoming
      ensures early <==> EndsEarly(digit, old(incoming), least)
      ensures r.Ok? <==> Unframed(digit, old(incoming), least).Some?
      ensures r.Ok? ==> r.value == Unframed(digit, old(incoming), least).value
      ensures r.Ok? ==> incoming == old(incoming)[HeaderValue(digit, old(incoming))..]
    {
      var header := ReadFull(2);
      if header.Err? { return header, true; }
      var total := HeaderValue(digit, header.value);
      ghost var stream := old(incoming);
      assert total == HeaderValue(digit, stream);
      if total < least { return Err("packet too short"), false; }
      r := ReadFull(total - 2);
      early := r.Err?;
      if !early { BehindHeader(stream, total); }
    }

    method Write(bytes: seq<B>)
      modifies `outgoing
      ensures outgoing == old(outgoing) + bytes
    {
      outgoing := outgoing + bytes;
    }
  }

  // ---------- The login server's end ----------

  class GameServer<B(!new), W(!new, ==)> {
    const x: Machine<B, W>
    const socket: Socket<B>
    const initial: Tables<W>
    var dynamicKey: Option<seq<B>>

    /** The key in force: the one agreed upon, or else the first one. */
    function Key(): (key: seq<B>)
      reads this
      ensures dynamicKey.Some? ==> dynamicKey == Some(key)
      ensures dynamicKey.None? ==> key == x.gameServerKey
    {
      if dynamicKey.Some? then dynamicKey.value else x.gameServerKey
    }

    constructor (x: Machine<B, W>, socket: Socket<B>, initial: Tables<W>)
      ensures this.x == x && this.socket == socket && this.initial == initial && Key() == x.gameServerKey
    {
      this.x, this.socket, this.initial, dynamicKey := x, socket, initial, None;
    }

    method Send(data: seq<B>) returns (ok: bool)
      requires x.Valid() && initial.Valid()
      modifies socket`outgoing
      ensures ok <==> KeyOk(Key())
      ensures socket.outgoing == if ok
        then old(socket.outgoing) + Sealed(Sealer(x, initial, Key()), data) else old(socket.outgoing)
    {
      var frame := SealPacket(x, initial, Key(), data);
      if frame.Err? { return false; }
      socket.Write(frame.value);
      ok := true;
    }

    /** Takes each part of the frame in one read; `whole` says that both came back whole. */
    method ReadFrame() returns (r: Result<seq<B>>, ghost whole: bool)
      modifies socket`incoming
      ensures r.Ok? ==> whole
      ensures whole ==> (r.Ok? <==> Unframed(x.digit, old(socket.incoming), 2).Some?)
      ensures r.Ok? ==> Unframed(x.digit, old(socket.incoming), 2) == Some(r.value)
    {
      var header := socket.Read(2);
      if header.Err? { return Err("error reading packet header"), false; }
      if |header.value| != 2 { return Err("incomplete packet header"), false; }
      var size := HeaderValue(x.digit, header.value);
      assert size == HeaderValue(x.digit, old(socket.incoming));
      if size < 2 { return Err("invalid packet size"), true; }
      var data := socket.Read(size - 2);
      if data.Err? { return Err("error reading packet data"), false; }
      if |data.value| != size - 2 { return Err("incomplete packet data"), false; }
      assert old(socket.incoming) == header.value + data.value + socket.incoming;
      r, whole := data, true;
    }

    /** A frame that is read whole is accepted exactly when it opens, and handed on with its checksum bytes. */
    method Receive() returns (r: Result<Packet<B>>, ghost whole: bool)
      requires x.Valid() && initial.Valid()
      modifies socket`incoming
      ensures r.Ok? ==> whole
      ensures whole && KeyOk(Key()) ==>
        var found := Opened(Sealer(x, initial, Key()), old(socket.incoming), 2);
        (r.Ok? <==> found.Some?) && (r.Ok? ==> r.value == Kept(found.value))
    {
      var data;
      data, whole := ReadFrame();
      if data.Err? { return Err(data.reason), whole; }
      var plain := OpenBody(x, initial, Key(), data.value, old(socket.incoming), 2);
      if plain.Err? { return Err(plain.reason), whole; }
      r := Ok(Packet(plain.value[0], plain.value[1..]));
    }
  }

  // ---------- The game server's end ----------

  class LoginServerConnection<B(!new), W(!new, ==)> {
    const x: Machine<B, W>
    const socket: Socket<B>
    const initial: Tables<W>
    var blowfishKey: seq<B>
    var useNewKey: bool
    var connected: bool

    /** Before the new key is set, reading and writing both go by the static one. */
    ghost predicate Valid()
      reads this
    {
      x.Valid() && initial.Valid() && (!useNewKey ==> blowfishKey == x.gameServerKey)
    }

    constructor (x: Machine<B, W>, socket: Socket<B>, initial: Tables<W>)
      requires x.Valid() && initial.Valid()
      ensures this.x == x && this.socket == socket && this.initial == initial && connected
      ensures blowfishKey == x.gameServerKey && Valid()
    {
      this.x, this.socket, this.initial := x, socket, initial;
      blowfishKey, useNewKey, connected := x.gameServerKey, false, true;
    }

    method SetBlowfishKey(key: seq<B>)
      requires Valid()
      modifies `blowfishKey, `useNewKey
      ensures Valid() && blowfishKey == key
    {
      blowfishKey, useNewKey := key, true;
    }

    method Send(data: seq<B>) returns (ok: bool)
      requires Valid()
      modifies socket`outgoing
      ensures ok <==> connected && KeyOk(blowfishKey)
      ensures socket.outgoing == if ok
        then old(socket.outgoing) + Sealed(Sealer(x, initial, blowfishKey), data) else old(socket.outgoing)
    {
      if !connected { return false; }
      var key := if useNewKey then blowfishKey else x.gameServerKey;
      var frame := SealPacket(x, initial, key, data);
      if frame.Err? { return false; }
      socket.Write(frame.value);
      ok := true;
    }

    /**
     Accepts exactly the streams that open with a frame of at least seven bytes, however the bytes
     arrive, and leaves what comes after the frame; the connection closes when the stream ends too early.
     */
    method Receive() returns (r: Result<Packet<B>>)
      requires Valid()
      modifies `connected, socket`incoming
      ensures connected <==> old(connected) && !EndsEarly(x.digit, old(socket.incoming), 7)
      ensures !old(connected) ==> r.Err? && socket.incoming == old(socket.incoming)
      ensures old(connected) && KeyOk(blowfishKey) ==>
        var found := Opened(Sealer(x, initial, blowfishKey), old(socket.incoming), 7);
        (r.Ok? <==> found.Some?) && (r.Ok? ==> r.value == Stripped(found.value))
      ensures r.Ok? ==>
        |old(socket.incoming)| >= 2 && 0 <= HeaderValue(x.digit, old(socket.incoming)) <= |old(socket.incoming)|
      ensures r.Ok? ==> socket.incoming == old(socket.incoming)[HeaderValue(x.digit, old(socket.incoming))..]
    {
      if !connected { return Err("connection closed"); }
      var data, early := socket.ReadFrame(x.digit, 7);
      if early { connected := false; }
      if data.Err? { return Err(data.reason); }
      var plain := OpenBody(x, initial, blowfishKey, data.value, old(socket.incoming), 7);
      if plain.Err? { return Err(plain.reason); }
      var body := plain.value[..|plain.value| - 4];
      r := Ok(Packet(body[0], body[1..]));
      assert body[1..] == plain.value[1..|plain.value| - 4];
    }
  }

  // ---------- The first frame to a client ----------

  /** The sender of the first frame; the key of the pass is random. */
  class Client<B(!new), W(!new)> {
    const x: Machine<B, W>
    const socket: Socket<B>
    const initial: Tables<W>

    constructor (x: Machine<B, W>, socket: Socket<B>, initial: Tables<W>)
      ensures this.x == x && this.socket == socket && this.initial == initial
    {
      this.x, this.socket, this.initial := x, socket, initial;
    }

    method SendStatic(data: seq<B>, xorKey: W)
      requires x.Valid() && initial.Valid()
      modifies socket`outgoing
      ensures socket.outgoing == old(socket.outgoing) + FirstSent(x, initial, data, xorKey)
    {
      var padded := Pad(data, 8, x.m.g.zero);
      var buffer := Copied(padded);
      RunPass(x.m.g, buffer, xorKey);
      var passed := buffer[..];
      var body := BlowfishEncrypt(x.m, initial, passed, x.staticKey);
      assert body.value == Enc(x, initial, x.staticKey, passed);
      var frame := Frame(x, body.value);
      socket.Write(frame);
    }
  }

  method UnSeal<B(!new), W(!new)>(x: Machine<B, W>, initial: Tables<W>, body: seq<B>) returns (r: Option<seq<B>>)
    requires x.Valid() && initial.Valid()
    ensures r == if |body| % 8 != 0 then None else Some(UnPassed(x.m.g, Dec(x, initial, x.staticKey, body)))
  {
    var plain := BlowfishDecrypt(x.m, initial, body, x.staticKey);
    if plain.Err? { return None; }
    var buffer := Copied(plain.value);
    UndoPass(x.m.g, buffer);
    r := Some(buffer[..]);
  }

  /** The receiver of the first frame. */
  method RecvInit<B(!new), W(!new)>(x: Machine<B, W>, socket: Socket<B>, initial: Tables<W>) returns (r: Option<seq<B>>)
    requires x.Valid() && initial.Valid()
    modifies socket`incoming
    ensures r == FirstReceived(x, initial, old(socket.incoming))
  {
    var payload, _ := socket.ReadFrame(x.digit, 2);
    if payload.Err? { return None; }
    r := UnSeal(x, initial, payload.value);
  }

  // ---------- Both ends together ----------

  /**
   Whichever server sends, under whatever key both hold, the other one opens the frame and finds the
   opcode and the payload with at most seven zero bytes behind them; exactly when it fits. The login
   server's reader, which takes frames of any length, hands on four more bytes, the checksum.
   */
  lemma ServersAgree<B(!new), W(!new)>(x: Machine<B, W>, initial: Tables<W>, key: seq<B>, opcode: B, payload: seq<B>,
                       rest: seq<B>)
    requires x.Valid() && initial.Valid() && KeyOk(key)
    ensures var c := Sealer(x, initial, key);
      var stream, expected := Sealed(c, [opcode] + payload) + rest, payload + Fill(PadLen(|payload| + 5), x.m.g.zero);
      var toGame, toLogin := Opened(c, stream, 7), Opened(c, stream, 2);
      && ((toGame.Some? && Stripped(toGame.value) == Packet(opcode, expected)) <==> |payload| + 5 <= 65528)
      && (|payload| + 5 <= 65528 ==>
            && toLogin.Some?
            && Kept(toLogin.value) == Packet(opcode, expected + toLogin.value[|toLogin.value| - 4..]))
  {
    var c := Sealer(x, initial, key);
    PacketRoundTrip(c, opcode, payload, rest, 7);
    PacketRoundTrip(c, opcode, payload, rest, 2);
    var toLogin := Opened(c, Sealed(c, [opcode] + payload) + rest, 2);
    if |payload| + 5 <= 65528 { KeptIsStrippedAndChecksum(toLogin.value); }
  }

  /** What the client's connection is sent first, and what it makes of it. */
  ghost function FirstSent<B(!new), W(!new)>(x: Machine<B, W>, initial: Tables<W>, data: seq<B>, xorKey: W): seq<B>
    requires x.Valid() && initial.Valid()
  {
    StaticFrame(Sealer(x, initial, x.staticKey), x.m.g, data, xorKey)
  }

  ghost function FirstReceived<B(!new), W(!new)>(x: Machine<B, W>, initial: Tables<W>, stream: seq<B>): Option<seq<B>>
    requires x.Valid() && initial.Valid()
  {
    InitPacket(Sealer(x, initial, x.staticKey), x.m.g, stream)
  }

  /** The same of the first packet, whatever the words: the receiver never learns the key of the pass. */
  lemma FirstPacketArrives<B(!new), W(!new)>(x: Machine<B, W>, initial: Tables<W>, data: seq<B>, xorKey: W,
                             rest: seq<B>)
    requires x.Valid() && initial.Valid()
    ensures var padded := Padded(data, 8, x.m.g.zero);
      FirstReceived(x, initial, FirstSent(x, initial, data, xorKey) + rest) == Some(padded)
      <==> |padded| + 2 < 0x1_0000 && (data != [] || x.m.g.Store(xorKey) == Cleared(x.m.g))
  {
    InitRoundTrip(Sealer(x, initial, x.staticKey), x.m.g, data, xorKey, rest);
  }
}
