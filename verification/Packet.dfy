/** The typed packet reader and writer: little-endian integers, raw bytes and zero-terminated UTF-16 strings. */
module Packet {
  import opened Wrappers

  const SURROGATE_MIN := 0xD800
  const SURROGATE_LOW := 0xDC00
  const SURROGATE_END := 0xE000
  const SUPPLEMENTARY := 0x1_0000
  const RUNE_END := 0x11_0000
  const REPLACEMENT: Rune := 0xFFFD

  type Uint8 = x: int | 0 <= x < 0x100
  type Uint16 = x: int | 0 <= x < 0x1_0000
  type Int32 = x: int | -0x8000_0000 <= x < 0x8000_0000
  type Int64 = x: int | -0x8000_0000_0000_0000 <= x < 0x8000_0000_0000_0000

  /** A Unicode scalar value: any code point but the surrogates. */
  type Rune = x: int | 0 <= x < RUNE_END && !(SURROGATE_MIN <= x < SURROGATE_END)

  // ---------- Little-endian integers ----------

  /** 256 to the n. */
  function Pow(n: nat): (p: nat)
    ensures p > 0
  {
    if n == 0 then 1 else 0x100 * Pow(n - 1)
  }

  function LittleEndian(v: nat, n: nat): (r: seq<Uint8>)
    ensures |r| == n
  {
    if n == 0 then [] else [v % 0x100] + LittleEndian(v / 0x100, n - 1)
  }

  function Value(s: seq<Uint8>): (v: nat)
    ensures v < Pow(|s|)
  {
    if s == [] then 0 else s[0] + 0x100 * Value(s[1..])
  }

  lemma {:induction false} ValueOfLittleEndian(v: nat, n: nat)
    requires v < Pow(n)
    ensures Value(LittleEndian(v, n)) == v
  {
    if n > 0 {
      ValueOfLittleEndian(v / 0x100, n - 1);
      assert LittleEndian(v, n)[1..] == LittleEndian(v / 0x100, n - 1);
    }
  }

  /** The two's complement of a signed number in n bytes. */
  function Unsigned(v: int, n: nat): (u: nat)
    requires 2 * v + Pow(n) >= 0 && 2 * v < Pow(n)
    ensures u < Pow(n)
  {
    if v < 0 then v + Pow(n) else v
  }

  function Signed(u: nat, n: nat): (v: int)
    requires u < Pow(n)
    ensures 2 * v + Pow(n) >= 0 && 2 * v < Pow(n)
  {
    if 2 * u < Pow(n) then u else u - Pow(n)
  }

  lemma SignedUnsigned(v: int, n: nat)
    requires 2 * v + Pow(n) >= 0 && 2 * v < Pow(n)
    ensures Signed(Unsigned(v, n), n) == v
  {}

  lemma Widths()
    ensures Pow(1) == 0x100 && Pow(2) == 0x1_0000 && Pow(4) == 0x1_0000_0000 && Pow(8) == 0x1_0000_0000_0000_0000
  {
    assert Pow(3) == 0x100_0000 && Pow(5) == 0x100_0000_0000 && Pow(6) == 0x1_0000_0000_0000;
  }

  // ---------- UTF-16 (RFC 2781, sections 2.1 and 2.2) ----------

  function EncodeRune(r: Rune): (u: seq<Uint16>) {
    if r < SUPPLEMENTARY then [r] else
    var v := r - SUPPLEMENTARY;
    [SURROGATE_MIN + v / 0x400, SURROGATE_LOW + v % 0x400]
  }

  function Encode(s: seq<Rune>): seq<Uint16> {
    if s == [] then [] else EncodeRune(s[0]) + Encode(s[1..])
  }

  /** Unpaired surrogates become the replacement character. */
  function Decode(u: seq<Uint16>): seq<Rune> {
    if u == [] then []
    else if !(SURROGATE_MIN <= u[0] < SURROGATE_END) then [u[0]] + Decode(u[1..])
    else if u[0] < SURROGATE_LOW && |u| > 1 && SURROGATE_LOW <= u[1] < SURROGATE_END then
      [SUPPLEMENTARY + 0x400 * (u[0] - SURROGATE_MIN) + (u[1] - SURROGATE_LOW)] + Decode(u[2..])
    else [REPLACEMENT] + Decode(u[1..])
  }

  /** Half a pair that stands alone is replaced by U+FFFD, and what follows it is decoded all the same. */
  lemma LoneSurrogate(u: Uint16, rest: seq<Uint16>)
    requires 0xD800 <= u < 0xE000
    requires u < 0xDC00 ==> rest == [] || !(0xDC00 <= rest[0] < 0xE000)
    ensures Decode([u] + rest) == [0xFFFD] + Decode(rest)
  {
    assert ([u] + rest)[1..] == rest;
  }

  lemma {:induction false} DecodeInvertsEncode(s: seq<Rune>)
    ensures Decode(Encode(s)) == s
  {
    if s != [] {
      DecodeInvertsEncode(s[1..]);
      var u := Encode(s);
      if s[0] < SUPPLEMENTARY {
        assert u[1..] == Encode(s[1..]);
      } else {
        assert u[2..] == Encode(s[1..]);
      }
    }
  }

  /** The units of a string contain the terminator exactly when the string contains U+0000. */
  lemma {:induction false} EncodeRuneZero(s: seq<Rune>)
    ensures 0 in Encode(s) <==> 0 in s
  {
    if s != [] {
      EncodeRuneZero(s[1..]);
      assert s == [s[0]] + s[1..];
      assert 0 in EncodeRune(s[0]) <==> s[0] == 0;
    }
  }

  // ---------- Fields ----------

  datatype Field = C(c: Uint8) | H(h: Uint16) | D(d: Int32) | Q(q: Int64) | B(b: seq<Uint8>) | S(s: seq<Rune>)

  /** What a reader asks for; raw bytes come with their number. */
  datatype Kind = KC | KH | KD | KQ | KB(n: nat) | KS

  function KindOf(f: Field): Kind {
    match f
    case C(_) => KC
    case H(_) => KH
    case D(_) => KD
    case Q(_) => KQ
    case B(b) => KB(|b|)
    case S(_) => KS
  }

  function Units(u: seq<Uint16>): (r: seq<Uint8>)
    ensures |r| == 2 * |u|
  {
    if u == [] then [] else LittleEndian(u[0], 2) + Units(u[1..])
  }

  function Written(f: Field): seq<Uint8> {
    Widths();
    match f
    case C(c) => LittleEndian(c, 1)
    case H(h) => LittleEndian(h, 2)
    case D(d) => LittleEndian(Unsigned(d, 4), 4)
    case Q(q) => LittleEndian(Unsigned(q, 8), 8)
    case B(b) => b
    case S(s) => Units(Encode(s)) + LittleEndian(0, 2)
  }

  function Unit(s: seq<Uint8>): Uint16
    requires |s| >= 2
  {
    Widths();
    Value(s[..2])
  }

  /** The units before the first zero unit, and what follows that. */
  function TakeUnits(s: seq<Uint8>): Option<(seq<Uint16>, seq<Uint8>)> {
    if |s| < 2 then None
    else if Unit(s) == 0 then Some(([], s[2..]))
    else match TakeUnits(s[2..])
      case None => None
      case Some(t) => Some(([Unit(s)] + t.0, t.1))
  }

  /** The bytes of a field of fixed size. */
  function Size(k: Kind): nat
    requires k != KS
  {
    match k
    case KC => 1
    case KH => 2
    case KD => 4
    case KQ => 8
    case KB(n) => n
  }

  /** A field of fixed size from exactly its bytes. */
  function FromBytes(k: Kind, s: seq<Uint8>): Field
    requires k != KS && |s| == Size(k)
  {
    Widths();
    match k
    case KC => C(Value(s))
    case KH => H(Value(s))
    case KD => D(Signed(Value(s), 4))
    case KQ => Q(Signed(Value(s), 8))
    case KB(_) => B(s)
  }

  /** The field a read returns, and what is left to read; none if the buffer underflows. */
  function Read(k: Kind, s: seq<Uint8>): Option<(Field, seq<Uint8>)> {
    if k == KS then
      match TakeUnits(s)
      case None => None
      case Some(t) => Some((S(Decode(t.0)), t.1))
    else if |s| < Size(k) then None
    else Some((FromBytes(k, s[..Size(k)]), s[Size(k)..]))
  }

  function WrittenAll(fields: seq<Field>): seq<Uint8> {
    if fields == [] then [] else Written(fields[0]) + WrittenAll(fields[1..])
  }

  function ReadAll(kinds: seq<Kind>, s: seq<Uint8>): Option<(seq<Field>, seq<Uint8>)> {
    if kinds == [] then Some(([], s)) else
    match Read(kinds[0], s)
    case None => None
    case Some(f) =>
      match ReadAll(kinds[1..], f.1)
      case None => None
      case Some(t) => Some(([f.0] + t.0, t.1))
  }

  function Kinds(fields: seq<Field>): (r: seq<Kind>)
    ensures |r| == |fields|
  {
    if fields == [] then [] else [KindOf(fields[0])] + Kinds(fields[1..])
  }

  /** Only U+0000 in a string does not survive: the reader takes it for the terminator. */
  predicate Terminable(f: Field) { f.S? ==> 0 !in f.s }

  predicate AllTerminable(fields: seq<Field>) {
    fields == [] || (Terminable(fields[0]) && AllTerminable(fields[1..]))
  }

  // ---------- Round trips ----------

  lemma FixedRoundTrip(f: Field)
    requires !f.S?
    ensures |Written(f)| == Size(KindOf(f)) && FromBytes(KindOf(f), Written(f)) == f
  {
    Widths();
    match f
    case C(c) => ValueOfLittleEndian(c, 1);
    case H(h) => ValueOfLittleEndian(h, 2);
    case D(d) => ValueOfLittleEndian(Unsigned(d, 4), 4); SignedUnsigned(d, 4);
    case Q(q) => ValueOfLittleEndian(Unsigned(q, 8), 8); SignedUnsigned(q, 8);
    case B(_) =>
  }

  lemma UnitOf(v: Uint16, rest: seq<Uint8>)
    ensures Unit(LittleEndian(v, 2) + rest) == v
    ensures (LittleEndian(v, 2) + rest)[2..] == rest
  {
    Widths();
    ValueOfLittleEndian(v, 2);
    assert (LittleEndian(v, 2) + rest)[..2] == LittleEndian(v, 2);
  }

  lemma TakeOne(v: Uint16, tail: seq<Uint8>)
    ensures TakeUnits(LittleEndian(v, 2) + tail) == if v == 0 then Some(([], tail)) else
      match TakeUnits(tail)
      case None => None
      case Some(t) => Some(([v] + t.0, t.1))
  {
    UnitOf(v, tail);
  }

  /** The bytes of some units and whatever follows them, from the first unit on. */
  lemma UnitsFirst(u: seq<Uint16>, rest: seq<Uint8>)
    requires u != []
    ensures Units(u) + rest == LittleEndian(u[0], 2) + (Units(u[1..]) + rest)
  {}

  /** The units of a string and the terminator, before whatever follows. */
  function Terminated(u: seq<Uint16>, rest: seq<Uint8>): seq<Uint8> {
    Units(u) + (LittleEndian(0, 2) + rest)
  }

  lemma TerminatedFirst(u: seq<Uint16>, rest: seq<Uint8>)
    ensures Terminated(u, rest) ==
      if u == [] then LittleEndian(0, 2) + rest else LittleEndian(u[0], 2) + Terminated(u[1..], rest)
  {
    if u != [] { UnitsFirst(u, LittleEndian(0, 2) + rest); }
  }

  lemma {:induction false} UnitsRoundTrip(u: seq<Uint16>, rest: seq<Uint8>)
    requires 0 !in u
    ensures TakeUnits(Terminated(u, rest)) == Some((u, rest))
  {
    TerminatedFirst(u, rest);
    if u == [] {
      TakeOne(0, rest);
    } else {
      UnitsRoundTrip(u[1..], rest);
      TakeOne(u[0], Terminated(u[1..], rest));
      assert [u[0]] + u[1..] == u;
    }
  }

  /** What is read never contains the terminator. */
  lemma {:induction false} TakenHasNoZero(s: seq<Uint8>)
    ensures TakeUnits(s).Some? ==> 0 !in TakeUnits(s).value.0
  {
    if |s| >= 2 && Unit(s) != 0 { TakenHasNoZero(s[2..]); }
  }

  lemma {:induction false} DecodedHasNoZero(u: seq<Uint16>)
    requires 0 !in u
    ensures 0 !in Decode(u)
  {
    if u != [] {
      DecodedHasNoZero(u[1..]);
      if |u| > 1 { DecodedHasNoZero(u[2..]); }
    }
  }

  lemma StringRoundTrip(s: seq<Rune>, rest: seq<Uint8>)
    ensures var t := TakeUnits(Terminated(Encode(s), rest));
      if 0 in s then t.Some? ==> Decode(t.value.0) != s else t.Some? && t.value.1 == rest && Decode(t.value.0) == s
  {
    EncodeRuneZero(s);
    if 0 in s {
      TakenHasNoZero(Terminated(Encode(s), rest));
      var t := TakeUnits(Terminated(Encode(s), rest));
      if t.Some? { DecodedHasNoZero(t.value.0); }
    } else {
      UnitsRoundTrip(Encode(s), rest);
      DecodeInvertsEncode(s);
    }
  }

  /** A field comes back, and the rest is left, exactly when it is no string with U+0000. */
  lemma FieldRoundTrip(f: Field, rest: seq<Uint8>)
    ensures var r := Read(KindOf(f), Written(f) + rest);
      if Terminable(f) then r == Some((f, rest)) else r.None? || r.value.0 != f
  {
    if f.S? {
      assert Written(f) + rest == Terminated(Encode(f.s), rest);
      StringRoundTrip(f.s, rest);
    } else {
      FixedRoundTrip(f);
      assert (Written(f) + rest)[..|Written(f)|] == Written(f);
    }
  }

  lemma FirstThenRest(kinds: seq<Kind>, s: seq<Uint8>, fields: seq<Field>, tail: seq<Uint8>, rest: seq<Uint8>)
    requires |kinds| == |fields| > 0
    requires Read(kinds[0], s).Some? && Read(kinds[0], s).value.0 == fields[0] ==> Read(kinds[0], s).value.1 == tail
    ensures ReadAll(kinds, s) == Some((fields, rest)) <==>
            Read(kinds[0], s) == Some((fields[0], tail)) && ReadAll(kinds[1..], tail) == Some((fields[1..], rest))
  {
    assert fields == [fields[0]] + fields[1..];
  }

  /**
   Reading what was written with the same schema returns the same fields and leaves what follows,
   exactly when no string contains U+0000.
   */
  lemma {:induction false} PacketRoundTrip(fields: seq<Field>, rest: seq<Uint8>)
    ensures ReadAll(Kinds(fields), WrittenAll(fields) + rest) == Some((fields, rest))
            <==> AllTerminable(fields)
  {
    if fields == [] {
      assert WrittenAll(fields) + rest == rest;
    } else {
      var tail := WrittenAll(fields[1..]) + rest;
      assert WrittenAll(fields) + rest == Written(fields[0]) + tail;
      assert Kinds(fields)[1..] == Kinds(fields[1..]);
      FieldRoundTrip(fields[0], tail);
      FirstThenRest(Kinds(fields), Written(fields[0]) + tail, fields, tail, rest);
      PacketRoundTrip(fields[1..], rest);
    }
  }

  // ---------- Cut short ----------

  lemma {:induction false} UnitsCutShort(u: seq<Uint16>, p: seq<Uint8>)
    requires 0 !in u && |p| < 2 * |u| + 2 && p == (Units(u) + LittleEndian(0, 2))[..|p|]
    ensures TakeUnits(p).None?
  {
    if |p| >= 2 {
      var tail := Units(u[1..]) + LittleEndian(0, 2);
      UnitsFirst(u, LittleEndian(0, 2));
      var q := tail[..|p| - 2];
      assert p == LittleEndian(u[0], 2) + q;
      TakeOne(u[0], q);
      UnitsCutShort(u[1..], q);
    }
  }

  lemma FieldCutShort(f: Field, p: seq<Uint8>)
    requires Terminable(f) && |p| < |Written(f)| && p == Written(f)[..|p|]
    ensures Read(KindOf(f), p).None?
  {
    if f.S? {
      EncodeRuneZero(f.s);
      UnitsCutShort(Encode(f.s), p);
    } else {
      FixedRoundTrip(f);
    }
  }

  /** No packet that is cut short reads: every proper prefix underflows. */
  lemma {:induction false} PacketCutShort(fields: seq<Field>, p: seq<Uint8>)
    requires AllTerminable(fields) && |p| < |WrittenAll(fields)| && p == WrittenAll(fields)[..|p|]
    ensures ReadAll(Kinds(fields), p).None?
  {
    var first, tail := Written(fields[0]), WrittenAll(fields[1..]);
    assert Kinds(fields)[1..] == Kinds(fields[1..]);
    if |p| < |first| {
      assert p == first[..|p|];
      FieldCutShort(fields[0], p);
    } else {
      var q := p[|first|..];
      assert p == first + q && q == tail[..|q|];
      FieldRoundTrip(fields[0], q);
      PacketCutShort(fields[1..], q);
    }
  }

  /** Some units have been taken from the start of a buffer, and this is left. */
  ghost predicate TakenBefore(start: seq<Uint8>, units: seq<Uint16>, left: seq<Uint8>) {
    TakeUnits(start) == match TakeUnits(left) {
      case None => None
      case Some(t) => Some((units + t.0, t.1))
    }
  }

  lemma TakeOneMore(start: seq<Uint8>, units: seq<Uint16>, left: seq<Uint8>)
    requires TakenBefore(start, units, left) && |left| >= 2
    ensures Unit(left) == 0 ==> TakeUnits(start) == Some((units, left[2..]))
    ensures Unit(left) != 0 ==> TakenBefore(start, units + [Unit(left)], left[2..])
  {
    var t := TakeUnits(left[2..]);
    assert units + [] == units;
    if Unit(left) != 0 && t.Some? {
      assert units + ([Unit(left)] + t.value.0) == units + [Unit(left)] + t.value.0;
    }
  }

  // ---------- The writer and the reader ----------

  class Writer {
    var buf: seq<Uint8>

    constructor ()
      ensures buf == []
    {
      buf := [];
    }

    method WriteB(b: seq<Uint8>)
      modifies this
      ensures buf == old(buf) + Written(B(b))
    {
      buf := buf + b;
    }

    method WriteC(c: Uint8)
      modifies this
      ensures buf == old(buf) + Written(C(c))
    {
      buf := buf + LittleEndian(c, 1);
    }

    method WriteH(h: Uint16)
      modifies this
      ensures buf == old(buf) + Written(H(h))
    {
      buf := buf + LittleEndian(h, 2);
    }

    method WriteD(d: Int32)
      modifies this
      ensures buf == old(buf) + Written(D(d))
    {
      Widths();
      buf := buf + LittleEndian(Unsigned(d, 4), 4);
    }

    method WriteQ(q: Int64)
      modifies this
      ensures buf == old(buf) + Written(Q(q))
    {
      Widths();
      buf := buf + LittleEndian(Unsigned(q, 8), 8);
    }

    /** Unit by unit, then the terminator. */
    method WriteS(s: seq<Rune>)
      modifies this
      ensures buf == old(buf) + Written(S(s))
    {
      var u := Encode(s);
      var i := 0;
      while i < |u|
        invariant i <= |u| && buf + Units(u[i..]) == old(buf) + Units(u)
      {
        ghost var was := buf;
        WriteH(u[i]);
        assert was + Units(u[i..]) == buf + Units(u[i + 1..]) by { assert u[i..][1..] == u[i + 1..]; }
        i := i + 1;
      }
      assert buf == old(buf) + Units(u);
      WriteH(0);
      assert buf == old(buf) + (Units(u) + LittleEndian(0, 2));
    }
  }

  class Reader {
    var buf: seq<Uint8>
    var off: nat

    ghost predicate Valid()
      reads this
    {
      off <= |buf|
    }

    /** What is left to read. */
    function Slice(): seq<Uint8>
      requires Valid()
      reads this
    {
      buf[off..]
    }

    constructor (b: seq<Uint8>)
      ensures Valid() && Slice() == b
    {
      buf, off := b, 0;
    }

    function Remaining(): (n: nat)
      requires Valid()
      reads this
      ensures n == |Slice()|
    {
      |buf| - off
    }

    /** The next n bytes, if there are that many. */
    method Next(n: nat) returns (r: Option<seq<Uint8>>)
      requires Valid()
      modifies `off
      ensures Valid()
      ensures if n > |old(Slice())| then r == None && off == old(off)
        else r == Some(old(Slice())[..n]) && Slice() == old(Slice())[n..] && off == old(off) + n
    {
      if off + n > |buf| { return None; }
      assert buf[off..][..n] == buf[off..off + n] && buf[off..][n..] == buf[off + n..];
      r := Some(buf[off..off + n]);
      off := off + n;
    }

    method ReadB(n: nat) returns (r: Option<seq<Uint8>>)
      requires Valid()
      modifies `off
      ensures Valid()
      ensures match Read(KB(n), old(Slice())) {
        case None => r == None && Slice() == old(Slice())
        case Some(f) => r == Some(f.0.b) && Slice() == f.1
      }
    {
      r := Next(n);
    }

    method ReadC() returns (r: Option<Uint8>)
      requires Valid()
      modifies `off
      ensures Valid()
      ensures match Read(KC, old(Slice())) {
        case None => r == None && Slice() == old(Slice())
        case Some(f) => r == Some(f.0.c) && Slice() == f.1
      }
    {
      var s := Next(1);
      if s.None? { return None; }
      Widths();
      r := Some(Value(s.value));
    }

    method ReadH() returns (r: Option<Uint16>)
      requires Valid()
      modifies `off
      ensures Valid()
      ensures match Read(KH, old(Slice())) {
        case None => r == None && Slice() == old(Slice())
        case Some(f) => r == Some(f.0.h) && Slice() == f.1
      }
    {
      var s := Next(2);
      if s.None? { return None; }
      Widths();
      r := Some(Value(s.value));
    }

    method ReadD() returns (r: Option<Int32>)
      requires Valid()
      modifies `off
      ensures Valid()
      ensures match Read(KD, old(Slice())) {
        case None => r == None && Slice() == old(Slice())
        case Some(f) => r == Some(f.0.d) && Slice() == f.1
      }
    {
      var s := Next(4);
      if s.None? { return None; }
      Widths();
      r := Some(Signed(Value(s.value), 4));
    }

    method ReadQ() returns (r: Option<Int64>)
      requires Valid()
      modifies `off
      ensures Valid()
      ensures match Read(KQ, old(Slice())) {
        case None => r == None && Slice() == old(Slice())
        case Some(f) => r == Some(f.0.q) && Slice() == f.1
      }
    {
      var s := Next(8);
      if s.None? { return None; }
      Widths();
      r := Some(Signed(Value(s.value), 8));
    }

    /** Unlike the other reads, one that underflows has consumed the units it found. */
    method ReadS() returns (r: Option<seq<Rune>>)
      requires Valid()
      modifies `off
      ensures Valid()
      ensures match Read(KS, old(Slice())) {
        case None => r == None && off == old(off) + old(Remaining()) / 2 * 2
        case Some(f) => r == Some(f.0.s) && Slice() == f.1
      }
    {
      var scratch: seq<Uint16> := [];
      assert TakenBefore(Slice(), scratch, Slice()) by {
        var t := TakeUnits(Slice());
        assert t.Some? ==> scratch + t.value.0 == t.value.0;
      }
      while true
        invariant Valid() && (off - old(off)) % 2 == 0 && off >= old(off)
        invariant TakenBefore(old(Slice()), scratch, Slice())
        decreases |buf| - off
      {
        ghost var left := Slice();
        var s := Next(2);
        if s.None? { return None; }
        var u := Unit(s.value);
        assert u == Unit(left) by { assert s.value[..2] == left[..2]; }
        TakeOneMore(old(Slice()), scratch, left);
        if u == 0 { break; }
        scratch := scratch + [u];
      }
      r := Some(Decode(scratch));
    }
  }
}
