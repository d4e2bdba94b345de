/**
 The Blowfish key schedule and cipher object, over any words: the tables are keyed, then replaced
 in a chain where every block encrypts the one before under the tables so far.
 */
module KeySchedule {
  import opened Bytewise
  import opened Feistel

  /** The permutation array and the four substitution boxes. */
  datatype Tables<W> = Tables(p: seq<W>, s: seq<seq<W>>) {
    predicate Valid() {
      |p| == 18 && |s| == 4 && |s[0]| == 256 && |s[1]| == 256 && |s[2]| == 256 && |s[3]| == 256
    }
  }

  /** What a word type offers: its bytes and their laws, zero, appending a key byte, the round function under tables. */
  datatype Words<!W(!new), !B(!new)> = Words(g: Codec<B, W>, zero: W, push: (W, B) -> W, f: (Tables<W>, W) --> W) {
    ghost predicate Valid() {
      && g.Valid()
      && (forall t: Tables<W>, x: W :: t.Valid() ==> f.requires(t, x))
    }
  }

  function Net<W(!new), B(!new)>(m: Words<W, B>, t: Tables<W>): Network<W>
    requires m.Valid() && t.Valid()
  {
    Network((x: W) => m.f(t, x), m.g.mix)
  }

  function Encrypted<W(!new), B(!new)>(m: Words<W, B>, t: Tables<W>, l: W, r: W): (W, W)
    requires m.Valid() && t.Valid()
  {
    Encrypt(Net(m, t), t.p, l, r)
  }

  function Decrypted<W(!new), B(!new)>(m: Words<W, B>, t: Tables<W>, l: W, r: W): (W, W)
    requires m.Valid() && t.Valid()
  {
    Decrypt(Net(m, t), t.p, l, r)
  }

  /** `count` consecutive key bytes from a position on, cyclically, most significant first. */
  function KeyWord<W(!new), B(!new)>(m: Words<W, B>, key: seq<B>, from: nat, count: nat): W
    requires key != []
  {
    if count == 0 then m.zero else m.push(KeyWord(m, key, from, count - 1), key[(from + count - 1) % |key|])
  }

  function KeyedP<W(!new), B(!new)>(m: Words<W, B>, p: seq<W>, key: seq<B>): (r: seq<W>)
    requires key != []
    ensures |r| == |p|
  {
    seq(|p|, i requires 0 <= i < |p| => m.g.mix(p[i], KeyWord(m, key, 4 * i, 4)))
  }

  /** The state of the schedule: the tables so far, and the block that is encrypted next. */
  datatype Schedule<W> = Schedule(t: Tables<W>, l: W, r: W)

  /** One step encrypts the last block under the tables so far, and keeps it at i and i + 1 of P. */
  function StepP<W(!new), B(!new)>(m: Words<W, B>, c: Schedule<W>, i: nat): (r: Schedule<W>)
    requires m.Valid() && c.t.Valid() && i < 17
    ensures r.t.Valid()
  {
    var (x, y) := Encrypted(m, c.t, c.l, c.r);
    Schedule(c.t.(p := c.t.p[i := x][i + 1 := y]), x, y)
  }

  /** The same at i and i + 1 of S-box k. */
  function StepBox<W(!new), B(!new)>(m: Words<W, B>, c: Schedule<W>, k: nat, i: nat): (r: Schedule<W>)
    requires m.Valid() && c.t.Valid() && k < 4 && i < 255
    ensures r.t.Valid()
  {
    var (x, y) := Encrypted(m, c.t, c.l, c.r);
    Schedule(c.t.(s := c.t.s[k := c.t.s[k][i := x][i + 1 := y]]), x, y)
  }

  /** After the steps that replace the first i words of P. */
  function FilledP<W(!new), B(!new)>(m: Words<W, B>, c: Schedule<W>, i: nat): (r: Schedule<W>)
    requires m.Valid() && c.t.Valid() && i % 2 == 0 && i <= |c.t.p|
    ensures r.t.Valid()
  {
    if i == 0 then c else StepP(m, FilledP(m, c, i - 2), i - 2)
  }

  /** After the steps that replace the first i words of S-box k. */
  function FilledBox<W(!new), B(!new)>(m: Words<W, B>, c: Schedule<W>, k: nat, i: nat): (r: Schedule<W>)
    requires m.Valid() && c.t.Valid() && k < 4 && i % 2 == 0 && i <= |c.t.s[k]|
    ensures r.t.Valid()
  {
    if i == 0 then c else StepBox(m, FilledBox(m, c, k, i - 2), k, i - 2)
  }

  /** After the first k S-boxes. */
  function FilledBoxes<W(!new), B(!new)>(m: Words<W, B>, c: Schedule<W>, k: nat): (r: Schedule<W>)
    requires m.Valid() && c.t.Valid() && k <= 4
    ensures r.t.Valid()
  {
    if k == 0 then c else
    var b := FilledBoxes(m, c, k - 1);
    FilledBox(m, b, k - 1, |b.t.s[k - 1]|)
  }

  function ExpandedKey<W(!new), B(!new)>(m: Words<W, B>, t: Tables<W>, key: seq<B>): (r: Tables<W>)
    requires m.Valid() && t.Valid() && key != []
    ensures r.Valid()
  {
    var keyed := Schedule(t.(p := KeyedP(m, t.p, key)), m.zero, m.zero);
    FilledBoxes(m, FilledP(m, keyed, |t.p|), |t.s|).t
  }

  lemma DivModUnique(a: nat, n: nat, q: nat, r: nat)
    requires n > 0 && a == n * q + r && r < n
    ensures a % n == r
  {
    var q' := a / n;
    assert q' > q ==> n * q' >= n * (q + 1);
    assert q' < q ==> n * q >= n * (q' + 1);
  }

  lemma NextIndex(a: nat, n: nat)
    requires n > 0
    ensures (a + 1) % n == if a % n + 1 >= n then 0 else a % n + 1
  {
    if a % n + 1 == n {
      assert a + 1 == n * (a / n + 1);
      DivModUnique(a + 1, n, a / n + 1, 0);
    } else {
      DivModUnique(a + 1, n, a / n, a % n + 1);
    }
  }

  class Cipher<W(!new), B(!new)> {
    const m: Words<W, B>
    var p: seq<W>
    var s: seq<seq<W>>

    ghost function T(): Tables<W> reads this { Tables(p, s) }

    ghost predicate Valid() reads this { m.Valid() && T().Valid() }

    /** NewCipher after its key-size check: the start-up tables, expanded by the key. */
    constructor (m: Words<W, B>, initial: Tables<W>, key: seq<B>)
      requires m.Valid() && initial.Valid() && 1 <= |key| <= 56
      ensures this.m == m && Valid() && T() == ExpandedKey(m, initial, key)
    {
      this.m := m;
      p, s := initial.p, initial.s;
      new;
      ExpandKey(key);
    }

    /** Reads the next four key bytes, wrapping around at the end of the key. */
    method NextKeyWord(key: seq<B>, j0: nat, ghost from: nat) returns (d: W, j: nat)
      requires key != [] && j0 == from % |key|
      ensures d == KeyWord(m, key, from, 4) && j == (from + 4) % |key|
    {
      d, j := m.zero, j0;
      for k := 0 to 4
        invariant j == (from + k) % |key| && d == KeyWord(m, key, from, k)
      {
        d := m.push(d, key[j]);
        NextIndex(from + k, |key|);
        j := j + 1;
        if j >= |key| { j := 0; }
      }
    }

    method MixKey(key: seq<B>)
      requires key != []
      modifies `p
      ensures p == KeyedP(m, old(p), key)
    {
      ghost var keyed := KeyedP(m, p, key);
      var j := 0;
      for i := 0 to |p|
        invariant |p| == |keyed| && j == (4 * i) % |key|
        invariant forall n :: 0 <= n < |p| ==> p[n] == if n < i then keyed[n] else old(p)[n]
      {
        var d;
        d, j := NextKeyWord(key, j, 4 * i);
        p := p[i := m.g.mix(p[i], d)];
      }
    }

    method ExpandKey(key: seq<B>)
      requires Valid() && key != []
      modifies this
      ensures Valid() && T() == ExpandedKey(m, old(T()), key)
    {
      MixKey(key);
      var l, r := FillP(m.zero, m.zero);
      l, r := FillBoxes(l, r);
    }

    method EncryptBlock(l: W, r: W) returns (x: W, y: W)
      requires Valid()
      ensures (x, y) == Encrypted(m, T(), l, r)
    {
      x, y := Feistel.EncryptBlock(Net(m, Tables(p, s)), p, l, r);
    }

    method DecryptBlock(l: W, r: W) returns (x: W, y: W)
      requires Valid()
      ensures (x, y) == Decrypted(m, T(), l, r)
    {
      x, y := Feistel.DecryptBlock(Net(m, Tables(p, s)), p, l, r);
    }

    method EncryptIntoP(i: nat, l0: W, r0: W) returns (l: W, r: W)
      requires Valid() && i < 17
      modifies `p
      ensures Schedule(T(), l, r) == StepP(m, Schedule(old(T()), l0, r0), i)
    {
      l, r := EncryptBlock(l0, r0);
      p := p[i := l][i + 1 := r];
    }

    method FillNextOfP(i: nat, l0: W, r0: W, ghost start: Schedule<W>) returns (l: W, r: W)
      requires Valid() && start.t.Valid() && i < 17 && i % 2 == 0
      requires Schedule(T(), l0, r0) == FilledP(m, start, i)
      modifies `p
      ensures Valid() && Schedule(T(), l, r) == FilledP(m, start, i + 2)
    {
      hide StepP, Encrypted;
      l, r := EncryptIntoP(i, l0, r0);
      assert FilledP(m, start, i + 2) == StepP(m, FilledP(m, start, i), i);
    }

    method FillP(l0: W, r0: W) returns (l: W, r: W)
      requires Valid()
      modifies `p
      ensures Valid() && Schedule(T(), l, r) == FilledP(m, Schedule(old(T()), l0, r0), |old(p)|)
    {
      l, r := l0, r0;
      ghost var start := Schedule(T(), l, r);
      var i := 0;
      while i < |p|
        invariant 0 <= i <= |p| == |old(p)| && i % 2 == 0
        invariant Schedule(T(), l, r) == FilledP(m, start, i)
      {
        l, r := FillNextOfP(i, l, r, start);
        i := i + 2;
      }
    }

    method FillBoxes(l0: W, r0: W) returns (l: W, r: W)
      requires Valid()
      modifies `s
      ensures Valid() && Schedule(T(), l, r) == FilledBoxes(m, Schedule(old(T()), l0, r0), |old(s)|)
    {
      l, r := l0, r0;
      ghost var start := Schedule(T(), l, r);
      for k := 0 to 4
        invariant Schedule(T(), l, r) == FilledBoxes(m, start, k)
      {
        l, r := FillBox(k, l, r);
      }
    }

    method EncryptIntoBox(k: nat, i: nat, l0: W, r0: W) returns (l: W, r: W)
      requires Valid() && k < 4 && i < 255
      modifies `s
      ensures Schedule(T(), l, r) == StepBox(m, Schedule(old(T()), l0, r0), k, i)
    {
      l, r := EncryptBlock(l0, r0);
      s := s[k := s[k][i := l][i + 1 := r]];
    }

    method FillBox(k: nat, l0: W, r0: W) returns (l: W, r: W)
      requires Valid() && k < 4
      modifies `s
      ensures Schedule(T(), l, r) == FilledBox(m, Schedule(old(T()), l0, r0), k, |old(s)[k]|)
    {
      l, r := l0, r0;
      ghost var start := Schedule(T(), l, r);
      var i := 0;
      while i < |s[k]|
        invariant Valid() && |s[k]| == |old(s)[k]| && 0 <= i <= |s[k]| && i % 2 == 0
        invariant Schedule(T(), l, r) == FilledBox(m, start, k, i)
      {
        l, r := EncryptIntoBox(k, i, l, r);
        assert FilledBox(m, start, k, i + 2) == StepBox(m, FilledBox(m, start, k, i), k, i);
        i := i + 2;
      }
    }
  }
}
