/** The FNV-1a hashes behind start slots, balancer slots and backend preferences: they tell inputs apart. */
module Hashes {
  import opened Types
  import opened Packet
  import opened Maps
  import opened Maglev
  import opened NatTable

  const M32: nat := 0x1_0000_0000
  const M64: nat := 0x1_0000_0000_0000_0000
  const P32: nat := 16777619
  const P64: nat := 0x100000001b3

  // ---------------------------------------------------------------- exclusive or

  lemma {:induction false} XorInjective(a: nat, b: nat, x: nat)
    requires XorBits(a, x) == XorBits(b, x)
    ensures a == b
    decreases a + b + x
  {
    XorStep(a, x);
    XorStep(b, x);
    hide XorBits;
    if a + b + x > 0 {
      assert a == 0 && b == 0 ==> a == b;
      if a + b > 0 { XorInjective(a / 2, b / 2, x / 2); }
    }
  }

  lemma {:induction false} XorCommutes(a: nat, b: nat)
    ensures XorBits(a, b) == XorBits(b, a)
    decreases a + b
  {
    if a + b > 0 { XorCommutes(a / 2, b / 2); }
  }

  function Power(n: nat): (r: nat)
    ensures r > 0
  {
    if n == 0 then 1 else 2 * Power(n - 1)
  }

  lemma {:induction false} XorBound(a: nat, b: nat, n: nat)
    requires a < Power(n) && b < Power(n)
    ensures XorBits(a, b) < Power(n)
    decreases n
  {
    if n > 0 && a + b > 0 { XorBound(a / 2, b / 2, n - 1); }
  }

  lemma {:induction false} PowerIs(n: nat, m: nat)
    ensures Power(n + m) == Power(n) * Power(m)
  {
    if n > 0 {
      PowerIs(n - 1, m);
      PowerStep(n);
      PowerStep(n + m);
      hide Power;
      Reassociate(2, Power(n - 1), Power(m));
    }
  }

  lemma PowerStep(n: nat)
    requires n > 0
    ensures Power(n) == 2 * Power(n - 1)
  {
  }

  lemma WordPowers()
    ensures Power(8) == 256 && Power(32) == M32 && Power(64) == M64
  {
    PowerEight();
    hide Power;
    PowerIs(8, 8);
    PowerIs(16, 16);
    PowerIs(32, 32);
  }

  lemma PowerEight()
    ensures Power(8) == 256
  {
  }

  // ---------------------------------------------------------------- one step of the hash

  /** A factor with an inverse modulo `m` can be cancelled. */
  lemma Cancel(x: nat, y: nat, p: nat, m: nat, q: nat, c: nat)
    requires x < m && y < m && p * q == 1 + c * m && x * p % m == y * p % m
    ensures x == y
  {
    var t := SameRest(x * p, y * p, m);
    Distribute(x, y, p);
    var d: int := x - y;
    var z := Divides(d, p, q, m, c, t);
    NoMultiple(d, z, m);
  }

  lemma NoMultiple(d: int, z: int, m: nat)
    requires d == z * m && 0 - m < d < m
    ensures d == 0
  {
    SmallMultiple(z, m);
    SmallMultiple(-z, m);
    assert (-z) * m == -(z * m);
  }

  lemma SameRest(x: nat, y: nat, m: nat) returns (t: int)
    requires m > 0 && x % m == y % m
    ensures x - y == m * t
  {
    t := x / m - y / m;
    Distribute(x / m, y / m, m);
  }

  lemma Divides(d: int, p: nat, q: nat, m: nat, c: nat, t: int) returns (z: int)
    requires d * p == m * t && p * q == 1 + c * m
    ensures d == z * m
  {
    z := t * q - c * d;
    Reassociate(d, p, q);
    Reassociate(m, t, q);
    Reassociate(c, m, d);
    Distribute(t * q, c * d, m);
    assert d * (1 + c * m) == d + (c * m) * d;
  }

  lemma Inverses()
    ensures P32 * 899433627 == 1 + 3513497 * M32
    ensures P64 * 14886173955864302971 == 1 + 887285111055 * M64
  {
  }

  /** Different words stay different, and different bytes make different words. */
  lemma StepInjective32(h: u32, g: u32, a: u8, b: u8)
    requires XorByte(h, a) * P32 % M32 == XorByte(g, b) * P32 % M32
    ensures (h == g) == (a == b)
  {
    WordPowers();
    hide XorBits;
    assert Power(8) <= Power(32);
    XorBound(h, a, 32);
    XorBound(g, b, 32);
    Inverses();
    hide Power;
    Cancel(XorByte(h, a), XorByte(g, b), P32, M32, 899433627, 3513497);
    XorTells(h, g, a, b);
  }

  lemma StepInjective64(h: u64, g: u64, a: u8, b: u8)
    requires XorByte(h, a) * P64 % M64 == XorByte(g, b) * P64 % M64
    ensures (h == g) == (a == b)
  {
    WordPowers();
    hide XorBits;
    assert Power(8) <= Power(64);
    XorBound(h, a, 64);
    XorBound(g, b, 64);
    Inverses();
    hide Power;
    Cancel(XorByte(h, a), XorByte(g, b), P64, M64, 14886173955864302971, 887285111055);
    XorTells(h, g, a, b);
  }

  lemma XorTells(h: nat, g: nat, a: u8, b: u8)
    requires XorBits(h, a) == XorBits(g, b)
    ensures (h == g) == (a == b)
  {
    if h == g {
      XorCommutes(h, a);
      XorCommutes(h, b);
      XorInjective(a, b, h);
    }
    if a == b { XorInjective(h, g, a); }
  }

  // ---------------------------------------------------------------- whole inputs

  /** From different words the same bytes lead to different hashes. */
  lemma {:induction false} StartTells32(bytes: seq<u8>, h: u32, g: u32)
    requires h != g
    ensures Fnv32(bytes, h) != Fnv32(bytes, g)
  {
    hide XorByte;
    if bytes != [] {
      var h', g' := XorByte(h, bytes[0]) * P32 % M32, XorByte(g, bytes[0]) * P32 % M32;
      if h' == g' { StepInjective32(h, g, bytes[0], bytes[0]); }
      StartTells32(bytes[1..], h', g');
    }
  }

  /** Inputs that differ in exactly one byte never hash alike. */
  lemma {:induction false} ByteTells32(bytes: seq<u8>, i: nat, b: u8, h: u32)
    requires i < |bytes| && bytes[i] != b
    ensures Fnv32(bytes[i := b], h) != Fnv32(bytes, h)
    decreases i
  {
    hide XorByte;
    var other := bytes[i := b];
    var h' := XorByte(h, bytes[0]) * P32 % M32;
    if i == 0 {
      assert other[1..] == bytes[1..];
      var g' := XorByte(h, b) * P32 % M32;
      if h' == g' { StepInjective32(h, h, bytes[0], b); }
      StartTells32(bytes[1..], h', g');
    } else {
      assert other[1..] == bytes[1..][i - 1 := b] && other[0] == bytes[0];
      ByteTells32(bytes[1..], i - 1, b, h');
    }
  }

  /** Two backends that differ in exactly one byte never have the same 64-bit hash. */
  lemma {:induction false} ByteTells64(bytes: seq<u8>, i: nat, b: u8, h: u64)
    requires i < |bytes| && bytes[i] != b
    ensures Fnv64(bytes[i := b], h) != Fnv64(bytes, h)
    decreases |bytes|
  {
    hide XorByte;
    var n, other := |bytes| - 1, bytes[i := b];
    var g := Fnv64(bytes[..n], h);
    if i == n {
      assert other[..n] == bytes[..n];
      if Fnv64(other, h) == Fnv64(bytes, h) { StepInjective64(g, g, b, bytes[n]); }
    } else {
      assert other[..n] == bytes[..n][i := b] && other[n] == bytes[n];
      ByteTells64(bytes[..n], i, b, h);
      if Fnv64(other, h) == Fnv64(bytes, h) {
        StepInjective64(Fnv64(other[..n], h), g, bytes[n], bytes[n]);
      }
    }
  }

  /**
   * Every byte of the 5-tuple enters the flow hash: changing any one byte of an address, a port or the protocol
   * changes it.
   */
  lemma TupleTells(src: Ip4, dst: Ip4, sport: u16, dport: u16, proto: u8, i: nat, b: u8)
    requires i < 13 && TupleBytes(src, dst, sport, dport, proto)[i] != b
    ensures Fnv32(TupleBytes(src, dst, sport, dport, proto)[i := b], 0x811c9dc5)
         != Hash5(src, dst, sport, dport, proto)
  {
    ByteTells32(TupleBytes(src, dst, sport, dport, proto), i, b, 0x811c9dc5);
    hide Fnv32;
  }

  function TupleBytes(src: Ip4, dst: Ip4, sport: u16, dport: u16, proto: u8): (t: seq<u8>)
    ensures |t| == 13
  {
    [src.b0, src.b1, src.b2, src.b3, dst.b0, dst.b1, dst.b2, dst.b3,
     sport % 256, sport / 256, dport % 256, dport / 256, proto]
  }

  /**
   * Where a flow starts: its port is the range's first plus its hash modulo the range's size, if the reply key of
   * that port is unused.
   */
  lemma FirstChoiceIs(s: State, k: CtKey, n64: bool, now: u64, port: u16)
    requires NatKey(k.vni, k.src) in s.nats && !Tracked(s.ct, k)
    requires var v := s.nats[NatKey(k.vni, k.src)];
             && v.portMin < v.portMax && RevKey(k.vni, v.natIp, port, k.proto) !in s.ct
             && port == v.portMin + Fnv32(TupleBytes(k.src, k.dst, k.sport, k.dport, k.proto), 0x811c9dc5)
                                    % (v.portMax - v.portMin)
    ensures Snat(s, k, n64, now).1 == Some(port)
  {
    var v := s.nats[NatKey(k.vni, k.src)];
    var h := Fnv32(TupleBytes(k.src, k.dst, k.sport, k.dport, k.proto), 0x811c9dc5);
    assert h == Hash5(k.src, k.dst, k.sport, k.dport, k.proto);
    hide Fnv32, Hash5, TupleBytes;
    FirstCandidate(v, h);
    assert StartSlot(k, v) == h % Range(v);
    hide StartSlot, Candidate, Range, Tracked;
    assert FirstFree(s.ct, k, v, StartSlot(k, v), 0) == Some(port);
  }

  lemma FirstCandidate(v: NatValue, h: u32)
    requires v.portMin < v.portMax
    ensures Range(v) == v.portMax - v.portMin
    ensures Candidate(v, h % Range(v), 0) == v.portMin + h % (v.portMax - v.portMin)
  {
    var r: nat := v.portMax - v.portMin;
    Small(r, 0x1_0000);
    var x := h % r;
    Small(x, r);
    Small(x, 0x1_0000);
    Small(v.portMin + x, 0x1_0000);
    assert Candidate(v, x, 0) == (v.portMin + (x + 0) % 0x1_0000 % r) % 0x1_0000;
    hide Candidate, Range;
  }

  lemma Small(x: nat, n: nat)
    requires x < n
    ensures x % n == x
  {
  }

  /** A published test vector of both widths: the hash of the single letter "a". */
  lemma Vectors()
    ensures Fnv32([0x61], 0x811c9dc5) == 0xe40c292c
    ensures Fnv64([0x61], 0xcbf29ce484222325) == 0xaf63dc4c8601ec8c
  {
    hide XorBits;
    LowByte(0x811c9dc5, 0x61);
    LowByte(0xcbf29ce484222325, 0x61);
    Mixed();
    assert XorByte(0x811c9dc5, 0x61) == 0x811c9da4 && XorByte(0xcbf29ce484222325, 0x61) == 0xcbf29ce484222344;
    hide XorByte;
    assert [0x61][1..] == [] && [0x61][..0] == [];
  }

  lemma Mixed()
    ensures XorBits(0xc5, 0x61) == 0xa4 && XorBits(0x25, 0x61) == 0x44
  {
    hide XorBits;
    XorStep(0xc5, 0x61);
    XorStep(0x62, 0x30);
    XorStep(0x31, 0x18);
    XorStep(0x18, 0x0c);
    XorStep(0x0c, 0x06);
    XorStep(0x06, 0x03);
    XorStep(0x03, 0x01);
    XorStep(0x01, 0x00);
    XorStep(0x25, 0x61);
    XorStep(0x12, 0x30);
    XorStep(0x09, 0x18);
    XorStep(0x04, 0x0c);
    XorStep(0x02, 0x06);
    XorStep(0x01, 0x03);
    XorStep(0x00, 0x01);
    XorNothing(0);
  }

  /** Mixing in a byte changes the low byte only. */
  lemma LowByte(h: nat, b: u8)
    ensures XorBits(h, b) == h - h % 256 + XorBits(h % 256, b)
  {
    hide *;
    PowerEight();
    LowPart(h, b, 8);
  }

  lemma {:induction false} LowPart(h: nat, b: nat, n: nat)
    requires b < Power(n)
    ensures XorBits(h, b) == h - h % Power(n) + XorBits(h % Power(n), b)
    decreases n
  {
    if n == 0 {
      XorNothing(h);
    } else {
      LowPart(h / 2, b / 2, n - 1);
      var m, r := Power(n - 1), h % Power(n);
      HalfOfRest(h, m);
      XorStep(h, b);
      XorStep(r, b);
      hide XorBits;
      assert h / 2 - h / 2 % m == (h - r) / 2;
    }
  }

  lemma HalfOfRest(h: nat, m: nat)
    requires m > 0
    ensures h % (2 * m) / 2 == h / 2 % m && h % (2 * m) % 2 == h % 2
  {
    var q, r := h / (2 * m), h % (2 * m);
    assert h == 2 * (q * m) + r;
    assert h / 2 == q * m + r / 2 && r / 2 < m;
    DivModOf(q, m, r / 2);
  }
}
