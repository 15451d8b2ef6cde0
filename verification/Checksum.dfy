/** Ones'-complement checksum algebra: folding, full sums and the incremental update of RFC 1624. */
module Checksum {
  import opened Types
  import opened Bytes

  /** Bitwise complement of a 16-bit word. */
  function Not(x: u16): u16 { 0xffff - x }

  /** The 16-bit ones'-complement representative of a sum: zero only for the zero sum. */
  function Ones(sum: nat): (r: u16)
    ensures r == 0 <==> sum == 0
  {
    if sum == 0 then 0 else (sum - 1) % 0xffff + 1
  }

  /** A sum and its representative differ by whole multiples of 0xffff. */
  lemma OnesQuotient(sum: nat) returns (k: nat)
    ensures sum == Ones(sum) + 0xffff * k
  {
    k := if sum == 0 then 0 else (sum - 1) / 0xffff;
  }

  /** Adding multiples of 0xffff to a positive sum keeps its representative. */
  lemma OnesOfShifted(x: nat, y: nat, k: int)
    requires x == y + 0xffff * k
    ensures x > 0 && y > 0 ==> Ones(x) == Ones(y)
    ensures x > 0 && y == 0 ==> Ones(x) == 0xffff
  {
  }

  /** One end-around carry keeps the representative and does not grow the sum. */
  lemma CarryKeepsOnes(sum: nat)
    ensures Ones(sum % 0x1_0000 + sum / 0x1_0000) == Ones(sum)
    ensures sum >= 0x1_0000 ==> sum % 0x1_0000 + sum / 0x1_0000 < sum
  {
    var h := sum / 0x1_0000;
    assert sum == 0x1_0000 * h + sum % 0x1_0000;
    assert sum % 0x1_0000 + h == sum - 0xffff * h;
  }

  /** The looping fold. */
  method Fold(s: u32) returns (r: u16)
    ensures r == Ones(s)
  {
    var sum: int := s;
    while sum / 0x1_0000 != 0
      invariant 0 <= sum < 0x1_0000_0000 && Ones(sum) == Ones(s)
      decreases sum
    {
      CarryKeepsOnes(sum);
      sum := sum % 0x1_0000 + sum / 0x1_0000;
    }
    r := sum;
  }

  /** The unrolled fold: exactly two carries, then truncation to 16 bits. */
  function TwoRounds(sum: nat): u16 {
    var s1 := sum % 0x1_0000 + sum / 0x1_0000;
    var s2 := s1 % 0x1_0000 + s1 / 0x1_0000;
    s2 % 0x1_0000
  }

  /** Two carries fold every 32-bit accumulator completely, so both folds agree. */
  lemma TwoRoundsFoldU32(sum: u32)
    ensures TwoRounds(sum) == Ones(sum)
  {
    var s1 := sum % 0x1_0000 + sum / 0x1_0000;
    var s2 := s1 % 0x1_0000 + s1 / 0x1_0000;
    assert s1 <= 0x1_fffe;
    assert s2 <= 0xffff;
    CarryKeepsOnes(sum);
    CarryKeepsOnes(s1);
    OnesOfWord(s2);
    hide Ones;
  }

  lemma OnesOfWord(x: u16)
    ensures Ones(x) == x
  {
  }

  /** How far two carries reach: every accumulator up to this one folds completely, and this one does not. */
  lemma TwoRoundsReach(sum: nat)
    requires sum <= 0x1_0000_ffff
    ensures TwoRounds(sum) == Ones(sum) <==> sum < 0x1_0000_ffff
  {
    var s1 := sum % 0x1_0000 + sum / 0x1_0000;
    var s2 := s1 % 0x1_0000 + s1 / 0x1_0000;
    CarryKeepsOnes(sum);
    CarryKeepsOnes(s1);
    if sum < 0x1_0000_ffff {
      assert s1 < 0x1_ffff;
      assert s2 <= 0xffff;
      OnesOfWord(s2);
    } else {
      assert s1 == 0x1_ffff && s2 == 0x1_0000;
    }
    hide Ones;
  }

  /** Incremental update of a check value when the words `o1, o2` become `n1, n2` (RFC 1624, equation 3). */
  function Replace(check: u16, o1: u16, o2: u16, n1: u16, n2: u16): u16 {
    Not(Ones(Not(check) + Not(o1) + Not(o2) + n1 + n2))
  }

  function CsumReplace4(check: u16, old4: Ip4, new4: Ip4): u16 {
    Replace(check, old4.Hi(), old4.Lo(), new4.Hi(), new4.Lo())
  }

  /** The same for a 16-bit field: it is passed as a 32-bit field whose low half is zero on both sides. */
  function CsumReplace2(check: u16, old2: u16, new2: u16): u16 {
    CsumReplace4(check, Ip4(old2 / 256, old2 % 256, 0, 0), Ip4(new2 / 256, new2 % 256, 0, 0))
  }

  /** A receiver accepts a word total when it folds to all ones. */
  predicate Verifies(total: nat) { Ones(total) == 0xffff }

  /** Verifying totals are exactly the positive multiples of 0xffff. */
  lemma VerifiesMultiple(k: nat)
    ensures Verifies(0xffff * k) <==> k > 0
  {
    if k > 0 {
      OnesOfShifted(0xffff * k, 0xffff, k - 1);
    }
  }

  lemma VerifiesIff(x: nat)
    ensures Verifies(x) <==> x > 0 && x % 0xffff == 0
  {
  }

  /** Whether a positive total verifies depends on its residue only. */
  lemma VerifiesShifted(x: nat, y: nat, k: int)
    requires x == y + 0xffff * k && x > 0 && y > 0
    ensures Verifies(x) <==> Verifies(y)
  {
    OnesOfShifted(x, y, k);
  }

  /** Complementing the folded sum of the other words makes the whole verify. */
  lemma FullChecksumVerifies(sum: nat)
    requires sum > 0
    ensures Verifies(sum + Not(Ones(sum)))
  {
    var k := OnesQuotient(sum);
    VerifiesMultiple(k + 1);
  }

  /**
   * The core step of every rewriter: when old words leave a verifying total and new words enter,
   * the incrementally updated check value makes the new total verify, unless that total is zero.
   */
  lemma ReplaceKeepsVerifies(rest: nat, c: u16, o1: u16, o2: u16, n1: u16, n2: u16)
    requires Verifies(rest + c + o1 + o2)
    ensures var t := rest + Replace(c, o1, o2, n1, n2) + n1 + n2;
            t > 0 ==> Verifies(t)
  {
    hide Ones;
    var inc := Not(c) + Not(o1) + Not(o2) + n1 + n2;
    var t := rest + Not(Ones(inc)) + n1 + n2;
    var k: int := OnesQuotient(rest + c + o1 + o2);
    var q: int := OnesQuotient(inc);
    assert rest + c + o1 + o2 == 0xffff * (k + 1);
    assert t == rest + c + o1 + o2 - 2 * 0xffff + 0xffff * q;
    ShiftByMultiple(t, k + q - 1);
  }

  lemma ShiftByMultiple(t: nat, m: int)
    requires t == 0xffff * m
    ensures t > 0 ==> Verifies(t)
  {
    hide Ones;
    if m > 0 {
      VerifiesMultiple(m);
    }
  }

  lemma Replace2KeepsVerifies(rest: nat, c: u16, o: u16, n: u16)
    requires Verifies(rest + c + o)
    ensures var t := rest + CsumReplace2(c, o, n) + n;
            t > 0 ==> Verifies(t)
  {
    hide Ones;
    ReplaceKeepsVerifies(rest, c, o, 0, n, 0);
    Replace2Words(c, o, n);
  }

  lemma Replace2Words(c: u16, o: u16, n: u16)
    ensures CsumReplace2(c, o, n) == Replace(c, o, 0, n, 0)
  {
    assert Ip4(o / 256, o % 256, 0, 0).Hi() == o;
    assert Ip4(n / 256, n % 256, 0, 0).Hi() == n;
  }

  /** The full checksum of a byte string whose check field is absent or zero. */
  function FullChecksum(p: seq<u8>): u16 { Not(Ones(Sum(p, 0, |p|))) }

  /**
   * Starting from the full checksum, the incremental update of an aligned 32-bit field gives the full
   * checksum of the changed string exactly when that string is not all zero.
   */
  lemma IncrementalIsFullIffNonZero(p: seq<u8>, o: nat, a: Ip4)
    requires o % 2 == 0 && o + 4 <= |p|
    ensures CsumReplace4(FullChecksum(p), Addr(p, o), a) == FullChecksum(PutAddr(p, o, a))
       <==> Sum(PutAddr(p, o, a), 0, |p|) > 0
  {
    hide Ones, Sum, PutAddr;
    SumPutAddr(p, 0, |p|, o, a);
    SumFieldBound(p, 0, |p|, o);
    var old4 := Addr(p, o);
    ReplaceOfFull(Sum(p, 0, |p|), old4.Hi(), old4.Lo(), a.Hi(), a.Lo());
  }

  lemma ReplaceOfFull(s: nat, o1: u16, o2: u16, n1: u16, n2: u16)
    requires s >= o1 + o2
    ensures var s' := s - o1 - o2 + n1 + n2;
            Replace(Not(Ones(s)), o1, o2, n1, n2) == Not(Ones(s')) <==> s' > 0
  {
    hide Ones;
    var s' := s - o1 - o2 + n1 + n2;
    var inc := Ones(s) + Not(o1) + Not(o2) + n1 + n2;
    var k: int := OnesQuotient(s);
    OnesOfShifted(inc, s', 2 - k);
    assert Replace(Not(Ones(s)), o1, o2, n1, n2) == Not(Ones(inc));
  }

  /** A word is no larger than a sum it belongs to. */
  lemma SumFieldBound(p: seq<u8>, lo: nat, hi: nat, o: nat)
    requires lo <= o && o + 4 <= hi <= |p| && (o - lo) % 2 == 0
    ensures Sum(p, lo, hi) >= Addr(p, o).Hi() + Addr(p, o).Lo()
  {
    SumPutAddr(p, lo, hi, o, ANY_IP4);
  }

  /** Changing a field and changing it back restores every check value except 0xffff, which becomes 0. */
  lemma ReplaceRoundTrip(c: u16, a: Ip4, b: Ip4)
    ensures var back := CsumReplace4(CsumReplace4(c, a, b), b, a);
            (back == c <==> c != 0xffff) && (c == 0xffff ==> back == 0)
  {
    ReplaceBack(c, a.Hi(), a.Lo(), b.Hi(), b.Lo());
  }

  lemma ReplaceBack(c: u16, a1: u16, a2: u16, b1: u16, b2: u16)
    ensures Replace(Replace(c, a1, a2, b1, b2), b1, b2, a1, a2) == if c == 0xffff then 0 else c
  {
    var r, k := ReplaceDefect(c, a1, a2, b1, b2);
    ReplaceBackFrom(c, a1, a2, b1, b2, r, k);
  }

  /** A check value plus its field moves by whole multiples of 0xffff under an update. */
  lemma ReplaceDefect(c: u16, o1: u16, o2: u16, n1: u16, n2: u16) returns (r: u16, k: int)
    ensures r == Replace(c, o1, o2, n1, n2)
    ensures r + n1 + n2 == c + o1 + o2 + 0xffff * k
    ensures r == 0xffff ==> n1 == n2 == 0
  {
    hide Ones;
    var x := Not(c) + Not(o1) + Not(o2) + n1 + n2;
    var q: int := OnesQuotient(x);
    r := Not(Ones(x));
    k := q - 2;
  }

  lemma ReplaceBackFrom(c: u16, a1: u16, a2: u16, b1: u16, b2: u16, r: u16, k: int)
    requires r + b1 + b2 == c + a1 + a2 + 0xffff * k
    requires r == 0xffff ==> b1 == b2 == 0
    ensures Replace(r, b1, b2, a1, a2) == if c == 0xffff then 0 else c
  {
    var y := Not(r) + Not(b1) + Not(b2) + a1 + a2;
    OnesOfShifted(y, Not(c), 2 - k);
  }

  /**
   * The updated check value is zero (which UDP reads as "no checksum") exactly when the new field is
   * congruent to the old field plus the old check value, short of the all-zero corner.
   */
  lemma ReplaceGivesZeroIff(c: u16, o1: u16, o2: u16, n1: u16, n2: u16)
    ensures Replace(c, o1, o2, n1, n2) == 0
        <==> (c + o1 + o2 - n1 - n2) % 0xffff == 0 && c + o1 + o2 - n1 - n2 != 3 * 0xffff
  {
    var d := c + o1 + o2 - n1 - n2;
    var x := Not(c) + Not(o1) + Not(o2) + n1 + n2;
    assert x == 3 * 0xffff - d;
    AllOnesIff(x);
    MirrorResidue(d);
    hide Ones;
  }

  lemma AllOnesIff(x: nat)
    ensures Ones(x) == 0xffff <==> x > 0 && x % 0xffff == 0
  {
  }

  lemma MirrorResidue(d: int)
    ensures (3 * 0xffff - d) % 0xffff == 0 <==> d % 0xffff == 0
  {
  }

  /** A nonzero UDP check value can be updated into zero. */
  lemma NonZeroCheckCanVanish()
    ensures CsumReplace2(1, 0, 1) == 0
  {
    Replace2Words(1, 0, 1);
    AllOnesIff(Not(1) + Not(0) + Not(0) + 1);
    hide CsumReplace2, Ones;
  }

  /** Full checksum of a buffer region on top of a pseudo-header sum, with the unrolled fold. */
  method Csum16(sum0: u32, a: array<u8>, off: nat, len: nat) returns (r: u16)
    requires off + len <= a.Length
    requires sum0 + 0x1_0000 * len < 0x1_0000_0000
    ensures r == Not(Ones(sum0 + Sum(a[..], off, off + len)))
  {
    var sum: int := sum0;
    var i := 0;
    while i + 1 < len
      invariant i <= len && i % 2 == 0
      invariant 0 <= sum <= sum0 + 0x1_0000 * i
      invariant sum + Sum(a[..], off + i, off + len) == sum0 + Sum(a[..], off, off + len)
    {
      sum := sum + W(a[..], off + i);
      i := i + 2;
    }
    if i < len {
      sum := sum + a[off + i] as int * 256;
    }
    TwoRoundsFoldU32(sum);
    r := Not(TwoRounds(sum));
  }
}
