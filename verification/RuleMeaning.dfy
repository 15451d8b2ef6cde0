/** What firewall rules mean: which packets a rule accepts, which rule decides, and what a removal leaves. */
module RuleMeaning {
  import opened Types
  import opened Bytes
  import opened Packet
  import opened Firewall

  // ---------------------------------------------------------------- prefixes

  function Pow2(n: nat): (r: nat)
    ensures r > 0
  {
    if n == 0 then 1 else 2 * Pow2(n - 1)
  }

  function Number(a: Ip4): u32 { a.b0 * 0x100_0000 + a.b1 * 0x1_0000 + a.b2 * 0x100 + a.b3 }

  /** A mask byte with `n` leading ones. */
  function MaskByte(n: nat): u8
    requires n <= 8
  {
    256 - Pow2Small(8 - n)
  }

  function Pow2Small(n: nat): (r: nat)
    requires n <= 8
    ensures 1 <= r <= 256
  {
    if n == 0 then 1 else if n == 1 then 2 else if n == 2 then 4 else if n == 3 then 8
    else if n == 4 then 16 else if n == 5 then 32 else if n == 6 then 64 else if n == 7 then 128 else 256
  }

  function Clamp(n: int): nat { if n < 0 then 0 else if n > 8 then 8 else n }

  /** The mask of a prefix length: that many leading ones, all 32 of them beyond 32. */
  function MaskOf(len: nat): Ip4 {
    Ip4(MaskByte(Clamp(len)), MaskByte(Clamp(len - 8)), MaskByte(Clamp(len - 16)), MaskByte(Clamp(len - 24)))
  }

  /** As a number the mask is 2^32 - 2^(32 - len). */
  lemma MaskIsLeadingOnes(len: nat)
    requires len <= 32
    ensures Number(MaskOf(len)) == 0x1_0000_0000 - Pow2(32 - len)
  {
    PowersOfTwo(32 - len);
    hide Pow2;
    MaskBytes(Clamp(len), Clamp(len - 8), Clamp(len - 16), Clamp(len - 24));
    WholeByte();
    hide Pow2Small, MaskByte;
  }

  lemma MaskBytes(a: nat, b: nat, c: nat, d: nat)
    requires a <= 8 && b <= 8 && c <= 8 && d <= 8
    ensures Number(Ip4(MaskByte(a), MaskByte(b), MaskByte(c), MaskByte(d)))
         == (256 - Pow2Small(8 - a)) * 0x100_0000 + (256 - Pow2Small(8 - b)) * 0x1_0000
            + (256 - Pow2Small(8 - c)) * 0x100 + 256 - Pow2Small(8 - d)
  {
    hide Pow2Small;
  }

  lemma PowersOfTwo(n: nat)
    requires n <= 32
    ensures n <= 8 ==> Pow2(n) == Pow2Small(n)
    ensures 8 <= n <= 16 ==> Pow2(n) == 0x100 * Pow2Small(n - 8)
    ensures 16 <= n <= 24 ==> Pow2(n) == 0x1_0000 * Pow2Small(n - 16)
    ensures 24 <= n ==> Pow2(n) == 0x100_0000 * Pow2Small(n - 24)
  {
    if n > 0 { PowersOfTwo(n - 1); }
  }

  /** Masking by a multiple of a power of two leaves the low bits out. */
  lemma {:induction false} AndShift(a: nat, m: nat, k: nat)
    requires k <= 8
    ensures AndBits(a, m * Pow2Small(k)) == Pow2Small(k) * AndBits(a / Pow2Small(k), m)
  {
    if k > 0 {
      hide AndBits, Pow2Small;
      var half := Pow2Small(k - 1);
      AndShift(a / 2, m, k - 1);
      AndEven(a, m * half);
      HalfThenRest(a, k);
      Doubled(m, half);
      Doubled(AndBits(a / Pow2Small(k), m), half);
    }
  }

  lemma Doubled(x: nat, half: nat)
    ensures x * (2 * half) == 2 * (x * half) && (2 * half) * x == 2 * (half * x)
  {
  }

  lemma AndEven(a: nat, x: nat)
    ensures AndBits(a, 2 * x) == 2 * AndBits(a / 2, x)
  {
  }

  lemma HalfThenRest(a: nat, k: nat)
    requires 0 < k <= 8
    ensures Pow2Small(k) == 2 * Pow2Small(k - 1) && a / 2 / Pow2Small(k - 1) == a / Pow2Small(k)
  {
  }

  /** Masking by ones leaves a number as it is. */
  lemma {:induction false} AndOnes(a: nat, n: nat)
    requires n <= 8 && a < Pow2Small(n)
    ensures AndBits(a, Pow2Small(n) - 1) == a
  {
    if n > 0 {
      var half := Pow2Small(n - 1);
      HalfThenRest(a, n);
      AndOnes(a / 2, n - 1);
      assert (2 * half - 1) % 2 == 1 && (2 * half - 1) / 2 == half - 1;
    }
  }

  /** Under a mask of leading ones a byte keeps its leading bits. */
  lemma MaskedByte(a: u8, n: nat)
    requires n <= 8
    ensures AndBits(a, MaskByte(n)) == Pow2Small(8 - n) * (a / Pow2Small(8 - n))
  {
    var ones := Pow2Small(n) - 1;
    assert MaskByte(n) == ones * Pow2Small(8 - n) && a / Pow2Small(8 - n) < Pow2Small(n);
    AndShift(a, ones, 8 - n);
    AndOnes(a / Pow2Small(8 - n), n);
  }

  /** Bytes that agree under a mask of leading ones agree in their leading bits. */
  lemma MaskedByteIff(a: u8, b: u8, n: nat)
    requires n <= 8
    ensures MaskedEqual(a, b, MaskByte(n)) <==> a / Pow2Small(8 - n) == b / Pow2Small(8 - n)
  {
    MaskedByte(a, n);
    MaskedByte(b, n);
    hide MaskByte, AndBits;
  }

  lemma Scaled(a: nat, b: nat, m: nat)
    requires a < b
    ensures a * m + m <= b * m
  {
    var d: nat := b - a - 1;
    assert (a + 1 + d) * m == a * m + m + d * m;
  }

  /** Splitting a number at a byte boundary. */
  lemma SplitAt(hi: nat, lo: nat, x: nat, y: nat, m: nat)
    requires m > 0 && lo < m && y < m
    ensures hi * m + lo == x * m + y <==> hi == x && lo == y
  {
    if hi < x { Scaled(hi, x, m); }
    if hi > x { Scaled(x, hi, m); }
  }

  /** A rule's prefix accepts exactly the addresses whose leading bits are those of the network. */
  lemma InPrefixIff(a: Ip4, net: Ip4, len: nat)
    requires len <= 32
    ensures InPrefix(a, net, MaskOf(len)) <==> Number(a) / Pow2(32 - len) == Number(net) / Pow2(32 - len)
  {
    MaskedByteIff(a.b0, net.b0, Clamp(len));
    MaskedByteIff(a.b1, net.b1, Clamp(len - 8));
    MaskedByteIff(a.b2, net.b2, Clamp(len - 16));
    MaskedByteIff(a.b3, net.b3, Clamp(len - 24));
    PowersOfTwo(32 - len);
    hide MaskedEqual, MaskByte, Pow2;
    LeadingBits(a, net, len);
  }

  /** The leading bits byte by byte: whole bytes, then part of one, then nothing. */
  lemma LeadingBits(a: Ip4, b: Ip4, len: nat)
    requires len <= 32
    ensures Number(a) / Pow2(32 - len) == Number(b) / Pow2(32 - len)
       <==> && a.b0 / Pow2Small(8 - Clamp(len)) == b.b0 / Pow2Small(8 - Clamp(len))
            && a.b1 / Pow2Small(8 - Clamp(len - 8)) == b.b1 / Pow2Small(8 - Clamp(len - 8))
            && a.b2 / Pow2Small(8 - Clamp(len - 16)) == b.b2 / Pow2Small(8 - Clamp(len - 16))
            && a.b3 / Pow2Small(8 - Clamp(len - 24)) == b.b3 / Pow2Small(8 - Clamp(len - 24))
  {
    PowersOfTwo(32 - len);
    WholeByte();
    hide Pow2, Pow2Small;
    if len <= 8 {
      Quarter(a, Pow2Small(8 - len));
      Quarter(b, Pow2Small(8 - len));
    } else if len <= 16 {
      FirstTwo(a, b, 16 - len);
    } else if len <= 24 {
      FirstThree(a, b, 24 - len);
    } else {
      AllFour(a, b, 32 - len);
    }
  }

  lemma FirstTwo(a: Ip4, b: Ip4, n: nat)
    requires n <= 8
    ensures Number(a) / (0x1_0000 * Pow2Small(n)) == Number(b) / (0x1_0000 * Pow2Small(n))
       <==> a.b0 == b.b0 && a.b1 / Pow2Small(n) == b.b1 / Pow2Small(n)
  {
    SmallPowers(n);
    var m := Pow2Small(n);
    hide Pow2Small, Number;
    Half(a, m);
    Half(b, m);
    CutLow(a.b0, a.b1, b.b0, b.b1, m);
  }

  lemma FirstThree(a: Ip4, b: Ip4, n: nat)
    requires n <= 8
    ensures Number(a) / (0x100 * Pow2Small(n)) == Number(b) / (0x100 * Pow2Small(n))
       <==> a.b0 == b.b0 && a.b1 == b.b1 && a.b2 / Pow2Small(n) == b.b2 / Pow2Small(n)
  {
    SmallPowers(n);
    var m := Pow2Small(n);
    hide Pow2Small, Number;
    ThreeQuarters(a, m);
    ThreeQuarters(b, m);
    Digits3(a);
    Digits3(b);
    CutLow(a.b0 * 0x100 + a.b1, a.b2, b.b0 * 0x100 + b.b1, b.b2, m);
    SplitAt(a.b0, a.b1, b.b0, b.b1, 0x100);
  }

  lemma Digits3(a: Ip4)
    ensures a.b0 * 0x1_0000 + a.b1 * 0x100 + a.b2 == (a.b0 * 0x100 + a.b1) * 0x100 + a.b2
  {
  }

  lemma AllFour(a: Ip4, b: Ip4, n: nat)
    requires n <= 8
    ensures Number(a) / Pow2Small(n) == Number(b) / Pow2Small(n)
       <==> a.b0 == b.b0 && a.b1 == b.b1 && a.b2 == b.b2 && a.b3 / Pow2Small(n) == b.b3 / Pow2Small(n)
  {
    SmallPowers(n);
    var m := Pow2Small(n);
    hide Pow2Small, Number;
    Digits4(a);
    Digits4(b);
    TopThreeIff(a, b);
    var x, y := TopThree(a), TopThree(b);
    hide TopThree;
    CutLow(x, a.b3, y, b.b3, m);
  }

  function TopThree(a: Ip4): nat { (a.b0 * 0x100 + a.b1) * 0x100 + a.b2 }

  lemma Digits4(a: Ip4)
    ensures Number(a) == TopThree(a) * 0x100 + a.b3
  {
  }

  lemma TopThreeIff(a: Ip4, b: Ip4)
    ensures TopThree(a) == TopThree(b) <==> a.b0 == b.b0 && a.b1 == b.b1 && a.b2 == b.b2
  {
    SplitAt(a.b0 * 0x100 + a.b1, a.b2, b.b0 * 0x100 + b.b1, b.b2, 0x100);
    SplitAt(a.b0, a.b1, b.b0, b.b1, 0x100);
  }

  lemma SmallPowers(n: nat)
    requires n <= 8
    ensures Pow2Small(n) in {1, 2, 4, 8, 16, 32, 64, 128, 256}
  {
  }

  /** A byte divided by 1 is itself, by 256 nothing. */
  lemma WholeByte()
    ensures Pow2Small(0) == 1 && Pow2Small(8) == 256
    ensures forall x: u8 :: x / 1 == x && x / 256 == 0
  {
  }

  lemma Quarter(a: Ip4, m: nat)
    requires m > 0
    ensures Number(a) / (0x100_0000 * m) == a.b0 / m
  {
    Cut(a.b0, a.b1 * 0x1_0000 + a.b2 * 0x100 + a.b3, m, 0x100_0000);
  }

  lemma Half(a: Ip4, m: nat)
    requires m > 0
    ensures Number(a) / (0x1_0000 * m) == (a.b0 * 0x100 + a.b1) / m
  {
    Cut(a.b0 * 0x100 + a.b1, a.b2 * 0x100 + a.b3, m, 0x1_0000);
  }

  lemma ThreeQuarters(a: Ip4, m: nat)
    requires m > 0
    ensures Number(a) / (0x100 * m) == (a.b0 * 0x1_0000 + a.b1 * 0x100 + a.b2) / m
  {
    Cut(a.b0 * 0x1_0000 + a.b1 * 0x100 + a.b2, a.b3, m, 0x100);
  }

  /** Division by a multiple drops the low part. */
  lemma Cut(hi: nat, lo: nat, m: nat, k: nat)
    requires m > 0 && k > 0 && lo < k
    ensures (hi * k + lo) / (k * m) == hi / m
  {
    var q, r := Euclid(hi, m);
    CutParts(hi, lo, m, k, q, r);
    Quotient(q, r * k + lo, k * m);
  }

  lemma Euclid(x: nat, m: nat) returns (q: nat, r: nat)
    requires m > 0
    ensures x == q * m + r && r < m && q == x / m
  {
    q, r := x / m, x % m;
  }

  lemma CutParts(hi: nat, lo: nat, m: nat, k: nat, q: nat, r: nat)
    requires hi == q * m + r && r < m && lo < k
    ensures hi * k + lo == q * (k * m) + (r * k + lo) && r * k + lo < k * m && k * m > 0
  {
    Expand(q, m, r, k);
    Scaled(r, m, k);
  }

  lemma Expand(q: nat, m: nat, r: nat, k: nat)
    ensures (q * m + r) * k == q * (k * m) + r * k && m * k == k * m
  {
    assert (q * m) * k == q * (m * k);
  }

  lemma Quotient(q: nat, r: nat, n: nat)
    requires n > 0 && r < n
    ensures (q * n + r) / n == q
  {
    var x := q * n + r;
    var y := x / n;
    assert x == y * n + x % n;
    SplitAt(q, r, y, x % n, n);
  }

  /** Equal quotients of two-digit numbers: the high digits agree, and the quotients of the low ones. */
  lemma CutLow(x: nat, lo: u8, y: nat, lo': u8, m: nat)
    requires m in {1, 2, 4, 8, 16, 32, 64, 128, 256}
    ensures (x * 0x100 + lo) / m == (y * 0x100 + lo') / m <==> x == y && lo / m == lo' / m
  {
    var k := 0x100 / m;
    assert k * m == 0x100;
    DigitQuotient(x, lo, m, k);
    DigitQuotient(y, lo', m, k);
    assert lo / m < k && lo' / m < k;
    SplitAt(x, lo / m, y, lo' / m, k);
  }

  lemma DigitQuotient(x: nat, lo: u8, m: nat, k: nat)
    requires m > 0 && k * m == 0x100
    ensures (x * 0x100 + lo) / m == x * k + lo / m
  {
    var q, r := lo / m, lo % m;
    assert x * 0x100 + lo == (x * k + q) * m + r by {
      assert x * (k * m) == (x * k) * m;
    }
    Quotient(x * k + q, r, m);
  }

  // ---------------------------------------------------------------- rules and packets

  /** The port at an offset of the transport header, 0 if the first four bytes of the header are not all there. */
  function PortAt(p: seq<u8>, ip: nat, off: nat): u16
    requires ip + 20 <= |p| && off <= 2
  {
    if ip + Ihl(p, ip) + 4 <= |p| then W(p, ip + Ihl(p, ip) + off) else 0
  }

  /** A byte of an ICMP message behind an option-free header, 0 otherwise. */
  function IcmpByte(p: seq<u8>, ip: nat, off: nat): u8
    requires ip + 20 <= |p| && off <= 1
  {
    if p[ip] as int % 16 == 5 && ip + 22 <= |p| then p[ip + 20 + off] else 0
  }

  /**
   * Which packets a rule of prefix lengths `n` and `m` accepts: addresses in both networks, the protocol or
   * any, and for TCP and UDP both ports within their ranges, for ICMP type and code, 0xffff meaning any.
   */
  lemma AcceptsIff(r: FwRule, n: nat, m: nat, p: seq<u8>, ip: nat)
    requires ip + 20 <= |p| && n <= 32 && m <= 32 && r.srcMask == MaskOf(n) && r.dstMask == MaskOf(m)
    ensures Matches(r, SelectorsOf(p, ip))
       <==> && r.enabled != 0 && (r.proto == 0 || p[ip + 9] == r.proto)
            && Number(Ip4(p[ip + 12], p[ip + 13], p[ip + 14], p[ip + 15])) / Pow2(32 - n)
               == Number(r.srcIp) / Pow2(32 - n)
            && Number(Ip4(p[ip + 16], p[ip + 17], p[ip + 18], p[ip + 19])) / Pow2(32 - m)
               == Number(r.dstIp) / Pow2(32 - m)
            && (p[ip + 9] == 6 || p[ip + 9] == 17 ==>
                  && r.srcPortMin <= PortAt(p, ip, 0) <= r.srcPortMax
                  && r.dstPortMin <= PortAt(p, ip, 2) <= r.dstPortMax)
            && (p[ip + 9] == 1 ==>
                  && (r.icmpType == 0xffff || IcmpByte(p, ip, 0) == r.icmpType)
                  && (r.icmpCode == 0xffff || IcmpByte(p, ip, 1) == r.icmpCode))
  {
    var sel := SelectorsOf(p, ip);
    SelectorsAre(p, ip);
    InPrefixIff(sel.src, r.srcIp, n);
    InPrefixIff(sel.dst, r.dstIp, m);
    hide MaskOf, InPrefix, Number, Pow2, SelectorsOf, PortAt, IcmpByte;
  }

  lemma SelectorsAre(p: seq<u8>, ip: nat)
    requires ip + 20 <= |p|
    ensures var s := SelectorsOf(p, ip);
            && s.src == Ip4(p[ip + 12], p[ip + 13], p[ip + 14], p[ip + 15])
            && s.dst == Ip4(p[ip + 16], p[ip + 17], p[ip + 18], p[ip + 19]) && s.proto == p[ip + 9]
            && (s.proto == 6 || s.proto == 17 ==> s.sport == PortAt(p, ip, 0) && s.dport == PortAt(p, ip, 2))
            && (s.proto == 1 ==> s.icmpType == IcmpByte(p, ip, 0) && s.icmpCode == IcmpByte(p, ip, 1))
  {
  }

  // ---------------------------------------------------------------- which rule decides

  /** Rule `i` is the first of its direction that matches. */
  ghost predicate Decides(rules: Rules, dir: u8, s: Selectors, i: nat) {
    && i < |rules| && rules[i].1.direction == dir && Matches(rules[i].1, s)
    && forall j | 0 <= j < i :: !(rules[j].1.direction == dir && Matches(rules[j].1, s))
  }

  lemma {:induction false} ScanMeans(rules: Rules, dir: u8, s: Selectors, i: nat)
    requires i <= |rules| && forall j | 0 <= j < i :: !(rules[j].1.direction == dir && Matches(rules[j].1, s))
    ensures forall k: nat | Decides(rules, dir, s, k) :: ScanFrom(rules, dir, s, i) == rules[k].1.action
    ensures (forall k: nat :: !Decides(rules, dir, s, k)) ==> ScanFrom(rules, dir, s, i) == DROP
    decreases |rules| - i
  {
    hide Matches;
    if i < |rules| {
      if rules[i].1.direction == dir && Matches(rules[i].1, s) {
        assert Decides(rules, dir, s, i);
      } else {
        ScanMeans(rules, dir, s, i + 1);
      }
    }
  }

  /**
   * The whitelist decision on the list itself: the action of the first rule of the direction that matches; if
   * none does, drop when the direction has a rule and accept when it has none.
   */
  lemma DecisionIs(rules: Rules, dir: u8, s: Selectors)
    ensures forall k: nat | Decides(rules, dir, s, k) :: Decision(rules, dir, s) == rules[k].1.action
    ensures (forall k: nat :: !Decides(rules, dir, s, k)) ==>
              Decision(rules, dir, s)
              == if exists i | 0 <= i < |rules| :: rules[i].1.direction == dir then DROP else ACCEPT
  {
    InDirectionEmptyIff(rules, dir);
    ScanIsFirstMatch(rules, dir, s, 0);
    ScanMeans(rules, dir, s, 0);
    assert rules[0..] == rules;
    hide Matches, FirstMatch, ScanFrom, InDirection;
  }

  // ---------------------------------------------------------------- removal

  lemma {:induction false} WithoutRuleSplits(front: Rules, rest: Rules, id: Id)
    ensures WithoutRule(front + rest, id) == WithoutRule(front, id) + WithoutRule(rest, id)
  {
    if front == [] {
      assert front + rest == rest;
    } else {
      assert (front + rest)[1..] == front[1..] + rest;
      WithoutRuleSplits(front[1..], rest, id);
      var head := if front[0].0 == id then [] else [front[0]];
      assert head + (WithoutRule(front[1..], id) + WithoutRule(rest, id))
          == head + WithoutRule(front[1..], id) + WithoutRule(rest, id);
    }
  }

  lemma {:induction false} WithoutRuleAbsent(rules: Rules, id: Id)
    requires forall i | 0 <= i < |rules| :: rules[i].0 != id
    ensures WithoutRule(rules, id) == rules
  {
    if rules != [] {
      WithoutRuleAbsent(rules[1..], id);
    }
  }

  /** Removing the one rule of an id leaves all others as they are, in order. */
  lemma RemovalKeepsOthers(front: Rules, rule: (Id, FwRule), rest: Rules)
    requires forall i | 0 <= i < |front| :: front[i].0 != rule.0
    requires forall i | 0 <= i < |rest| :: rest[i].0 != rule.0
    ensures WithoutRule(front + [rule] + rest, rule.0) == front + rest
  {
    WithoutRuleSplits(front + [rule], rest, rule.0);
    WithoutRuleSplits(front, [rule], rule.0);
    WithoutRuleAbsent(front, rule.0);
    WithoutRuleAbsent(rest, rule.0);
    assert [rule][1..] == [] && WithoutRule([rule], rule.0) == [];
    hide WithoutRule;
    assert front + [] == front;
  }

  /** So adding a rule of a new id and removing it again gives the list back. */
  lemma AddThenRemove(rules: Rules, rule: (Id, FwRule))
    requires forall i | 0 <= i < |rules| :: rules[i].0 != rule.0
    ensures WithoutRule(rules + [rule], rule.0) == rules
  {
    RemovalKeepsOthers(rules, rule, []);
    assert rules + [rule] + [] == rules + [rule] && rules + [] == rules;
  }
}
