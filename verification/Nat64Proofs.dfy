/** NAT64 preserves transport validity in both directions, and replies come back to the IPv6 flow. */
module Nat64Proofs {
  import opened Types
  import opened Bytes
  import opened Checksum
  import opened Maps
  import opened Packet
  import opened Rewrite
  import opened RewriteProofs
  import opened NatTable
  import opened NatProofs
  import opened NatRoundTrip
  import NatGateway
  import opened Nat64

  // ---------------------------------------------------------------- checksum algebra

  /** Swapping a folded pseudo-header and a port changes the total by whole multiples of 0xffff only. */
  lemma SwapVerifiesIff(rest: nat, check: u16, a: nat, b: nat, oldPort: u16, newPort: u16)
    requires a > 0 && b > 0
    ensures Verifies(rest + V6ToV4(check, Ones(a), Ones(b), oldPort, newPort) + b + newPort)
       <==> Verifies(rest + check + a + oldPort)
  {
    var oa, ob := Ones(a), Ones(b);
    var inc := Not(check) + Not(oa) + ob + Not(oldPort) + newPort;
    TwoRoundsFoldU32(inc);
    assert V6ToV4(check, oa, ob, oldPort, newPort) == 0xffff - Ones(inc);
    assert inc == 3 * 0xffff - check - oa + ob - oldPort + newPort;
    hide *;
    var ka: int := OnesQuotient(a);
    var kb: int := OnesQuotient(b);
    var q: int := OnesQuotient(inc);
    var x, y, k := rest + (0xffff - Ones(inc)) + b + newPort, rest + check + a + oldPort, q + kb - ka - 2;
    assert x == y + 0xffff * k && x > 0 && y > 0;
    VerifiesShifted(x, y, k);
  }

  lemma SwapBackVerifiesIff(rest: nat, check: u16, a: nat, b: nat)
    requires a > 0 && b > 0
    ensures Verifies(rest + V4ToV6(check, Ones(a), Ones(b)) + b) <==> Verifies(rest + check + a)
  {
    var oa, ob := Ones(a), Ones(b);
    var inc := Not(check) + Not(oa) + ob;
    TwoRoundsFoldU32(inc);
    assert V4ToV6(check, oa, ob) == 0xffff - Ones(inc);
    assert inc == 2 * 0xffff - check - oa + ob;
    hide *;
    var ka: int := OnesQuotient(a);
    var kb: int := OnesQuotient(b);
    var q: int := OnesQuotient(inc);
    var x, y, k := rest + (0xffff - Ones(inc)) + b, rest + check + a, q + kb - ka - 1;
    assert x == y + 0xffff * k && x > 0 && y > 0;
    VerifiesShifted(x, y, k);
  }

  /** The 16-bit folds of the pseudo-headers lose nothing. */
  lemma FoldsArePseudo(src4: Ip4, dst4: Ip4, src6: Ip6, dst6: Ip6, proto: u8, len: u16)
    ensures Folded4(src4, dst4, proto, len) == Ones(Pseudo4(src4, dst4, proto, len))
    ensures Folded6(src6, dst6, proto, len) == Ones(Pseudo6(src6, dst6, proto, len))
  {
    SumBound(src6, 0, 16);
    SumBound(dst6, 0, 16);
    TwoRoundsFoldU32(Pseudo4(src4, dst4, proto, len));
    TwoRoundsFoldU32(Pseudo6(src6, dst6, proto, len));
  }

  lemma {:induction false} SumBound(p: seq<u8>, lo: nat, hi: nat)
    requires lo <= hi <= |p|
    ensures Sum(p, lo, hi) <= 0x1_0000 * (hi - lo)
    decreases hi - lo
  {
    if lo + 1 < hi {
      SumBound(p, lo + 2, hi);
    }
  }

  /** Storing the complement of the sum over a zero check word makes the block verify. */
  lemma SealVerifies(b: seq<u8>, o: nat, extra: nat)
    requires |b| <= 20 && |b| % 2 == 0 && o % 2 == 0 && 0 < o <= |b| - 2 && W(b, 0) > 0 && W(b, o) == 0
    requires extra < 0x100_0000
    ensures Verifies(extra + Sum(Put(b, o, Not(TwoRounds(extra + Sum(b, 0, |b|)))), 0, |b|))
  {
    hide Verifies, TwoRounds, Put, Ones;
    var s := Sum(b, 0, |b|);
    SumPut(b, 0, |b|, 0, 0);
    SumBound(b, 0, |b|);
    TwoRoundsFoldU32(extra + s);
    SumPut(b, 0, |b|, o, Not(Ones(extra + s)));
    FullChecksumVerifies(extra + s);
  }

  lemma HeaderVerifies(totalLen: u16, ttl: u8, proto: u8, src: Ip4, dst: Ip4)
    ensures Verifies(Sum(Ip4Header(totalLen, ttl, proto, src, dst), 0, 20))
  {
    hide *;
    BareWords(totalLen, ttl, proto, src, dst);
    SealVerifies(BareHeader(totalLen, ttl, proto, src, dst), 10, 0);
  }

  lemma BareWords(totalLen: u16, ttl: u8, proto: u8, src: Ip4, dst: Ip4)
    ensures var b := BareHeader(totalLen, ttl, proto, src, dst);
            && W(b, 0) > 0 && W(b, 10) == 0
            && Ip4Header(totalLen, ttl, proto, src, dst) == Put(b, 10, Not(TwoRounds(0 + Sum(b, 0, 20))))
  {
    hide TwoRounds, Sum, Put;
  }

  /** Words a block adds beyond a verifying part decide alone whether the whole verifies. */
  lemma VerifyingPartIff(part: nat, more: nat)
    requires Verifies(part)
    ensures Verifies(part + more) <==> more % 0xffff == 0
  {
    hide Ones;
    var k: int := OnesQuotient(part);
    if more % 0xffff == 0 {
      OnesOfShifted(part + more, part, more / 0xffff);
    } else {
      var j: int := OnesQuotient(part + more);
    }
  }

  // ---------------------------------------------------------------- transport headers

  /** Everything an IPv6 receiver's transport checksum covers, for the packet behind the Ethernet header. */
  function V6Total(p: seq<u8>): nat
    requires |p| >= 54 && 54 + W(p, 18) <= |p|
  {
    Pseudo6(p[22..38], p[38..54], p[20], W(p, 18)) + Sum(p, 54, 54 + W(p, 18))
  }

  predicate SegmentFits(l4: seq<u8>, proto: u8, len: u16) {
    && (proto == IPPROTO_TCP || proto == IPPROTO_UDP)
    && |l4| >= (if proto == IPPROTO_TCP then 20 else 8)
    && (if proto == IPPROTO_TCP then 18 else 8) <= len <= |l4|
  }

  lemma SegmentBounds(l4: seq<u8>, proto: u8, len: u16)
    requires SegmentFits(l4, proto, len)
    ensures proto > 0 && |l4| >= (if proto == IPPROTO_TCP then 20 else 8) && len <= |l4|
    ensures 6 <= CheckOff(proto) <= |l4| - 2
  {
  }

  lemma PseudoPositive(src4: Ip4, dst4: Ip4, src6: Ip6, dst6: Ip6, proto: u8, len: u16)
    requires proto > 0
    ensures Pseudo4(src4, dst4, proto, len) > 0 && Pseudo6(src6, dst6, proto, len) > 0
  {
    hide Sum;
  }

  /** The segment sum after its check value and source port were exchanged. */
  lemma L4ToV4Sum(l4: seq<u8>, proto: u8, len: u16, port: u16, f6: u16, f4: u16)
    requires SegmentFits(l4, proto, len)
    ensures var c, sp := W(l4, CheckOff(proto)), W(l4, 0);
            && c + sp <= Sum(l4, 0, len)
            && Sum(L4ToV4(l4, proto, port, f6, f4), 0, len)
               == Sum(l4, 0, len) - c - sp + V6ToV4(c, f6, f4, sp, port) + port
  {
    hide Put, V6ToV4, Sum;
    var co := CheckOff(proto);
    L4WordsInSum(l4, 0, len, proto, true);
    SumPut(l4, 0, len, 0, port);
    PutElsewhere(l4, 0, port, co);
    SumPut(Put(l4, 0, port), 0, len, co, V6ToV4(W(l4, co), f6, f4, W(l4, 0), port));
  }

  /** TCP and UDP, outward: the segment verifies under the IPv4 pseudo-header iff it did under the IPv6 one. */
  lemma L4ToV4VerifiesIff(l4: seq<u8>, proto: u8, len: u16, port: u16, src6: Ip6, dst6: Ip6, src4: Ip4, dst4: Ip4)
    requires SegmentFits(l4, proto, len)
    ensures var r := L4ToV4(l4, proto, port, Folded6(src6, dst6, proto, len), Folded4(src4, dst4, proto, len));
            Verifies(Sum(r, 0, len) + Pseudo4(src4, dst4, proto, len))
            <==> Verifies(Sum(l4, 0, len) + Pseudo6(src6, dst6, proto, len))
  {
    var a, b := Pseudo6(src6, dst6, proto, len), Pseudo4(src4, dst4, proto, len);
    hide *;
    SegmentBounds(l4, proto, len);
    PseudoPositive(src4, dst4, src6, dst6, proto, len);
    FoldsArePseudo(src4, dst4, src6, dst6, proto, len);
    SwappedSegmentIff(l4, proto, len, port, a, b);
  }

  /** The same for any two folded sums. */
  lemma SwappedSegmentIff(l4: seq<u8>, proto: u8, len: u16, port: u16, a: nat, b: nat)
    requires SegmentFits(l4, proto, len) && a > 0 && b > 0
    ensures |L4ToV4(l4, proto, port, Ones(a), Ones(b))| == |l4|
    ensures Verifies(Sum(L4ToV4(l4, proto, port, Ones(a), Ones(b)), 0, len) + b) <==> Verifies(Sum(l4, 0, len) + a)
  {
    hide *;
    SegmentBounds(l4, proto, len);
    L4ToV4Sum(l4, proto, len, port, Ones(a), Ones(b));
    var c, sp := W(l4, CheckOff(proto)), W(l4, 0);
    SwapVerifiesIff(Sum(l4, 0, len) - c - sp, c, a, b, sp, port);
  }

  lemma PutElsewhere(p: seq<u8>, o: nat, v: u16, k: nat)
    requires o + 2 <= |p| && k + 2 <= |p| && (k + 2 <= o || o + 2 <= k)
    ensures W(Put(p, o, v), k) == W(p, k)
  {
  }

  /** TCP and UDP, inward. */
  lemma L4ToV6VerifiesIff(l4: seq<u8>, proto: u8, len: u16, port: u16, src4: Ip4, dst4: Ip4, src6: Ip6, dst6: Ip6)
    requires SegmentFits(l4, proto, len)
    ensures var r := L4ToV6(l4, proto, port, src6, dst6, Folded4(src4, dst4, proto, len),
                            Folded6(src6, dst6, proto, len));
            Verifies(Sum(r, 0, len) + Pseudo6(src6, dst6, proto, len))
            <==> Verifies(Sum(l4, 0, len) + Pseudo4(src4, dst4, proto, len))
  {
    hide Verifies, Put, V4ToV6, Folded4, Folded6, TwoRounds, Ones, Sum;
    FoldsArePseudo(src4, dst4, src6, dst6, proto, len);
    var a, b := Pseudo4(src4, dst4, proto, len), Pseudo6(src6, dst6, proto, len);
    var co := CheckOff(proto);
    var c := W(l4, co);
    L4WordsInSum(l4, 0, len, proto, true);
    SumPut(l4, 0, len, co, V4ToV6(c, Ones(a), Ones(b)));
    SwapBackVerifiesIff(Sum(l4, 0, len) - c, c, a, b);
  }

  /** The echo header with a zero check word. */
  function EchoHeader(kind: u8, port: u16, seqNo: u16): (x: seq<u8>)
    ensures |x| == 8 && W(x, 2) == 0 && (kind > 0 ==> W(x, 0) > 0)
  {
    [kind, 0, 0, 0, port / 256, port % 256, seqNo / 256, seqNo % 256]
  }

  lemma EchoShape(l4: seq<u8>, r: seq<u8>, kind: u8, check: u16, port: u16)
    requires |l4| >= 8 && r == Put(Put(l4[0 := kind][1 := 0], 2, check), 4, port)
    ensures |r| == |l4| && r[..8] == Put(EchoHeader(kind, port, W(l4, 6)), 2, check) && r[8..] == l4[8..]
  {
  }

  /** A sealed echo header in front of an old tail, on top of a pseudo-header part. */
  lemma EchoVerifiesIff(l4: seq<u8>, r: seq<u8>, kind: u8, check: u16, port: u16, pseudo: nat, more: nat, len: nat)
    requires 8 <= len <= |l4| && kind > 0 && pseudo < 0x100_0000
    requires check == Not(TwoRounds(pseudo + Sum(EchoHeader(kind, port, W(l4, 6)), 0, 8)))
    requires r == Put(Put(l4[0 := kind][1 := 0], 2, check), 4, port)
    ensures |r| == |l4| && (Verifies(pseudo + more + Sum(r, 0, len)) <==> (more + Sum(l4, 8, len)) % 0xffff == 0)
  {
    hide *;
    EchoShape(l4, r, kind, check, port);
    var x := EchoHeader(kind, port, W(l4, 6));
    SealVerifies(x, 2, pseudo);
    EchoTail(l4, r, len);
    assert r[..8] == Put(x, 2, check);
    VerifyingPartIff(pseudo + Sum(r, 0, 8), more + Sum(l4, 8, len));
    assert pseudo + more + Sum(r, 0, len) == pseudo + Sum(r, 0, 8) + (more + Sum(l4, 8, len));
  }

  lemma EchoTail(l4: seq<u8>, r: seq<u8>, len: nat)
    requires |r| == |l4| && 8 <= len <= |l4| && r[8..] == l4[8..]
    ensures Sum(r, 0, len) == Sum(r[..8], 0, 8) + Sum(l4, 8, len)
    ensures Sum(r, 0, 8) == Sum(r[..8], 0, 8)
  {
    hide Sum;
    SumSplit(r, 0, 8, len);
    assert r[0..8] == r[..8][0..8];
    SumMoved(r, 0, r[..8], 0, 8);
    assert r[8..len] == r[8..][..len - 8] == l4[8..][..len - 8] == l4[8..len];
    SumMoved(r, 8, l4, 8, len - 8);
  }

  /** ICMP, outward: the check value covers eight bytes, so the rest of the message must sum to nothing. */
  lemma EchoToV4VerifiesIff(l4: seq<u8>, len: nat, port: u16, f6: u16, f4: u16)
    requires 8 <= len <= |l4|
    ensures Verifies(Sum(L4ToV4(l4, IPPROTO_ICMP, port, f6, f4), 0, len)) <==> Sum(l4, 8, len) % 0xffff == 0
  {
    hide Verifies, TwoRounds, Put, Sum;
    EchoVerifiesIff(l4, L4ToV4(l4, IPPROTO_ICMP, port, f6, f4), 8, EchoChecksum4(port, W(l4, 6)), port, 0, 0, len);
  }

  /** ICMP, inward: besides, the pseudo-header claims length 8. */
  lemma EchoToV6VerifiesIff(l4: seq<u8>, len: nat, port: u16, src: Ip6, dst: Ip6, f4: u16, f6: u16)
    requires 8 <= len <= |l4|
    ensures Verifies(Sum(L4ToV6(l4, IPPROTO_ICMP, port, src, dst, f4, f6), 0, len)
                     + Pseudo6(src, dst, IPPROTO_ICMPV6, len))
       <==> (len - 8 + Sum(l4, 8, len)) % 0xffff == 0
  {
    hide *;
    var pseudo := Sum(src, 0, 16) + Sum(dst, 0, 16) + 8 + 58;
    Echo6Means(l4, len, port, src, dst, f4, f6);
    SumBound(src, 0, 16);
    SumBound(dst, 0, 16);
    EchoVerifiesIff(l4, L4ToV6(l4, 1, port, src, dst, f4, f6), 129, EchoChecksum6(src, dst, port, W(l4, 6)), port,
                    pseudo, len - 8, len);
  }

  lemma Echo6Means(l4: seq<u8>, len: nat, port: u16, src: Ip6, dst: Ip6, f4: u16, f6: u16)
    requires 8 <= len <= |l4|
    ensures IPPROTO_ICMP == 1 && IPPROTO_TCP == 6
    ensures var chk := EchoChecksum6(src, dst, port, W(l4, 6));
            && L4ToV6(l4, 1, port, src, dst, f4, f6) == Put(Put(l4[0 := 129][1 := 0], 2, chk), 4, port)
            && chk == Not(TwoRounds(Sum(src, 0, 16) + Sum(dst, 0, 16) + 8 + 58
                                    + Sum(EchoHeader(129, port, W(l4, 6)), 0, 8)))
    ensures Pseudo6(src, dst, IPPROTO_ICMPV6, len) == Sum(src, 0, 16) + Sum(dst, 0, 16) + 58 + len
  {
    hide TwoRounds, Put, Sum;
  }

  // ---------------------------------------------------------------- egress

  /** Validity of an encapsulated IPv4 packet can be judged on the packet alone. */
  lemma InnerView(q: seq<u8>, ip: nat, r: seq<u8>)
    requires ip <= |q| && q[ip..] == r
    ensures |q| == ip + |r| && forall k | 0 <= k < |r| :: q[ip + k] == r[k]
    ensures WellFormed(q, ip) <==> WellFormed(r, 0)
    ensures WellFormed(r, 0) ==> (HoldsL4(q, ip) <==> HoldsL4(r, 0)) && L4Total(q, ip) == L4Total(r, 0)
    ensures |r| >= 20 ==> (IpVerifies(q, ip) <==> IpVerifies(r, 0))
  {
    hide Verifies, Sum;
    assert |q| == ip + |r|;
    assert forall k | 0 <= k < |r| :: q[ip + k] == q[ip..][k];
    if |r| >= 20 {
      SumTail(q, ip, r, 0, 20);
    }
    if WellFormed(r, 0) {
      SumTail(q, ip, r, 20, W(r, 2));
    }
  }

  lemma SumTail(q: seq<u8>, ip: nat, r: seq<u8>, lo: nat, hi: nat)
    requires ip <= |q| && q[ip..] == r && lo <= hi <= |r|
    ensures Sum(q, ip + lo, ip + hi) == Sum(r, lo, hi)
  {
    hide Sum;
    assert |q[ip + lo..ip + hi]| == |r[lo..hi]| == hi - lo;
    assert forall k | 0 <= k < hi - lo :: q[ip + lo..ip + hi][k] == q[ip..][lo + k] == r[lo..hi][k];
    SumMoved(q, ip + lo, r, lo, hi - lo);
  }

  /** The claimed payload holds the checksummed part of the header and fits an IPv4 total length. */
  predicate Translatable(fl: Flow) { MinLen(fl.key.proto) <= fl.plen && 20 + fl.plen < 0x1_0000 }

  predicate Flowing(p: seq<u8>, fl: Flow) { FlowOf(p, fl.key.vni, fl.key.src) == Some(fl) }

  /** Header words of the written IPv4 header. */
  lemma HeaderWords(totalLen: u16, ttl: u8, proto: u8, src: Ip4, dst: Ip4)
    ensures var h := Ip4Header(totalLen, ttl, proto, src, dst);
            && h[0] == 0x45 && W(h, 2) == totalLen && h[8] == ttl && h[9] == proto
            && Addr(h, 12) == src && Addr(h, 16) == dst
  {
    hide TwoRounds, Sum;
  }

  /** The header fields of a packet that starts with a given header. */
  lemma HeaderFields(h: seq<u8>, t: seq<u8>)
    requires |h| == 20
    ensures var r := h + t;
            && r[0] == h[0] && W(r, 2) == W(h, 2) && r[8] == h[8] && r[9] == h[9]
            && Addr(r, 12) == Addr(h, 12) && Addr(r, 16) == Addr(h, 16) && r[20..] == t
  {
  }

  /** A header that verifies keeps doing so in front of a transport part. */
  lemma HeaderSum(h: seq<u8>, t: seq<u8>)
    requires |h| == 20 && Verifies(Sum(h, 0, 20))
    ensures IpVerifies(h + t, 0)
  {
    hide Sum, Ones;
    var r := h + t;
    assert r[0..20] == h[0..20];
    SumMoved(r, 0, h, 0, 20);
  }

  /** A header in front of a transport part: what a receiver finds. */
  lemma HeaderInFront(h: seq<u8>, t: seq<u8>, proto: u8, len: u16)
    requires |h| == 20 && h[0] == 0x45 && W(h, 2) == (20 + len) % 0x1_0000 && h[9] == proto && len <= |t|
    requires SupportedProto(proto) && Verifies(Sum(h, 0, 20))
    ensures var r := h + t;
            && W(r, 2) == W(h, 2) && r[8] == h[8] && r[9] == proto
            && Addr(r, 12) == Addr(h, 12) && Addr(r, 16) == Addr(h, 16)
            && IpVerifies(r, 0) && r[20..] == t
            && (WellFormed(r, 0) && HoldsL4(r, 0) <==> MinLen(proto) <= len && 20 + len < 0x1_0000)
            && (20 + len < 0x1_0000 ==>
                  && WellFormed(r, 0)
                  && L4Total(r, 0) == Sum(t, 0, len)
                                      + if proto == IPPROTO_ICMP then 0
                                        else Pseudo4(Addr(h, 12), Addr(h, 16), proto, len))
  {
    hide Sum, Verifies, Pseudo4;
    HeaderSum(h, t);
    HeaderFields(h, t);
    SumTail(h + t, 20, t, 0, len);
  }

  predicate SupportedProto(proto: u8) { proto == IPPROTO_ICMP || proto == IPPROTO_TCP || proto == IPPROTO_UDP }

  function MinLen(proto: u8): nat { if proto == IPPROTO_TCP then 18 else 8 }

  /** The translated transport part of a flow's frame. */
  function L4Out(p: seq<u8>, fl: Flow, natIp: Ip4, port: u16): seq<u8>
    requires FlowSize(p, fl)
  {
    var k := fl.key;
    L4ToV4(p[54..], k.proto, port, Folded6(fl.src6, fl.dst6, k.proto, fl.plen), Folded4(natIp, k.dst, k.proto, fl.plen))
  }

  lemma InnerParts(p: seq<u8>, fl: Flow, natIp: Ip4, port: u16)
    requires FlowSize(p, fl)
    ensures InnerPacket(p, fl, natIp, port)
         == Ip4Header((20 + fl.plen) % 0x1_0000, fl.hops, fl.key.proto, natIp, fl.key.dst) + L4Out(p, fl, natIp, port)
    ensures fl.plen <= |L4Out(p, fl, natIp, port)| == |p| - 54
  {
    hide L4ToV4, Ip4Header, Folded4, Folded6;
  }

  lemma TranslatableMeans(fl: Flow)
    ensures Translatable(fl) <==> MinLen(fl.key.proto) <= fl.plen && 20 + fl.plen < 0x1_0000
  {
  }

  /** Shape and checksummed total of the IPv4 packet made of a flow's frame. */
  lemma InnerShape(p: seq<u8>, fl: Flow, natIp: Ip4, port: u16)
    requires FlowSize(p, fl) && SupportedProto(fl.key.proto)
    ensures var r, k := InnerPacket(p, fl, natIp, port), fl.key;
            && |r| == |p| - 34 && W(r, 2) == (20 + fl.plen) % 0x1_0000 && r[8] == fl.hops && r[9] == k.proto
            && Addr(r, 12) == natIp && Addr(r, 16) == k.dst && IpVerifies(r, 0) && r[20..] == L4Out(p, fl, natIp, port)
            && (WellFormed(r, 0) && HoldsL4(r, 0) <==> Translatable(fl))
            && (Translatable(fl) ==>
                  L4Total(r, 0) == Sum(L4Out(p, fl, natIp, port), 0, fl.plen)
                                   + if k.proto == IPPROTO_ICMP then 0 else Pseudo4(natIp, k.dst, k.proto, fl.plen))
  {
    hide *;
    var k, total := fl.key, (20 + fl.plen) % 0x1_0000;
    HeaderWords(total, fl.hops, k.proto, natIp, k.dst);
    HeaderVerifies(total, fl.hops, k.proto, natIp, k.dst);
    InnerParts(p, fl, natIp, port);
    TranslatableMeans(fl);
    HeaderInFront(Ip4Header(total, fl.hops, k.proto, natIp, k.dst), L4Out(p, fl, natIp, port), k.proto, fl.plen);
  }

  lemma FlowSegment(p: seq<u8>, fl: Flow)
    requires Flowing(p, fl) && Translatable(fl)
    ensures FlowSize(p, fl) && |p| >= 62 && fl.plen == W(p, 18) && 8 <= fl.plen <= |p| - 54
    ensures |p| - 54 >= (if fl.key.proto == IPPROTO_TCP then 20 else 8)
    ensures fl.key.proto == IPPROTO_ICMP || SegmentFits(p[54..], fl.key.proto, fl.plen)
    ensures fl.key.proto != IPPROTO_ICMP ==>
              V6Total(p) == Pseudo6(fl.src6, fl.dst6, fl.key.proto, fl.plen) + Sum(p, 54, 54 + fl.plen)
  {
    hide Sum, Pseudo6;
    FlowFacts(p, fl.key.vni, fl.key.src);
    FlowProto(p, fl);
  }

  lemma L4OutMeans(p: seq<u8>, fl: Flow, natIp: Ip4, port: u16)
    requires FlowSize(p, fl)
    ensures |p| - 54 >= (if fl.key.proto == IPPROTO_TCP then 20 else 8)
    ensures var k := fl.key;
            L4Out(p, fl, natIp, port) == L4ToV4(p[54..], k.proto, port, Folded6(fl.src6, fl.dst6, k.proto, fl.plen),
                                                Folded4(natIp, k.dst, k.proto, fl.plen))
  {
    hide L4ToV4, Folded4, Folded6;
  }

  /**
   * Egress preserves transport validity. TCP and UDP verify towards the IPv4 peer exactly when they
   * verified in the guest's IPv6 packet; an echo request verifies exactly when its data sums to a
   * multiple of 0xffff, since its check value covers the eight header bytes only.
   */
  lemma L4OutVerifiesIff(p: seq<u8>, fl: Flow, natIp: Ip4, port: u16)
    requires Flowing(p, fl) && Translatable(fl)
    ensures FlowSize(p, fl) && W(p, 18) == fl.plen
    ensures var k, total := fl.key, Sum(L4Out(p, fl, natIp, port), 0, fl.plen);
            if k.proto == IPPROTO_ICMP then Verifies(total) <==> Sum(p, 62, 54 + fl.plen) % 0xffff == 0
            else Verifies(total + Pseudo4(natIp, k.dst, k.proto, fl.plen)) <==> Verifies(V6Total(p))
  {
    hide *;
    FlowSegment(p, fl);
    var k, l4 := fl.key, p[54..];
    L4OutMeans(p, fl, natIp, port);
    if k.proto == IPPROTO_ICMP {
      EchoToV4VerifiesIff(l4, fl.plen, port, Folded6(fl.src6, fl.dst6, k.proto, fl.plen),
                          Folded4(natIp, k.dst, k.proto, fl.plen));
      SumTail(p, 54, l4, 8, fl.plen);
    } else {
      L4ToV4VerifiesIff(l4, k.proto, fl.plen, port, fl.src6, fl.dst6, natIp, k.dst);
      SumTail(p, 54, l4, 0, fl.plen);
    }
  }

  lemma FlowProto(p: seq<u8>, fl: Flow)
    requires Flowing(p, fl)
    ensures |p| >= 62 && fl.src6 == p[22..38] && fl.dst6 == p[38..54] && IsNat64(fl.dst6)
    ensures fl.key.dst == Extract(fl.dst6) && fl.hops == p[21] && fl.plen == W(p, 18)
    ensures fl.key.proto == IPPROTO_ICMP || fl.key.proto == IPPROTO_TCP || fl.key.proto == IPPROTO_UDP
    ensures fl.key.proto != IPPROTO_ICMP ==>
              fl.key.proto == p[20] && fl.key.sport == W(p, 54) && fl.key.dport == W(p, 56)
    ensures fl.key.proto == IPPROTO_ICMP ==> p[20] == IPPROTO_ICMPV6 && fl.key.sport == fl.key.dport == W(p, 58)
  {
    assert Addr(p, 50) == Extract(p[38..54]);
  }

  /** A guest frame is sent out in state `s`, with some outer payload length. */
  predicate SentOut(s: State, p: seq<u8>, env: Env, fl: Flow) {
    FlowOf(p, env.vni, env.guest) == Some(fl) && EgressVerdict(s, p, env).Redirect?
  }

  /** The frame sent out: outer headers, then the flow's packet from the guest's public address and port. */
  lemma RedirectParts(s: State, p: seq<u8>, env: Env, fl: Flow, innerLen: u16)
    requires SentOut(s, p, env, fl)
    ensures Flowing(p, fl) && FlowSize(p, fl) && NatKey(env.vni, env.guest) in s.nats && Decide(s, p, env).1.Some?
    ensures Decide(s, p, env) == Snat(s, fl.key, true, env.now) && EgressVerdict(s, p, env).Redirect?
    ensures var q := RedirectFrame(s, p, env, innerLen);
            && |q| >= 54
            && q[54..] == InnerPacket(p, fl, s.nats[NatKey(env.vni, env.guest)].natIp, Decide(s, p, env).1.value)
  {
    hide FlowOf, Snat, InnerPacket, OuterHeader, EgressFrame, RedirectFrame;
    FlowFacts(p, env.vni, env.guest);
    Decided(s, p, env, fl, Snat(s, fl.key, true, env.now).1, innerLen);
    FrameParts(p, fl, s.nats[NatKey(env.vni, env.guest)].natIp, Decide(s, p, env).1.value, env, innerLen);
  }

  /**
   * What leaves the host: an option-free IPv4 packet from the guest's public address and NAT port to
   * the embedded destination, with a verifying header. It holds its transport header and fits IPv4
   * exactly when the flow is translatable, and then its transport part verifies exactly when the
   * guest's IPv6 packet did (echo: when the echo data sums to a multiple of 0xffff).
   */
  lemma EgressVerifiesIff(s: State, p: seq<u8>, env: Env, fl: Flow, innerLen: u16)
    requires SentOut(s, p, env, fl)
    ensures |p| >= 62 && 54 + W(p, 18) <= |p| && fl.dst6 == p[38..54]
    ensures NatKey(env.vni, env.guest) in s.nats && Decide(s, p, env).1.Some?
    ensures var q := RedirectFrame(s, p, env, innerLen);
            && |q| == |p| + 20 && IpVerifies(q, 54) && W(q, 56) == (20 + W(p, 18)) % 0x1_0000
            && q[62] == p[21] && q[63] == fl.key.proto
            && Addr(q, 66) == s.nats[NatKey(env.vni, env.guest)].natIp && Addr(q, 70) == Extract(fl.dst6)
            && (WellFormed(q, 54) && HoldsL4(q, 54) <==> Translatable(fl))
            && (Translatable(fl) ==>
                  (Verifies(L4Total(q, 54))
                   <==> if fl.key.proto == IPPROTO_ICMP then Sum(p, 62, 54 + W(p, 18)) % 0xffff == 0
                        else Verifies(V6Total(p))))
  {
    hide *;
    RedirectParts(s, p, env, fl, innerLen);
    FlowProto(p, fl);
    FlowSupported(p, fl);
    var natIp, port := s.nats[NatKey(env.vni, env.guest)].natIp, Decide(s, p, env).1.value;
    var q, r := RedirectFrame(s, p, env, innerLen), InnerPacket(p, fl, natIp, port);
    InnerShape(p, fl, natIp, port);
    InnerView(q, 54, r);
    ViewAddrs(q, 54, r);
    if Translatable(fl) {
      L4OutVerifiesIff(p, fl, natIp, port);
    }
  }

  /** Transport bytes egress rewrites: type, code, check value and identifier, or source port and check value. */
  predicate Rewritten(proto: u8, i: nat) {
    if proto == IPPROTO_ICMP then i < 6 else i < 2 || CheckOff(proto) <= i < CheckOff(proto) + 2
  }

  lemma L4ToV4Fields(l4: seq<u8>, proto: u8, port: u16, f6: u16, f4: u16)
    requires SupportedProto(proto) && |l4| >= (if proto == IPPROTO_TCP then 20 else 8)
    ensures var r := L4ToV4(l4, proto, port, f6, f4);
            && (if proto == IPPROTO_ICMP then r[0] == 8 && r[1] == 0 && W(r, 4) == port else W(r, 0) == port)
            && forall i | 0 <= i < |l4| && !Rewritten(proto, i) :: r[i] == l4[i]
  {
    hide EchoChecksum4, V6ToV4;
  }

  /** On the wire: the NAT port as source port (identifier), and no other byte of the segment changed. */
  lemma EgressSegment(s: State, p: seq<u8>, env: Env, fl: Flow, innerLen: u16)
    requires SentOut(s, p, env, fl)
    ensures |p| >= 62 && Decide(s, p, env).1.Some? && EgressVerdict(s, p, env).Redirect?
    ensures var q, port := RedirectFrame(s, p, env, innerLen), Decide(s, p, env).1.value;
            && |q| == |p| + 20
            && (if fl.key.proto == IPPROTO_ICMP then q[74] == 8 && q[75] == 0 && W(q, 78) == port else W(q, 74) == port)
            && forall i | 0 <= i < |p| - 54 && !Rewritten(fl.key.proto, i) :: q[74 + i] == p[54 + i]
  {
    hide *;
    RedirectParts(s, p, env, fl, innerLen);
    FlowProto(p, fl);
    FlowSupported(p, fl);
    var k, natIp, port := fl.key, s.nats[NatKey(env.vni, env.guest)].natIp, Decide(s, p, env).1.value;
    var q := RedirectFrame(s, p, env, innerLen);
    InnerShape(p, fl, natIp, port);
    L4OutMeans(p, fl, natIp, port);
    var t := L4Out(p, fl, natIp, port);
    L4ToV4Fields(p[54..], k.proto, port, Folded6(fl.src6, fl.dst6, k.proto, fl.plen),
                 Folded4(natIp, k.dst, k.proto, fl.plen));
    assert q[74..] == q[54..][20..] == t;
    TailBytes(q, 74, t);
    TailBytes(p, 54, p[54..]);
  }

  lemma TailBytes(q: seq<u8>, ip: nat, r: seq<u8>)
    requires ip <= |q| && q[ip..] == r
    ensures |q| == ip + |r| && forall k | 0 <= k < |r| :: q[ip + k] == r[k]
    ensures forall k | 0 <= k <= |r| - 2 :: W(q, ip + k) == W(r, k)
  {
    assert |q| == ip + |r|;
    assert forall k | 0 <= k < |r| :: q[ip + k] == q[ip..][k];
  }

  lemma FlowSupported(p: seq<u8>, fl: Flow)
    requires Flowing(p, fl)
    ensures SupportedProto(fl.key.proto) && 54 + W(p, 18) <= |p|
  {
  }

  lemma ViewAddrs(q: seq<u8>, ip: nat, r: seq<u8>)
    requires |r| >= 20 && |q| == ip + |r| && forall k | 0 <= k < |r| :: q[ip + k] == r[k]
    ensures q[ip + 8] == r[8] && q[ip + 9] == r[9] && W(q, ip + 2) == W(r, 2)
    ensures Addr(q, ip + 12) == Addr(r, 12) && Addr(q, ip + 16) == Addr(r, 16)
  {
  }

  // ---------------------------------------------------------------- ingress

  lemma GuestWords(mac: Mac, len: u16, nextHeader: u8, hops: u8, src: Ip6, dst: Ip6)
    ensures var h := GuestHeader(mac, len, nextHeader, hops, src, dst);
            && h[..6] == mac && W(h, 12) == ETH_P_IPV6
            && W(h, 18) == len && h[20] == nextHeader && h[21] == hops && h[22..38] == src && h[38..54] == dst
  {
  }

  /** The IPv6 header of the expanded reply and its checksummed total, for any header and transport part. */
  lemma GuestInFront(h: seq<u8>, t: seq<u8>, src: Ip6, dst: Ip6, len: u16)
    requires |h| == 54 && W(h, 18) == len <= |t| && h[22..38] == src && h[38..54] == dst
    ensures var g := h + t;
            && g[..54] == h && g[54..] == t && W(g, 18) == len && g[20] == h[20]
            && V6Total(g) == Sum(t, 0, len) + Pseudo6(src, dst, h[20], len)
  {
    hide Sum;
    var g := h + t;
    assert g[54..] == t;
    SumTail(g, 54, t, 0, len);
    assert g[22..38] == h[22..38] && g[38..54] == h[38..54];
  }

  /** The transport part ingress writes. */
  function L4In(p: seq<u8>, guest: Ip6, origPort: u16): seq<u8>
    requires Expandable(p)
  {
    var proto, len, src := p[63], W(p, 56) - 20, Addr(p, 66);
    L4ToV6(p[74..], proto, origPort, Embed(src), guest,
           Folded4(src, Addr(p, 70), proto, len), Folded6(Embed(src), guest, proto, len))
  }

  function NextHeader(proto: u8): u8 { if proto == IPPROTO_ICMP then IPPROTO_ICMPV6 else proto }

  lemma IngressParts(p: seq<u8>, mac: Mac, guest: Ip6, origPort: u16)
    requires Expandable(p)
    ensures |p| >= 82 && W(p, 56) >= 20 && SupportedProto(p[63]) && (p[63] == IPPROTO_TCP ==> |p| >= 94)
    ensures |L4In(p, guest, origPort)| == |p| - 74
    ensures IngressFrame(p, mac, guest, origPort)
         == GuestHeader(mac, W(p, 56) - 20, NextHeader(p[63]), p[62], Embed(Addr(p, 66)), guest)
            + L4In(p, guest, origPort)
  {
    hide L4ToV6, GuestHeader, Folded4, Folded6, Embed;
  }

  /** The reply's own total, read off its transport part. */
  lemma ReplyTotal(p: seq<u8>)
    requires |p| >= 82 && WellFormed(p, 54) && HoldsL4(p, 54)
    ensures var l4, len := p[74..], W(p, 56) - 20;
            && 8 <= len <= |l4| && MinLen(p[63]) <= len && SupportedProto(p[63])
            && Sum(l4, 8, len) == Sum(p, 82, 74 + len)
            && L4Total(p, 54) == Sum(l4, 0, len)
                                 + if p[63] == IPPROTO_ICMP then 0 else Pseudo4(Addr(p, 66), Addr(p, 70), p[63], len)
  {
    hide Sum;
    var l4, len := p[74..], W(p, 56) - 20;
    SumTail(p, 74, l4, 0, len);
    SumTail(p, 74, l4, 8, len);
  }

  lemma L4InVerifiesIff(p: seq<u8>, guest: Ip6, origPort: u16)
    requires Expandable(p) && WellFormed(p, 54) && HoldsL4(p, 54)
    ensures |p| >= 82 && 74 <= 54 + W(p, 56) <= |p| && |L4In(p, guest, origPort)| == |p| - 74
    ensures var len := W(p, 56) - 20;
            var total := Sum(L4In(p, guest, origPort), 0, len)
                         + Pseudo6(Embed(Addr(p, 66)), guest, NextHeader(p[63]), len);
            && 8 <= len
            && (Verifies(total) <==> if p[63] == IPPROTO_ICMP then (len - 8 + Sum(p, 82, 74 + len)) % 0xffff == 0
                                     else Verifies(L4Total(p, 54)))
  {
    hide *;
    IngressParts(p, GW_MAC, guest, origPort);
    ReplyTotal(p);
    L4InMeans(p, guest, origPort);
    var proto, len, src, dst := p[63], W(p, 56) - 20, Addr(p, 66), Addr(p, 70);
    if proto == IPPROTO_ICMP {
      EchoToV6VerifiesIff(p[74..], len, origPort, Embed(src), guest,
                          Folded4(src, dst, proto, len), Folded6(Embed(src), guest, proto, len));
    } else {
      L4ToV6VerifiesIff(p[74..], proto, len, origPort, src, dst, Embed(src), guest);
    }
  }

  lemma L4InMeans(p: seq<u8>, guest: Ip6, origPort: u16)
    requires Expandable(p)
    ensures |p| >= 82 && W(p, 56) >= 20
    ensures p[63] == IPPROTO_ICMP ==> NextHeader(p[63]) == IPPROTO_ICMPV6
    ensures p[63] != IPPROTO_ICMP ==> NextHeader(p[63]) == p[63]
    ensures p[63] != IPPROTO_ICMP && MinLen(p[63]) <= W(p, 56) - 20 <= |p| - 74 ==>
              SegmentFits(p[74..], p[63], W(p, 56) - 20)
    ensures |p| - 74 >= (if p[63] == IPPROTO_TCP then 20 else 8)
    ensures var proto, len, src := p[63], W(p, 56) - 20, Addr(p, 66);
            L4In(p, guest, origPort)
            == L4ToV6(p[74..], proto, origPort, Embed(src), guest,
                      Folded4(src, Addr(p, 70), proto, len), Folded6(Embed(src), guest, proto, len))
  {
    hide L4ToV6, Folded4, Folded6, Embed;
  }

  /**
   * What the guest receives: an IPv6 packet from the embedded peer address whose payload length is
   * the reply's and whose transport part verifies exactly when the reply's did (echo: when length and
   * data beyond the eight checksummed bytes cancel out).
   */
  lemma IngressVerifiesIff(p: seq<u8>, mac: Mac, guest: Ip6, origPort: u16)
    requires Expandable(p) && WellFormed(p, 54) && HoldsL4(p, 54)
    ensures |p| >= 82 && 74 <= 54 + W(p, 56) <= |p|
    ensures var g, len := IngressFrame(p, mac, guest, origPort), W(p, 56) - 20;
            && |g| == |p| - 20 && g[..6] == mac && W(g, 12) == ETH_P_IPV6
            && W(g, 18) == len && g[20] == NextHeader(p[63]) && g[21] == p[62]
            && g[22..38] == Embed(Addr(p, 66)) && g[38..54] == guest
            && (Verifies(V6Total(g)) <==> if p[63] == IPPROTO_ICMP then (len - 8 + Sum(p, 82, 74 + len)) % 0xffff == 0
                                          else Verifies(L4Total(p, 54)))
  {
    hide *;
    IngressParts(p, mac, guest, origPort);
    L4InVerifiesIff(p, guest, origPort);
    var len, nh, src := W(p, 56) - 20, NextHeader(p[63]), Embed(Addr(p, 66));
    var h, t := GuestHeader(mac, len, nh, p[62], src, guest), L4In(p, guest, origPort);
    GuestWords(mac, len, nh, p[62], src, guest);
    GuestInFront(h, t, src, guest, len);
    FrontBytes(h + t, h);
  }

  lemma FrontBytes(g: seq<u8>, h: seq<u8>)
    requires |h| == 54 <= |g| && g[..54] == h
    ensures g[..6] == h[..6] && W(g, 12) == W(h, 12) && g[21] == h[21] && g[22..38] == h[22..38]
    ensures g[38..54] == h[38..54]
  {
    assert forall k | 0 <= k < 54 :: g[k] == g[..54][k] == h[k];
  }

  /** Transport bytes ingress rewrites. */
  predicate Restored(proto: u8, i: nat) {
    if proto == IPPROTO_ICMP then i < 6 else CheckOff(proto) <= i < CheckOff(proto) + 2
  }

  lemma L4ToV6Fields(l4: seq<u8>, proto: u8, port: u16, src: Ip6, dst: Ip6, f4: u16, f6: u16)
    requires SupportedProto(proto) && |l4| >= (if proto == IPPROTO_TCP then 20 else 8)
    ensures var r := L4ToV6(l4, proto, port, src, dst, f4, f6);
            && (proto == IPPROTO_ICMP ==> r[0] == 129 && r[1] == 0 && W(r, 4) == port)
            && forall i | 0 <= i < |l4| && !Restored(proto, i) :: r[i] == l4[i]
  {
    hide EchoChecksum6, V4ToV6;
  }

  /** The segment as the guest sees it: only check value and, for echo, type, code and identifier differ. */
  lemma IngressSegment(p: seq<u8>, mac: Mac, guest: Ip6, origPort: u16)
    requires Expandable(p)
    ensures |p| >= 82
    ensures var g := IngressFrame(p, mac, guest, origPort);
            && |g| == |p| - 20
            && (p[63] == IPPROTO_ICMP ==> g[54] == 129 && g[55] == 0 && W(g, 58) == origPort)
            && forall i | 0 <= i < |p| - 74 && !Restored(p[63], i) :: g[54 + i] == p[74 + i]
  {
    hide *;
    IngressParts(p, mac, guest, origPort);
    L4InMeans(p, guest, origPort);
    var proto, len, src := p[63], W(p, 56) - 20, Addr(p, 66);
    var g, t := IngressFrame(p, mac, guest, origPort), L4In(p, guest, origPort);
    L4ToV6Fields(p[74..], proto, origPort, Embed(src), guest,
                 Folded4(src, Addr(p, 70), proto, len), Folded6(Embed(src), guest, proto, len));
    assert g[54..] == t;
    TailBytes(g, 54, t);
    TailBytes(p, 74, p[74..]);
  }

  // ---------------------------------------------------------------- round trip

  /** A reply to a NATed packet is found under the peer-independent key. */
  lemma ReplyIsDemuxed(later: State, r: seq<u8>, ip: nat, vni: u32, natIp: Ip4, port: u16)
    requires Plain(r, ip) && Addr(r, ip + 16) == natIp
    requires if r[ip + 9] == IPPROTO_ICMP then W(r, ip + 24) == port else W(r, ip + 22) == port
    requires var rk := RevKey(vni, natIp, port, r[ip + 9]);
             rk in later.ct && Has(later.ct[rk].flags, CT_REWRITE_DST) && VipKey(vni, natIp) in later.natIps
    ensures var rk := RevKey(vni, natIp, port, r[ip + 9]);
            && KeyOf(r, ip, vni).Some? && DemuxKey(later, KeyOf(r, ip, vni).value) == rk
            && Demux(later, KeyOf(r, ip, vni).value) == Some(later.ct[rk])
  {
    hide Has;
  }

  lemma DemuxedPacket(later: State, r: seq<u8>, ip: nat, vni: u32, now: u64, e: CtEntry)
    requires KeyOf(r, ip, vni).Some? && Demux(later, KeyOf(r, ip, vni).value) == Some(e)
    ensures NatGateway.DemuxPacket(later, r, ip, vni, now).1 == CtApplied(r, ip, e)
    ensures NatGateway.DemuxPacket(later, r, ip, vni, now).2 == Some(e)
  {
    hide KeyOf, Demux, CtApplied, Touch;
  }

  /** The entry's translation keeps the reply's shape and, if it carries a check value, its validity. */
  lemma ReplyKeepsTotal(r: seq<u8>, ip: nat, e: CtEntry)
    requires WellFormed(r, ip) && HoldsL4(r, ip) && Has(e.flags, CT_REWRITE_DST) && !Has(e.flags, CT_REWRITE_SRC)
    ensures var q := CtApplied(r, ip, e);
            && |q| == |r| && WellFormed(q, ip) && HoldsL4(q, ip) && W(q, ip + 2) == W(r, ip + 2)
            && q[ip + 9] == r[ip + 9]
            && (!UdpWithoutCheck(r, ip) && Verifies(L4Total(r, ip)) ==> Verifies(L4Total(q, ip)))
  {
    hide Translated, Has, Verifies, L4Total, HoldsL4, WellFormed, OldPort;
    SrcMask(e.flags);
    AppliedIsTranslated(r, ip, e);
    TranslatedShape(r, ip, EntryXlate(e));
    if !UdpWithoutCheck(r, ip) && Verifies(L4Total(r, ip)) {
      KeepsCheckMeans(r, ip, e);
      if r[ip + 9] == IPPROTO_ICMP && e.xlatePort == 0 {
        TranslateKeepsAbsent(r, ip, EntryXlate(e));
      } else {
        TranslateKeepsL4(r, ip, EntryXlate(e));
      }
    }
  }

  predicate UdpWithoutCheck(r: seq<u8>, ip: nat)
    requires WellFormed(r, ip) && HoldsL4(r, ip)
  {
    r[ip + 9] == IPPROTO_UDP && W(r, ip + 26) == 0
  }

  lemma AppliedIsTranslated(r: seq<u8>, ip: nat, e: CtEntry)
    requires WellFormed(r, ip) && Has(e.flags, CT_REWRITE_SRC | CT_REWRITE_DST)
    ensures CtApplied(r, ip, e)
         == Translated(r, ip, ip + 20, OldPort(r, ip + 20, r[ip + 9], EntryXlate(e).isSrc), EntryXlate(e))
  {
    hide Translated, Has, OldPort;
  }

  lemma KeepsCheckMeans(r: seq<u8>, ip: nat, e: CtEntry)
    requires WellFormed(r, ip) && HoldsL4(r, ip)
    ensures L4Fits(r, ip + 20, r[ip + 9])
    ensures KeepsCheck(r, ip + 20, r[ip + 9], EntryXlate(e))
       <==> UdpWithoutCheck(r, ip) || (r[ip + 9] == IPPROTO_ICMP && e.xlatePort == 0)
    ensures EntryXlate(e).port != Some(0)
  {
    hide Has;
  }

  /** `g` answers `p` in IPv6: addresses, ports (or echo identifier) and transport protocol mirrored. */
  predicate Mirrors6(g: seq<u8>, p: seq<u8>)
    requires |g| >= 62 && |p| >= 62
  {
    && g[22..38] == p[38..54] && g[38..54] == p[22..38] && g[20] == p[20]
    && (if p[20] == IPPROTO_ICMPV6 then g[54] == 129 && W(g, 58) == W(p, 58)
        else W(g, 54) == W(p, 56) && W(g, 56) == W(p, 54))
  }

  /** The frame sent out as its IPv4 peer sees it. */
  lemma EgressOnTheWire(s: State, p: seq<u8>, env: Env, fl: Flow, innerLen: u16)
    requires SentOut(s, p, env, fl) && Translatable(fl)
    ensures |p| >= 62 && NatKey(env.vni, env.guest) in s.nats && Decide(s, p, env).1.Some?
    ensures EgressVerdict(s, p, env).Redirect?
    ensures var q, port := RedirectFrame(s, p, env, innerLen), Decide(s, p, env).1.value;
            && Plain(q, 54) && q[63] == fl.key.proto
            && Addr(q, 66) == s.nats[NatKey(env.vni, env.guest)].natIp && Addr(q, 70) == Extract(fl.dst6)
            && (if q[63] == IPPROTO_ICMP then W(q, 78) == port else W(q, 74) == port && W(q, 76) == fl.key.dport)
  {
    hide *;
    EgressVerifiesIff(s, p, env, fl, innerLen);
    EgressSegment(s, p, env, fl, innerLen);
    FlowingOf(s, p, env, fl);
    FlowProto(p, fl);
    FlowSupported(p, fl);
    var q := RedirectFrame(s, p, env, innerLen);
    WellFormedIsPlain(q, 54);
    PortsNotRewritten(fl.key.proto);
    if fl.key.proto != IPPROTO_ICMP {
      assert q[74 + 2] == p[54 + 2] && q[74 + 3] == p[54 + 3];
      SameWord(q, 76, p, 56);
    }
  }

  lemma FlowingOf(s: State, p: seq<u8>, env: Env, fl: Flow)
    requires SentOut(s, p, env, fl)
    ensures Flowing(p, fl)
  {
    FlowFacts(p, env.vni, env.guest);
    hide FlowOf, EgressVerdict;
  }

  lemma WellFormedIsPlain(q: seq<u8>, ip: nat)
    requires WellFormed(q, ip) && HoldsL4(q, ip)
    ensures Plain(q, ip)
  {
  }

  lemma PortsNotRewritten(proto: u8)
    requires SupportedProto(proto)
    ensures proto != IPPROTO_ICMP ==> !Rewritten(proto, 2) && !Rewritten(proto, 3)
    ensures proto != IPPROTO_ICMP ==>
              !Restored(proto, 0) && !Restored(proto, 1) && !Restored(proto, 2) && !Restored(proto, 3)
  {
  }

  /** A translated reply to the guest's public port, expanded to IPv6 for whatever address the tap has. */
  lemma ReplyExpanded(back: seq<u8>, p: seq<u8>, fl: Flow, mac: Mac, guest: Ip6)
    requires Flowing(p, fl) && Expandable(back) && WellFormed(back, 54) && HoldsL4(back, 54)
    requires back[63] == fl.key.proto && Addr(back, 66) == fl.key.dst
    requires fl.key.proto != IPPROTO_ICMP ==> W(back, 74) == fl.key.dport
    ensures |p| >= 62 && |back| >= 82
    ensures var g := IngressFrame(back, mac, guest, fl.key.sport);
            && |g| == |back| - 20 && W(g, 18) == W(back, 56) - 20 && g[38..54] == guest
            && (Mirrors6(g, p) <==> guest == fl.src6 && (fl.key.proto == IPPROTO_ICMP || W(back, 76) == fl.key.sport))
  {
    hide *;
    FlowProto(p, fl);
    IngressVerifiesIff(back, mac, guest, fl.key.sport);
    IngressSegment(back, mac, guest, fl.key.sport);
    EmbedExtract(fl.key.dst, fl.dst6);
    FlowSupported(p, fl);
    PortsNotRewritten(fl.key.proto);
    var g := IngressFrame(back, mac, guest, fl.key.sport);
    NextHeaderOf(p, fl);
    if fl.key.proto != IPPROTO_ICMP {
      assert g[54 + 0] == back[74 + 0] && g[54 + 1] == back[74 + 1];
      assert g[54 + 2] == back[74 + 2] && g[54 + 3] == back[74 + 3];
      SameWord(g, 54, back, 74);
      SameWord(g, 56, back, 76);
    }
    Mirrors6Iff(g, p, fl, guest);
  }

  lemma SameWord(a: seq<u8>, i: nat, b: seq<u8>, j: nat)
    requires i + 2 <= |a| && j + 2 <= |b| && a[i] == b[j] && a[i + 1] == b[j + 1]
    ensures W(a, i) == W(b, j)
  {
  }

  lemma NextHeaderOf(p: seq<u8>, fl: Flow)
    requires Flowing(p, fl)
    ensures |p| >= 62 && NextHeader(fl.key.proto) == p[20]
  {
    FlowProto(p, fl);
    hide FlowOf;
  }

  lemma Mirrors6Iff(g: seq<u8>, p: seq<u8>, fl: Flow, guest: Ip6)
    requires Flowing(p, fl) && |g| >= 62 && g[20] == NextHeader(fl.key.proto) && g[22..38] == fl.dst6
    requires g[38..54] == guest
    requires if fl.key.proto == IPPROTO_ICMP then g[54] == 129 && W(g, 58) == fl.key.sport else W(g, 54) == fl.key.dport
    ensures |p| >= 62
    ensures Mirrors6(g, p) <==> guest == fl.src6 && (fl.key.proto == IPPROTO_ICMP || W(g, 56) == fl.key.sport)
  {
    FlowProto(p, fl);
    NextHeaderOf(p, fl);
    hide FlowOf;
  }

  /** The uplink hands the translated reply to the tap's guest, and what the guest gets answers `p`. */
  predicate AnswersGuest(back: seq<u8>, p: seq<u8>, mac: Mac, tap: u32, guests: map<u32, Ip6>, origPort: u16)
    requires |p| >= 62
  {
    IngressVerdict(back, tap, guests) == Redirect(tap)
    && Mirrors6(IngressFrame(back, mac, GuestOf(guests, tap).value, origPort), p)
  }

  /** Whatever address the tap has: the delivered frame has the reply's payload length and keeps its validity. */
  predicate DeliversValid(
      back: seq<u8>, r: seq<u8>, mac: Mac, tap: u32, guests: map<u32, Ip6>, origPort: u16)
    requires |r| >= 82 && WellFormed(r, 54) && HoldsL4(r, 54)
  {
    Expandable(back) &&
    match GuestOf(guests, tap)
    case None => IngressVerdict(back, tap, guests) == Pass
    case Some(guest) =>
      var g := IngressFrame(back, mac, guest, origPort);
      && IngressVerdict(back, tap, guests) == Redirect(tap)
      && |g| == |r| - 20 && |g| >= 54 && g[38..54] == guest && W(g, 18) == W(r, 56) - 20 && 54 + W(g, 18) <= |g|
      && (r[63] != IPPROTO_ICMP && !UdpWithoutCheck(r, 54) && Verifies(L4Total(r, 54)) ==> Verifies(V6Total(g)))
  }

  /** The reply is complete enough for ingress: its header claims no more than arrived, TCP headers are whole. */
  predicate WholeReply(r: seq<u8>) {
    |r| >= 82 && WellFormed(r, 54) && HoldsL4(r, 54) && (r[63] == IPPROTO_TCP ==> |r| >= 94)
  }

  lemma WholeReplyFacts(r: seq<u8>)
    requires WholeReply(r)
    ensures |r| >= 82 && WellFormed(r, 54) && HoldsL4(r, 54)
  {
  }

  lemma WholeIsExpandable(r: seq<u8>, q: seq<u8>)
    requires WholeReply(r) && |q| == |r| && WellFormed(q, 54) && HoldsL4(q, 54) && q[63] == r[63]
    ensures Expandable(q)
  {
  }

  /** The reply entry tells the flow's port: for TCP and UDP, an entry with port 0 leaves the public port in place. */
  predicate KnowsPort(fl: Flow, port: Option<u16>) {
    fl.key.proto == IPPROTO_ICMP || fl.key.sport != 0 || port == Some(0)
  }

  lemma KnowsPortMeans(fl: Flow, port: u16)
    ensures KnowsPort(fl, Some(port))
       <==> fl.key.proto == IPPROTO_ICMP || (if fl.key.sport != 0 then fl.key.sport else port) == fl.key.sport
  {
  }

  /**
   * NAT64 end to end. A guest's IPv6 packet opens a flow and leaves as IPv4; a mirrored reply arrives in
   * any later state that still holds the reply entry's translation and the address marker. Then the reply
   * entry is found and marks the packet for NAT64; the frame delivered to the tap has the reply's payload
   * length and a verifying transport checksum if the TCP or UDP reply carried one; and it answers the
   * guest's packet exactly when the tap's port record holds the IPv6 address the guest sent from, and the
   * entry tells the flow's port.
   */
  lemma Nat64RoundTrip(
      s: State, p: seq<u8>, env: Env, fl: Flow, innerLen: u16, later: State, r: seq<u8>,
      mac: Mac, tap: u32, guests: map<u32, Ip6>, replyTime: u64)
    requires SentOut(s, p, env, fl) && Translatable(fl) && FreshlyAllocated(s, fl.key)
    requires env.guest != ANY_IP4
    requires EgressVerdict(s, p, env).Redirect? && NatKey(env.vni, env.guest) in s.nats && Decide(s, p, env).1.Some?
    requires var q := RedirectFrame(s, p, env, innerLen);
             Plain(q, 54) && Plain(r, 54) && WholeReply(r) && Mirrors(r, 54, q, 54)
    requires var natIp := s.nats[NatKey(env.vni, env.guest)].natIp;
             var rk := RevKey(env.vni, natIp, Decide(s, p, env).1.value, fl.key.proto);
             && rk in Decide(s, p, env).0.ct && rk in later.ct && SameXlate(later.ct[rk], Decide(s, p, env).0.ct[rk])
             && VipKey(env.vni, natIp) in later.natIps
    ensures var (_, back, hit) := NatGateway.DemuxPacket(later, r, 54, env.vni, replyTime);
            && hit.Some? && Has(hit.value.flags, CT_F_NAT64) && |p| >= 62
            && DeliversValid(back, r, mac, tap, guests, hit.value.xlatePort)
            && (AnswersGuest(back, p, mac, tap, guests, hit.value.xlatePort)
                <==> GuestOf(guests, tap) == Some(fl.src6) && KnowsPort(fl, Decide(s, p, env).1))
  {
    hide *;
    FlowingOf(s, p, env, fl);
    FlowProto(p, fl);
    RedirectParts(s, p, env, fl, innerLen);
    FlowKeyOf(s, p, env, fl);
    EgressOnTheWire(s, p, env, fl, innerLen);
    var q := RedirectFrame(s, p, env, innerLen);
    var natIp, port := s.nats[NatKey(env.vni, env.guest)].natIp, Decide(s, p, env).1.value;
    var rk := RevKey(env.vni, natIp, port, fl.key.proto);
    AllocPins(s, fl.key, true, env.now);
    var e := later.ct[rk];
    ReplyEntryMeans(later.ct, rk, fl.key, env.now);
    MirroredWords(r, q, 54);
    WholeReplyFacts(r);
    ReplyIsDemuxed(later, r, 54, env.vni, natIp, port);
    DemuxedPacket(later, r, 54, env.vni, replyTime, e);
    DstRewritten(r, 54, e);
    DstPortMeans(r, 54);
    DstPortMeans(CtApplied(r, 54, e), 54);
    KnowsPortMeans(fl, port);
    ReplyKeepsTotal(r, 54, e);
    var back := CtApplied(r, 54, e);
    WholeIsExpandable(r, back);
    DeliverMeans(back, p, r, mac, tap, guests, e.xlatePort);
    if GuestOf(guests, tap).Some? {
      ReplyExpanded(back, p, fl, mac, GuestOf(guests, tap).value);
      IngressVerifiesIff(back, mac, GuestOf(guests, tap).value, e.xlatePort);
    }
  }

  /** The two predicates, case by case. */
  lemma DeliverMeans(back: seq<u8>, p: seq<u8>, r: seq<u8>, mac: Mac, tap: u32, guests: map<u32, Ip6>, origPort: u16)
    requires |p| >= 62 && |r| >= 82 && WellFormed(r, 54) && HoldsL4(r, 54) && Expandable(back)
    ensures |back| >= 82 && W(back, 56) >= 20
    ensures GuestOf(guests, tap).None? ==>
              DeliversValid(back, r, mac, tap, guests, origPort) && !AnswersGuest(back, p, mac, tap, guests, origPort)
    ensures GuestOf(guests, tap).Some? ==>
              var g := IngressFrame(back, mac, GuestOf(guests, tap).value, origPort);
              && |g| >= 62
              && (AnswersGuest(back, p, mac, tap, guests, origPort) <==> Mirrors6(g, p))
              && (&& |g| == |r| - 20 && g[38..54] == GuestOf(guests, tap).value
                  && W(g, 18) == W(r, 56) - 20 && 54 + W(g, 18) <= |g|
                  && (r[63] != IPPROTO_ICMP && !UdpWithoutCheck(r, 54) && Verifies(L4Total(r, 54)) ==>
                        Verifies(V6Total(g)))
                  ==> DeliversValid(back, r, mac, tap, guests, origPort))
  {
    if GuestOf(guests, tap).Some? {
      IngressParts(back, mac, GuestOf(guests, tap).value, origPort);
    }
    hide Mirrors6, V6Total, L4Total, Verifies, WellFormed, HoldsL4, UdpWithoutCheck, IngressFrame, GuestOf;
  }

  lemma DstPortMeans(r: seq<u8>, ip: nat)
    requires Plain(r, ip)
    ensures DstPort(r, ip) == if r[ip + 9] == IPPROTO_ICMP then W(r, ip + 24) else W(r, ip + 22)
  {
  }

  lemma FlowKeyOf(s: State, p: seq<u8>, env: Env, fl: Flow)
    requires SentOut(s, p, env, fl)
    ensures fl.key.vni == env.vni && fl.key.src == env.guest
  {
    FlowFacts(p, env.vni, env.guest);
    hide FlowOf, EgressVerdict;
  }

  lemma ReplyEntryMeans(ct: map<CtKey, CtEntry>, rk: CtKey, k: CtKey, now: u64)
    requires rk in ct && SameXlate(ct[rk], RevEntry(k, true, now))
    ensures var e := ct[rk];
            && e.xlateIp == k.src && e.xlatePort == k.sport && Tracked(ct, rk)
            && Has(e.flags, CT_REWRITE_DST) && !Has(e.flags, CT_REWRITE_SRC) && Has(e.flags, CT_F_NAT64)
  {
    hide Has;
  }

  lemma SameXlateRefl(e: CtEntry)
    ensures SameXlate(e, e)
  {
  }

  lemma MirroredWords(r: seq<u8>, q: seq<u8>, ip: nat)
    requires Plain(r, ip) && Plain(q, ip) && Mirrors(r, ip, q, ip)
    ensures r[ip + 9] == q[ip + 9] && Addr(r, ip + 12) == Addr(q, ip + 16) && Addr(r, ip + 16) == Addr(q, ip + 12)
    ensures if q[ip + 9] == IPPROTO_ICMP then W(r, ip + 24) == W(q, ip + 24)
            else W(r, ip + 20) == W(q, ip + 22) && W(r, ip + 22) == W(q, ip + 20)
  {
  }

  /** NAT64 end to end over runs: the reply may arrive after any steps that do not remove its entry. */
  lemma Nat64RoundTripOverRuns(
      s: State, p: seq<u8>, env: Env, fl: Flow, innerLen: u16, steps: seq<Step>, r: seq<u8>,
      mac: Mac, tap: u32, guests: map<u32, Ip6>, replyTime: u64)
    requires Inv(s) && SentOut(s, p, env, fl) && Translatable(fl) && FreshlyAllocated(s, fl.key)
    requires env.guest != ANY_IP4
    requires EgressVerdict(s, p, env).Redirect? && NatKey(env.vni, env.guest) in s.nats && Decide(s, p, env).1.Some?
    requires var q := RedirectFrame(s, p, env, innerLen);
             Plain(q, 54) && Plain(r, 54) && WholeReply(r) && Mirrors(r, 54, q, 54)
    requires var (s', port) := Decide(s, p, env);
             SparingRun(s', steps, RevKey(env.vni, s.nats[NatKey(env.vni, env.guest)].natIp, port.value, fl.key.proto))
    ensures var later := Run(Decide(s, p, env).0, steps);
            var (_, back, hit) := NatGateway.DemuxPacket(later, r, 54, env.vni, replyTime);
            && Inv(later) && hit.Some? && Has(hit.value.flags, CT_F_NAT64) && |p| >= 62
            && DeliversValid(back, r, mac, tap, guests, hit.value.xlatePort)
            && (AnswersGuest(back, p, mac, tap, guests, hit.value.xlatePort)
                <==> GuestOf(guests, tap) == Some(fl.src6) && KnowsPort(fl, Decide(s, p, env).1))
  {
    hide *;
    RedirectParts(s, p, env, fl, innerLen);
    FlowKeyOf(s, p, env, fl);
    SnatKeepsInv(s, fl.key, true, env.now);
    AllocPins(s, fl.key, true, env.now);
    var s', natIp := Decide(s, p, env).0, s.nats[NatKey(env.vni, env.guest)].natIp;
    var rk := RevKey(env.vni, natIp, Decide(s, p, env).1.value, fl.key.proto);
    RevKeyMeans(env.vni, natIp, Decide(s, p, env).1.value, fl.key.proto);
    SameXlateRefl(s'.ct[rk]);
    ReplyEntryMeans(s'.ct, rk, fl.key, env.now);
    SparedEntryKeepsXlate(s', steps, rk);
    var later := Run(s', steps);
    TrackedIsIn(later.ct, rk);
    ReplyEntryMeans(later.ct, rk, fl.key, env.now);
    PinnedIsMarked(later, rk);
    Nat64RoundTrip(s, p, env, fl, innerLen, later, r, mac, tap, guests, replyTime);
  }

  lemma RevKeyMeans(vni: u32, natIp: Ip4, port: u16, proto: u8)
    ensures var rk := RevKey(vni, natIp, port, proto); rk.vni == vni && rk.src == ANY_IP4 && rk.dst == natIp
  {
  }

  lemma MirrorIsWhole(q: seq<u8>)
    requires WellFormed(q, 54) && HoldsL4(q, 54) && |q| >= 82 && (q[63] == IPPROTO_TCP ==> |q| >= 94)
    ensures Plain(q, 54)
    ensures var r := Mirror(q, 54);
            && WholeReply(r) && W(r, 56) == W(q, 56) && r[63] == q[63] && L4Total(r, 54) == L4Total(q, 54)
            && UdpWithoutCheck(r, 54) == UdpWithoutCheck(q, 54)
  {
    hide Mirror, L4Total, HoldsL4;
    MirrorKeepsTotal(q, 54);
    MirrorAnswers(q, 54);
  }

  lemma WholeOut(p: seq<u8>, fl: Flow)
    requires Flowing(p, fl)
    ensures |p| >= 62 && (fl.key.proto == IPPROTO_TCP ==> |p| >= 74)
    ensures fl.key.proto == IPPROTO_ICMP <==> p[20] == IPPROTO_ICMPV6
    ensures Translatable(fl) ==> (20 + W(p, 18)) % 0x1_0000 == 20 + W(p, 18)
  {
    FlowProto(p, fl);
    FlowFacts(p, fl.key.vni, fl.key.src);
    hide FlowOf;
  }

  /**
   * Out and back at once: for every IPv6 packet that opens a translatable flow, the peer's mirrored IPv4
   * packet comes back as an IPv6 frame of the same size and payload length, with a verifying TCP or UDP
   * checksum if the guest's verified (and translation did not leave UDP with the value that means "none"),
   * and answers the guest exactly when the tap's port record holds the address it sent from, and the entry
   * tells the flow's port.
   */
  lemma Nat64Echo(
      s: State, p: seq<u8>, env: Env, fl: Flow, innerLen: u16,
      mac: Mac, tap: u32, guests: map<u32, Ip6>, replyTime: u64)
    requires Inv(s) && SentOut(s, p, env, fl) && Translatable(fl) && FreshlyAllocated(s, fl.key)
    requires env.guest != ANY_IP4
    ensures EgressVerdict(s, p, env).Redirect? && |p| >= 62 && 54 + W(p, 18) <= |p|
    ensures var q := RedirectFrame(s, p, env, innerLen);
            && Plain(q, 54) && WellFormed(q, 54) && HoldsL4(q, 54)
            && var (_, back, hit) := NatGateway.DemuxPacket(Decide(s, p, env).0, Mirror(q, 54), 54, env.vni, replyTime);
               && hit.Some? && Has(hit.value.flags, CT_F_NAT64) && Expandable(back)
               && (AnswersGuest(back, p, mac, tap, guests, hit.value.xlatePort)
                   <==> GuestOf(guests, tap) == Some(fl.src6) && KnowsPort(fl, Decide(s, p, env).1))
               && (GuestOf(guests, tap).Some? ==>
                     var g := IngressFrame(back, mac, GuestOf(guests, tap).value, hit.value.xlatePort);
                     && IngressVerdict(back, tap, guests) == Redirect(tap) && |g| == |p| && W(g, 18) == W(p, 18)
                     && (p[20] != IPPROTO_ICMPV6 && Verifies(V6Total(p)) && !UdpWithoutCheck(q, 54) ==>
                           Verifies(V6Total(g))))
  {
    hide *;
    FlowingOf(s, p, env, fl);
    FlowKeyOf(s, p, env, fl);
    WholeOut(p, fl);
    RedirectParts(s, p, env, fl, innerLen);
    EgressVerifiesIff(s, p, env, fl, innerLen);
    EgressOnTheWire(s, p, env, fl, innerLen);
    var q, natIp := RedirectFrame(s, p, env, innerLen), s.nats[NatKey(env.vni, env.guest)].natIp;
    MirrorIsWhole(q);
    MirrorAnswers(q, 54);
    RunNothing(Decide(s, p, env).0, RevKey(env.vni, natIp, Decide(s, p, env).1.value, fl.key.proto));
    Nat64RoundTripOverRuns(s, p, env, fl, innerLen, [], Mirror(q, 54), mac, tap, guests, replyTime);
    var (_, back, hit) := NatGateway.DemuxPacket(Decide(s, p, env).0, Mirror(q, 54), 54, env.vni, replyTime);
    WholeReplyFacts(Mirror(q, 54));
    DeliveredFrame(back, Mirror(q, 54), mac, tap, guests, hit.value.xlatePort);
  }

  lemma DeliveredFrame(back: seq<u8>, r: seq<u8>, mac: Mac, tap: u32, guests: map<u32, Ip6>, origPort: u16)
    requires |r| >= 82 && WellFormed(r, 54) && HoldsL4(r, 54) && DeliversValid(back, r, mac, tap, guests, origPort)
    ensures Expandable(back)
    ensures GuestOf(guests, tap).Some? ==>
              var g := IngressFrame(back, mac, GuestOf(guests, tap).value, origPort);
              && IngressVerdict(back, tap, guests) == Redirect(tap)
              && |g| == |r| - 20 && |g| >= 54 && W(g, 18) == W(r, 56) - 20 && 54 + W(g, 18) <= |g|
              && (r[63] != IPPROTO_ICMP && !UdpWithoutCheck(r, 54) && Verifies(L4Total(r, 54)) ==> Verifies(V6Total(g)))
  {
    hide V6Total, L4Total, Verifies, WellFormed, HoldsL4, UdpWithoutCheck, IngressFrame;
  }
}
