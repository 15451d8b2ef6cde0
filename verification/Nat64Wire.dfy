/** NAT64 on the wire: which frames are taken, and every header byte of what is sent and delivered. */
module Nat64Wire {
  import opened Types
  import opened Bytes
  import opened Checksum
  import opened Maps
  import opened NatTable
  import opened Nat64
  import opened Nat64Proofs

  // ---------------------------------------------------------------- which frames are taken

  /** An Ethernet frame with an IPv6 packet (section 3 of RFC 8200). */
  function Frame6(eth: seq<u8>, front: seq<u8>, plen: u16, nextHeader: u8, hops: u8, src: Ip6, dst: Ip6,
                  payload: seq<u8>): seq<u8>
    requires |eth| == 14 && |front| == 4
  {
    eth + front + [plen / 256, plen % 256, nextHeader, hops] + src + dst + payload
  }

  lemma Frame6Fields(eth: seq<u8>, front: seq<u8>, plen: u16, nextHeader: u8, hops: u8, src: Ip6, dst: Ip6,
                     payload: seq<u8>)
    requires |eth| == 14 && |front| == 4
    ensures var p := Frame6(eth, front, plen, nextHeader, hops, src, dst, payload);
            && |p| == 54 + |payload| && W(p, 18) == plen && p[20] == nextHeader && p[21] == hops
            && p[22..38] == src && p[38..54] == dst && p[54..] == payload
  {
    var h := [plen / 256, plen % 256, nextHeader, hops];
    var p := Frame6(eth, front, plen, nextHeader, hops, src, dst, payload);
    assert p[18] == h[0] && p[19] == h[1] && p[20] == h[2] && p[21] == h[3];
  }

  /** The IPv4 protocol of a payload that starts with a supported transport header. */
  function Supported(nextHeader: u8, payload: seq<u8>): Option<u8> {
    if nextHeader == 6 && |payload| >= 20 then Some(6)
    else if nextHeader == 17 && |payload| >= 8 then Some(17)
    else if nextHeader == 58 && |payload| >= 8 && payload[0] == 128 then Some(1)
    else None
  }

  /**
   * A frame is taken exactly when its destination is under 64:ff9b::/96, its payload length is covered, and
   * it starts with a TCP or UDP header or is an echo request. The flow then runs from the guest's IPv4 address
   * to the embedded one, between the ports of the header (or the identifier).
   */
  lemma TakenIff(eth: seq<u8>, front: seq<u8>, plen: u16, nextHeader: u8, hops: u8, src: Ip6, dst: Ip6,
                 payload: seq<u8>, vni: u32, guest: Ip4)
    requires |eth| == 14 && |front| == 4
    ensures var f := FlowOf(Frame6(eth, front, plen, nextHeader, hops, src, dst, payload), vni, guest);
            && (f.Some? <==> && dst[..12] == [0x00, 0x64, 0xff, 0x9b, 0, 0, 0, 0, 0, 0, 0, 0]
                             && plen <= |payload| && Supported(nextHeader, payload).Some?)
            && (f.Some? ==>
                  && f.value.key.vni == vni && f.value.key.src == guest
                  && f.value.key.dst == Ip4(dst[12], dst[13], dst[14], dst[15])
                  && f.value.key.proto == Supported(nextHeader, payload).value
                  && f.value.plen == plen && f.value.hops == hops && f.value.src6 == src && f.value.dst6 == dst
                  && (if nextHeader == 58 then f.value.key.sport == f.value.key.dport == W(payload, 4)
                      else f.value.key.sport == W(payload, 0) && f.value.key.dport == W(payload, 2)))
  {
    Frame6Fields(eth, front, plen, nextHeader, hops, src, dst, payload);
    var p := Frame6(eth, front, plen, nextHeader, hops, src, dst, payload);
    hide Frame6;
    assert forall i | 0 <= i < |payload| :: p[54 + i] == p[54..][i];
    assert forall i | 0 <= i < 16 :: p[38 + i] == p[38..54][i];
    if |payload| >= 8 {
      assert W(p, 54) == W(payload, 0) && W(p, 56) == W(payload, 2) && W(p, 58) == W(payload, 4);
      assert Addr(p, 50) == Ip4(dst[12], dst[13], dst[14], dst[15]);
    }
  }

  // ---------------------------------------------------------------- verdicts

  /** The guest has NAT with a range that is not empty. */
  predicate HasNat(s: State, env: Env) {
    var nk := NatKey(env.vni, env.guest);
    nk in s.nats && Range(s.nats[nk]) != 0
  }

  /**
   * The verdict of both egress programs. A frame is sent out exactly when it is taken, the guest has NAT, its
   * IPv4 destination has a route and this host a record; it fails exactly when only the record is missing.
   */
  lemma EgressVerdictIff(s: State, p: seq<u8>, env: Env)
    ensures var v, f := EgressVerdict(s, p, env), FlowOf(p, env.vni, env.guest);
            && (v.Redirect? <==> f.Some? && HasNat(s, env) && f.value.key.dst in env.routes && env.local.Some?)
            && (v.Fail? <==> f.Some? && HasNat(s, env) && f.value.key.dst in env.routes && env.local.None?)
            && (v.Redirect? ==> v.ifindex == env.local.value.uplinkIfindex)
  {
    if FlowOf(p, env.vni, env.guest).Some? { FlowFacts(p, env.vni, env.guest); }
    hide FlowOf, Alloc;
  }

  // ---------------------------------------------------------------- the frame sent out

  /** The outer header, byte by byte. */
  lemma OuterBytes(e: EncapParams, t: seq<u8>)
    ensures var q := OuterHeader(e) + t;
            && |q| >= 54 && q[..6] == e.gatewayMac && q[6..12] == e.uplinkMac && q[12] == 0x86 && q[13] == 0xdd
            && q[14] == 0x60 && q[15] == 0 && q[16] == 0 && q[17] == 0 && W(q, 18) == e.innerLen
            && q[20] == e.innerProto && q[21] == 64
            && q[22..38] == e.srcUnderlay && q[38..54] == e.nexthop && q[54..] == t
  {
    var h := [0x60, 0, 0, 0, e.innerLen / 256, e.innerLen % 256, e.innerProto, 64];
    var q := OuterHeader(e) + t;
    assert forall i | 0 <= i < 8 :: q[14 + i] == h[i];
    assert q[18] == h[4] && q[19] == h[5];
  }

  /**
   * What the uplink sees of a NAT64 frame: from this host's uplink to its gateway, an IPv6 packet (section 3 of
   * RFC 8200) with an IPv4 packet inside and hop limit 64, from the guest's underlay address to the next hop
   * of the route to the address embedded in the guest's destination.
   */
  lemma OuterOnTheWire(s: State, p: seq<u8>, env: Env, innerLen: u16)
    requires EgressVerdict(s, p, env).Redirect?
    ensures |p| >= 62 && Ip4(p[50], p[51], p[52], p[53]) in env.routes && env.local.Some?
    ensures var q := RedirectFrame(s, p, env, innerLen);
            && |q| == |p| + 20 && q[..6] == env.local.value.gatewayMac && q[6..12] == env.local.value.uplinkMac
            && q[12] == 0x86 && q[13] == 0xdd
            && q[14] == 0x60 && q[15] == 0 && q[16] == 0 && q[17] == 0 && W(q, 18) == innerLen
            && q[20] == 4 && q[21] == 64
            && q[22..38] == env.underlay && q[38..54] == env.routes[Ip4(p[50], p[51], p[52], p[53])]
  {
    FlowFacts(p, env.vni, env.guest);
    TakenDst(p, env.vni, env.guest);
    var fl := FlowOf(p, env.vni, env.guest).value;
    hide FlowOf, OuterHeader, InnerPacket, Snat;
    Decided(s, p, env, fl, Snat(s, fl.key, true, env.now).1, innerLen);
    var t := InnerPacket(p, fl, s.nats[NatKey(env.vni, env.guest)].natIp, Decide(s, p, env).1.value);
    InnerLength(p, fl, s.nats[NatKey(env.vni, env.guest)].natIp, Decide(s, p, env).1.value);
    OuterBytes(Outer(fl.key.dst, env, innerLen), t);
  }

  lemma TakenDst(p: seq<u8>, vni: u32, guest: Ip4)
    requires FlowOf(p, vni, guest).Some?
    ensures |p| >= 62 && FlowOf(p, vni, guest).value.key.dst == Ip4(p[50], p[51], p[52], p[53])
  {
  }

  /** The IPv4 header inside (section 3.1 of RFC 791): no options, no fragment, the guest's hop limit. */
  lemma InnerOnTheWire(s: State, p: seq<u8>, env: Env, fl: Flow, innerLen: u16)
    requires SentOut(s, p, env, fl)
    ensures |p| >= 62 && 54 + W(p, 18) <= |p| && NatKey(env.vni, env.guest) in s.nats
    ensures var q := RedirectFrame(s, p, env, innerLen);
            && |q| == |p| + 20 && q[54] == 0x45 && q[55] == 0 && W(q, 56) == (20 + W(p, 18)) % 0x1_0000
            && q[58] == 0 && q[59] == 0 && q[60] == 0 && q[61] == 0
            && q[62] == p[21] && q[63] == (if p[20] == 58 then 1 else p[20])
            && Addr(q, 66) == s.nats[NatKey(env.vni, env.guest)].natIp
            && Addr(q, 70) == Ip4(p[50], p[51], p[52], p[53])
  {
    hide *;
    RedirectParts(s, p, env, fl, innerLen);
    EgressVerifiesIff(s, p, env, fl, innerLen);
    FlowFields(p, fl);
    var natIp, port := s.nats[NatKey(env.vni, env.guest)].natIp, Decide(s, p, env).1.value;
    var q, t := RedirectFrame(s, p, env, innerLen), InnerPacket(p, fl, natIp, port);
    InnerPlain(p, fl, natIp, port);
    TailBytes(q, 54, t);
    assert q[54 + 0] == t[0] && q[54 + 1] == t[1];
    assert q[54 + 4] == t[4] && q[54 + 5] == t[5] && q[54 + 6] == t[6] && q[54 + 7] == t[7];
    ExtractMeans(p, fl);
  }

  lemma FlowFields(p: seq<u8>, fl: Flow)
    requires Flowing(p, fl)
    ensures |p| >= 62 && fl.key.proto == (if p[20] == 58 then 1 else p[20])
  {
  }

  lemma ExtractMeans(p: seq<u8>, fl: Flow)
    requires Flowing(p, fl)
    ensures |p| >= 62 && Extract(fl.dst6) == Ip4(p[50], p[51], p[52], p[53])
  {
  }

  /** The fixed bytes of the written IPv4 header. */
  lemma InnerPlain(p: seq<u8>, fl: Flow, natIp: Ip4, port: u16)
    requires FlowSize(p, fl)
    ensures var t := InnerPacket(p, fl, natIp, port);
            && |t| == |p| - 34
            && t[0] == 0x45 && t[1] == 0 && t[4] == 0 && t[5] == 0 && t[6] == 0 && t[7] == 0
  {
    var k := fl.key;
    var h := Ip4Header((20 + fl.plen) % 0x1_0000, fl.hops, k.proto, natIp, k.dst);
    HeaderZeros((20 + fl.plen) % 0x1_0000, fl.hops, k.proto, natIp, k.dst);
    FirstBytes(h, L4ToV4(p[54..], k.proto, port, Folded6(fl.src6, fl.dst6, k.proto, fl.plen),
                         Folded4(natIp, k.dst, k.proto, fl.plen)));
    hide Ip4Header, L4ToV4, Folded4, Folded6;
  }

  lemma FirstBytes(h: seq<u8>, t: seq<u8>)
    requires |h| == 20
    ensures var r := h + t;
            r[0] == h[0] && r[1] == h[1] && r[4] == h[4] && r[5] == h[5] && r[6] == h[6] && r[7] == h[7]
  {
  }

  lemma HeaderZeros(totalLen: u16, ttl: u8, proto: u8, src: Ip4, dst: Ip4)
    ensures var h := Ip4Header(totalLen, ttl, proto, src, dst);
            h[0] == 0x45 && h[1] == 0 && h[4] == 0 && h[5] == 0 && h[6] == 0 && h[7] == 0
  {
    hide TwoRounds, Sum;
  }

  // ---------------------------------------------------------------- the frame delivered

  /**
   * A reply marked for NAT64 is delivered to the tap exactly when the tap has an IPv6 address other than :: and the
   * packet inside is IPv4 without options, with at least a header's length, and holds a TCP, UDP or ICMP header.
   */
  lemma DeliveredIff(p: seq<u8>, tap: u32, guests: map<u32, Ip6>)
    ensures IngressVerdict(p, tap, guests) == Redirect(tap)
       <==> && tap in guests && (exists i | 0 <= i < 16 :: guests[tap][i] != 0)
            && |p| >= 82 && p[54] as int % 16 == 5 && p[56] as int * 256 + p[57] as int >= 20
            && (p[63] == 1 || p[63] == 17 || (p[63] == 6 && |p| >= 94))
    ensures IngressVerdict(p, tap, guests) == Redirect(tap) ==> GuestOf(guests, tap) == Some(guests[tap])
    ensures IngressVerdict(p, tap, guests) != Redirect(tap) ==> IngressVerdict(p, tap, guests) == Pass
  {
    if tap in guests {
      var zero: seq<u8> := seq(16, _ => 0);
      if forall i | 0 <= i < 16 :: guests[tap][i] == 0 {
        assert guests[tap] == zero;
      } else {
        var i :| 0 <= i < 16 && guests[tap][i] != 0;
        assert guests[tap][i] != zero[i];
      }
    }
  }

  /**
   * What the guest's tap sees: to the guest from the gateway's fixed address, an IPv6 packet without traffic
   * class or flow label, and the reply's hop limit; its addresses and length are in `IngressVerifiesIff`.
   */
  lemma DeliveredOnTheWire(p: seq<u8>, mac: Mac, guest: Ip6, origPort: u16)
    requires Expandable(p)
    ensures var g := IngressFrame(p, mac, guest, origPort);
            && |g| == |p| - 20 && g[..6] == mac && g[6..12] == [0x02, 0, 0, 0, 0, 0x01]
            && g[12] == 0x86 && g[13] == 0xdd && g[14] == 0x60 && g[15] == 0 && g[16] == 0 && g[17] == 0
            && W(g, 18) == W(p, 56) - 20 && g[20] == (if p[63] == 1 then 58 else p[63]) && g[21] == p[62]
            && g[22..34] == [0x00, 0x64, 0xff, 0x9b, 0, 0, 0, 0, 0, 0, 0, 0] && g[34..38] == p[66..70]
            && g[38..54] == guest
  {
    var proto, len, src, dst := p[63], W(p, 56) - 20, Addr(p, 66), Addr(p, 70);
    var t := L4ToV6(p[74..], proto, origPort, Embed(src), guest,
                    Folded4(src, dst, proto, len), Folded6(Embed(src), guest, proto, len));
    var nh := if proto == 1 then 58 else proto;
    hide L4ToV6, Folded4, Folded6;
    GuestBytes(mac, len, nh, p[62], Embed(src), guest, t);
    var g := IngressFrame(p, mac, guest, origPort);
    assert g == GuestHeader(mac, len, nh, p[62], Embed(src), guest) + t;
    assert Embed(src)[..12] == NAT64_PFX && Embed(src)[12..] == p[66..70];
    hide GuestHeader, IngressFrame, Embed;
    assert g[22..34] == g[22..38][..12] && g[34..38] == g[22..38][12..];
  }

  lemma GuestBytes(mac: Mac, len: u16, nextHeader: u8, hops: u8, src: Ip6, dst: Ip6, t: seq<u8>)
    ensures var g := GuestHeader(mac, len, nextHeader, hops, src, dst) + t;
            && |g| == 54 + |t| && g[..6] == mac && g[6..12] == GW_MAC && g[12] == 0x86 && g[13] == 0xdd
            && g[14] == 0x60 && g[15] == 0 && g[16] == 0 && g[17] == 0 && W(g, 18) == len
            && g[20] == nextHeader && g[21] == hops && g[22..38] == src && g[38..54] == dst
  {
    var h := [0x60, 0, 0, 0, len / 256, len % 256, nextHeader, hops];
    var g := GuestHeader(mac, len, nextHeader, hops, src, dst) + t;
    assert forall i | 0 <= i < 8 :: g[14 + i] == h[i];
    assert g[18] == h[4] && g[19] == h[5];
  }
}
