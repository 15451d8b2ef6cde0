/** NAT64: checksum translation, the two egress implementations and the ingress path. */
module Nat64 {
  import opened Types
  import opened Bytes
  import opened Checksum
  import opened Maps
  import opened Packet
  import opened RewriteProofs
  import opened NatTable
  import NatGateway

  type Mac = s: seq<u8> | |s| == 6 witness seq(6, _ => 0)

  const GW_MAC: Mac := [0x02, 0, 0, 0, 0, 0x01]
  const NAT64_PFX: seq<u8> := [0x00, 0x64, 0xff, 0x9b, 0, 0, 0, 0, 0, 0, 0, 0]

  predicate IsNat64(a: Ip6) { a[..12] == NAT64_PFX }

  function Embed(a: Ip4): Ip6 { NAT64_PFX + [a.b0, a.b1, a.b2, a.b3] }

  function Extract(a: Ip6): Ip4 { Addr(a, 12) }

  /** Embedding and extraction are inverse on the well-known prefix (section 2.1 of RFC 6052). */
  lemma EmbedExtract(a: Ip4, b: Ip6)
    ensures IsNat64(Embed(a)) && Extract(Embed(a)) == a
    ensures IsNat64(b) ==> Embed(Extract(b)) == b
  {
    if IsNat64(b) {
      assert b == b[..12] + b[12..];
    }
  }

  // ---------------------------------------------------------------- checksum translation

  /** Words of the IPv6 pseudo-header. */
  function Pseudo6(src: Ip6, dst: Ip6, proto: u8, len: nat): nat {
    Sum(src, 0, 16) + Sum(dst, 0, 16) + len + proto
  }

  function Folded4(src: Ip4, dst: Ip4, proto: u8, len: u16): u16 { TwoRounds(Pseudo4(src, dst, proto, len)) }

  function Folded6(src: Ip6, dst: Ip6, proto: u8, len: u16): u16 { TwoRounds(Pseudo6(src, dst, proto, len)) }

  /** Out with the IPv6 pseudo-header and the old port, in with the IPv4 one and the new port. */
  function V6ToV4(check: u16, f6: u16, f4: u16, oldPort: u16, newPort: u16): u16 {
    Not(TwoRounds(Not(check) + Not(f6) + f4 + Not(oldPort) + newPort))
  }

  function V4ToV6(check: u16, f4: u16, f6: u16): u16 { Not(TwoRounds(Not(check) + Not(f4) + f6)) }

  // ---------------------------------------------------------------- headers

  /** A 20-byte IPv4 header with the checksum field zero. */
  function BareHeader(totalLen: u16, ttl: u8, proto: u8, src: Ip4, dst: Ip4): (h: seq<u8>)
    ensures |h| == 20
  {
    [0x45, 0, totalLen / 256, totalLen % 256, 0, 0, 0, 0, ttl, proto, 0, 0,
     src.b0, src.b1, src.b2, src.b3, dst.b0, dst.b1, dst.b2, dst.b3]
  }

  function Ip4Header(totalLen: u16, ttl: u8, proto: u8, src: Ip4, dst: Ip4): (h: seq<u8>)
    ensures |h| == 20
  {
    var b := BareHeader(totalLen, ttl, proto, src, dst);
    Put(b, 10, Not(TwoRounds(Sum(b, 0, 20))))
  }

  datatype EncapParams = EncapParams(
    gatewayMac: Mac, uplinkMac: Mac, srcUnderlay: Ip6, nexthop: Ip6, innerLen: u16, innerProto: u8)

  /** Outer Ethernet and IPv6 headers. */
  function OuterHeader(e: EncapParams): (h: seq<u8>)
    ensures |h| == 54
  {
    e.gatewayMac + e.uplinkMac + [0x86, 0xDD]
    + [0x60, 0, 0, 0, e.innerLen / 256, e.innerLen % 256, e.innerProto, 64] + e.srcUnderlay + e.nexthop
  }

  /** Ethernet and IPv6 headers of a reply delivered to a guest. */
  function GuestHeader(mac: Mac, len: u16, nextHeader: u8, hops: u8, src: Ip6, dst: Ip6): (h: seq<u8>)
    ensures |h| == 54
  {
    mac + GW_MAC + [0x86, 0xDD] + [0x60, 0, 0, 0, len / 256, len % 256, nextHeader, hops] + src + dst
  }

  method WriteOuterV6(f: Frame, e: EncapParams) returns (ok: bool)
    modifies f`bytes
    ensures ok <==> 54 <= |old(f.bytes)|
    ensures f.bytes == if ok then OuterHeader(e) + old(f.bytes)[54..] else old(f.bytes)
  {
    if |f.bytes| < 54 { return false; }
    f.bytes := WriteAt(f.bytes, 0, OuterHeader(e));
    ok := true;
  }

  // ---------------------------------------------------------------- transport headers

  function EchoChecksum4(port: u16, seqNo: u16): u16 {
    Not(TwoRounds(Sum([8, 0, 0, 0, port / 256, port % 256, seqNo / 256, seqNo % 256], 0, 8)))
  }

  function EchoChecksum6(src: Ip6, dst: Ip6, port: u16, seqNo: u16): u16 {
    Not(TwoRounds(Sum(src, 0, 16) + Sum(dst, 0, 16) + 8 + IPPROTO_ICMPV6
                  + Sum([129, 0, 0, 0, port / 256, port % 256, seqNo / 256, seqNo % 256], 0, 8)))
  }

  /** The IPv4 form of a transport header leaving from `port`. */
  function L4ToV4(l4: seq<u8>, proto: u8, port: u16, f6: u16, f4: u16): (r: seq<u8>)
    requires |l4| >= if proto == IPPROTO_TCP then 20 else 8
    ensures |r| == |l4|
  {
    if proto == IPPROTO_ICMP then
      Put(Put(l4[0 := 8][1 := 0], 2, EchoChecksum4(port, W(l4, 6))), 4, port)
    else
      var co := if proto == IPPROTO_TCP then 16 else 6;
      Put(Put(l4, 0, port), co, V6ToV4(W(l4, co), f6, f4, W(l4, 0), port))
  }

  /** The IPv6 form of a transport header whose port is already the guest's. */
  function L4ToV6(l4: seq<u8>, proto: u8, port: u16, src: Ip6, dst: Ip6, f4: u16, f6: u16): (r: seq<u8>)
    requires |l4| >= if proto == IPPROTO_TCP then 20 else 8
    ensures |r| == |l4|
  {
    if proto == IPPROTO_ICMP then
      Put(Put(l4[0 := 129][1 := 0], 2, EchoChecksum6(src, dst, port, W(l4, 6))), 4, port)
    else
      var co := if proto == IPPROTO_TCP then 16 else 6;
      Put(l4, co, V4ToV6(W(l4, co), f4, f6))
  }

  /** Rewriting words inside the tail of a frame. */
  lemma PutInTail(x: seq<u8>, y: seq<u8>, k: nat, v: u16)
    requires k + 2 <= |y|
    ensures Put(x + y, |x| + k, v) == x + Put(y, k, v)
    ensures W(x + y, |x| + k) == W(y, k)
  {
  }

  // ---------------------------------------------------------------- egress

  datatype Local = Local(gatewayMac: Mac, uplinkMac: Mac, uplinkIfindex: u32)

  /** What egress looks up besides the NAT maps: routes by destination, this host, the guest's port record. */
  datatype Env = Env(
    vni: u32, guest: Ip4, underlay: Ip6, routes: map<Ip4, Ip6>, local: Option<Local>, now: u64)

  datatype Verdict = Pass | Fail | Redirect(ifindex: u32)

  /** The frame fields egress works from. */
  datatype Flow = Flow(key: CtKey, plen: u16, hops: u8, src6: Ip6, dst6: Ip6)

  /** IPv4 protocol number of a translatable frame, if its transport header is all there. */
  function ProtoOf(p: seq<u8>): Option<u8>
    requires |p| >= 62
  {
    if p[20] == IPPROTO_ICMPV6 then (if p[54] == 128 then Some(IPPROTO_ICMP) else None)
    else if p[20] == IPPROTO_TCP then (if |p| >= 74 then Some(IPPROTO_TCP) else None)
    else if p[20] == IPPROTO_UDP then Some(IPPROTO_UDP)
    else None
  }

  /** A frame egress will translate: prefix match, claimed payload present, supported transport. */
  function FlowOf(p: seq<u8>, vni: u32, guest: Ip4): Option<Flow> {
    if |p| < 62 || !IsNat64(p[38..54]) || 54 + W(p, 18) > |p| || ProtoOf(p).None? then None
    else
      var proto := ProtoOf(p).value;
      var (sp, dp) := if proto == IPPROTO_ICMP then (W(p, 58), W(p, 58)) else (W(p, 54), W(p, 56));
      Some(Flow(CtKey(vni, guest, Addr(p, 50), sp, dp, proto), W(p, 18), p[21], p[22..38], p[38..54]))
  }

  /** The frame holds the flow's transport header and claimed payload. */
  predicate FlowSize(p: seq<u8>, fl: Flow) {
    |p| >= (if fl.key.proto == IPPROTO_TCP then 74 else 62) && 54 + fl.plen <= |p|
  }

  lemma FlowFacts(p: seq<u8>, vni: u32, guest: Ip4)
    requires FlowOf(p, vni, guest).Some?
    ensures |p| >= 62
    ensures var fl := FlowOf(p, vni, guest).value;
            && fl.key.vni == vni && fl.key.src == guest && fl.plen == W(p, 18) && FlowSize(p, fl)
  {
  }

  /** Maps and NAT port after the decision; `None` leaves the frame to the other paths. */
  function Decide(s: State, p: seq<u8>, env: Env): (State, Option<u16>) {
    match FlowOf(p, env.vni, env.guest)
    case None => (s, None)
    case Some(fl) => Snat(s, fl.key, true, env.now)
  }

  function EgressVerdict(s: State, p: seq<u8>, env: Env): Verdict {
    match (FlowOf(p, env.vni, env.guest), Decide(s, p, env).1)
    case (Some(fl), Some(_)) =>
      if fl.key.dst !in env.routes then Pass
      else if env.local.None? then Fail
      else Redirect(env.local.value.uplinkIfindex)
    case _ => Pass
  }

  /** The translated IPv4 packet of a flow leaving from `natIp:port`. */
  function InnerPacket(p: seq<u8>, fl: Flow, natIp: Ip4, port: u16): seq<u8>
    requires FlowSize(p, fl)
  {
    var k := fl.key;
    Ip4Header((20 + fl.plen) % 0x1_0000, fl.hops, k.proto, natIp, k.dst)
    + L4ToV4(p[54..], k.proto, port,
             Folded6(fl.src6, fl.dst6, k.proto, fl.plen), Folded4(natIp, k.dst, k.proto, fl.plen))
  }

  /** The encapsulated frame, with a given outer payload length. */
  function EgressFrame(p: seq<u8>, fl: Flow, natIp: Ip4, port: u16, env: Env, innerLen: u16): seq<u8>
    requires FlowSize(p, fl)
    requires fl.key.dst in env.routes && env.local.Some?
  {
    OuterHeader(Outer(fl.key.dst, env, innerLen)) + InnerPacket(p, fl, natIp, port)
  }

  function Outer(dst: Ip4, env: Env, innerLen: u16): EncapParams
    requires dst in env.routes && env.local.Some?
  {
    var l := env.local.value;
    EncapParams(l.gatewayMac, l.uplinkMac, env.underlay, env.routes[dst], innerLen, IPPROTO_IPIP)
  }

  /** The translated IPv4 packet in state `s`, route or not. */
  function TranslatedPacket(s: State, p: seq<u8>, env: Env): seq<u8>
    requires FlowOf(p, env.vni, env.guest).Some? && Decide(s, p, env).1.Some?
  {
    FlowFacts(p, env.vni, env.guest);
    var fl := FlowOf(p, env.vni, env.guest).value;
    SnatNeedsNat(s, fl.key, true, env.now);
    InnerPacket(p, fl, s.nats[NatKey(env.vni, env.guest)].natIp, Decide(s, p, env).1.value)
  }

  /** The frame sent out in state `s` when the verdict is to redirect. */
  function RedirectFrame(s: State, p: seq<u8>, env: Env, innerLen: u16): seq<u8>
    requires EgressVerdict(s, p, env).Redirect?
  {
    FlowFacts(p, env.vni, env.guest);
    var fl := FlowOf(p, env.vni, env.guest).value;
    SnatNeedsNat(s, fl.key, true, env.now);
    EgressFrame(p, fl, s.nats[NatKey(env.vni, env.guest)].natIp, Decide(s, p, env).1.value, env, innerLen)
  }

  lemma SnatNeedsNat(s: State, k: CtKey, n64: bool, now: u64)
    ensures Snat(s, k, n64, now).1.Some? ==> NatKey(k.vni, k.src) in s.nats
  {
    hide Alloc;
  }

  lemma Undecided(s: State, p: seq<u8>, env: Env)
    ensures FlowOf(p, env.vni, env.guest).None? ==>
              Decide(s, p, env) == (s, None) && EgressVerdict(s, p, env) == Pass
  {
    hide FlowOf, Snat;
  }

  /** How verdict, maps and frame follow from the flow and the NAT decision. */
  lemma Decided(s: State, p: seq<u8>, env: Env, fl: Flow, port: Option<u16>, innerLen: u16)
    requires FlowOf(p, env.vni, env.guest) == Some(fl) && port == Snat(s, fl.key, true, env.now).1
    ensures Decide(s, p, env) == Snat(s, fl.key, true, env.now)
    ensures port.None? || fl.key.dst !in env.routes ==> EgressVerdict(s, p, env) == Pass
    ensures port.Some? ==> NatKey(env.vni, env.guest) in s.nats && FlowSize(p, fl)
    ensures port.Some? ==>
              TranslatedPacket(s, p, env) == InnerPacket(p, fl, s.nats[NatKey(env.vni, env.guest)].natIp, port.value)
    ensures port.Some? && fl.key.dst in env.routes && env.local.None? ==> EgressVerdict(s, p, env) == Fail
    ensures port.Some? && fl.key.dst in env.routes && env.local.Some? ==>
              && EgressVerdict(s, p, env) == Redirect(env.local.value.uplinkIfindex)
              && RedirectFrame(s, p, env, innerLen)
                 == EgressFrame(p, fl, s.nats[NatKey(env.vni, env.guest)].natIp, port.value, env, innerLen)
  {
    FlowFacts(p, env.vni, env.guest);
    SnatNeedsNat(s, fl.key, true, env.now);
    hide FlowOf, Snat, EgressFrame, InnerPacket;
  }

  /** The transport rewrite both implementations perform at their own offset. */
  method RewriteL4V4(f: Frame, off: nat, proto: u8, sport: u16, port: u16, check: u16, f6: u16, f4: u16)
    requires off + (if proto == IPPROTO_TCP then 20 else 8) <= |f.bytes|
    requires proto != IPPROTO_ICMP ==>
               sport == W(f.bytes, off) && check == W(f.bytes, off + if proto == IPPROTO_TCP then 16 else 6)
    modifies f`bytes
    ensures f.bytes == old(f.bytes)[..off] + L4ToV4(old(f.bytes)[off..], proto, port, f6, f4)
  {
    ghost var x, y := f.bytes[..off], f.bytes[off..];
    assert f.bytes == x + y;
    if proto == IPPROTO_ICMP {
      var seqNo := W(f.bytes, off + 6);
      f.bytes := f.bytes[off := 8][off + 1 := 0];
      assert f.bytes == x + y[0 := 8][1 := 0];
      hide Put, EchoChecksum4;
      PutInTail(x, y, 6, 0);
      PutInTail(x, y[0 := 8][1 := 0], 2, EchoChecksum4(port, seqNo));
      f.bytes := Put(f.bytes, off + 2, EchoChecksum4(port, seqNo));
      PutInTail(x, Put(y[0 := 8][1 := 0], 2, EchoChecksum4(port, seqNo)), 4, port);
      f.bytes := Put(f.bytes, off + 4, port);
    } else {
      hide Put, V6ToV4;
      var co := if proto == IPPROTO_TCP then 16 else 6;
      var newCk := V6ToV4(check, f6, f4, sport, port);
      PutInTail(x, y, 0, port);
      PutInTail(x, y, co, 0);
      f.bytes := Put(f.bytes, off, port);
      PutInTail(x, Put(y, 0, port), co, newCk);
      f.bytes := Put(f.bytes, off + co, newCk);
    }
  }

  /** A frame whose tail is the transport header of `p`. */
  predicate TailOf(q: seq<u8>, off: nat, p: seq<u8>) { |p| >= 54 && off <= |q| && q[off..] == p[54..] }

  lemma TailWord(q: seq<u8>, i: nat, p: seq<u8>, j: nat, k: nat)
    requires i <= |q| && j <= |p| && q[i..] == p[j..] && j + k + 2 <= |p|
    ensures i + k + 2 <= |q| && W(q, i + k) == W(p, j + k)
  {
    assert |q| - i == |p| - j;
    assert q[i..][k] == p[j..][k] && q[i..][k + 1] == p[j..][k + 1];
  }

  /** The transport header keeps its words when it moves with the tail of the frame. */
  lemma WordInTail(q: seq<u8>, off: nat, p: seq<u8>, k: nat)
    requires TailOf(q, off, p) && 54 + k + 2 <= |p|
    ensures |q| - off == |p| - 54 && W(q, off + k) == W(p, 54 + k)
  {
    TailWord(q, off, p, 54, k);
  }

  /** Write the IPv4 header and translate the transport header behind it. */
  method WriteInner(f: Frame, off: nat, p: seq<u8>, fl: Flow, natIp: Ip4, port: u16)
    requires FlowOf(p, fl.key.vni, fl.key.src) == Some(fl) && off + 20 <= |f.bytes| && TailOf(f.bytes, off + 20, p)
    modifies f`bytes
    ensures f.bytes == old(f.bytes)[..off] + InnerPacket(p, fl, natIp, port)
    ensures f.bytes[off..] == InnerPacket(p, fl, natIp, port)
  {
    hide L4ToV4, Ip4Header, Folded4, Folded6;
    ghost var before := f.bytes;
    var proto := fl.key.proto;
    var f6, f4 := Folded6(fl.src6, fl.dst6, proto, fl.plen), Folded4(natIp, fl.key.dst, proto, fl.plen);
    var check := if proto == IPPROTO_TCP then W(p, 70) else if proto == IPPROTO_UDP then W(p, 60) else W(p, 56);
    f.bytes := WriteAt(f.bytes, off, Ip4Header((20 + fl.plen) % 0x1_0000, fl.hops, proto, natIp, fl.key.dst));
    assert TailOf(f.bytes, off + 20, p);
    hide WriteAt;
    WordInTail(f.bytes, off + 20, p, 0);
    WordInTail(f.bytes, off + 20, p, 6);
    if proto == IPPROTO_TCP { WordInTail(f.bytes, off + 20, p, 16); }
    ghost var written := f.bytes;
    RewriteL4V4(f, off + 20, proto, fl.key.sport, port, check, f6, f4);
    ghost var h := Ip4Header((20 + fl.plen) % 0x1_0000, fl.hops, proto, natIp, fl.key.dst);
    assert written[..off + 20] == before[..off] + h by {
      assert written[..off + 20] == written[..off] + written[off..off + 20];
    }
  }

  /** The NAT decision of both programs, with the public address it is for. */
  method NatPort(gw: NatGateway.Gateway, key: CtKey, now: u64) returns (port: Option<u16>, natIp: Ip4)
    modifies gw`conntrack
    ensures (gw.St(), port) == Snat(old(gw.St()), key, true, now)
    ensures port.Some? ==>
              && NatKey(key.vni, key.src) in old(gw.St()).nats
              && natIp == old(gw.St()).nats[NatKey(key.vni, key.src)].natIp
  {
    hide Alloc;
    natIp := ANY_IP4;
    if NatKey(key.vni, key.src) !in gw.nats { return None, natIp; }
    var nv := gw.nats[NatKey(key.vni, key.src)];
    natIp := nv.natIp;
    if Range(nv) == 0 { return None, natIp; }
    if key in gw.conntrack && Has(gw.conntrack[key].flags, CT_F_SRC_NAT) {
      port := Some(gw.conntrack[key].xlatePort);
    } else {
      var p := gw.AllocPort(key, nv, true, now);
      port := Some(p);
    }
  }

  /** Drop 20 bytes at the head and restore the Ethernet header in front of what is left. */
  method ShrinkHead(f: Frame)
    requires |f.bytes| >= 62
    modifies f`bytes
    ensures |f.bytes| == |old(f.bytes)| - 20 && TailOf(f.bytes, 34, old(f.bytes))
    ensures f.bytes[..14] == old(f.bytes)[..12] + [0x08, 0x00]
  {
    var eth := f.bytes[..12];
    f.bytes := f.bytes[20..];
    f.bytes := WriteAt(f.bytes, 0, eth + [0x08, 0x00]);
    assert f.bytes[34..] == f.bytes[14..][20..];
  }

  /** Make room at the head; what was 14 bytes in is now 54 bytes in. */
  method GrowHead(f: Frame, room: seq<u8>)
    requires |room| == 40 && |f.bytes| >= 14
    modifies f`bytes
    ensures |f.bytes| == |old(f.bytes)| + 40 && f.bytes[54..] == old(f.bytes)[14..]
  {
    f.bytes := room + f.bytes;
  }

  /** Insert 20 bytes behind the Ethernet header. */
  method GrowBehindEthernet(f: Frame, room: seq<u8>)
    requires |room| == 20 && |f.bytes| >= 54
    modifies f`bytes
    ensures |f.bytes| == |old(f.bytes)| + 20 && TailOf(f.bytes, 74, old(f.bytes))
    ensures f.bytes[..54] == old(f.bytes)[..14] + room + old(f.bytes)[14..34]
  {
    ghost var p := f.bytes;
    f.bytes := f.bytes[..14] + room + f.bytes[14..];
    assert f.bytes[74..] == p[14..][40..];
  }

  /** XDP, before the route is known: drop 20 bytes at the head and translate in place. */
  method TranslateXdp(f: Frame, fl: Flow, natIp: Ip4, port: u16)
    requires FlowOf(f.bytes, fl.key.vni, fl.key.src) == Some(fl)
    modifies f`bytes
    ensures FlowSize(old(f.bytes), fl) && |f.bytes| == |old(f.bytes)| - 20
    ensures f.bytes[14..] == InnerPacket(old(f.bytes), fl, natIp, port)
    ensures f.bytes[..14] == old(f.bytes)[..12] + [0x08, 0x00]
  {
    var p := f.bytes;
    FlowFacts(p, fl.key.vni, fl.key.src);
    hide FlowOf, InnerPacket, TailOf;
    InnerLength(p, fl, natIp, port);
    ShrinkHead(f);
    WriteInner(f, 14, p, fl, natIp, port);
  }

  /** tc, before the route is known: insert 20 bytes behind the MAC header and translate behind them. */
  method TranslateTc(f: Frame, fl: Flow, natIp: Ip4, port: u16, room: seq<u8>)
    requires FlowOf(f.bytes, fl.key.vni, fl.key.src) == Some(fl) && |room| == 20
    modifies f`bytes
    ensures FlowSize(old(f.bytes), fl) && |f.bytes| == |old(f.bytes)| + 20
    ensures f.bytes[54..] == InnerPacket(old(f.bytes), fl, natIp, port)
    ensures f.bytes[..54] == old(f.bytes)[..14] + room + old(f.bytes)[14..34]
  {
    var p := f.bytes;
    FlowFacts(p, fl.key.vni, fl.key.src);
    hide FlowOf, InnerPacket, TailOf;
    InnerLength(p, fl, natIp, port);
    GrowBehindEthernet(f, room);
    WriteInner(f, 54, p, fl, natIp, port);
  }

  /** XDP encapsulation: grow the head by 40 and write the outer headers over the old Ethernet header. */
  method EncapAndRedirect(f: Frame, e: EncapParams, room: seq<u8>)
    requires |room| == 40 && |f.bytes| >= 14
    modifies f`bytes
    ensures f.bytes == OuterHeader(e) + old(f.bytes)[14..]
  {
    hide OuterHeader;
    GrowHead(f, room);
    var ok := WriteOuterV6(f, e);
  }

  /** The XDP program. */
  method EgressXdp(gw: NatGateway.Gateway, f: Frame, env: Env, room: seq<u8>) returns (v: Verdict)
    requires |room| == 40
    modifies gw`conntrack, f`bytes
    ensures (gw.St(), v) == (Decide(old(gw.St()), old(f.bytes), env).0, EgressVerdict(old(gw.St()), old(f.bytes), env))
    ensures v.Redirect? ==>
              |old(f.bytes)| >= 62 &&
              f.bytes == RedirectFrame(old(gw.St()), old(f.bytes), env, (|old(f.bytes)| - 34) % 0x1_0000)
    ensures FlowOf(old(f.bytes), env.vni, env.guest).None? || Decide(old(gw.St()), old(f.bytes), env).1.None? ==>
              f.bytes == old(f.bytes)
    ensures FlowOf(old(f.bytes), env.vni, env.guest).Some? && Decide(old(gw.St()), old(f.bytes), env).1.Some?
            && !v.Redirect? ==>
              && |old(f.bytes)| >= 62 && |f.bytes| == |old(f.bytes)| - 20
              && f.bytes[..14] == old(f.bytes)[..12] + [0x08, 0x00]
              && f.bytes[14..] == TranslatedPacket(old(gw.St()), old(f.bytes), env)
  {
    hide *;
    ghost var s, p := gw.St(), f.bytes;
    var flow := FlowOf(f.bytes, env.vni, env.guest);
    Undecided(s, p, env);
    if flow.None? { return Pass; }
    var fl := flow.value;
    FlowFacts(p, env.vni, env.guest);
    var port, natIp := NatPort(gw, fl.key, env.now);
    Decided(s, p, env, fl, port, (|p| - 34) % 0x1_0000);
    if port.None? { return Pass; }
    TranslateXdp(f, fl, natIp, port.value);
    if fl.key.dst !in env.routes { return Pass; }
    var innerLen := (|f.bytes| - 14) % 0x1_0000;
    if env.local.None? { return Fail; }
    FrameParts(p, fl, natIp, port.value, env, innerLen);
    EncapAndRedirect(f, Outer(fl.key.dst, env, innerLen), room);
    v := Redirect(env.local.value.uplinkIfindex);
  }

  /** The tc program. */
  method EgressTc(gw: NatGateway.Gateway, f: Frame, env: Env, room: seq<u8>) returns (v: Verdict)
    requires |room| == 20
    modifies gw`conntrack, f`bytes
    ensures (gw.St(), v) == (Decide(old(gw.St()), old(f.bytes), env).0, EgressVerdict(old(gw.St()), old(f.bytes), env))
    ensures v.Redirect? ==>
              |old(f.bytes)| >= 62 &&
              f.bytes == RedirectFrame(old(gw.St()), old(f.bytes), env, (20 + W(old(f.bytes), 18)) % 0x1_0000)
    ensures FlowOf(old(f.bytes), env.vni, env.guest).None? || Decide(old(gw.St()), old(f.bytes), env).1.None? ==>
              f.bytes == old(f.bytes)
    ensures FlowOf(old(f.bytes), env.vni, env.guest).Some? && Decide(old(gw.St()), old(f.bytes), env).1.Some?
            && !v.Redirect? ==>
              && |old(f.bytes)| >= 62 && |f.bytes| == |old(f.bytes)| + 20
              && f.bytes[..54] == old(f.bytes)[..14] + room + old(f.bytes)[14..34]
              && f.bytes[54..] == TranslatedPacket(old(gw.St()), old(f.bytes), env)
  {
    hide *;
    ghost var s, p := gw.St(), f.bytes;
    var flow := FlowOf(f.bytes, env.vni, env.guest);
    Undecided(s, p, env);
    if flow.None? { return Pass; }
    var fl := flow.value;
    FlowFacts(p, env.vni, env.guest);
    var port, natIp := NatPort(gw, fl.key, env.now);
    Decided(s, p, env, fl, port, (20 + fl.plen) % 0x1_0000);
    if port.None? { return Pass; }
    TranslateTc(f, fl, natIp, port.value, room);
    if fl.key.dst !in env.routes { return Pass; }
    if env.local.None? { return Fail; }
    var innerLen := (20 + fl.plen) % 0x1_0000;
    FrameParts(p, fl, natIp, port.value, env, innerLen);
    var ok := WriteOuterV6(f, Outer(fl.key.dst, env, innerLen));
    v := Redirect(env.local.value.uplinkIfindex);
  }

  lemma FrameParts(p: seq<u8>, fl: Flow, natIp: Ip4, port: u16, env: Env, innerLen: u16)
    requires FlowSize(p, fl) && fl.key.dst in env.routes && env.local.Some?
    ensures EgressFrame(p, fl, natIp, port, env, innerLen)
         == OuterHeader(Outer(fl.key.dst, env, innerLen)) + InnerPacket(p, fl, natIp, port)
  {
  }

  lemma InnerLength(p: seq<u8>, fl: Flow, natIp: Ip4, port: u16)
    requires FlowSize(p, fl)
    ensures |InnerPacket(p, fl, natIp, port)| == |p| - 34
  {
  }

  /**
   * The two implementations make the same map updates and verdicts by construction of their contracts,
   * and the same frame exactly when the frame is as long as its IPv6 header claims (modulo 2^16).
   */
  lemma XdpAndTcAgreeIff(s: State, p: seq<u8>, env: Env)
    requires EgressVerdict(s, p, env).Redirect?
    ensures |p| >= 54
    ensures var xdp := RedirectFrame(s, p, env, (|p| - 34) % 0x1_0000);
            var tc := RedirectFrame(s, p, env, (20 + W(p, 18)) % 0x1_0000);
            xdp == tc <==> (|p| - (54 + W(p, 18))) % 0x1_0000 == 0
  {
    hide *;
    RedirectLength(s, p, env, (|p| - 34) % 0x1_0000);
    RedirectLength(s, p, env, (20 + W(p, 18)) % 0x1_0000);
    SameResidue(|p| - 34, 20 + W(p, 18));
  }

  lemma RedirectLength(s: State, p: seq<u8>, env: Env, innerLen: u16)
    requires EgressVerdict(s, p, env).Redirect?
    ensures |p| >= 62
    ensures var q := RedirectFrame(s, p, env, innerLen); |q| >= 54 && W(q, 18) == innerLen
  {
    var fl := FlowOf(p, env.vni, env.guest).value;
    FlowFacts(p, env.vni, env.guest);
    Decided(s, p, env, fl, Snat(s, fl.key, true, env.now).1, innerLen);
    FrameLength(p, fl, s.nats[NatKey(env.vni, env.guest)].natIp, Decide(s, p, env).1.value, env, innerLen);
    hide FlowOf, Snat, EgressFrame, RedirectFrame;
  }

  lemma SameResidue(x: int, y: int)
    ensures x % 0x1_0000 == y % 0x1_0000 <==> (x - y) % 0x1_0000 == 0
  {
  }

  lemma FrameLength(p: seq<u8>, fl: Flow, natIp: Ip4, port: u16, env: Env, innerLen: u16)
    requires FlowSize(p, fl)
    requires fl.key.dst in env.routes && env.local.Some?
    ensures var q := EgressFrame(p, fl, natIp, port, env, innerLen); |q| >= 54 && W(q, 18) == innerLen
  {
    var e := Outer(fl.key.dst, env, innerLen);
    OuterLength(e);
    hide InnerPacket, OuterHeader;
    var h := OuterHeader(e);
    assert EgressFrame(p, fl, natIp, port, env, innerLen)[18] == h[18];
    assert EgressFrame(p, fl, natIp, port, env, innerLen)[19] == h[19];
  }

  lemma OuterLength(e: EncapParams)
    ensures W(OuterHeader(e), 18) == e.innerLen
  {
  }

  // ---------------------------------------------------------------- ingress

  /** A frame ingress will expand: option-free inner IPv4 packet with a supported, complete transport header. */
  predicate Expandable(p: seq<u8>) {
    && |p| >= 82 && p[54] as int % 16 == 5 && W(p, 56) >= 20
    && (p[63] == IPPROTO_ICMP || p[63] == IPPROTO_UDP || (p[63] == IPPROTO_TCP && |p| >= 94))
  }

  /** Who the reply is for: the tap's guest, if it has an IPv6 address. */
  function GuestOf(guests: map<u32, Ip6>, tap: u32): Option<Ip6> {
    if tap in guests && guests[tap] != seq(16, _ => 0) then Some(guests[tap]) else None
  }

  function IngressVerdict(p: seq<u8>, tap: u32, guests: map<u32, Ip6>): Verdict {
    if Expandable(p) && GuestOf(guests, tap).Some? then Redirect(tap) else Pass
  }

  /** The IPv6 frame made of an encapsulated IPv4 reply. */
  function IngressFrame(p: seq<u8>, mac: Mac, guest: Ip6, origPort: u16): seq<u8>
    requires Expandable(p)
  {
    var proto, len, src, dst := p[63], W(p, 56) - 20, Addr(p, 66), Addr(p, 70);
    GuestHeader(mac, len, if proto == IPPROTO_ICMP then IPPROTO_ICMPV6 else proto, p[62], Embed(src), guest)
    + L4ToV6(p[74..], proto, origPort, Embed(src), guest,
             Folded4(src, dst, proto, len), Folded6(Embed(src), guest, proto, len))
  }

  /** The transport rewrite of the ingress path. */
  method RewriteL4V6(f: Frame, proto: u8, port: u16, check: u16, src: Ip6, dst: Ip6, f4: u16, f6: u16)
    requires 54 + (if proto == IPPROTO_TCP then 20 else 8) <= |f.bytes|
    requires proto != IPPROTO_ICMP ==> check == W(f.bytes, 54 + if proto == IPPROTO_TCP then 16 else 6)
    modifies f`bytes
    ensures f.bytes == old(f.bytes)[..54] + L4ToV6(old(f.bytes)[54..], proto, port, src, dst, f4, f6)
  {
    ghost var x, y := f.bytes[..54], f.bytes[54..];
    assert f.bytes == x + y;
    if proto == IPPROTO_ICMP {
      var seqNo := W(f.bytes, 60);
      f.bytes := f.bytes[54 := 129][55 := 0];
      assert f.bytes == x + y[0 := 129][1 := 0];
      hide Put, EchoChecksum6;
      var chk := EchoChecksum6(src, dst, port, seqNo);
      PutInTail(x, y, 6, 0);
      PutInTail(x, y[0 := 129][1 := 0], 2, chk);
      f.bytes := Put(f.bytes, 56, chk);
      PutInTail(x, Put(y[0 := 129][1 := 0], 2, chk), 4, port);
      f.bytes := Put(f.bytes, 58, port);
    } else {
      hide Put, V4ToV6;
      var co := if proto == IPPROTO_TCP then 16 else 6;
      PutInTail(x, y, co, V4ToV6(check, f4, f6));
      f.bytes := Put(f.bytes, 54 + co, V4ToV6(check, f4, f6));
    }
  }

  /** Drop 20 bytes at the head and write new headers over the 54 bytes in front of the transport part. */
  method ReplaceHead(f: Frame, h: seq<u8>)
    requires |h| == 54 && |f.bytes| >= 74
    modifies f`bytes
    ensures |f.bytes| == |old(f.bytes)| - 20 && f.bytes[..54] == h && f.bytes[54..] == old(f.bytes)[74..]
  {
    f.bytes := f.bytes[20..];
    f.bytes := WriteAt(f.bytes, 0, h);
  }

  /** NAT64 ingress, after the reply entry was applied to the inner packet. */
  method Ingress(f: Frame, tap: u32, mac: Mac, origPort: u16, guests: map<u32, Ip6>) returns (v: Verdict)
    modifies f`bytes
    ensures v == IngressVerdict(old(f.bytes), tap, guests)
    ensures f.bytes == if v.Redirect? then IngressFrame(old(f.bytes), mac, GuestOf(guests, tap).value, origPort)
                       else old(f.bytes)
  {
    hide L4ToV6, GuestHeader, Folded4, Folded6, Embed;
    if |f.bytes| < 82 || f.bytes[54] as int % 16 != 5 { return Pass; }
    var proto, hops := f.bytes[63], f.bytes[62];
    if proto != IPPROTO_ICMP && proto != IPPROTO_TCP && proto != IPPROTO_UDP { return Pass; }
    var src4, dst4, totalLen := Addr(f.bytes, 66), Addr(f.bytes, 70), W(f.bytes, 56);
    if totalLen < 20 { return Pass; }
    var len := totalLen - 20;
    if proto == IPPROTO_TCP && |f.bytes| < 94 { return Pass; }
    var check := W(f.bytes, if proto == IPPROTO_TCP then 90 else if proto == IPPROTO_UDP then 80 else 76);
    if GuestOf(guests, tap).None? { return Pass; }
    var src6, guest := Embed(src4), guests[tap];
    ghost var p := f.bytes;
    var nextHeader := if proto == IPPROTO_ICMP then IPPROTO_ICMPV6 else proto;
    ReplaceHead(f, GuestHeader(mac, len, nextHeader, hops, src6, guest));
    TailWord(f.bytes, 54, p, 74, if proto == IPPROTO_TCP then 16 else 6);
    RewriteL4V6(f, proto, origPort, check, src6, guest,
                Folded4(src4, dst4, proto, len), Folded6(src6, guest, proto, len));
    v := Redirect(tap);
  }
}
