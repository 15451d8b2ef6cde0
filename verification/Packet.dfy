/** Packet buffers and header parsing. */
module Packet {
  import opened Types
  import opened Bytes
  import opened Maps

  const ETH_P_IPV6: u16 := 0x86DD
  const IPPROTO_ICMP: u8 := 1
  const IPPROTO_IPIP: u8 := 4
  const IPPROTO_TCP: u8 := 6
  const IPPROTO_UDP: u8 := 17
  const IPPROTO_ICMPV6: u8 := 58

  /** The buffer between `data` and `data_end`: rewritten in place, resized at its head by helpers. */
  class Frame {
    var bytes: seq<u8>

    constructor (b: seq<u8>)
      ensures bytes == b
    {
      bytes := b;
    }
  }

  /** Header length in bytes as claimed by the low nibble of the first header byte. */
  function Ihl(p: seq<u8>, ip: nat): nat
    requires ip + 20 <= |p|
  {
    (p[ip] as int % 16) * 4
  }

  /** Protocol and "ports": both are the identifier for ICMP. */
  function L4Ports(p: seq<u8>, ip: nat): Option<(u8, u16, u16)> {
    if ip + 20 > |p| then None else
    var proto, l4 := p[ip + 9], ip + Ihl(p, ip);
    if proto == IPPROTO_TCP || proto == IPPROTO_UDP then
      if l4 + 4 > |p| then None else Some((proto, W(p, l4), W(p, l4 + 2)))
    else if proto == IPPROTO_ICMP then
      if l4 + 6 > |p| then None else Some((proto, W(p, l4 + 4), W(p, l4 + 4)))
    else None
  }

  function TcpFlags(p: seq<u8>, ip: nat): Option<bv8> {
    if ip + 20 > |p| || p[ip + 9] != IPPROTO_TCP || p[ip] as int % 16 != 5 || ip + 34 > |p| then None
    else Some(p[ip + 33] as bv8)
  }

  /** The conntrack key of the packet as it is seen. */
  function KeyOf(p: seq<u8>, ip: nat, vni: u32): Option<CtKey> {
    if ip + 20 > |p| then None else
    match L4Ports(p, ip)
    case None => None
    case Some((proto, sp, dp)) => Some(CtKey(vni, Addr(p, ip + 12), Addr(p, ip + 16), sp, dp, proto))
  }

  /** Exclusive or. */
  function XorBits(a: nat, b: nat): nat
    decreases a + b
  {
    if a == 0 && b == 0 then 0 else (a % 2 + b % 2) % 2 + 2 * XorBits(a / 2, b / 2)
  }

  /** Exclusive or of a byte into a machine word. */
  function XorByte(h: nat, b: u8): nat { XorBits(h, b) }

  function Fnv32(bytes: seq<u8>, h: u32): u32 {
    if bytes == [] then h
    else Fnv32(bytes[1..], (XorByte(h, bytes[0]) * 16777619) % 0x1_0000_0000)
  }

  /** Stable hash of the 5-tuple (ports enter low byte first). */
  function Hash5(src: Ip4, dst: Ip4, sport: u16, dport: u16, proto: u8): u32 {
    Fnv32([src.b0, src.b1, src.b2, src.b3, dst.b0, dst.b1, dst.b2, dst.b3,
           sport % 256, sport / 256, dport % 256, dport / 256, proto], 2166136261)
  }
}
