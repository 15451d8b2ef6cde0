/** In-place address and port translation of IPv4 packets: conntrack entries, network NAT and VIPs. */
module Rewrite {
  import opened Types
  import opened Bytes
  import opened Checksum
  import opened Maps
  import opened Packet

  /** What a translation does: which address it replaces and, if any, the new port (ICMP identifier). */
  datatype Xlate = Xlate(isSrc: bool, addr: Ip4, port: Option<u16>)

  predicate L4Fits(p: seq<u8>, l4: nat, proto: u8) {
    || (proto == IPPROTO_TCP && l4 + 18 <= |p|)
    || (proto == IPPROTO_UDP && l4 + 8 <= |p|)
    || (proto == IPPROTO_ICMP && l4 + 8 <= |p|)
  }

  function CheckOff(proto: u8): nat {
    if proto == IPPROTO_TCP then 16 else if proto == IPPROTO_UDP then 6 else 2
  }

  function PortOff(proto: u8, isSrc: bool): nat {
    if proto == IPPROTO_ICMP then 4 else if isSrc then 0 else 2
  }

  function AddrOff(isSrc: bool): nat { if isSrc then 12 else 16 }

  /** Address and IP header checksum. */
  function XlateIp(p: seq<u8>, ip: nat, x: Xlate): (q: seq<u8>)
    requires ip + 20 <= |p|
    ensures |q| == |p|
  {
    var ao := ip + AddrOff(x.isSrc);
    var q := PutAddr(p, ao, x.addr);
    Put(q, ip + 10, CsumReplace4(W(q, ip + 10), Addr(p, ao), x.addr))
  }

  lemma XlateIpKeepsWords(p: seq<u8>, ip: nat, x: Xlate)
    requires ip + 20 <= |p|
    ensures var q := XlateIp(p, ip, x);
            W(q, ip) == W(p, ip) && forall o | ip + 20 <= o <= |p| - 2 :: W(q, o) == W(p, o)
    ensures W(PutAddr(p, ip + AddrOff(x.isSrc), x.addr), ip + 10) == W(p, ip + 10)
  {
  }

  /** The check value of the transport header after the change (ICMP does not cover addresses). */
  function NewCheck(c: u16, proto: u8, old4: Ip4, oldPort: u16, x: Xlate): u16 {
    var c1 := if proto == IPPROTO_ICMP then c else CsumReplace4(c, old4, x.addr);
    if x.port.Some? then CsumReplace2(c1, oldPort, x.port.value) else c1
  }

  /** No check value to write: ICMP without a new identifier, or UDP without a checksum. */
  predicate KeepsCheck(p: seq<u8>, l4: nat, proto: u8, x: Xlate)
    requires L4Fits(p, l4, proto)
  {
    if proto == IPPROTO_ICMP then x.port.None? else proto == IPPROTO_UDP && W(p, l4 + 6) == 0
  }

  /** Transport checksum and port. A zero UDP checksum means "none" and stays zero. */
  function XlateL4(p: seq<u8>, l4: nat, proto: u8, old4: Ip4, oldPort: u16, x: Xlate): (q: seq<u8>)
    ensures |q| == |p|
  {
    if !L4Fits(p, l4, proto) then p else
    var co := l4 + CheckOff(proto);
    var q := if KeepsCheck(p, l4, proto, x) then p
             else Put(p, co, NewCheck(W(p, co), proto, old4, oldPort, x));
    if x.port.Some? then Put(q, l4 + PortOff(proto, x.isSrc), x.port.value) else q
  }

  /** The whole translation of the packet at `ip` whose transport header starts at `l4`. */
  function Translated(p: seq<u8>, ip: nat, l4: nat, oldPort: u16, x: Xlate): (q: seq<u8>)
    requires ip + 20 <= |p|
    ensures |q| == |p|
  {
    XlateL4(XlateIp(p, ip, x), l4, p[ip + 9], Addr(p, ip + AddrOff(x.isSrc)), oldPort, x)
  }

  /** The port a translation replaces, when the transport header is long enough to hold one. */
  function OldPort(p: seq<u8>, l4: nat, proto: u8, isSrc: bool): u16 {
    if L4Fits(p, l4, proto) then W(p, l4 + PortOff(proto, isSrc)) else 0
  }

  // ---------------------------------------------------------------- the three rewriters

  function EntryXlate(e: CtEntry): Xlate {
    Xlate(Has(e.flags, CT_REWRITE_SRC), e.xlateIp, if e.xlatePort != 0 then Some(e.xlatePort) else None)
  }

  /** What a conntrack entry makes of a packet: only option-free headers, only rewriting entries. */
  function CtApplied(p: seq<u8>, ip: nat, e: CtEntry): (q: seq<u8>)
    ensures |q| == |p|
  {
    if !Has(e.flags, CT_REWRITE_SRC | CT_REWRITE_DST) || ip + 20 > |p| || p[ip] as int % 16 != 5 then p
    else var x := EntryXlate(e);
         Translated(p, ip, ip + 20, OldPort(p, ip + 20, p[ip + 9], x.isSrc), x)
  }

  /** Phases 1 and 2 of the conntrack translation: all reads, then all check values. */
  method CtPlan(p: seq<u8>, ip: nat, e: CtEntry) returns (newIpCsum: u16, keepCheck: bool, newL4Csum: u16)
    requires ip + 20 <= |p|
    ensures var x, l4, proto := EntryXlate(e), ip + 20, p[ip + 9];
            var old4 := Addr(p, ip + AddrOff(x.isSrc));
            && newIpCsum == CsumReplace4(W(p, ip + 10), old4, e.xlateIp)
            && (L4Fits(p, l4, proto) ==>
                 && keepCheck == KeepsCheck(p, l4, proto, x)
                 && (!keepCheck ==> newL4Csum == NewCheck(W(p, l4 + CheckOff(proto)), proto, old4,
                                                          OldPort(p, l4, proto, x.isSrc), x)))
  {
    hide Replace, CsumReplace4, CsumReplace2, Has;
    var l4, proto := ip + 20, p[ip + 9];
    var rewriteSrc := Has(e.flags, CT_REWRITE_SRC);
    var old4 := Addr(p, ip + if rewriteSrc then 12 else 16);
    newIpCsum := CsumReplace4(W(p, ip + 10), old4, e.xlateIp);
    keepCheck, newL4Csum := true, 0;
    if proto == IPPROTO_ICMP {
      if l4 + 8 <= |p| && e.xlatePort != 0 {
        keepCheck, newL4Csum := false, CsumReplace2(W(p, l4 + 2), W(p, l4 + 4), e.xlatePort);
      }
    } else if (proto == IPPROTO_TCP && l4 + 18 <= |p|) || (proto == IPPROTO_UDP && l4 + 8 <= |p|) {
      var c := W(p, l4 + if proto == IPPROTO_TCP then 16 else 6);
      if proto == IPPROTO_TCP || c != 0 {
        keepCheck, newL4Csum := false, CsumReplace4(c, old4, e.xlateIp);
        if e.xlatePort != 0 {
          newL4Csum := CsumReplace2(newL4Csum, W(p, if rewriteSrc then l4 else l4 + 2), e.xlatePort);
        }
      }
    }
  }

  /** Conntrack translation; phase 3 is all the writes. */
  method CtApply(f: Frame, ip: nat, e: CtEntry)
    modifies f`bytes
    ensures f.bytes == CtApplied(old(f.bytes), ip, e)
  {
    hide Put, PutAddr, Replace, CsumReplace4, CsumReplace2, Has;
    if !Has(e.flags, CT_REWRITE_SRC | CT_REWRITE_DST) { return; }
    if ip + 20 > |f.bytes| { return; }
    if f.bytes[ip] as int % 16 != 5 { return; }
    var l4, proto := ip + 20, f.bytes[ip + 9];
    var rewriteSrc := Has(e.flags, CT_REWRITE_SRC);
    var newIpCsum, keepCheck, newL4Csum := CtPlan(f.bytes, ip, e);
    XlateIpKeepsWords(f.bytes, ip, EntryXlate(e));

    f.bytes := PutAddr(f.bytes, ip + if rewriteSrc then 12 else 16, e.xlateIp);
    f.bytes := Put(f.bytes, ip + 10, newIpCsum);
    if proto == IPPROTO_TCP && l4 + 18 <= |f.bytes| {
      f.bytes := Put(f.bytes, l4 + 16, newL4Csum);
      if e.xlatePort != 0 { f.bytes := Put(f.bytes, if rewriteSrc then l4 else l4 + 2, e.xlatePort); }
    } else if proto == IPPROTO_UDP && l4 + 8 <= |f.bytes| {
      if !keepCheck { f.bytes := Put(f.bytes, l4 + 6, newL4Csum); }
      if e.xlatePort != 0 { f.bytes := Put(f.bytes, if rewriteSrc then l4 else l4 + 2, e.xlatePort); }
    } else if proto == IPPROTO_ICMP && l4 + 8 <= |f.bytes| && e.xlatePort != 0 {
      f.bytes := Put(f.bytes, l4 + 2, newL4Csum);
      f.bytes := Put(f.bytes, l4 + 4, e.xlatePort);
    }
  }

  /** What network SNAT makes of a packet (any header length; the port is always written). */
  function NatApplied(p: seq<u8>, ip: nat, sport: u16, natIp: Ip4, natPort: u16): (q: seq<u8>)
    requires ip + 20 <= |p|
    ensures |q| == |p|
  {
    Translated(p, ip, ip + Ihl(p, ip), sport, Xlate(true, natIp, Some(natPort)))
  }

  /** The write half of network SNAT: address, then checksum and port at the header's own offset. */
  method NatRewrite(f: Frame, ip: nat, proto: u8, src: Ip4, sport: u16, natIp: Ip4, natPort: u16)
    requires ip + 20 <= |f.bytes| && proto == f.bytes[ip + 9] && src == Addr(f.bytes, ip + 12)
    modifies f`bytes
    ensures f.bytes == NatApplied(old(f.bytes), ip, sport, natIp, natPort)
  {
    hide Put, PutAddr, Replace, CsumReplace4, CsumReplace2;
    var l4 := ip + Ihl(f.bytes, ip);
    f.bytes := PutAddr(f.bytes, ip + 12, natIp);
    f.bytes := Put(f.bytes, ip + 10, CsumReplace4(W(f.bytes, ip + 10), src, natIp));
    if proto == IPPROTO_TCP && l4 + 18 <= |f.bytes| {
      var c1 := CsumReplace4(W(f.bytes, l4 + 16), src, natIp);
      f.bytes := Put(f.bytes, l4 + 16, CsumReplace2(c1, sport, natPort));
      f.bytes := Put(f.bytes, l4, natPort);
    } else if proto == IPPROTO_UDP && l4 + 8 <= |f.bytes| {
      var c0 := W(f.bytes, l4 + 6);
      if c0 != 0 {
        var c1 := CsumReplace4(c0, src, natIp);
        f.bytes := Put(f.bytes, l4 + 6, CsumReplace2(c1, sport, natPort));
      }
      f.bytes := Put(f.bytes, l4, natPort);
    } else if proto == IPPROTO_ICMP && l4 + 8 <= |f.bytes| {
      f.bytes := Put(f.bytes, l4 + 2, CsumReplace2(W(f.bytes, l4 + 2), sport, natPort));
      f.bytes := Put(f.bytes, l4 + 4, natPort);
    }
  }

  /** What the VIP map makes of a packet: addresses only, looked up in the same VNI. */
  function VipApplied(p: seq<u8>, ip: nat, vips: map<VipKey, Ip4>, vni: u32, isSrc: bool): (q: seq<u8>)
    ensures |q| == |p|
  {
    if ip + 20 > |p| then p else
    var k := VipKey(vni, Addr(p, ip + AddrOff(isSrc)));
    if k !in vips then p
    else Translated(p, ip, ip + Ihl(p, ip), 0, Xlate(isSrc, vips[k], None))
  }

  method VipRewrite(f: Frame, ip: nat, vips: map<VipKey, Ip4>, vni: u32, isSrc: bool)
    modifies f`bytes
    ensures f.bytes == VipApplied(old(f.bytes), ip, vips, vni, isSrc)
  {
    hide Put, PutAddr, Replace, CsumReplace4, CsumReplace2;
    if ip + 20 > |f.bytes| { return; }
    var addrOff := ip + if isSrc then 12 else 16;
    var old4 := Addr(f.bytes, addrOff);
    if VipKey(vni, old4) !in vips { return; }
    var new4 := vips[VipKey(vni, old4)];
    var proto := f.bytes[ip + 9];
    var l4 := ip + Ihl(f.bytes, ip);
    f.bytes := PutAddr(f.bytes, addrOff, new4);
    f.bytes := Put(f.bytes, ip + 10, CsumReplace4(W(f.bytes, ip + 10), old4, new4));
    if proto == IPPROTO_TCP && l4 + 18 <= |f.bytes| {
      f.bytes := Put(f.bytes, l4 + 16, CsumReplace4(W(f.bytes, l4 + 16), old4, new4));
    } else if proto == IPPROTO_UDP && l4 + 8 <= |f.bytes| {
      var c := W(f.bytes, l4 + 6);
      if c != 0 { f.bytes := Put(f.bytes, l4 + 6, CsumReplace4(c, old4, new4)); }
    }
  }
}
